# WPDucker core, modelled in Dafny

WPDucker is the `wpd` command-line tool, written for Deno. It scaffolds and runs
projects, keeps several installed versions of itself, and stores per-run
("session") and cross-run ("persistent") data locally. This project models
its core and proves properties of it:

- **local persistence**:
  - the SQLite schema builder and the `DB_SCHEMA` literal;
  - the `CREATE TABLE` / `CREATE UNIQUE INDEX` text that the SQLite wrapper emits;
  - the chunked Unix-socket message reader;
  - the database server's request handling, and the client's classification of replies;
  - the session/persistent key-value store, built on the locked, encrypted document store;
- **command-line layer**:
  - the argument parser;
  - the command base class;
  - the command repository, the command invoker and the dependency checker;
  - the help-text generator;
- **surrounding utilities**:
  - the GitHub release client with its cache and pagination;
  - the version manager's dispatch and install steps;
  - `downloadFile`;
  - date formatting, the OS alias table, random ids, execute permissions and caller names;
  - the unique-basename search, the project-tree walk and the project-root search;
  - the logger's archive, truncation and secret masking;
  - the database service files;
  - the installer's shell-profile rewrite;
  - the copyright-header task.

There is one Dafny module per source file, plus three shared modules:

- `Wrappers`: `Option` and `Result`, whose errors are strings (what the source throws), and the first-match search `find` that three modules use.
- `JsString`: JavaScript's `split`, `join`, `indexOf`, `lastIndexOf`, `substring`, `padStart`, `trim`, `startsWith`/`includes` and decimal printing, on `seq<char>`.
- `Json`: a JSON value type.

**State.** Objects whose fields the source updates are classes:

- the schema builder and the SQLite wrapper;
- the server and its connections, and the client;
- the key-value database and the document store;
- the logger;
- the command, the repository and the invoker;
- the version manager.

Their methods state their whole new state. Pure logic is functions, and lemmas relate them.

**Parameters.** Everything outside the program is a parameter:

- the file system is a map from path to content;
- SQL execution is a function from the statements so far and the statement to rows or an error message;
- socket reads are a sequence of read results;
- `fetch` responses, the clock, `prompt` answers, `Math.random` draws and the environment are functions or values;
- JSON encoding and decoding and AES are symbolic.

**The code as written.** The model follows the code, including where it differs from what the repository's documentation and tests suggest:

- The key-value store in `src/classes/database/database.ts` is the older form. It is backed by the document store, not by the SQL tables, and it is modelled as written.
- Its `destroySession` does not reset the session id.
- `findTopLevelOfWpdProject` returns the path it was given, not the ancestor that matched.
- A duplicate table name in the schema builder produces a second entry. Every later `add…` by that name changes the first entry.
- `generateSessionId` refuses only a length of 0. For a negative length every `getRandomId` draw is empty, and its loop never ends.

## Model

| member | source | states |
|---|---|---|
| CliParser.EqualsIsNeverFlag | src/utils/parser/parser.ts:81 | an argument with `=` anywhere is never a boolean flag |
| CliParser.DashesThenRest | src/utils/parser/parser.ts:85 | `replace(/^(--\|-)/, '')` takes off exactly the leading `--` or `-`: the argument is those dashes followed by the result |
| CliParser.PairSplitsAtFirstEquals | src/utils/parser/parser.ts:91-94 | a key-value argument is split at its first `=`: it is one or two dashes, the key, `=`, the value, and the key holds no `=` |
| CliParser.ClassifyContents | src/utils/parser/parser.ts:80-100 | after the first `forEach` the flag list has no duplicates and holds exactly the names of the flag arguments; the pairs and the positional arguments are those of the input, in input order |
| CliParser.BucketsPartition | src/utils/parser/parser.ts:80-100 | every argument goes to exactly one of the three buckets |
| CliParser.ClassifyLoop | src/utils/parser/parser.ts:80-100 | the loop over the arguments computes that classification |
| CliParser.Parse | src/utils/parser/parser.ts:14-123 | the parsed value, defined by its body from the classification, the chosen phrase and the filter; `CliParser.ParseCliArgs` is proved to compute it, and `BucketsPartition`, `ClassifyContents`, `CommandPhraseIsPrefix` and `PhraseWordsRemoved` state its properties |
| CliParser.AfterPrefixesIsPhrase | src/utils/parser/parser.ts:105-114 | each step of the inner loop keeps the phrase empty or equal to the first `n >= 1` positional arguments joined by spaces that a known phrase starts with |
| CliParser.CommandPhraseIsPrefix | src/utils/parser/parser.ts:102-115 | the chosen command phrase is empty or the first `n >= 1` positional arguments joined by spaces, and some known phrase starts with it |
| CliParser.PrefixLoop | src/utils/parser/parser.ts:104-114 | the inner loop: each prefix of the positional arguments that the phrase starts with and that has at least as many words as the current choice replaces it |
| CliParser.PhraseLoop | src/utils/parser/parser.ts:102-115 | the outer loop runs the inner one for every known phrase in order |
| CliParser.PhraseWordsRemoved | src/utils/parser/parser.ts:117 | when the phrase is the first `n` positional arguments and none holds a space, the filter removes exactly those `n` |
| CliParser.StripQuotesRoundTrip | src/utils/parser/parser.ts:65-71 | a value with a quote character (`'`, `"` or a backtick) at each end loses exactly those two; a value without one at either end is kept |
| CliParser.Selected | src/utils/parser/parser.ts:58 | the pairs selected are exactly those whose key is searched for |
| CliParser.ParsedArgs.constructor | src/utils/parser/parser.ts:17-77 | the parsed object holds the original arguments, the phrase, the three buckets and the filtered positional arguments |
| CliParser.ParsedArgs.HasBoolean | src/utils/parser/parser.ts:22-52 | with `AND` the result is true exactly when the search is non-empty and every flag in it was given; with `OR`, when some flag in it was given |
| CliParser.ParsedArgs.GetAllKV | src/utils/parser/parser.ts:54-56 | `getKV('*')` gives every pair in insertion order |
| CliParser.ParsedArgs.GetKV | src/utils/parser/parser.ts:58-74 | the stored pairs whose key is searched for get one quote stripped at each end, in place, since the filtered rows are the stored arrays; the rest stay; the result is the searched pairs after stripping |
| CliParser.ParseCliArgs | src/utils/parser/parser.ts:14-123 | the parsed value: the buckets of the arguments, the phrase the two loops choose, and the positional arguments with the phrase's words filtered out by position |
| CommandBase.ValidateEnvName | src/classes/command/command.ts:423-434 | a rejected name always gets `Invalid environment name "<name>". Only A-z 0-9 - _ are allowed!` |
| CommandBase.EnvNameAccepted | src/classes/command/command.ts:423-434 | a name is accepted exactly when it is non-empty and made only of letters, digits, `-` and `_`; a missing value is accepted, since the pattern tests the text `undefined` |
| CommandBase.DocumentationMessageParts | src/classes/command/command.ts:59-66 | the message is the intro and a newline, followed by the docs, or by `<empty>` when the docs are missing or empty |
| CommandBase.AskForArg | src/classes/command/command.ts:340-378 | an empty answer becomes the default; an optional argument whose first answer is not rejected returns that answer; otherwise the prompt is repeated, and the answer returned is the first one that is non-empty and not rejected |
| CommandBase.ChosenPromptUnique | src/classes/command/command.ts:340-378 | only one prompt satisfies that description, so the answers determine the result |
| CommandBase.RequiredAnswerAccepted | src/classes/command/command.ts:363-377 | a required argument never ends up empty or rejected |
| CommandBase.Command.constructor | src/classes/command/command.ts:15-23 | the command keeps its parsed arguments and documentation, and `stopExecution` starts false |
| CommandBase.Command.PreExec | src/classes/command/command.ts:246-271 | `stopExecution` becomes true exactly when `-h` or `--help` was given (it never goes back to false) |
| CommandBase.Command.Execute | src/classes/command/command.ts:444-456 | `_exec` runs `exec` exactly when help was not asked for |
| CommandBase.OptionalTakesFirstAnswer | src/classes/command/command.ts:357-365 | an optional argument without a validator returns the first answer without looping, even when it is empty, and no other prompt can be the chosen one |
| CommandBase.Command.GetOrAskForArg | src/classes/command/command.ts:288-328 | the given value when it is present and the validator does not reject it; with `throwIfInvalid` and a validator, the error is the validator's message or `Invalid value of argument "<name>" !`; otherwise the answer `askForArg` settles on. The lookup strips the quotes of the stored pair, as `getKV` does |
| Wrappers.FindFirst | src/classes/command_repository/command_repository.ts:27 | `find` by a key gives nothing exactly when no element has the key, and otherwise the first element that has it; `CommandRepository.Find`, `GitHubApiClient.FindTag` (gh_api_client.ts:200-202) and `CliVersionManager.FindAsset` (cli_version_manager.ts:478-480) are this search by phrase, tag name and asset name |
| CommandRepository.FindAppend | src/classes/command_repository/command_repository.ts:20-27 | an appended entry is found only for a phrase that no earlier entry has; every other lookup is unchanged |
| CommandRepository.AddNew | src/classes/command_repository/command_repository.ts:13-22 | a meta under a new phrase is appended at the end; `get` then returns it, `has` is true for it when it is a command class, and other phrases are unaffected |
| CommandRepository.AddRegistered | src/classes/command_repository/command_repository.ts:16-18 | adding a phrase `has` already knows leaves the list unchanged |
| CommandRepository.AddTwice | src/classes/command_repository/command_repository.ts:13-22 | adding the same command twice is adding it once |
| CommandRepository.AddShadowed | src/classes/command_repository/command_repository.ts:16-39 | when the first entry for a phrase is no command class, `has` stays false, so every `add` of that phrase appends again and `get` keeps returning the old entry |
| CommandRepository.CommandsRepository.constructor | src/classes/command_repository/command_repository.ts:8-11 | the repository starts with no commands |
| CommandRepository.CommandsRepository.Add | src/classes/command_repository/command_repository.ts:13-22 | the new list is the old one, plus the meta at the end unless `has(meta.phrase)` |
| CommandRepository.CommandsRepository.Get | src/classes/command_repository/command_repository.ts:24-31 | the first registered meta with the phrase, if any |
| CommandRepository.CommandsRepository.Has | src/classes/command_repository/command_repository.ts:33-43 | true exactly when `get` finds an entry whose class is a command class |
| CommandInvoker.OutsourceTargetCases | src/classes/command_invoker/command_invoker.ts:17-22 | an array is kept as it is, a non-empty string becomes a one-element list, and only the empty string leaves no target |
| CommandInvoker.CallbackFor | src/classes/command_invoker/command_invoker.ts:48-61 | the outsource callback is chosen exactly when the target list is present and non-empty; otherwise dispatch |
| CommandInvoker.FirstExisting | src/classes/command_invoker/command_invoker.ts:73-82 | the chosen index is the first one whose path exists; none exactly when no path exists |
| CommandInvoker.FirstIsFirst | src/classes/command_invoker/command_invoker.ts:73-82 | an existing path with none before it is the one chosen |
| CommandInvoker.Invoker.constructor | src/classes/command_invoker/command_invoker.ts:10-15 | no outsource target, and the dependency check on |
| CommandInvoker.Invoker.SetOutsourceTarget | src/classes/command_invoker/command_invoker.ts:17-22 | the target becomes the normalised list; the dependency flag is unchanged |
| CommandInvoker.Invoker.SetCheckDependencies | src/classes/command_invoker/command_invoker.ts:24-29 | the flag becomes the given value; the target is unchanged |
| CommandInvoker.Invoker.OutsourceCommand | src/classes/command_invoker/command_invoker.ts:63-97 | no target list fails with `Invalid outsource target! "undefined"`; no existing path fails with `Invalid outsource path: "undefined"` and an empty chosen path with `""`; otherwise the first existing path is made executable (the mode `ensureExecutePermissions` computes) and spawned with the command's original arguments |
| CommandInvoker.Invoker.DispatchCommand | src/classes/command_invoker/command_invoker.ts:99-107 | with the check on and a dependency missing, the check's error stops the run before `_exec`; otherwise `_exec` runs, so `exec` runs exactly when help was not asked for |
| CommandInvoker.Invoker.Exec | src/classes/command_invoker/command_invoker.ts:31-46 | `exec` runs the callback `getCommandExecutionCallback` picks, and passes its error on unchanged |
| DependencyChecker.DisplayName | src/classes/dependency_checker/dependency_checker.ts:40 | the shown name is the entry's own non-empty name, else the command |
| DependencyChecker.Store | src/classes/dependency_checker/dependency_checker.ts:44 | assigning to an existing key replaces its value in place; a new key is appended |
| DependencyChecker.InDistinct | src/classes/dependency_checker/dependency_checker.ts:34-45 | deduplicating keeps exactly the commands that occur |
| DependencyChecker.KeysOfStore | src/classes/dependency_checker/dependency_checker.ts:44 | a store adds the key at the end only when it is new |
| DependencyChecker.FeedKeys | src/classes/dependency_checker/dependency_checker.ts:34-45 | the feed's keys are the distinct commands, in the order each first appears (extra commands first) |
| DependencyChecker.FeedLastWins | src/classes/dependency_checker/dependency_checker.ts:37-45 | each key holds the check and name of the last item with that command |
| DependencyChecker.DefaultFeed | src/classes/dependency_checker/dependency_checker.ts:10-45 | with no extra commands the feed has `unzip` and `docker`, and `docker` holds the result of `docker compose version` under the name `docker compose` |
| DependencyChecker.MissingEmpty | src/classes/dependency_checker/dependency_checker.ts:52-108 | no name is missing exactly when every check passed |
| DependencyChecker.NameMissing | src/classes/dependency_checker/dependency_checker.ts:93-108 | a name is reported missing exactly when some entry with that name failed its check |
| DependencyChecker.StoreAll | src/classes/dependency_checker/dependency_checker.ts:37-45 | the loop builds the feed's commands object |
| DependencyChecker.AllPresent | src/classes/dependency_checker/dependency_checker.ts:52-62 | `general` is true exactly when every stored check passed, stopping at the first failure |
| DependencyChecker.GetFeed | src/classes/dependency_checker/dependency_checker.ts:25-65 | the feed holds the commands object and a `general` flag that is true exactly when all checks passed |
| DependencyChecker.Check | src/classes/dependency_checker/dependency_checker.ts:74-112 | succeeds when every dependency is there; otherwise fails with `Missing dependencies "a", "b"!` naming the failing entries in key order |
| GenerateDocumentation.LongestItem | src/utils/generate_documentation/generate_documentation.ts:6-19 | the empty list gives `""`; otherwise the result is an element at least as long as every element and strictly longer than each one before it, so the first of the longest wins |
| GenerateDocumentation.Generate | src/utils/generate_documentation/generate_documentation.ts:21-93 | `generateDocumentation`, defined by its body as the usage, description, commands, arguments and options sections and a final newline; `LinesInOrder`, `EmptyAndEnding`, `SectionsPresent` and the padding lemmas state its properties |
| GenerateDocumentation.GetLongestItem | src/utils/generate_documentation/generate_documentation.ts:6-19 | the loop returns the longest item as defined above |
| GenerateDocumentation.RowLines | src/utils/generate_documentation/generate_documentation.ts:47-68 | one line per command or argument row, its key padded to the longest key, missing cells read as `""` |
| GenerateDocumentation.OptionLines | src/utils/generate_documentation/generate_documentation.ts:71-85 | one line per option; each name coloured on its own, joined by `, `, padded by the length of the uncoloured names |
| GenerateDocumentation.KeysPadded | src/utils/generate_documentation/generate_documentation.ts:49-62 | a key and its fill together are exactly as wide as the longest key, and the fill is spaces |
| GenerateDocumentation.RowKeysPadded | src/utils/generate_documentation/generate_documentation.ts:35-62 | command and argument keys all end in the same column |
| GenerateDocumentation.OptionKeysPadded | src/utils/generate_documentation/generate_documentation.ts:38-80 | option keys all end in the same column, measured without colour codes |
| GenerateDocumentation.LinesInOrder | src/utils/generate_documentation/generate_documentation.ts:46-86 | a section is its coloured heading followed by the entry lines, and splitting its body at newlines gives those lines back in input order |
| GenerateDocumentation.EmptyAndEnding | src/utils/generate_documentation/generate_documentation.ts:88-92 | the text always ends in a newline, and empty input gives just `"\n"` |
| GenerateDocumentation.SectionsPresent | src/utils/generate_documentation/generate_documentation.ts:88-92 | each section appears exactly when its input is non-empty, and every section after the usage starts with a blank line |
| SqliteSchema.FirstIndex | src/classes/database_sqllite_schema/database_sqllite_schema.ts:104 | the index `find` stops at is the first table with that name; none exactly when no table has it |
| SqliteSchema.Build | src/classes/database_sqllite_schema/database_sqllite_schema.ts:29-46 | the document the constructor builds, defined by its body; `ApplyAllDistinct` and `SchemaBuilder.constructor` state what it holds |
| SqliteSchema.Lookup | src/classes/database_sqllite_schema/database_sqllite_schema.ts:101-112 | `getTable` fails with `Table <name> not found!` exactly when no table has the name, otherwise gives the first table with it |
| SqliteSchema.PushColumn | src/classes/database_sqllite_schema/database_sqllite_schema.ts:121-139 | the column is appended to the first table with the name, and no other table changes; an unknown table gives the not-found error |
| SqliteSchema.PushForeignKey | src/classes/database_sqllite_schema/database_sqllite_schema.ts:151-173 | the key is appended to the first matching table's list, which is created when absent; other tables and fields are unchanged; an unknown table gives the not-found error |
| SqliteSchema.PushUniqueIndex | src/classes/database_sqllite_schema/database_sqllite_schema.ts:175-195 | the same for a unique index |
| SqliteSchema.PushTableAppends | src/classes/database_sqllite_schema/database_sqllite_schema.ts:90 | `addTable` appends exactly one empty table and keeps the others |
| SqliteSchema.AddTableReturns | src/classes/database_sqllite_schema/database_sqllite_schema.ts:75-93 | `addTable` always finds a table; it is the new empty one when the name is fresh and the older entry otherwise |
| SqliteSchema.FirstMatchUnique | src/classes/database_sqllite_schema/database_sqllite_schema.ts:104 | the first match is unique |
| SqliteSchema.DuplicateTableGetsNothing | src/classes/database_sqllite_schema/database_sqllite_schema.ts:90-136 | after `addTable` twice with one name, a column added by that name goes to the first entry and the second stays empty |
| SqliteSchema.NamesPreserved | src/classes/database_sqllite_schema/database_sqllite_schema.ts:136-192 | a push that keeps the table names keeps every later lookup's answer |
| SqliteSchema.FirstIndexByNames | src/classes/database_sqllite_schema/database_sqllite_schema.ts:104 | the lookup depends only on the names |
| SqliteSchema.AppendAllStep | src/classes/database_sqllite_schema/database_sqllite_schema.ts:168-192 | one more push of the loop appends one more element to the created-or-existing list |
| SqliteSchema.ApplyAllDistinct | src/classes/database_sqllite_schema/database_sqllite_schema.ts:29-68 | with distinct table names the constructor's document holds the given tables in order, each with its columns, and its foreign keys and unique indexes only when the list is non-empty |
| SqliteSchema.ApplyNewName | src/classes/database_sqllite_schema/database_sqllite_schema.ts:49-67 | a table whose name is new is appended in that normal form |
| SqliteSchema.ColumnStep | src/classes/database_sqllite_schema/database_sqllite_schema.ts:52-54 | one pass of the column loop appends one column to the first matching table |
| SqliteSchema.FirstIndexKept | src/classes/database_sqllite_schema/database_sqllite_schema.ts:104-124 | appending columns keeps the first match in place |
| SqliteSchema.PushColumnAt | src/classes/database_sqllite_schema/database_sqllite_schema.ts:121-139 | pushing a column through a known first match changes just that table |
| SqliteSchema.WithColumnsSnoc | src/classes/database_sqllite_schema/database_sqllite_schema.ts:136 | appending column `c` after the first `c` columns gives the first `c + 1` |
| SqliteSchema.SchemaBuilder.GetTable | src/classes/database_sqllite_schema/database_sqllite_schema.ts:101-112 | the not-found error exactly when no table has the name; otherwise a table bearing it |
| SqliteSchema.SchemaBuilder.constructor | src/classes/database_sqllite_schema/database_sqllite_schema.ts:29-46 | the document has the given name and the tables `applyTables` builds, and `tables` keeps the argument |
| SqliteSchema.SchemaBuilder.AddTable | src/classes/database_sqllite_schema/database_sqllite_schema.ts:75-93 | an empty table is appended, and the returned view is what `getTable` now finds |
| SqliteSchema.SchemaBuilder.AddColumn | src/classes/database_sqllite_schema/database_sqllite_schema.ts:121-139 | the document becomes `PushColumn`'s result and the view is the updated table; on the not-found error nothing changes |
| SqliteSchema.SchemaBuilder.AddForeignKey | src/classes/database_sqllite_schema/database_sqllite_schema.ts:151-173 | the same with `PushForeignKey` |
| SqliteSchema.SchemaBuilder.AddUniqueIndex | src/classes/database_sqllite_schema/database_sqllite_schema.ts:175-195 | the same with `PushUniqueIndex` |
| SqliteSchema.SchemaBuilder.ApplyTables | src/classes/database_sqllite_schema/database_sqllite_schema.ts:48-68 | the loop leaves the document `ApplyAll` describes |
| SqliteSchema.SchemaBuilder.ApplyOne | src/classes/database_sqllite_schema/database_sqllite_schema.ts:50-66 | one table spec: `addTable`, then its columns, keys and indexes, all on the first table with that name |
| SqliteSchema.SchemaBuilder.ExtendTable | src/classes/database_sqllite_schema/database_sqllite_schema.ts:52-66 | the first matching table gets the spec's columns appended and its lists extended |
| SqliteSchema.SchemaBuilder.ExtendLists | src/classes/database_sqllite_schema/database_sqllite_schema.ts:56-66 | the foreign-key and unique-index loops run only when the spec has an array |
| SqliteSchema.SchemaBuilder.AddColumns | src/classes/database_sqllite_schema/database_sqllite_schema.ts:52-54 | the columns are appended in order to the first matching table, and nothing else changes |
| SqliteSchema.SchemaBuilder.NextColumn | src/classes/database_sqllite_schema/database_sqllite_schema.ts:53 | one `addColumn` call of that loop |
| SqliteSchema.SchemaBuilder.AddForeignKeys | src/classes/database_sqllite_schema/database_sqllite_schema.ts:57-59 | the keys are appended in order to the first matching table's list |
| SqliteSchema.SchemaBuilder.AddUniqueIndexes | src/classes/database_sqllite_schema/database_sqllite_schema.ts:63-65 | the indexes are appended in order to the first matching table's list |
| DbSchema.DbSchemaIsLiteral | src/constants/DB_SCHEMA.ts:7-65 | building the schema from the `tables` literal gives back exactly that literal under the database name |
| DbSchema.ThreeTablesInOrder | src/constants/DB_SCHEMA.ts:7-43 | three tables, in the order `sessions`, `session_data`, `persistent_data` |
| DbSchema.FirstColumnIsId | src/constants/DB_SCHEMA.ts:11-34 | each table's first column is `id INTEGER PRIMARY KEY AUTOINCREMENT` |
| DbSchema.KeysAndIndexes | src/constants/DB_SCHEMA.ts:8-42 | only `session_data` has a foreign key, `session_id` to `sessions.id`, and a unique index on `session_id, key`; `persistent_data` has a unique index on `key`; `sessions` has neither |
| DbSchema.KeyValueColumnTypes | src/constants/DB_SCHEMA.ts:21-37 | every `key` column is `TEXT` and every `value` column `TEXT NULL` |
| SqliteDatabase.IndexQueries | src/classes/database_sqllite/database_sqllite.ts:76-83 | one `CREATE UNIQUE INDEX` statement per declared index, in order |
| SqliteDatabase.CreateTableQuery | src/classes/database_sqllite/database_sqllite.ts:71 | the `CREATE TABLE IF NOT EXISTS <name> (<columns>)` text, defined by its body; `TableStatementsShape`, `NoForeignKeysAddNothing` and `ForeignKeysFollowColumns` state its parts |
| SqliteDatabase.UniqueIndexQuery | src/classes/database_sqllite/database_sqllite.ts:77-79 | the `CREATE UNIQUE INDEX IF NOT EXISTS idx_<table>_<columns>` text, defined by its body; `DbSchemaIndexNames` states it for the application schema |
| SqliteDatabase.IndexQueriesSnoc | src/classes/database_sqllite/database_sqllite.ts:76-83 | one more index appends one more statement |
| SqliteDatabase.FlatMapAppend | src/classes/database_sqllite/database_sqllite.ts:48 | the statements for two table lists in a row are the two lists' statements concatenated |
| SqliteDatabase.DbFile | src/classes/database_sqllite/database_sqllite.ts:30 | the database file is `<path>/<dbName>.db` |
| SqliteDatabase.TableStatementsShape | src/classes/database_sqllite/database_sqllite.ts:57-84 | `createTable` sends its `CREATE TABLE IF NOT EXISTS <name> (...)` first, then one index statement per unique index, in order |
| SqliteDatabase.InitStatementsAppend | src/classes/database_sqllite/database_sqllite.ts:45-49 | `init` sends each table's statements, table after table |
| SqliteDatabase.NoForeignKeysAddNothing | src/classes/database_sqllite/database_sqllite.ts:64-69 | without foreign keys, or with an empty list, the column list is the column clauses joined by `,` with nothing after it |
| SqliteDatabase.JoinNonEmpty | src/classes/database_sqllite/database_sqllite.ts:69 | a join whose first part is non-empty is non-empty, so the filter keeps it |
| SqliteDatabase.ColumnPartNonEmpty | src/classes/database_sqllite/database_sqllite.ts:65-69 | a table with columns always keeps its column part |
| SqliteDatabase.ForeignKeysFollowColumns | src/classes/database_sqllite/database_sqllite.ts:64-69 | with columns and foreign keys, the key clauses follow the column clauses after `, ` |
| SqliteDatabase.DbSchemaStatements | src/classes/database_sqllite/database_sqllite.ts:45-84 | for the application schema the provider receives five statements: `sessions`; `session_data` and its index; `persistent_data` and its index |
| SqliteDatabase.ThreeTableStatements | src/classes/database_sqllite/database_sqllite.ts:48-83 | three tables, the first without indexes and the other two with one each, give the statements in that order |
| SqliteDatabase.FlatMapThree | src/classes/database_sqllite/database_sqllite.ts:48 | three tables give their statements in order |
| SqliteDatabase.NoIndexStatement | src/classes/database_sqllite/database_sqllite.ts:76 | a table without `uniqueIndexes` sends just its CREATE TABLE |
| SqliteDatabase.OneIndexStatement | src/classes/database_sqllite/database_sqllite.ts:76-83 | a table with one unique index sends CREATE TABLE and then that index |
| SqliteDatabase.DbSchemaIndexNames | src/classes/database_sqllite/database_sqllite.ts:77-79 | the index on `[session_id, key]` is named `idx_<table>_session_id_key` and lists `session_id, key` |
| SqliteDatabase.Database.constructor | src/classes/database_sqllite/database_sqllite.ts:17-34 | the path defaults to the working directory, the provider opens `<path>/<dbName>.db`, and exactly `init`'s statements have been sent |
| SqliteDatabase.Database.Init | src/classes/database_sqllite/database_sqllite.ts:45-49 | the loop sends every table's statements in schema order |
| SqliteDatabase.Database.CreateTable | src/classes/database_sqllite/database_sqllite.ts:57-84 | sends the table's statements |
| SqliteDatabase.Database.IssueIndexes | src/classes/database_sqllite/database_sqllite.ts:76-83 | the loop sends the index statements in order |
| SqliteDatabase.Database.Destroy | src/classes/database_sqllite/database_sqllite.ts:51-55 | the provider is closed |
| DatabaseServer.StripBlockComments | src/classes/database_server/database_server.ts:166 | removing block comments never lengthens the text |
| DatabaseServer.LineEnd | src/classes/database_server/database_server.ts:167 | the index returned is the first line terminator at or after the start, or the end of the text |
| DatabaseServer.StripLineComments | src/classes/database_server/database_server.ts:167 | removing line comments never lengthens the text |
| DatabaseServer.LeadingWord | src/classes/database_server/database_server.ts:169 | the longest prefix made of word characters |
| DatabaseServer.QueryType | src/classes/database_server/database_server.ts:165-175 | `getQueryType`, defined by its body; `QueryTypeShape` and `LeadingBlockCommentIgnored` state its result |
| DatabaseServer.QueryTypeShape | src/classes/database_server/database_server.ts:165-175 | `getQueryType` gives null exactly when the comment-free trimmed text does not start with a word character; otherwise a non-empty upper-case keyword, the first word of that text |
| DatabaseServer.CommentWindow | src/classes/database_server/database_server.ts:166 | inside a leading comment, each two-character window is a window of the comment body |
| DatabaseServer.StripLeadingComment | src/classes/database_server/database_server.ts:166 | a leading block comment with no earlier closer is removed whole |
| DatabaseServer.LeadingBlockCommentIgnored | src/classes/database_server/database_server.ts:123-166 | a leading block comment does not change the kind of a statement |
| DatabaseServer.StatusReply | src/classes/database_server/database_server.ts:109-116 | `status` is answered with exactly `WPD db service: OK` and runs no statement |
| DatabaseServer.Respond | src/classes/database_server/database_server.ts:108-153 | the handler's reply to one message and the statements it runs, defined by its body; `StatusReply`, `InsertRepliesLastRowId`, `OtherRepliesOwnRows`, `AnswerIsRowsOrError`, `OnlyParseFailureEscapes` and `EmptyMessageIsSilent` state it case by case |
| DatabaseServer.InsertRepliesLastRowId | src/classes/database_server/database_server.ts:124-131 | a successful INSERT runs its statement and then `SELECT last_insert_rowid()`, and answers with the second one's rows |
| DatabaseServer.OtherRepliesOwnRows | src/classes/database_server/database_server.ts:133-140 | any other kind, including none, is answered with its own rows |
| DatabaseServer.AnswerIsRowsOrError | src/classes/database_server/database_server.ts:122-146 | every answer to a parsed request is a row list as JSON or `WPD db service: unexpected error: <message>` |
| DatabaseServer.OnlyParseFailureEscapes | src/classes/database_server/database_server.ts:117-153 | for a non-empty, non-`status` message, the handler throws exactly when the message is not JSON, and writes an answer exactly when it is |
| DatabaseServer.EmptyMessageIsSilent | src/classes/database_server/database_server.ts:107-157 | an empty message gets no write and runs nothing |
| DatabaseServer.ServerConnection.constructor | src/classes/database_server/database_server.ts:98 | a connection starts open with nothing written |
| DatabaseServer.Server.constructor | src/classes/database_server/database_server.ts:8-25 | no clients, no listener, not listening, nothing run |
| DatabaseServer.Server.Start | src/classes/database_server/database_server.ts:27-50 | a stale socket file is removed and a fresh listener makes the socket exist |
| DatabaseServer.Server.Stop | src/classes/database_server/database_server.ts:52-67 | refused with `Server is not started!` before `start`; a second `stop` fails with Deno's `BadResource` error, since the listener is never cleared and closing it again throws; otherwise the listener is closed, the socket file removed and the database closed |
| DatabaseServer.StartStopCycle | src/classes/database_server/database_server.ts:38-67 | `start` then `stop` succeeds and leaves no socket file; a second `stop` throws; after a new `start`, `stop` succeeds again |
| DatabaseServer.Server.Listen | src/classes/database_server/database_server.ts:69-82 | an already listening server returns at once, one never started is refused, otherwise it is now listening |
| DatabaseServer.Server.HandleConnection | src/classes/database_server/database_server.ts:98-163 | as written: the reply is written and the connection closed with the counter back where it was, except when `JSON.parse` throws, which leaves the connection open and the counter raised by one |
| DatabaseServer.Server.HandleConnectionFixed | src/classes/database_server/database_server.ts:98-163 | with the parse inside the `try`, every connection is closed and the counter is restored |
| DatabaseServer.RespondFixed | src/classes/database_server/database_server.ts:117-153 | the corrected handler never throws |
| DatabaseServer.NonJsonMessageWedgesServer | src/classes/database_server/database_server.ts:85-119 | from an idle server one non-JSON message leaves `totalClients` at 1, the value the accept loop waits on forever |
| DatabaseServer.FixedAnswersEveryMessage | src/classes/database_server/database_server.ts:107-153 | corrected: a non-empty message always gets a reply; a non-JSON message gets the error line with the parse error; otherwise the replies are the same as before |
| DatabaseClient.Outcome | src/classes/database_client/database_client.ts:43-74 | a failed exchange gives its error; a reply starting with `WPD db service: unexpected error:` is thrown as it is; any other reply is what `JSON.parse` makes of it |
| DatabaseClient.Connection.constructor | src/classes/database_client/database_client.ts:26-29 | a new connection has sent nothing and has not been closed |
| DatabaseClient.Client.constructor | src/classes/database_client/database_client.ts:10-17 | the client keeps the socket path |
| DatabaseClient.Client.Connect | src/classes/database_client/database_client.ts:19-35 | refused with `Database client cannot connect to server! Unix socket does not exist: <path>` exactly when no file is at the path; otherwise a fresh connection |
| DatabaseClient.Client.Request | src/classes/database_client/database_client.ts:37-75 | the answer is `Outcome`; the query is sent unless the exchange failed first, and the connection is closed exactly once on every path |
| DatabaseClient.Client.Query | src/classes/database_client/database_client.ts:77-93 | one fresh connection per query, closed once and carrying only the request; when the socket is missing nothing is sent and the connect error is returned |
| DatabaseClient.ServiceErrorIsRecognised | src/classes/database_client/database_client.ts:54 | every error line the service writes starts with the prefix the client checks |
| DatabaseClient.FailedStatementReachesClient | src/classes/database_client/database_client.ts:54-68 | end to end with the service: a statement SQLite rejects comes back to the caller as an error carrying the service's whole error line |
| DatabaseClient.RowsReachClient | src/classes/database_client/database_client.ts:74 | end to end: rows SQLite returns reach the caller through `JSON.parse`, provided their JSON cannot be taken for an error line |
| KeyValueDatabase.Check | src/classes/database/database.ts:158-173 | `getDatabase` succeeds only on an object with both scopes, and then with exactly the stored item; a missing or falsy item gives `There is no database!`, a truthy item without both scopes `Database is invalid!` |
| KeyValueDatabase.LoadAfterWrite | src/classes/database/database.ts:181-185 | an item written by `updateDatabase` is what the next `getDatabase` returns |
| KeyValueDatabase.LoadedMeansWritable | src/classes/database/database.ts:158-185 | an item that loads can be written back |
| KeyValueDatabase.SessionSetThenGet | src/classes/database/database.ts:280-347 | after `setSessionValue(key, v)` the session's key reads `v`; other keys and other sessions read as before |
| KeyValueDatabase.PersistentSetThenGet | src/classes/database/database.ts:303-374 | after `setPersistentValue(key, v)` the key reads `v` and other keys read as before |
| KeyValueDatabase.SessionRemoveOnlyThatKey | src/classes/database/database.ts:381-390 | `removeSessionKey` makes that key read as absent and leaves every other key of every session alone |
| KeyValueDatabase.DestroyOnlyCurrent | src/classes/database/database.ts:224-239 | destroying a session deletes only the current session's object |
| KeyValueDatabase.ClearedPersistentHoldsOnlyDate | src/classes/database/database.ts:245-262 | after `clearPersistent` the persistent scope holds only `_createdAt` |
| KeyValueDatabase.DateOfCreationOnlyWhereFalsy | src/classes/database/database.ts:70-93 | `_createdAt` is set only where it is missing or falsy, is truthy afterwards for a non-zero clock, and no other key or session changes |
| KeyValueDatabase.PickSessionId | src/classes/database/database.ts:111-120 | the loop returns the first draw that is non-empty and not already a session id |
| KeyValueDatabase.DrawnCount | src/classes/database/database.ts:115-118 | n draws that never repeat give n distinct ids |
| KeyValueDatabase.NegativeLengthDrawsOnlyEmpty | src/classes/database/database.ts:104-118 | a negative length passes the `!idLength` guard, every draw is then empty, so the loop condition holds on every draw and the loop never ends |
| KeyValueDatabase.NeverRepeatingDrawsEscape | src/classes/database/database.ts:115-118 | draws that never repeat eventually avoid every existing session id, so the loop ends |
| KeyValueDatabase.SubsetSize | src/classes/database/database.ts:115-118 | a subset is no larger than its superset |
| KeyValueDatabase.Database.constructor | src/classes/database/database.ts:10-19 | no name, no session id, not initialised, and a document store over the directory |
| KeyValueDatabase.Database.IsValidDatabase | src/classes/database/database.ts:193-207 | true exactly when the item is an object holding both scopes; a store error is passed on |
| KeyValueDatabase.Database.GetDatabase | src/classes/database/database.ts:158-173 | returns what `Check` says of the stored item and changes no document |
| KeyValueDatabase.Database.UpdateDatabase | src/classes/database/database.ts:181-185 | the item is written under the database name, or the store's error is returned |
| KeyValueDatabase.Database.EnsureDatabase | src/classes/database/database.ts:131-218 | afterwards the item loads; an item that did not load is replaced by `{persistent: {}, session: {}}`; one that did is left alone, so the item is `Ensured` of the old one |
| KeyValueDatabase.Database.EnsureDateOfCreation | src/classes/database/database.ts:70-93 | the stored item becomes the item with the creation dates ensured, or the load error is returned with nothing written |
| KeyValueDatabase.Database.GenerateSessionId | src/classes/database/database.ts:95-121 | length 0 is refused with `Session id length can not be 0!`; otherwise the first non-empty draw of `getRandomId(idLength)` that is not already a session id, so a unique id of exactly the requested length |
| KeyValueDatabase.Database.SetSessionValue | src/classes/database/database.ts:280-294 | the stored item becomes the old one with the key set in the current session's object |
| KeyValueDatabase.Database.SetPersistentValue | src/classes/database/database.ts:303-317 | the stored item becomes the old one with the key set in the persistent scope |
| KeyValueDatabase.Database.GetSessionValue | src/classes/database/database.ts:330-347 | the key's value in the current session, or the whole session object for an omitted key |
| KeyValueDatabase.Database.GetPersistentValue | src/classes/database/database.ts:357-374 | the key's persistent value, or the whole scope for an omitted key |
| KeyValueDatabase.Database.RemoveSessionKey | src/classes/database/database.ts:381-390 | the key is deleted from the current session's object |
| KeyValueDatabase.Database.RemovePersistentKey | src/classes/database/database.ts:397-406 | the key is deleted from the persistent scope |
| KeyValueDatabase.Database.Init | src/classes/database/database.ts:28-64 | runs once; on success the name is set, the item is valid, and a new session is registered under a 32-character id with its `_id` and, for a non-zero clock, creation dates in both scopes; an existing session id is kept. The whole new item is stated: the ensured item, plus for a new session that session's `{_id}` and the creation dates |
| KeyValueDatabase.Database.StartSession | src/classes/database/database.ts:53-63 | the stored item becomes the old one with the new session's `{_id}` and then the creation dates, and nothing else changes |
| KeyValueDatabase.StartedSessionShape | src/classes/database/database.ts:53-63 | the new session's object is exactly `{_id, _createdAt}`, every other session is kept, and the persistent scope gains only `_createdAt` where it was missing or falsy |
| KeyValueDatabase.Database.DestroySession | src/classes/database/database.ts:224-239 | the current session's object is deleted and written back, then the store's session ends |
| KeyValueDatabase.Database.ClearPersistent | src/classes/database/database.ts:245-262 | the persistent scope is emptied, then the creation dates are ensured again |
| KeyValueDatabase.Database.DeleteAll | src/classes/database/database.ts:267-271 | the item is removed, after which `getDatabase` reports `There is no database!` |
| DocumentStore.Decode | src/classes/document_storage/document_storage.ts:298-315 | a missing file fails with `Document filename doesn't exist "<file>"!`; an empty file reads as the empty object; a document the store wrote reads back as its object; any other content fails |
| DocumentStore.LockOutcome | src/classes/document_storage/document_storage.ts:256-267 | the lock is taken exactly when the session is live and no lock file exists; otherwise the destroyed-session error or `Document already locked by "<holder>"!` |
| DocumentStore.SetThenGet | src/classes/document_storage/document_storage.ts:372-436 | after `setItem(key, v)`, `getItem(key)` gives `v`, and every other key reads as before |
| DocumentStore.RemoveThenGet | src/classes/document_storage/document_storage.ts:408-470 | after `removeItem(key)`, the key reads as `undefined` and every other key as before |
| DocumentStore.ItemOperationsFailTogether | src/classes/document_storage/document_storage.ts:381-467 | setting, getting and removing fail exactly when reading the document does, with its error |
| DocumentStore.LockReleaseRoundTrip | src/classes/document_storage/document_storage.ts:256-291 | a lock this session takes it can release; a lock holding anything else is not removed; a destroyed session is refused |
| DocumentStore.DocumentStorage.constructor | src/classes/document_storage/document_storage.ts:9-24 | a store over the directory, with no session id and the session destroyed |
| DocumentStore.DocumentStorage.Init | src/classes/document_storage/document_storage.ts:30-41 | the session is live, a missing document is created empty, and the client registers under the first free `client_<n>` name, whose directory is new; a timed-out name search leaves the clients as they were |
| DocumentStore.DocumentStorage.DestroySession | src/classes/document_storage/document_storage.ts:47-57 | refused when already destroyed; otherwise the client directory is removed, the id cleared and the session destroyed |
| DocumentStore.DocumentStorage.LockDocument | src/classes/document_storage/document_storage.ts:256-267 | the lock file holds the session id exactly when `LockOutcome` allows it; otherwise nothing changes |
| DocumentStore.DocumentStorage.ReleaseDocumentLock | src/classes/document_storage/document_storage.ts:276-291 | the lock is removed only when this session holds it, returning `undefined` then and `false` otherwise; a destroyed session is refused |
| DocumentStore.DocumentStorage.SetItem | src/classes/document_storage/document_storage.ts:372-400 | the document becomes the decoded object with the key set, or the error is returned with the document unchanged; the lock is free again on every path |
| DocumentStore.DocumentStorage.GetItem | src/classes/document_storage/document_storage.ts:408-436 | the key's value, `undefined` as none, or the read error; the document is unchanged and the lock free again |
| DocumentStore.DocumentStorage.RemoveItem | src/classes/document_storage/document_storage.ts:443-470 | the document becomes the decoded object without the key, or the error; the lock is free again on every path |
| Logging.MaxWeight | src/classes/logger/logger.ts:39-41 | the limit is the given `maxWeight` when it is at least one megabyte, and one megabyte otherwise |
| Logging.MessageColor | src/classes/logger/logger.ts:60-82 | `getMessageColor`, defined by its body; `Logging.ColorsByType` states which type gets which colour |
| Logging.ColorsByType | src/classes/logger/logger.ts:60-82 | with distinct colours: magenta exactly for the three debug types, red for `error`, cyan for `info`, green for `success`, and reset for everything else |
| Logging.UnquoteShape | src/classes/logger/logger.ts:104-120 | a rendered item loses at most one `"` at its start and one at its end, and nothing else |
| Logging.Regroup | src/classes/logger/logger.ts:111-117 | cutting the head and then the tail gives back the whole item as head, middle and tail |
| Logging.QuoteHead | src/classes/logger/logger.ts:111-113 | what the start strip removes is one `"` or nothing |
| Logging.QuoteTail | src/classes/logger/logger.ts:115-117 | what the end strip removes is one `"` or nothing |
| Logging.UnquoteLiteral | src/classes/logger/logger.ts:104-120 | a JSON string literal is shown as its content |
| Logging.Rendered | src/classes/logger/logger.ts:104-120 | one rendered item per datum, each the stringified value with its quotes stripped |
| Logging.GetLogLine | src/classes/logger/logger.ts:103-126 | the line keeps the log type, and its message is the rendered items joined by `, ` |
| Logging.Truncate | src/classes/logger/logger.ts:194-202 | a string longer than 200 characters becomes its first 197 plus `...`; anything else is kept |
| Logging.TruncateLogData | src/classes/logger/logger.ts:194-202 | each datum truncated, in order |
| Logging.TruncateBounds | src/classes/logger/logger.ts:197 | truncation never lengthens, keeps the start of the string, and a second pass changes nothing |
| Logging.ReplaceAllPointwise | src/classes/logger/logger.ts:230 | `replaceAll` with a mask of asterisks keeps the length and changes characters only to `*` |
| Logging.ReplaceAllAbsent | src/classes/logger/logger.ts:230 | text without the secret is unchanged |
| Logging.MaskingCreatesNothing | src/classes/logger/logger.ts:230 | masking cannot create an occurrence of a word that has no `*` |
| Logging.OccursPastPrefix | src/classes/logger/logger.ts:230 | an occurrence past a prefix is an occurrence in what follows |
| Logging.ReplaceAllRemoves | src/classes/logger/logger.ts:230 | after masking, a non-empty secret without `*` occurs nowhere |
| Logging.MaskedHeadClean | src/classes/logger/logger.ts:230 | the step where the text starts with the secret |
| Logging.KeptHeadClean | src/classes/logger/logger.ts:230 | the step where the first character is kept |
| Logging.MaskedByPointwise | src/classes/logger/logger.ts:228-231 | masking every secret in turn keeps the length and turns characters only to `*` |
| Logging.MaskedByRemovesAll | src/classes/logger/logger.ts:228-231 | after the loop no listed secret (non-empty, without `*`) occurs |
| Logging.MaskedByAbsent | src/classes/logger/logger.ts:222-231 | text holding no secret is unchanged |
| Logging.StringContainsSecret | src/classes/logger/logger.ts:267-281 | true exactly when some secret occurs in the text |
| Logging.MaskSecrets | src/classes/logger/logger.ts:226-231 | the loop leaves the text masked by every secret in order |
| Logging.HashSecrets | src/classes/logger/logger.ts:216-245 | one item per datum, each stringified, checked, masked and parsed back as `HashItem` says |
| Logging.HashItem | src/classes/logger/logger.ts:219-244 | one item of the `hashSecrets` map, defined by its body; `HashSecrets` and `HashedStringHidesSecrets` state its properties |
| Logging.HashedStringHidesSecrets | src/classes/logger/logger.ts:220-234 | a string item keeps its length, holds no secret afterwards, and is untouched when it held none |
| Logging.TrimmedIsFittingSuffix | src/classes/logger/logger.ts:88-93 | `keepLogsOptimized` keeps the newest entries in order, drops only while the archive is over the limit, and the result fits whenever an empty archive does |
| Logging.TrimmedKeepsFitting | src/classes/logger/logger.ts:88-93 | an archive that already fits is kept whole |
| Logging.Trimmed | src/classes/logger/logger.ts:88-93 | `keepLogsOptimized` on values, defined by its recursion; `TrimmedIsFittingSuffix` and `TrimmedKeepsFitting` state its result |
| Logging.ArchivedIffStored | src/classes/logger/logger.ts:148-150 | when the archive with the new line is within the limit, the line is archived exactly when storage is not omitted, whether or not it is shown |
| Logging.Logger.constructor | src/classes/logger/logger.ts:13-52 | options of the right type are taken and the defaults are used otherwise (storage kept, debug and date shown, a limit of one megabyte at least); the constructor's own debug line is not archived, and storage is left on |
| Logging.Logger.SetOmitStorage | src/classes/logger/logger.ts:288-290 | only `omitStorage` changes |
| Logging.Logger.SetDisplayDebug | src/classes/logger/logger.ts:298-300 | only `displayDebug` changes |
| Logging.Logger.SetDisplayDate | src/classes/logger/logger.ts:308-310 | only `displayDate` changes |
| Logging.Logger.KeepLogsOptimized | src/classes/logger/logger.ts:88-93 | the archive becomes `Trimmed` of itself, and the configuration is unchanged |
| Logging.Logger.PrimaryLog | src/classes/logger/logger.ts:137-179 | the masked line is archived unless storage is omitted, then the archive is trimmed; nothing is printed exactly for a debug type with debug display off; otherwise the header and the masked, truncated data |
| Logging.Logger.DebugVar | src/classes/logger/logger.ts:353-355 | logs `Var "<name>":` followed by the data, as `debugVar` |
| Logging.Logger.DebugFn | src/classes/logger/logger.ts:361-367 | logs `Arguments:` and the arguments as one array, or nothing when there are none, as `debugFn` |
| Logging.Logger.GetLastLog | src/classes/logger/logger.ts:401-403 | the last archived line, or `undefined` for an empty archive |
| Logging.Logger.GetAllLogs | src/classes/logger/logger.ts:393-395 | a copy of the archive, which as a value is the archive itself |
| Logging.Logger.GetLength | src/classes/logger/logger.ts:433-435 | the number of archived lines |
| GitHubApiClient.ExpirationOf | src/classes/github/gh_api_client.ts:66-76 | the given expiration when it is non-zero, otherwise five minutes after the clock reading |
| GitHubApiClient.CacheLookup | src/classes/github/gh_api_client.ts:84-103 | the cached data is returned exactly when an entry exists and the clock has not passed its expiration |
| GitHubApiClient.Project | src/classes/github/gh_api_client.ts:159-169 | a release keeps its tag and publication date and, for each asset, only its name and download URL |
| GitHubApiClient.ProjectAll | src/classes/github/gh_api_client.ts:159-174 | one kept release per received release, in order |
| GitHubApiClient.AppendProjected | src/classes/github/gh_api_client.ts:159-174 | the `forEach` appends every projected release of the page, in order |
| GitHubApiClient.FetchPages | src/classes/github/gh_api_client.ts:135-182 | pages 1, 2, ... are fetched up to the first that fails or holds fewer than 100 releases; a failure throws the body's `message` or the response; otherwise all releases in page order |
| GitHubApiClient.Client.constructor | src/classes/github/gh_api_client.ts:19-32 | the given credentials, or the built-in ones |
| GitHubApiClient.Client.AddCache | src/classes/github/gh_api_client.ts:66-76 | the entry `{data, expiration}` is stored under the id, and nothing else changes |
| GitHubApiClient.Client.GetCache | src/classes/github/gh_api_client.ts:84-103 | returns `CacheLookup`'s answer; an absent or expired key is deleted, and a fresh one is kept |
| GitHubApiClient.Client.FetchReleases | src/classes/github/gh_api_client.ts:110-187 | a fresh cached list is returned without fetching; otherwise the releases of every page up to the last, cached under `ListOfReleases` for five minutes; a failing page throws before anything is cached |
| GitHubApiClient.Client.FetchReleaseByTagName | src/classes/github/gh_api_client.ts:197-206 | the first release with the tag in the list `fetchReleases` gives, or its error; the cache is kept on a hit, and on a miss it holds the fetched list for five minutes after `later`, or only loses the expired entry when a page fails |
| GitHubApiClient.CacheRoundTrip | src/classes/github/gh_api_client.ts:66-103 | an entry stored by `addCache` is read back by `getCache` until it expires, and not after |
| GitHubApiClient.DefaultLifetime | src/classes/github/gh_api_client.ts:69 | with no expiration given, the entry stays fresh for exactly 300000 ms after it was stored |
| GitHubApiClient.FullPages | src/classes/github/gh_api_client.ts:176-180 | every page before the last contributes 100 releases or more |
| GitHubApiClient.LeadingDigit | src/classes/github/gh_api_client.ts:149 | a single decimal digit |
| GitHubApiClient.FirstCharIsLeadingDigit | src/classes/github/gh_api_client.ts:149 | the first character of a status's decimal text is its leading digit |
| GitHubApiClient.SuccessIff | src/classes/github/gh_api_client.ts:149-154 | a status is accepted exactly when its leading digit is 2 |
| GitHubApiClient.HttpSuccess | src/classes/github/gh_api_client.ts:149-154 | for a three-digit status that is exactly the 2xx range |
| CliVersionManager.GetWpdDetails | src/classes/cli_version_manager/cli_version_manager.ts:205-222 | the version's directory is the versions directory joined with the tag; its binary is `wpd` in that directory and the old binary `WPDucker` |
| CliVersionManager.EndingsDiffer | src/classes/cli_version_manager/cli_version_manager.ts:335-352 | two paths whose endings differ are different paths |
| CliVersionManager.PathsDistinct | src/classes/cli_version_manager/cli_version_manager.ts:335-352 | the default binary, the two scratch files and the version's old and new binary names are pairwise different paths (except that the version's `wpd` may be the default itself) |
| CliVersionManager.DetailsInjective | src/classes/cli_version_manager/cli_version_manager.ts:205-222 | different tags get different directories and different binaries |
| CliVersionManager.ProjectRequired | src/classes/cli_version_manager/cli_version_manager.ts:97-105 | a non-empty preferred version wins; otherwise the version the project names |
| CliVersionManager.RequiredPriority | src/classes/cli_version_manager/cli_version_manager.ts:137-145 | the required version is the preferred one, else the project's, else the running version |
| CliVersionManager.DispatchIff | src/classes/cli_version_manager/cli_version_manager.ts:145-153 | commands are dispatched exactly when a preferred or project version is named and differs from the running version |
| CliVersionManager.EnsureVersion | src/classes/cli_version_manager/cli_version_manager.ts:259-271 | nothing to do exactly when the version's `wpd` exists; otherwise that tag is downloaded |
| CliVersionManager.VersionManager.constructor | src/classes/cli_version_manager/cli_version_manager.ts:18-49 | keeps the directories; no dispatch, no target, no required or preferred version |
| CliVersionManager.VersionManager.SetPreferredCliVersion | src/classes/cli_version_manager/cli_version_manager.ts:112-117 | the preferred version is set; nothing else changes |
| CliVersionManager.VersionManager.UnsetPreferredCliVersion | src/classes/cli_version_manager/cli_version_manager.ts:122-127 | the preferred version is cleared; nothing else changes |
| CliVersionManager.VersionManager.ResetDispatchValue | src/classes/cli_version_manager/cli_version_manager.ts:67-72 | dispatching is switched off; nothing else changes |
| CliVersionManager.VersionManager.ResetDispatchTargetValue | src/classes/cli_version_manager/cli_version_manager.ts:78-83 | the dispatch target is emptied; nothing else changes |
| CliVersionManager.VersionManager.AutoSetDispatch | src/classes/cli_version_manager/cli_version_manager.ts:134-165 | records the required version; when it is another version, dispatches to its `wpd` and `WPDucker`, otherwise leaves the dispatch state alone |
| CliVersionManager.VersionManager.Init | src/classes/cli_version_manager/cli_version_manager.ts:174-192 | after init the dispatch flag and target reflect exactly whether another version is required, and that version is checked for installation only then |
| CliVersionManager.VersionManager.GetInstalledVersions | src/classes/cli_version_manager/cli_version_manager.ts:388-414 | the directory entries that are available tags, in directory order; nothing when the versions directory is missing |
| CliVersionManager.InstalledMembers | src/classes/cli_version_manager/cli_version_manager.ts:399-410 | a name is reported installed exactly when it is a directory entry and an available tag; no more names than entries |
| CliVersionManager.SwapIn | src/classes/cli_version_manager/cli_version_manager.ts:341-379 | with the old binary or `wpd` present, the default binary and the version's `wpd` end up holding it, the old name and both scratch files are gone and every other file is unchanged; with neither, the copy fails |
| CliVersionManager.Renamed | src/classes/cli_version_manager/cli_version_manager.ts:341-363 | the old binary is moved to `wpd` when present, the scratch files are removed, and every other file is unchanged |
| CliVersionManager.Swapped | src/classes/cli_version_manager/cli_version_manager.ts:366-379 | the default binary becomes a copy of the version's `wpd`, the scratch files are gone and every other file is unchanged |
| CliVersionManager.SetDefaultVersion | src/classes/cli_version_manager/cli_version_manager.ts:316-380 | an unavailable tag is refused; a failed download is passed on; otherwise the version's binary becomes the default and nothing else outside the touched paths changes |
| CliVersionManager.UseLatest | src/classes/cli_version_manager/cli_version_manager.ts:277-293 | an empty version list is an error; on success the first version's tag is returned and the files are what `setDefaultVersion` installs for it (the default binary equals that version's `wpd`, every other file is kept); its errors are passed on |
| CliVersionManager.DownloadUrl | src/classes/cli_version_manager/cli_version_manager.ts:461-494 | checks in order the release, a recognised system, the `<alias>.zip` URL and the session directory, each with its error; else the URL |
| CliVersionManager.DownloadFromTaggedRelease | src/classes/cli_version_manager/cli_version_manager.ts:464-484 | a chosen URL belongs to a `<alias>.zip` asset of a release with that tag, for a recognised system and a session directory |
| DownloadFile.StopAt | src/utils/download_file/download_file.ts:33 | the first position from the start on that holds a stop character, or the end; nothing before it is one |
| DownloadFile.GroupAt | src/utils/download_file/download_file.ts:33 | a capture group is found at a position only where the text `filename` starts there |
| DownloadFile.Exec | src/utils/download_file/download_file.ts:33 | the group of some match position; none exactly when no position starts a match |
| DownloadFile.ExecFirst | src/utils/download_file/download_file.ts:33 | the group returned is the one at the leftmost matching position |
| DownloadFile.RemoveQuotes | src/utils/download_file/download_file.ts:36 | exactly the characters other than single and double quotes remain, and the text does not grow |
| DownloadFile.LastSegmentIsTail | src/utils/download_file/download_file.ts:40 | the URL candidate is the part of the path after its last `/` (all of it without one) and holds no `/` |
| DownloadFile.BasenameCases | src/utils/download_file/download_file.ts:29-47 | a header's name never keeps a quote; a header that does not match gives `unknown` without falling back to the URL; so does a path ending in `/` |
| DownloadFile.QuotedHeader | src/utils/download_file/download_file.ts:32-38 | a header `filename="name"…` names `name` |
| DownloadFile.PlainHeader | src/utils/download_file/download_file.ts:32-38 | an unquoted header value runs up to the next `;` |
| DownloadFile.FlattenPrefix | src/utils/download_file/download_file.ts:75-85 | the chunks received so far hold no more bytes than the whole body |
| DownloadFile.ReceiveChunks | src/utils/download_file/download_file.ts:55-85 | succeeds exactly when the body fits the announced length; then the buffer starts with the body and is otherwise untouched; else it fails at the first chunk that does not fit, with the chunks before it written |
| DownloadFile.SetAt | src/utils/download_file/download_file.ts:76 | the chunk is written at the offset and nothing else in the buffer changes |
| DownloadFile.Extended | src/utils/download_file/download_file.ts:76-78 | writing a chunk after the copied bytes extends the copy by that chunk |
| DownloadFile.Download | src/utils/download_file/download_file.ts:12-126 | a failed status and a missing body are errors that write nothing; a body longer than announced fails; otherwise the basename is the header's or URL's name, the file is written under the destination exactly when asked, and the content (body then zeros) is returned exactly when asked |
| DatabaseService.NewService | src/classes/database_service/database_service.ts:16-35 | a non-empty given home directory wins, else `HOME`; the constructor fails with its message exactly when neither exists |
| DatabaseService.ServiceFilePath | src/classes/database_service/database_service.ts:47-63 | a path exactly on darwin and linux: the launchd agent `.plist` or the systemd user `.service` named after the service |
| DatabaseService.LastSlash | src/classes/database_service/database_service.ts:109 | the last `/` of `dir/tail` is the one after `dir` when `tail` has none |
| DatabaseService.ParentOfJoined | src/classes/database_service/database_service.ts:109 | the parent of `dir/tail` is `dir` when `tail` has no `/` |
| DatabaseService.ServiceFileDir | src/classes/database_service/database_service.ts:109-115 | the directory created for the service file is the launchd or systemd user directory |
| DatabaseService.LinesConcat | src/classes/database_service/database_service.ts:127-189 | writing two lists of lines one after the other is writing their concatenation |
| DatabaseService.ArgLines | src/classes/database_service/database_service.ts:141-143 | one `<string>` element per start argument, in order |
| DatabaseService.AppendLines | src/classes/database_service/database_service.ts:141-143 | the loop appends each argument line and its `\r\n`, in order |
| DatabaseService.GenerateDarwin | src/classes/database_service/database_service.ts:121-163 | the property list is its fixed head, one element per word of the start phrase and its fixed tail, each line ending in `\r\n` |
| DatabaseService.StartWords | src/classes/database_service/database_service.ts:124 | the start phrase `service db start` splits into its three words |
| DatabaseService.DarwinProgramArguments | src/classes/database_service/database_service.ts:138-144 | the program arguments are the executable followed by each word of the phrase, between the array's opening and closing lines |
| DatabaseService.LinesAsJoin | src/classes/database_service/database_service.ts:127-189 | the written lines are their carriage-return-ended pieces joined by line feeds, then a final line feed |
| DatabaseService.EveryLineEndsCrLf | src/classes/database_service/database_service.ts:127-189 | split at line feeds, a generated file is each line with its carriage return, then nothing |
| DatabaseService.LinuxLinesFree | src/classes/database_service/database_service.ts:165-189 | no line of the unit holds a line feed unless an input does |
| DatabaseService.GenerateLinux | src/classes/database_service/database_service.ts:165-189 | `generateServiceFileContentForLinux`, defined by its body as the unit's lines joined; `LinuxUnit`, `LinuxLinesFree` and `EveryLineEndsCrLf` state its shape |
| DatabaseService.LinuxUnit | src/classes/database_service/database_service.ts:165-189 | the unit has fourteen lines, all ending in `\r\n`, and its fifth runs the executable with the start phrase |
| DatabaseService.ServiceContent | src/classes/database_service/database_service.ts:65-81 | content exactly on darwin and linux, and it is never empty |
| DatabaseService.ServiceFileContent | src/classes/database_service/database_service.ts:65-81 | the property list on darwin, the unit on linux, nothing elsewhere |
| DatabaseService.CreateServiceFile | src/classes/database_service/database_service.ts:83-119 | an unsupported system fails with nothing written; an identical file is left alone; otherwise the content is written after its directory is made |
| DatabaseService.WrittenContent | src/classes/database_service/database_service.ts:83-119 | afterwards the service file holds the generated content and no other file has changed |
| DatabaseService.Install | src/classes/database_service/database_service.ts:37-45 | the service file is created, then `launchctl load` or `systemctl start` on that path runs exactly when asked |
| DatabaseService.StartCommand | src/classes/database_service/database_service.ts:190-227 | a start command exactly on darwin and linux, naming the service file's path as its last word |
| ShellProfile.ProfileName | src/deno_tasks/install.ts:34-53 | `.zshrc` exactly for `/bin/zsh`, `.bashrc` exactly for `/bin/bash`, no profile for any other or a missing shell |
| ShellProfile.RewriteLines | src/deno_tasks/install.ts:60-86 | the new content is the lines kept by the forEach followed by the begin line, the `PATH` line and the end line |
| ShellProfile.UpdateProfile | src/deno_tasks/install.ts:55-92 | an unsupported shell writes nothing; a missing profile is a read error; otherwise the profile is replaced by the kept lines and the block, newline-joined with a final newline |
| ShellProfile.InsideIffOpen | src/deno_tasks/install.ts:61-78 | the forEach's flag is set exactly when a begin line has been seen with no end line at or after it |
| ShellProfile.ClosedAt | src/deno_tasks/install.ts:75-77 | a line holding the end marker closes every open block |
| ShellProfile.OpenStep | src/deno_tasks/install.ts:67-77 | past a line without the end marker a block is open exactly when one already was or that line opens one |
| ShellProfile.PushedIff | src/deno_tasks/install.ts:64-78 | a line is kept exactly when it lies in no block and is not an empty last line; a stray end line outside a block is kept |
| ShellProfile.BlockDropped | src/deno_tasks/install.ts:64-78 | every line from a begin line through the next end line, both included, is dropped |
| ShellProfile.UnterminatedDropsRest | src/deno_tasks/install.ts:64-78 | a begin line with no end line after it drops the rest of the profile |
| ShellProfile.NoBlockKeepsAll | src/deno_tasks/install.ts:64-78 | a profile without a begin line is kept whole, except for an empty last line |
| ShellProfile.KeptPrefix | src/deno_tasks/install.ts:64-78 | lines before any begin line are all kept, with no block open |
| ShellProfile.KeptLines | src/deno_tasks/install.ts:64-78 | every kept line comes from the profile and holds no begin marker |
| ShellProfile.SplitWritten | src/deno_tasks/install.ts:62-91 | splitting the written text at newlines gives back the kept lines, the block and one empty last piece |
| ShellProfile.RewriteIdempotent | src/deno_tasks/install.ts:55-92 | running the profile step twice gives the same profile as running it once: the old block is dropped and the same block appended |
| ShellProfile.AppendedShape | src/deno_tasks/install.ts:80-91 | a written profile ends with the begin line, the `PATH` line, the end line and an empty piece after the final newline |
| ShellProfile.BlockThenEmptyDropped | src/deno_tasks/install.ts:64-78 | after the kept lines, the appended block and the empty last piece contribute no line |
| Copyrights.DigitRun | src/deno_tasks/copyrights.ts:14 | the longest run of digits at a position: all digits, and no digit right after it |
| Copyrights.MatchEndWith | src/deno_tasks/copyrights.ts:13-15 | a match found at a position ends after it, within the text |
| Copyrights.MatchEnd | src/deno_tasks/copyrights.ts:13-15 | a match of the header pattern found at a position ends after it, within the text |
| Copyrights.DigitRunExact | src/deno_tasks/copyrights.ts:14 | a run of digits followed by a non-digit is exactly the longest run |
| Copyrights.MatchEndIff | src/deno_tasks/copyrights.ts:13-15 | the matcher finds a match ending at `e` exactly when the regular expression (lead, digits, `-`, digits, trail, with `.` matching any non-terminator) matches there |
| Copyrights.MatchEndShape | src/deno_tasks/copyrights.ts:13-15 | what the matcher finds is a match of the regular expression |
| Copyrights.ShapeMatchEnd | src/deno_tasks/copyrights.ts:13-15 | every match of the regular expression at a position is the one the matcher finds |
| Copyrights.FirstMatch | src/deno_tasks/copyrights.ts:57-84 | the leftmost position from which the pattern matches; none before it |
| Copyrights.FirstMatchWith | src/deno_tasks/copyrights.ts:57-84 | the leftmost matching position for any lead and trail; none before it |
| Copyrights.TestIff | src/deno_tasks/copyrights.ts:84 | the unanchored test holds exactly when the regular expression matches somewhere in the line |
| Copyrights.Test | src/deno_tasks/copyrights.ts:84 | `hasCopyrightRegexp.test`, defined by its body as a first match existing; `TestIff` states it |
| Copyrights.ReplaceFirst | src/deno_tasks/copyrights.ts:57-60 | without a match the text is unchanged; otherwise exactly the leftmost match is replaced by the header |
| Copyrights.BeforeNewline | src/deno_tasks/copyrights.ts:72 | the text before the first newline, holding none, and followed by one when shorter |
| Copyrights.CollapseBlankLines | src/deno_tasks/copyrights.ts:72 | `replaceAll('\n\n', '\n')`, defined by its body; `CollapseCopiesFirstLine` and `CollapseKeepsFirstLine` state what it keeps |
| Copyrights.FirstLine | src/deno_tasks/copyrights.ts:66-76 | `getFirstLine`, defined by its body; `FirstLineIsBeforeNewline` states that it is the text before the first newline |
| Copyrights.CollapseCopiesFirstLine | src/deno_tasks/copyrights.ts:72 | squeezing blank lines copies the text before the first newline unchanged |
| Copyrights.CollapseKeepsFirstLine | src/deno_tasks/copyrights.ts:72 | squeezing blank lines does not change the text up to the first newline |
| Copyrights.FirstLineIsBeforeNewline | src/deno_tasks/copyrights.ts:66-76 | the first line is the text before the first newline of the original content |
| Copyrights.Decide | src/deno_tasks/copyrights.ts:78-97 | add exactly when the first line has no header; keep exactly when it has one and starts with the current header; otherwise update |
| Copyrights.EnsureCopyright | src/deno_tasks/copyrights.ts:45-97 | adding puts the header and a blank line in front, updating replaces the leftmost header, keeping writes nothing |
| Copyrights.HeaderMatches | src/deno_tasks/copyrights.ts:9-15 | the current header matches the pattern from the start of any text it begins |
| Copyrights.HeaderMatchesAfter | src/deno_tasks/copyrights.ts:9-15 | a header for any year matches wherever it stands |
| Copyrights.TestFindsHeaderAnywhere | src/deno_tasks/copyrights.ts:84 | a header anywhere in the first line counts as present |
| Copyrights.HeaderOneLine | src/deno_tasks/copyrights.ts:9-10 | the header holds no newline |
| Copyrights.HeadedIsKept | src/deno_tasks/copyrights.ts:78-97 | a file that starts with the current header is left alone |
| Copyrights.AddThenKeep | src/deno_tasks/copyrights.ts:45-97 | once the header is added, the next run leaves the file alone |
| Copyrights.OutdatedAtStartRefreshed | src/deno_tasks/copyrights.ts:54-96 | a file starting with an outdated header gets the current one in its place, and the next run leaves it alone |
| Copyrights.ReplaceAtStart | src/deno_tasks/copyrights.ts:57-60 | a match at the very start is the one replaced |
| Copyrights.ScanDir | src/deno_tasks/copyrights.ts:25-38 | appends the `.ts` files of the entries in visiting order, descending into directories and skipping everything else |
| Copyrights.TsFiles | src/deno_tasks/copyrights.ts:18-43 | the paths the scan collects, defined by its recursion; `ScanDir` computes it, and `TsFilesIff` and `TsFilesShape` state which paths they are |
| Copyrights.FindTsFiles | src/deno_tasks/copyrights.ts:18-43 | the `.ts` files of the tree under `<cwd>/src`, in visiting order |
| Copyrights.TsFilesIff | src/deno_tasks/copyrights.ts:25-38 | a path is collected exactly when it names a `.ts` file somewhere in the tree |
| Copyrights.EntryFilesIff | src/deno_tasks/copyrights.ts:27-37 | a path is collected from one entry exactly when it names a `.ts` file at or below it |
| Copyrights.TsFilesShape | src/deno_tasks/copyrights.ts:25-38 | every collected path ends in `.ts` and lies below the scanned directory |
| Copyrights.EnsureFile | src/deno_tasks/copyrights.ts:78-97 | a missing file is a read error; otherwise no file is created or deleted and only that file may change |
| Copyrights.EnsureFileWrites | src/deno_tasks/copyrights.ts:78-97 | an existing file gets what the decision writes, or keeps its content |
| Copyrights.ForEachFile | src/deno_tasks/copyrights.ts:120-122 | the files are processed in order and the first missing one stops the run |
| Copyrights.EnsureAll | src/deno_tasks/copyrights.ts:120-122 | every listed file gets the current header's decision, in order |
| Copyrights.EnsureStops | src/deno_tasks/copyrights.ts:120-122 | after an error the rest of the files are not processed |
| Copyrights.EnsureKeepsKeys | src/deno_tasks/copyrights.ts:120-122 | the run creates and deletes no file |
| Copyrights.EnsureAllFrame | src/deno_tasks/copyrights.ts:120-122 | the run changes no file outside the list |
| Copyrights.FirstMissing | src/deno_tasks/copyrights.ts:120-122 | the first listed file that does not exist, with all before it present |
| Copyrights.EnsureAllFails | src/deno_tasks/copyrights.ts:120-122 | the run fails exactly when a listed file is missing |
| Copyrights.EnsureAllFailsFirst | src/deno_tasks/copyrights.ts:120-122 | a failed run reports the first missing file |
| Copyrights.UpdateCopyrights | src/deno_tasks/copyrights.ts:3-122 | every `.ts` file under `<cwd>/src` gets the header for the year, in scan order |
| CallingFunctionName.NameOrUnknown | src/utils/calling_function_name/calling_function_name.ts:32-36 | the result is `Unknown` exactly when the name is empty, the bare `"at "` or already `Unknown`; otherwise it is the name unchanged |
| CallingFunctionName.GetCallingFunctionName | src/utils/calling_function_name/calling_function_name.ts:17-37 | no trace, an empty trace or `unknown` set gives `Unknown`; a trace without a line at `offset` fails with the TypeError of `undefined.trim()`; otherwise the name taken from the trimmed line at `offset`, with the empty-name rule applied; the defaults `offset = 4` and `unknown = false`, which the logger's call uses, are `DefaultOffset` and `DefaultUnknown` |
| CallingFunctionName.NameBetween | src/utils/calling_function_name/calling_function_name.ts:27-30 | when the first space comes before the last `" ("`, the name is exactly the text between them |
| CallingFunctionName.NoLocation | src/utils/calling_function_name/calling_function_name.ts:27-30 | a line without `" ("` makes `substring` swap its bounds: the name is the line up to and including its first space, and empty when the line has no space |
| CallingFunctionName.TrimStartIndent | src/utils/calling_function_name/calling_function_name.ts:26 | the leading half of `trim` drops exactly an indentation of spaces in front of a non-space |
| CallingFunctionName.TrimIndent | src/utils/calling_function_name/calling_function_name.ts:26 | `trim` removes any run of leading spaces in front of a line that starts and ends with a non-space |
| CallingFunctionName.FrameRoundTrip | src/utils/calling_function_name/calling_function_name.ts:25-30 | an indented V8 frame `at <name> (<location>)` whose location holds no `" ("` gives back exactly `<name>` |
| CallingFunctionName.LocationOpensLast | src/utils/calling_function_name/calling_function_name.ts:29 | in such a frame the last `" ("` is the one right after the name |
| CallingFunctionName.NamedCaller | src/utils/calling_function_name/calling_function_name.ts:17-37 | the whole call returns `<name>` for a trace whose line at `offset` is such a frame and whose name is not one of the `Unknown` cases |
| Pwd.IAmInTopLevel | src/utils/pwd/pwd.ts:7-19 | true exactly when every top-level key of the project structure exists under the path |
| Pwd.FindTopLevel | src/utils/pwd/pwd.ts:21-35 | the candidates are the path with 0, 1, … trailing segments dropped; the result is the original path (not the matching ancestor) exactly when some candidate is a project top level, else `false`; at least one and at most all candidates are tried |
| Pwd.GetPwd | src/utils/pwd/pwd.ts:44-46 | `pwd()` is `findTopLevelOfWpdProject(cwd())`: the working directory itself when it lies in a project, else `false` |
| Pwd.CandidateEnds | src/utils/pwd/pwd.ts:22-31 | the first candidate is the whole path and the last its first segment |
| OsAlias.OrHost | src/utils/get_od_alias/get_os_alias.ts:18-19 | an argument that is given and non-empty is used; an omitted or empty one falls back to the host value |
| OsAlias.GetOsAlias | src/utils/get_od_alias/get_os_alias.ts:14-30 | a recognised alias names the resolved pair it came from; `AliasTable` and `OmittedMeansHost` state the rest |
| OsAlias.AliasTable | src/utils/get_od_alias/get_os_alias.ts:21-29 | exactly the pairs linux/x86_64, darwin/x86_64 and darwin/aarch64 are recognised; each recognised alias maps back to the pair that produced it, and every other pair gives `Os not recognized` |
| OsAlias.PlatformRoundTrip | src/utils/get_od_alias/get_os_alias.ts:21-29 | every recognised alias is produced by its own pair |
| OsAlias.OmittedMeansHost | src/utils/get_od_alias/get_os_alias.ts:14-30 | an omitted argument and an empty one resolve the same way, to the host's pair |
| RandomId.Drawn | src/utils/get_random_id/get_random_id.ts:14-18 | the first `n` drawn characters have length `n`, and character `k` is the alphabet character at draw `k` |
| RandomId.GetRandomId | src/utils/get_random_id/get_random_id.ts:8-21 | with a non-empty alphabet the id is exactly the first `max(idLength, 0)` drawn characters; with an empty alphabet each step appends `undefined`, and the loop stops at the first multiple of 9 that reaches `idLength` |
| RandomId.IdShape | src/utils/get_random_id/get_random_id.ts:8-21 | the id has the requested length and every character is in the alphabet |
| RandomId.DrawnIsRandomId | src/utils/get_random_id/get_random_id.ts:8-21 | with the default alphabet the id has `max(idLength, 0)` characters, all from that alphabet, which is what the session-id draws are assumed to be |
| ExecutePermissions.EnsureExecutePermissions | src/utils/path/ensure_execute_permissions.ts:9-20 | a new mode is set exactly when the mode is known and has none of the bits `0o111`, and then it is the old mode with those bits added |
| ExecutePermissions.OnlyExecuteBitsAdded | src/utils/path/ensure_execute_permissions.ts:13-18 | the new mode has all three execute bits, keeps every other bit and differs from the old mode |
| ExecutePermissions.Idempotent | src/utils/path/ensure_execute_permissions.ts:9-20 | afterwards a known mode has an execute bit, and a second call changes nothing |
| FormatDate.DecimalOfNatToString | src/utils/format_date/format_date.ts:12-18 | the digits `toString` prints for a number read back as that number |
| FormatDate.FormatDate | src/utils/format_date/format_date.ts:11-23 | `formatDate`, defined by its body as the template's pieces joined; `FormatPieces`, `FieldsWidth` and `Layout` state its layout |
| FormatDate.LeadingZerosIgnored | src/utils/format_date/format_date.ts:12-18 | the zeros `padStart` puts in front do not change the value read back |
| FormatDate.PaddedRoundTrip | src/utils/format_date/format_date.ts:12-18 | a padded field reads back as its number, is all digits, and is `width` long unless the number has more digits, which are then kept whole |
| FormatDate.FieldsWidth | src/utils/format_date/format_date.ts:12-18 | for fields in range (month 0–11, day up to 31, hours, minutes, seconds, milliseconds) every padded field is exactly 2 (milliseconds 3) characters and reads back as its field; the month as the zero-based month plus 1 |
| FormatDate.FormatPieces | src/utils/format_date/format_date.ts:20 | the result is the template's pieces in order: year, `-`, month, `-`, day, space, hours, `:`, minutes, `:`, seconds, `.`, milliseconds |
| FormatDate.TemplateLayout | src/utils/format_date/format_date.ts:20 | in the template with fields of those widths, every separator and every field has a fixed offset after the year |
| FormatDate.Layout | src/utils/format_date/format_date.ts:11-23 | a date in range formats to year + 19 characters: the year first, `-`, `-`, space, `:`, `:`, `.` at fixed places, and each field reads back from its place |
| UnixMessage.IsFull | src/utils/read_unix_message/read_unix_message.ts:9 | `isBufferFull` on the buffer: true exactly when none of its bytes is zero |
| UnixMessage.Read | src/utils/read_unix_message/read_unix_message.ts:14-15 | each read gets a fresh 6144-byte zero-filled buffer holding the bytes read at its start |
| UnixMessage.ContinuesIff | src/utils/read_unix_message/read_unix_message.ts:9-32 | the loop goes on after a read exactly when it returned 6144 bytes none of which is zero |
| UnixMessage.ShortOrZeroStops | src/utils/read_unix_message/read_unix_message.ts:30-32 | a short read, or one containing a zero byte, ends the loop |
| UnixMessage.ExactBufferNeedsAnotherRead | src/utils/read_unix_message/read_unix_message.ts:30-32 | a message of exactly 6144 non-zero bytes makes the loop read once more before it returns |
| UnixMessage.StopIndex | src/utils/read_unix_message/read_unix_message.ts:13-33 | the read that ends the loop does not continue it, and every read before it does |
| UnixMessage.ReadUnixMessage | src/utils/read_unix_message/read_unix_message.ts:6-36 | the loop consumes the reads up to and including the stopping one; the message is the decoded chunks of those reads in order (nothing for `null`), and `totalBytesRead` is the sum of their byte counts |
| UniqueBasename.CandidatePathInjective | src/utils/generate_unique_basename/generate_unique_basename.ts:41-44 | different numbers give different candidate paths |
| UniqueBasename.CandidatesCount | src/utils/generate_unique_basename/generate_unique_basename.ts:37-55 | the first `n` candidates are `n` distinct paths |
| UniqueBasename.TakenCandidatesBound | src/utils/generate_unique_basename/generate_unique_basename.ts:37-55 | while every candidate so far exists there are no more of them than existing paths, so the search cannot go on forever |
| UniqueBasename.GenerateUniqueBasename | src/utils/generate_unique_basename/generate_unique_basename.ts:16-58 | on success the name is `<prefix><n>[.<ext>]` for the first `n` whose path does not exist, and no clock reading passed the deadline; on timeout the error is the 5-minute message, some reading `n` passed the deadline, and every candidate before `n` existed; the deadline is the given `timeout`, else start plus 5 minutes |
| ProjectStructure.WalkVisitsEveryKey | src/utils/loop_on_project_structure/loop_on_project_structure.ts:29-44 | the callback is called once per key, nested keys included |
| ProjectStructure.LoopOnProjectStructure | src/utils/loop_on_project_structure/loop_on_project_structure.ts:16-44 | the calls `loopOnProjectStructure` makes from `.`, defined by its body; `WalkVisitsEveryKey`, `WalkPaths`, `PreOrder` and `LeavesNotEntered` state them |
| ProjectStructure.WalkPaths | src/utils/loop_on_project_structure/loop_on_project_structure.ts:32-38 | every call's path lies below the starting path and ends with `/<key>` of the call's own key |
| ProjectStructure.PreOrder | src/utils/loop_on_project_structure/loop_on_project_structure.ts:29-44 | a key's call comes first, then the whole walk of its value when that is a non-empty object, then the following keys |
| ProjectStructure.LeavesNotEntered | src/utils/loop_on_project_structure/loop_on_project_structure.ts:40-43 | a value that is not a non-empty object gets its own call and nothing below it |

## Left out

- `DownloadFile.Download`: the `Content-Length` is a natural number. A negative or fractional header value, for which `new Uint8Array` throws a `RangeError`, is not modelled. A missing or non-numeric value is modelled, as 0.
- `DatabaseServer.Server.Stop`: the text of Deno's `BadResource` error is the runtime's, not the repository's.
- UTF-16 code units: a Dafny `string` is a sequence of Unicode scalar values, while JavaScript's `length`, `slice`, `substring`, `indexOf` and `padStart` count UTF-16 code units. A character outside the Basic Multilingual Plane is one character in the model but two units in the source, so the lengths and positions below agree only for text without such characters.
- `Logging.Truncate` and `Logging.TruncateBounds`: the 200 limit and the 197 kept are counted in characters, not code units; 199 ASCII characters followed by an emoji are 201 units, which the source cuts, but 200 characters, which the model keeps.
- `GenerateDocumentation.LongestItem`, `GenerateDocumentation.KeysPadded`, `GenerateDocumentation.RowKeysPadded` and `GenerateDocumentation.OptionKeysPadded`: the longest key and the padding to it are measured in characters, so keys with characters outside the Basic Multilingual Plane are padded differently from the source.
- `JsString.Substring`, `JsString.PadStart`, `JsString.IndexOf` and `JsString.LastIndexOf`: indices and lengths count characters, not UTF-16 code units.
- UTF-8 decoding: `TextDecoder` is the parameter `decode` of `UnixMessage.ReadUnixMessage`, applied to each chunk alone as in the source, so the decoding itself, including the replacement characters for a character split across two reads, is not modelled.
- Unix-socket transport: `Deno.listen`/`Deno.connect`, the accept loop and the `while (totalClients > 0)` sleep loop in `listen` are concurrency; the model handles one request at a time, with `totalClients` as explicit state.
- The database server's `ensureUnixSocketDoesNotExist` file removal is file-system I/O; the model keeps whether the socket file exists as a field, which `start` clears and then sets again.
- SQLite itself: `provider.query`/`queryEntries` are an executor parameter, and whether `IF NOT EXISTS` makes a second `init` harmless is library behaviour; the model states only the statements emitted.
- The SQLite wrapper's `ensureDbDirExists` directory creation is file-system I/O and is not modelled.
- The teeql `compile(tql(...))` step of the database client is foreign; the model takes the stringified query as a parameter.
- `TextEncoder`/`TextDecoder`, `JSON.stringify`/`JSON.parse` and AES-CBC are foreign; they are parameters or symbolic constructors, and the AES round trip is a library property.
- `UnixMessage.ReadUnixMessage`: requires that the reads stop at some point (an end-of-stream read or a read that does not fill the buffer), as every connection does once the peer closes it.
- The document store's contents are symbolic: a document the store wrote decodes to its object, an empty file to the empty object, and any other content fails with the library's error; JSON documents that are `null`, arrays or scalars are not covered.
- `DocumentStore.DocumentStorage.SetItem`, `GetItem` and `RemoveItem`: require that no lock is held, in place of `openDocument`'s polling loop, which waits for another process to release it.
- `getCurrentDocumentClientId`/`isDocumentLocked` of the document store are folded into the `lock` field the model keeps.
- `KeyValueDatabase.Database`: every method requires the document store's lock to be free, for the same reason.
- `KeyValueDatabase.Database.Init`: requires that the session-id draws never repeat, so that the `generateSessionId` loop ends; `GenerateSessionId` requires that some draw is not an existing session key, which no draw meets for a negative length (the source then loops forever, see `KeyValueDatabase.NegativeLengthDrawsOnlyEmpty`).
- `getInitialDatabase`/`setInitialDatabase` of the key-value store are folded into `EnsureDatabase`, which writes the initial store.
- The key-value store's stored values that are truthy but not objects (for `session` or `persistent`) are not modelled.
- `Object.keys` order puts integer-like keys first in JavaScript; the model keeps tables, dependency entries and project-structure keys in insertion order.
- The logger's `getWeight`: the weight is a kilobyte/megabyte division in floating point, so the archive weight is an oracle (`weight`); the constructor requires the empty archive to weigh 2, the length of `[]`.
- The logger's `log`, `info`, `debug`, `success` and `error` wrappers each call `PrimaryLog` with their type and are not modelled separately; console colouring and output are returned as values.
- `CommandBase.AskForArg` and `CommandBase.Command.GetOrAskForArg`: on the path that reaches the `while` loop of `askForArg` (a required argument, or a first answer the validator rejects, after `getOrAskForArg` found no accepted value and threw nothing), they require that some prompt answer is eventually acceptable, since the source would prompt forever otherwise; the other paths demand nothing of the answers.
- `GitHubApiClient.Client.FetchReleases`, `FetchReleaseByTagName` and `GitHubApiClient.FetchPages`: require that some page has fewer than 100 releases, so that the pagination ends.
- `GitHubApiClient.CacheLookup`: reads the stored entry directly; the source reads its `value` field, which matches a store that wraps values in `{value}` but not the `classDatabase` of src/classes/database/database.ts.
- `getCacheObject` of the GitHub client only builds the `{data, expiration}` record, which is the model's cache-entry datatype.
- The version manager's `getVersionsList` sorts releases by parsed publication dates with a comparator that returns 0 when a date is missing, so the model takes the version list as given and claims no order.
- The version manager's `makeCvmDir`, `getDirInfo` and the file-system part of `downloadVersion` (download, unzip, chmod) are I/O; `downloadVersion`'s checks are `DownloadUrl`, and the download itself is a parameter of `SetDefaultVersion`.
- `getCliVersionRequiredByProject` and `getCurrentCliVersion` read files; their results are parameters.
- `downloadFile`'s progress bar, its dynamic `import` and the `mkdir`/`remove` before writing are left out; the file system is a map, so writing replaces any old file.
- `DatabaseService`'s `launchctl`/`systemctl` runs are returned as the command they would run, not executed.
- The copyright task's `updateLicense` (src/deno_tasks/copyrights.ts:99-115) rewrites the LICENSE file with another regular expression and is not modelled.
- The installer's version-manager calls, dependency check and log lines around the shell-profile step are orchestration glue; `SHELL` and `HOME` are parameters.
- Orchestration code and thin wrappers are not part of this model: `src/entry.ts`, the command-invoker facade, the command bodies, project creation, `no_error`, `get_error`, `path_exist`, `cwd`, `sleep`, `shell`, `emojify` and the global logger.
- Development scripts (`dev.ts`, `test_coverage_report.ts`, the pre-compile and secret-key scripts) are not part of this model.
- `database.test.ts` and `database_service.test.ts` call methods that src/classes/database/database.ts and src/classes/database_service/database_service.ts do not define (a newer `classDatabase`, and `isServiceLoaded`/`uninstall`); those methods are not modelled.
- `COMMANDS_META`, `CLI_DIR`, `CLI_PROJECT_STRUCTURE`, `DB_NAME` and the ANSI colour strings are parameters.

## Findings

| source | as written | input that shows it | evidently intended | confidence | as-written member | corrected member |
|---|---|---|---|---|---|---|
| src/classes/database_server/database_server.ts:119 | `JSON.parse(message)` sits before the `try`, so a parse error escapes `handleConnection`, skipping the connection close and the `totalClients` decrement | any non-empty message other than `status` that is not JSON, e.g. `hello` | the parse error is answered with the `WPD db service: unexpected error:` line like any other failure, the connection is closed and the counter restored | not executed | `DatabaseServer.Server.HandleConnection`, `DatabaseServer.NonJsonMessageWedgesServer` | `DatabaseServer.Server.HandleConnectionFixed`, `DatabaseServer.FixedAnswersEveryMessage` |
