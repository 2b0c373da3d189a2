/** The statements `classDatabaseSqlLite` sends to its SQLite provider: one
    CREATE TABLE per schema table, followed by one CREATE UNIQUE INDEX per
    declared unique index. The provider is abstract: the model records the
    statements issued and whether it was closed. */
module SqliteDatabase {
  import opened Wrappers
  import opened JsString
  import opened SqliteSchema
  import DbSchema

  function ColumnClause(c: Column): string {
    c.name + " " + c.typ
  }

  function ForeignKeyClause(fk: ForeignKey): string {
    "FOREIGN KEY (" + fk.column + ") REFERENCES " + fk.reference.table + "(" + fk.reference.column + ")"
  }

  function MapColumns(cs: seq<Column>): (r: seq<string>)
    ensures |r| == |cs| && forall i :: 0 <= i < |cs| ==> r[i] == ColumnClause(cs[i])
  {
    if |cs| == 0 then [] else [ColumnClause(cs[0])] + MapColumns(cs[1..])
  }

  function MapForeignKeys(fks: seq<ForeignKey>): (r: seq<string>)
    ensures |r| == |fks| && forall i :: 0 <= i < |fks| ==> r[i] == ForeignKeyClause(fks[i])
  {
    if |fks| == 0 then [] else [ForeignKeyClause(fks[0])] + MapForeignKeys(fks[1..])
  }

  /** `columns.map(...).join(',')` */
  function ColumnPart(t: Table): string {
    Join(MapColumns(t.columns), ",")
  }

  /** `foreignKeys?.map(...).join(', ')`, undefined without the key. */
  function ForeignKeyPart(t: Table): Option<string> {
    match t.foreignKeys
    case None => None
    case Some(fks) => Some(Join(MapForeignKeys(fks), ", "))
  }

  /** `[columnPart, foreignKeyPart].filter(p => !!p).join(', ')` */
  function ColumnsString(t: Table): string {
    var parts := (if ColumnPart(t) != "" then [ColumnPart(t)] else [])
      + (match ForeignKeyPart(t) case Some(p) => if p != "" then [p] else [] case None => []);
    Join(parts, ", ")
  }

  function CreateTableQuery(t: Table): string {
    "CREATE TABLE IF NOT EXISTS " + t.name + " (" + ColumnsString(t) + ")"
  }

  function UniqueIndexQuery(table: string, ix: UniqueIndex): string {
    "CREATE UNIQUE INDEX IF NOT EXISTS idx_" + table + "_" + Join(ix.columns, "_")
      + " ON " + table + " (" + Join(ix.columns, ", ") + ")"
  }

  function IndexQueries(table: string, ixs: seq<UniqueIndex>): (r: seq<string>)
    ensures |r| == |ixs| && forall i :: 0 <= i < |ixs| ==> r[i] == UniqueIndexQuery(table, ixs[i])
    decreases |ixs|
  {
    if |ixs| == 0 then []
    else IndexQueries(table, ixs[..|ixs| - 1]) + [UniqueIndexQuery(table, ixs[|ixs| - 1])]
  }

  lemma IndexQueriesSnoc(table: string, ixs: seq<UniqueIndex>, k: nat)
    requires k < |ixs|
    ensures IndexQueries(table, ixs[..k + 1]) == IndexQueries(table, ixs[..k]) + [UniqueIndexQuery(table, ixs[k])]
  {
    assert ixs[..k + 1][..k] == ixs[..k];
  }

  /** Everything `createTable(t)` sends, in order. */
  function TableStatements(t: Table): seq<string> {
    [CreateTableQuery(t)] + IndexQueries(t.name, t.uniqueIndexes.GetOr([]))
  }

  /** The concatenation of `f(x)` over `xs`, in order. */
  function FlatMap<T>(xs: seq<T>, f: T -> seq<string>): seq<string>
    decreases |xs|
  {
    if |xs| == 0 then [] else FlatMap(xs[..|xs| - 1], f) + f(xs[|xs| - 1])
  }

  lemma {:induction false} FlatMapAppend<T>(a: seq<T>, b: seq<T>, f: T -> seq<string>)
    ensures FlatMap(a + b, f) == FlatMap(a, f) + FlatMap(b, f)
    decreases |b|
  {
    if |b| == 0 {
      assert a + b == a;
    } else {
      var n := |b| - 1;
      var ab := a + b;
      assert ab[..|ab| - 1] == a + b[..n];
      assert ab[|ab| - 1] == b[n];
      FlatMapAppend(a, b[..n], f);
    }
  }

  /** Everything `init()` sends: `tables.forEach(createTable)`. */
  function InitStatements(tables: seq<Table>): seq<string> {
    FlatMap(tables, TableStatements)
  }

  /** `${path}/${dbName}.db` */
  function DbFile(path: string, dbName: string): (r: string)
    ensures StartsWith(r, path + "/") && EndsWith(r, ".db")
    ensures |r| == |path| + |dbName| + 4
  {
    var r := path + "/" + dbName + ".db";
    assert r[..|path + "/"|] == path + "/";
    assert r[|r| - 3..] == ".db";
    r
  }

  /** A table statement is issued first, then its index statements in
      declaration order. */
  lemma TableStatementsShape(t: Table)
    ensures |TableStatements(t)| == 1 + |t.uniqueIndexes.GetOr([])|
    ensures TableStatements(t)[0] == "CREATE TABLE IF NOT EXISTS " + t.name + " (" + ColumnsString(t) + ")"
    ensures forall k :: 0 <= k < |t.uniqueIndexes.GetOr([])| ==>
      TableStatements(t)[k + 1] == UniqueIndexQuery(t.name, t.uniqueIndexes.GetOr([])[k])
  {
  }

  /** init's statements are the per-table statements, table after table:
      the sequence is a function of the schema alone. */
  lemma InitStatementsAppend(a: seq<Table>, b: seq<Table>)
    ensures InitStatements(a + b) == InitStatements(a) + InitStatements(b)
  {
    FlatMapAppend(a, b, TableStatements);
  }

  /** Without foreign keys (the key absent or the list empty) the columns
      string is the column clauses joined by "," with no space. */
  lemma NoForeignKeysAddNothing(t: Table)
    requires |t.columns| > 0
    requires t.foreignKeys.None? || t.foreignKeys == Some([])
    ensures ColumnsString(t) == Join(MapColumns(t.columns), ",")
  {
    ColumnPartNonEmpty(t);
  }

  lemma {:induction false} JoinNonEmpty(parts: seq<string>, sep: string)
    requires |parts| > 0 && parts[0] != ""
    ensures Join(parts, sep) != ""
    decreases |parts|
  {
    if |parts| > 1 {
      assert Join(parts, sep) == parts[0] + sep + Join(parts[1..], sep);
      assert |Join(parts, sep)| >= |parts[0]|;
    }
  }

  lemma ColumnPartNonEmpty(t: Table)
    requires |t.columns| > 0
    ensures ColumnPart(t) != ""
  {
    var clauses := MapColumns(t.columns);
    assert |clauses[0]| >= 1;
    JoinNonEmpty(clauses, ",");
  }

  /** With columns and a non-empty foreign-key list, the key clauses follow
      the column clauses after ", ". */
  lemma ForeignKeysFollowColumns(t: Table)
    requires |t.columns| > 0
    requires t.foreignKeys.Some? && |t.foreignKeys.value| > 0
    ensures ColumnsString(t) == ColumnPart(t) + ", " + Join(MapForeignKeys(t.foreignKeys.value), ", ")
  {
    ColumnPartNonEmpty(t);
    var clauses := MapForeignKeys(t.foreignKeys.value);
    assert |clauses[0]| >= 1;
    JoinNonEmpty(clauses, ", ");
    var cp, fp := ColumnPart(t), Join(clauses, ", ");
    assert ForeignKeyPart(t) == Some(fp);
    JoinCons(cp, [fp], ", ");
    assert ColumnsString(t) == Join([cp] + [fp], ", ");
  }

  /** The application schema yields five statements: each table followed by
      its unique indexes. */
  lemma DbSchemaStatements(dbName: string)
    ensures InitStatements(DbSchema.DbSchema(dbName).tables) == [
      CreateTableQuery(DbSchema.Sessions),
      CreateTableQuery(DbSchema.SessionData),
      UniqueIndexQuery("session_data", UniqueIndex(["session_id", "key"])),
      CreateTableQuery(DbSchema.PersistentData),
      UniqueIndexQuery("persistent_data", UniqueIndex(["key"]))]
  {
    DbSchema.DbSchemaIsLiteral(dbName);
    ThreeTableStatements(DbSchema.Sessions, DbSchema.SessionData, DbSchema.PersistentData);
  }

  /** A table without indexes, then two tables with one index each. */
  lemma ThreeTableStatements(a: Table, b: Table, c: Table)
    requires a.uniqueIndexes.None?
    requires b.uniqueIndexes.Some? && |b.uniqueIndexes.value| == 1
    requires c.uniqueIndexes.Some? && |c.uniqueIndexes.value| == 1
    ensures InitStatements([a, b, c]) == [
      CreateTableQuery(a),
      CreateTableQuery(b), UniqueIndexQuery(b.name, b.uniqueIndexes.value[0]),
      CreateTableQuery(c), UniqueIndexQuery(c.name, c.uniqueIndexes.value[0])]
  {
    FlatMapThree(a, b, c, TableStatements);
    NoIndexStatement(a);
    OneIndexStatement(b);
    OneIndexStatement(c);
  }

  lemma FlatMapThree<T>(a: T, b: T, c: T, f: T -> seq<string>)
    ensures FlatMap([a, b, c], f) == f(a) + f(b) + f(c)
  {
    assert [a, b, c][..2] == [a, b] && [a, b, c][2] == c;
    assert [a, b][..1] == [a] && [a, b][1] == b;
    assert [a][..0] == [] && [a][0] == a;
    assert FlatMap([a], f) == f(a);
    assert FlatMap([a, b], f) == f(a) + f(b);
  }

  lemma NoIndexStatement(t: Table)
    requires t.uniqueIndexes.None?
    ensures TableStatements(t) == [CreateTableQuery(t)]
  {
  }

  lemma OneIndexStatement(t: Table)
    requires t.uniqueIndexes.Some? && |t.uniqueIndexes.value| == 1
    ensures TableStatements(t) == [CreateTableQuery(t), UniqueIndexQuery(t.name, t.uniqueIndexes.value[0])]
  {
  }

  /** The index names join the columns with "_" and list them with ", ". */
  lemma DbSchemaIndexNames()
    ensures Join(["session_id", "key"], "_") == "session_id_key"
    ensures Join(["session_id", "key"], ", ") == "session_id, key"
  {
    JoinCons("session_id", ["key"], "_");
    JoinCons("session_id", ["key"], ", ");
  }

  class Database {
    var schema: Schema
    var path: string
    /** The file the provider opens. */
    var file: string
    /** Every statement sent to the provider, in order. */
    var issued: seq<string>
    var closed: bool

    /** `path` defaults to the working directory, given here as `cwd`. */
    constructor (schema: Schema, path: Option<string>, cwd: string)
      ensures this.schema == schema && this.path == path.GetOr(cwd)
      ensures file == DbFile(path.GetOr(cwd), schema.dbName)
      ensures issued == InitStatements(schema.tables) && !closed
    {
      this.schema := schema;
      this.path := path.GetOr(cwd);
      file := DbFile(path.GetOr(cwd), schema.dbName);
      issued := [];
      closed := false;
      new;
      Init();
    }

    method Init()
      modifies this`issued
      ensures issued == old(issued) + InitStatements(schema.tables)
    {
      var k := 0;
      while k < |schema.tables|
        invariant 0 <= k <= |schema.tables|
        invariant issued == old(issued) + InitStatements(schema.tables[..k])
      {
        assert schema.tables[..k + 1][..k] == schema.tables[..k];
        assert InitStatements(schema.tables[..k + 1])
          == InitStatements(schema.tables[..k]) + TableStatements(schema.tables[k]);
        CreateTable(schema.tables[k]);
        k := k + 1;
      }
      assert schema.tables[..k] == schema.tables;
    }

    method CreateTable(t: Table)
      modifies this`issued
      ensures issued == old(issued) + TableStatements(t)
    {
      issued := issued + [CreateTableQuery(t)];
      IssueIndexes(t.name, t.uniqueIndexes.GetOr([]));
    }

    /** The `for (const index of uniqueIndexes)` loop of `createTable`. */
    method IssueIndexes(table: string, ixs: seq<UniqueIndex>)
      modifies this`issued
      ensures issued == old(issued) + IndexQueries(table, ixs)
    {
      var k := 0;
      while k < |ixs|
        invariant 0 <= k <= |ixs|
        invariant issued == old(issued) + IndexQueries(table, ixs[..k])
      {
        IndexQueriesSnoc(table, ixs, k);
        issued := issued + [UniqueIndexQuery(table, ixs[k])];
        k := k + 1;
      }
      assert ixs[..k] == ixs;
    }

    method Destroy()
      modifies this`closed
      ensures closed
    {
      closed := true;
    }
  }
}
