/** `classCommandsRepository`: the registered command metas, in the order they
    were added. */
module CommandRepository {
  import opened Wrappers

  /** `TCommandMeta`; `isCommand` says whether its `class` is a subclass of
      `classCommand` (`class.prototype instanceof classCommand`). */
  datatype CommandMeta = CommandMeta(phrase: string, description: string,
                                     documentation: Option<string>, isCommand: bool)

  /** `commands.find(record => record.phrase === phrase)` */
  function Find(commands: seq<CommandMeta>, phrase: string): Option<CommandMeta> {
    FindFirst(commands, (m: CommandMeta) => m.phrase, phrase)
  }

  /** `has`: the entry `get` finds is a command class. */
  predicate Registered(commands: seq<CommandMeta>, phrase: string) {
    var found := Find(commands, phrase);
    found.Some? && found.value.isCommand
  }

  /** The list after `add`. */
  function Added(commands: seq<CommandMeta>, meta: CommandMeta): seq<CommandMeta> {
    if Registered(commands, meta.phrase) then commands else commands + [meta]
  }

  lemma FindAppend(commands: seq<CommandMeta>, meta: CommandMeta, phrase: string)
    ensures Find(commands + [meta], phrase) ==
      if Find(commands, phrase).Some? then Find(commands, phrase)
      else if meta.phrase == phrase then Some(meta) else None
  {
    if |commands| > 0 {
      assert (commands + [meta])[1..] == commands[1..] + [meta];
      FindAppend(commands[1..], meta, phrase);
    }
  }

  /** A command added under a new phrase is what `get` then returns, and
      `has` turns true for it; other phrases are unaffected. */
  lemma AddNew(commands: seq<CommandMeta>, meta: CommandMeta, phrase: string)
    requires Find(commands, meta.phrase).None?
    ensures Added(commands, meta) == commands + [meta]
    ensures Find(Added(commands, meta), meta.phrase) == Some(meta)
    ensures meta.isCommand ==> Registered(Added(commands, meta), meta.phrase)
    ensures phrase != meta.phrase ==> Find(Added(commands, meta), phrase) == Find(commands, phrase)
  {
    FindAppend(commands, meta, meta.phrase);
    FindAppend(commands, meta, phrase);
  }

  /** Adding a phrase `has` already knows leaves the list as it was. */
  lemma AddRegistered(commands: seq<CommandMeta>, meta: CommandMeta)
    requires Registered(commands, meta.phrase)
    ensures Added(commands, meta) == commands
  {
  }

  /** Adding the same command twice is adding it once, unless an entry that
      is no command class already holds the phrase, which keeps `has` false
      and lets every `add` append again. */
  lemma AddTwice(commands: seq<CommandMeta>, meta: CommandMeta)
    requires meta.isCommand
    requires Find(commands, meta.phrase).None? || Registered(commands, meta.phrase)
    ensures Added(Added(commands, meta), meta) == Added(commands, meta)
  {
    if Find(commands, meta.phrase).None? {
      AddNew(commands, meta, meta.phrase);
    }
  }

  lemma AddShadowed(commands: seq<CommandMeta>, meta: CommandMeta)
    requires Find(commands, meta.phrase).Some? && !Find(commands, meta.phrase).value.isCommand
    ensures Added(commands, meta) == commands + [meta]
    ensures !Registered(Added(commands, meta), meta.phrase)
  {
    FindAppend(commands, meta, meta.phrase);
  }

  class CommandsRepository {
    var commands: seq<CommandMeta>

    constructor()
      ensures commands == []
    {
      commands := [];
    }

    /** `add`: appended unless `has(meta.phrase)`. */
    method Add(meta: CommandMeta)
      modifies this
      ensures commands == Added(old(commands), meta)
    {
      var known := Has(meta.phrase);
      if known {
        return;
      }
      commands := commands + [meta];
    }

    /** `get` */
    method Get(phrase: string) returns (found: Option<CommandMeta>)
      ensures found == Find(commands, phrase)
    {
      found := Find(commands, phrase);
    }

    /** `has` */
    method Has(phrase: string) returns (known: bool)
      ensures known == Registered(commands, phrase)
    {
      var found := Get(phrase);
      known := found.Some? && found.value.isCommand;
    }
  }
}
