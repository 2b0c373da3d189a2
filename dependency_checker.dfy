/** `classDependencyChecker`: runs each required command once and reports which
    are missing. Whether a command runs with a non-empty output (`commandExist`)
    is given as the oracle `exist`. */
module DependencyChecker {
  import opened Wrappers
  import opened JsString

  /** An entry of `commandsToCheck` or of the extra commands. */
  datatype CommandSpec = CommandSpec(cmd: string, args: seq<string>, name: Option<string>)

  /** `{ check, name }` stored under a command's key. */
  datatype FeedEntry = FeedEntry(check: bool, name: string)

  /** The object `commands` as its keys in insertion order with their values. */
  type Entries = seq<(string, FeedEntry)>

  datatype Feed = Feed(general: bool, commands: Entries)

  /** The built-in `commandsToCheck`. */
  const DefaultCommands: seq<CommandSpec> := [
    CommandSpec("unzip", ["-v"], None),
    CommandSpec("docker", ["-v"], None),
    CommandSpec("docker", ["compose", "version"], Some("docker compose"))
  ]

  /** `[...(extraCommands || []), ...commandsToCheck]` */
  function TotalCommands(extra: Option<seq<CommandSpec>>): seq<CommandSpec> {
    extra.GetOr([]) + DefaultCommands
  }

  /** `item?.name || item.cmd` */
  function DisplayName(item: CommandSpec): (r: string)
    ensures r == item.cmd || (item.name.Some? && r == item.name.value)
    ensures item.name.None? || item.name.value == "" ==> r == item.cmd
  {
    if item.name.Some? && item.name.value != "" then item.name.value else item.cmd
  }

  function EntryOf(item: CommandSpec, exist: (string, seq<string>) -> bool): FeedEntry {
    FeedEntry(exist(item.cmd, item.args), DisplayName(item))
  }

  function Keys(e: Entries): (r: seq<string>)
    ensures |r| == |e| && forall i :: 0 <= i < |e| ==> r[i] == e[i].0
  {
    seq(|e|, i requires 0 <= i < |e| => e[i].0)
  }

  /** `commands[key] = value`: an existing key keeps its place and gets the new
      value, a new key goes last. */
  function Store(e: Entries, key: string, value: FeedEntry): (r: Entries)
    ensures |r| == if key in Keys(e) then |e| else |e| + 1
    ensures forall i :: 0 <= i < |e| ==> r[i] == (if e[i].0 == key then (key, value) else e[i])
    ensures key !in Keys(e) ==> r[|e|] == (key, value)
  {
    if key in Keys(e) then
      seq(|e|, i requires 0 <= i < |e| => if e[i].0 == key then (key, value) else e[i])
    else e + [(key, value)]
  }

  /** The object after the `forEach`. */
  function FeedOf(items: seq<CommandSpec>, exist: (string, seq<string>) -> bool): Entries {
    if |items| == 0 then []
    else
      var last := items[|items| - 1];
      Store(FeedOf(items[..|items| - 1], exist), last.cmd, EntryOf(last, exist))
  }

  /** `general`: every stored check passed. */
  predicate General(e: Entries) {
    forall i :: 0 <= i < |e| ==> e[i].1.check
  }

  /** The names of the failing entries, in key order. */
  function Missing(e: Entries): seq<string> {
    if |e| == 0 then []
    else Missing(e[..|e| - 1]) + (if e[|e| - 1].1.check then [] else [e[|e| - 1].1.name])
  }

  function MissingMessage(names: seq<string>): string {
    "Missing dependencies \"" + Join(names, "\", \"") + "\"!"
  }

  // ---- the order of keys ----

  /** First occurrences, in order. */
  function Distinct(s: seq<string>): seq<string> {
    if |s| == 0 then []
    else Distinct(s[..|s| - 1]) + (if s[|s| - 1] in s[..|s| - 1] then [] else [s[|s| - 1]])
  }

  function Cmds(items: seq<CommandSpec>): (r: seq<string>)
    ensures |r| == |items| && forall i :: 0 <= i < |items| ==> r[i] == items[i].cmd
  {
    if |items| == 0 then [] else Cmds(items[..|items| - 1]) + [items[|items| - 1].cmd]
  }

  lemma InDistinct(s: seq<string>, x: string)
    ensures x in Distinct(s) <==> x in s
  {
    if |s| > 0 {
      InDistinct(s[..|s| - 1], x);
      assert s == s[..|s| - 1] + [s[|s| - 1]];
    }
  }

  lemma KeysOfStore(e: Entries, key: string, value: FeedEntry)
    ensures Keys(Store(e, key, value)) == if key in Keys(e) then Keys(e) else Keys(e) + [key]
  {
    var k := Keys(Store(e, key, value));
    if key in Keys(e) {
      assert forall i :: 0 <= i < |e| ==> k[i] == Keys(e)[i];
    } else {
      assert forall i :: 0 <= i <= |e| ==> k[i] == (Keys(e) + [key])[i];
    }
  }

  /** The keys are the distinct commands in the order they first appear. */
  lemma {:induction false} FeedKeys(items: seq<CommandSpec>, exist: (string, seq<string>) -> bool)
    ensures Keys(FeedOf(items, exist)) == Distinct(Cmds(items))
  {
    if |items| > 0 {
      var init, last := items[..|items| - 1], items[|items| - 1];
      FeedKeys(init, exist);
      assert Cmds(items)[..|items| - 1] == Cmds(init);
      InDistinct(Cmds(init), last.cmd);
      KeysOfStore(FeedOf(init, exist), last.cmd, EntryOf(last, exist));
    }
  }

  /** The entry the last item with a given command produced. */
  function LastEntry(items: seq<CommandSpec>, k: string, exist: (string, seq<string>) -> bool): Option<FeedEntry> {
    if |items| == 0 then None
    else if items[|items| - 1].cmd == k then Some(EntryOf(items[|items| - 1], exist))
    else LastEntry(items[..|items| - 1], k, exist)
  }

  /** A later item with the same command overwrites the earlier one's check and
      name, though the key keeps the earlier position. */
  lemma {:induction false} FeedLastWins(items: seq<CommandSpec>, exist: (string, seq<string>) -> bool)
    ensures forall i :: 0 <= i < |FeedOf(items, exist)| ==>
      LastEntry(items, FeedOf(items, exist)[i].0, exist) == Some(FeedOf(items, exist)[i].1)
  {
    if |items| > 0 {
      var init, last := items[..|items| - 1], items[|items| - 1];
      FeedLastWins(init, exist);
      var e := FeedOf(init, exist);
      var f := Store(e, last.cmd, EntryOf(last, exist));
      assert f == FeedOf(items, exist);
      forall i | 0 <= i < |f|
        ensures LastEntry(items, f[i].0, exist) == Some(f[i].1)
      {
        if f[i].0 == last.cmd {
          assert f[i] == (last.cmd, EntryOf(last, exist));
          assert LastEntry(items, last.cmd, exist) == Some(EntryOf(last, exist));
        } else {
          assert i < |e| && f[i] == e[i];
          assert LastEntry(items, f[i].0, exist) == LastEntry(init, e[i].0, exist);
          assert LastEntry(init, e[i].0, exist) == Some(e[i].1);
        }
      }
    }
  }

  /** Without extra commands, `docker compose version` decides for `docker`. */
  lemma DefaultFeed(exist: (string, seq<string>) -> bool)
    ensures FeedOf(TotalCommands(None), exist) == [
      ("unzip", FeedEntry(exist("unzip", ["-v"]), "unzip")),
      ("docker", FeedEntry(exist("docker", ["compose", "version"]), "docker compose"))]
  {
    var t := TotalCommands(None);
    assert t == DefaultCommands;
    var e0, e1, e2 := EntryOf(t[0], exist), EntryOf(t[1], exist), EntryOf(t[2], exist);
    assert t[..1][..0] == [] && t[..2][..1] == t[..1] && t[..3][..2] == t[..2] && t[..3] == t;
    var f1 := FeedOf(t[..1], exist);
    assert FeedOf(t[..1][..0], exist) == [];
    assert f1 == Store([], "unzip", e0);
    assert f1 == [("unzip", e0)];
    var f2 := FeedOf(t[..2], exist);
    assert Keys(f1) == ["unzip"];
    assert f2 == [("unzip", e0), ("docker", e1)];
    assert Keys(f2) == ["unzip", "docker"];
    var f3 := Store(f2, "docker", e2);
    assert f3 == [("unzip", e0), ("docker", e2)];
  }

  lemma {:induction false} MissingEmpty(e: Entries)
    ensures Missing(e) == [] <==> General(e)
  {
    if |e| > 0 {
      MissingEmpty(e[..|e| - 1]);
      assert forall i :: 0 <= i < |e| - 1 ==> e[..|e| - 1][i] == e[i];
    }
  }

  lemma {:induction false} NameMissing(e: Entries, n: string)
    ensures n in Missing(e) <==> exists i :: 0 <= i < |e| && !e[i].1.check && e[i].1.name == n
  {
    if |e| > 0 {
      NameMissing(e[..|e| - 1], n);
      assert forall i :: 0 <= i < |e| - 1 ==> e[..|e| - 1][i] == e[i];
    }
  }

  // ---- the methods ----

  /** `getFeed` */
  method GetFeed(extra: Option<seq<CommandSpec>>, exist: (string, seq<string>) -> bool) returns (feed: Feed)
    ensures feed.commands == FeedOf(TotalCommands(extra), exist)
    ensures feed.general == General(feed.commands)
  {
    var total := TotalCommands(extra);
    var commands := StoreAll(total, exist);
    var general := AllPresent(commands);
    feed := Feed(general, commands);
  }

  /** The `totalCommandsToCheck.forEach((item) => …)` loop: each item's
      entry stored under its command, in order. */
  method StoreAll(total: seq<CommandSpec>, exist: (string, seq<string>) -> bool) returns (commands: Entries)
    ensures commands == FeedOf(total, exist)
  {
    commands := [];
    for i := 0 to |total|
      invariant commands == FeedOf(total[..i], exist)
    {
      assert total[..i + 1][..i] == total[..i];
      commands := Store(commands, total[i].cmd, EntryOf(total[i], exist));
    }
    assert total[..|total|] == total;
  }

  /** The loop that computes `general`: false at the first failed check. */
  method AllPresent(commands: Entries) returns (general: bool)
    ensures general == General(commands)
  {
    general := true;
    var i := 0;
    while i < |commands|
      invariant 0 <= i <= |commands|
      invariant general ==> forall j :: 0 <= j < i ==> commands[j].1.check
      invariant !general ==> !General(commands)
      decreases |commands| - i, general
    {
      if !commands[i].1.check {
        general := false;
        break;
      }
      i := i + 1;
    }
  }

  /** `check`: nothing when every dependency is there, otherwise the failing
      names in key order. */
  method Check(extra: Option<seq<CommandSpec>>, exist: (string, seq<string>) -> bool) returns (r: Result<()>)
    ensures var e := FeedOf(TotalCommands(extra), exist);
      if General(e) then r == Ok(()) else r == Err(MissingMessage(Missing(e)))
  {
    var feed := GetFeed(extra, exist);
    if feed.general {
      return Ok(());
    }
    var keys := feed.commands;
    var missing: seq<string> := [];
    for i := 0 to |keys|
      invariant missing == Missing(keys[..i])
    {
      assert keys[..i + 1][..i] == keys[..i];
      if keys[i].1.check {
        continue;
      }
      missing := missing + [keys[i].1.name];
    }
    assert keys[..|keys|] == keys;
    r := Err(MissingMessage(missing));
  }
}
