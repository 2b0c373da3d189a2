/** `parseCliArgs`: command-line arguments split into boolean flags,
    key-value pairs and positional arguments, and the command phrase picked
    out of the positional ones. The known phrases (`COMMANDS_META`) are a
    parameter. */
module CliParser {
  import opened Wrappers
  import opened JsString

  /** `[A-z0-9-]`; the range `A-z` also takes in ``[\]^_` ``. */
  predicate IsFlagChar(c: char) {
    ('A' <= c <= 'z') || ('0' <= c <= '9') || c == '-'
  }

  /** End of the run of flag characters that starts at `i`. */
  function RunEnd(v: string, i: nat): (k: nat)
    requires i <= |v|
    ensures i <= k <= |v|
    ensures forall j :: i <= j < k ==> IsFlagChar(v[j])
    ensures k < |v| ==> !IsFlagChar(v[k])
    decreases |v| - i
  {
    if i < |v| && IsFlagChar(v[i]) then RunEnd(v, i + 1) else i
  }

  /** `/^(--|-)([A-z0-9-]+)/.test(v) && !/=+/.test(v)` */
  predicate IsBoolean(v: string) {
    |v| >= 2 && v[0] == '-' && IsFlagChar(v[1]) && '=' !in v
  }

  /** `/^(--|-)([A-z0-9-]+)(=.*)/.test(v)`: the flag characters after the dash
      are followed by `=`. */
  predicate IsKeyValue(v: string) {
    |v| >= 2 && v[0] == '-' && var k := RunEnd(v, 1); k >= 2 && k < |v| && v[k] == '='
  }

  /** `v.replace(/^(--|-)/, '')` */
  function StripDashes(v: string): (r: string)
    ensures EndsWith(v, r) && |v| - 2 <= |r| <= |v|
  {
    if StartsWith(v, "--") then v[2..] else if StartsWith(v, "-") then v[1..] else v
  }

  datatype Kind = Flag(name: string) | Pair(key: string, value: string) | Positional

  /** Where one argument goes. */
  function KindOf(v: string): Kind {
    if IsBoolean(v) then Flag(StripDashes(v))
    else if IsKeyValue(v) then
      var e := IndexOfChar(v, '=');
      Pair(StripDashes(v[..e]), v[e + 1..])
    else Positional
  }

  /** The three lists after the first `forEach`. */
  datatype Buckets = Buckets(boolean: seq<string>, keyValue: seq<(string, string)>, args: seq<string>)

  function Place(b: Buckets, v: string): Buckets {
    match KindOf(v)
    case Flag(name) => if name in b.boolean then b else b.(boolean := b.boolean + [name])
    case Pair(key, value) => b.(keyValue := b.keyValue + [(key, value)])
    case Positional => b.(args := b.args + [v])
  }

  function Classify(vs: seq<string>): Buckets
    decreases |vs|
  {
    if |vs| == 0 then Buckets([], [], []) else Place(Classify(vs[..|vs| - 1]), vs[|vs| - 1])
  }

  // ---- what the classification promises ----

  /** An argument that contains `=` anywhere is never a flag. */
  lemma EqualsIsNeverFlag(v: string)
    requires '=' in v
    ensures !KindOf(v).Flag?
  {
  }

  /** The dashes `StripDashes` takes off. */
  function Dashes(v: string): string {
    if StartsWith(v, "--") then "--" else if StartsWith(v, "-") then "-" else ""
  }

  lemma DashesThenRest(v: string)
    ensures v == Dashes(v) + StripDashes(v)
    ensures |v| > 0 && v[0] == '-' ==> Dashes(v) in {"-", "--"}
  {
    if StartsWith(v, "--") {
      assert v == v[..2] + v[2..];
    } else if StartsWith(v, "-") {
      assert v == v[..1] + v[1..];
    } else {
      assert v == "" + v;
    }
  }

  /** A pair is split at the first `=`: dashes, the key, `=`, the value. */
  lemma PairSplitsAtFirstEquals(v: string)
    requires KindOf(v).Pair?
    ensures var e := IndexOfChar(v, '=');
      && e >= 1 && Dashes(v[..e]) in {"-", "--"}
      && v == Dashes(v[..e]) + KindOf(v).key + "=" + KindOf(v).value
    ensures '=' !in KindOf(v).key
  {
    var e := IndexOfChar(v, '=');
    assert v[RunEnd(v, 1)] == '=';
    assert e >= 1 by {
      assert v[0] == '-';
    }
    var head := v[..e];
    DashesThenRest(head);
    assert v == head + "=" + v[e + 1..];
    NoEqualsInKey(head);
  }

  lemma NoEqualsInKey(head: string)
    requires '=' !in head
    ensures '=' !in StripDashes(head)
  {
    var k := StripDashes(head);
    forall j | 0 <= j < |k|
      ensures k[j] != '='
    {
      assert k[j] == head[|head| - |k| + j];
    }
  }

  /** The flags are distinct. */
  predicate NoDuplicates(s: seq<string>) {
    forall i, j :: 0 <= i < j < |s| ==> s[i] != s[j]
  }

  /** Some argument of `vs` is the flag `name`. */
  predicate HasFlagArg(vs: seq<string>, name: string) {
    exists i :: 0 <= i < |vs| && KindOf(vs[i]) == Flag(name)
  }

  /** Every argument lands in its own bucket: each flag name once, each pair
      and each positional argument in order; and nothing else is there. */
  lemma ClassifyContents(vs: seq<string>)
    ensures var b := Classify(vs);
      && NoDuplicates(b.boolean)
      && (forall name :: name in b.boolean <==> HasFlagArg(vs, name))
      && b.keyValue == PairsOf(vs)
      && b.args == PositionalsOf(vs)
  {
    ClassifyFlags(vs);
    ClassifyLists(vs);
  }

  lemma {:induction false} ClassifyLists(vs: seq<string>)
    ensures Classify(vs).keyValue == PairsOf(vs) && Classify(vs).args == PositionalsOf(vs)
    decreases |vs|
  {
    if |vs| > 0 {
      ClassifyLists(vs[..|vs| - 1]);
    }
  }

  lemma {:induction false} ClassifyFlags(vs: seq<string>)
    ensures NoDuplicates(Classify(vs).boolean)
    ensures forall name :: name in Classify(vs).boolean <==> HasFlagArg(vs, name)
    decreases |vs|
  {
    if |vs| > 0 {
      ClassifyFlags(vs[..|vs| - 1]);
      FlagStep(vs, vs[..|vs| - 1]);
    }
  }

  /** One more argument keeps the flag list distinct and complete. */
  lemma FlagStep(vs: seq<string>, init: seq<string>)
    requires |vs| > 0 && init == vs[..|vs| - 1]
    requires NoDuplicates(Classify(init).boolean)
    requires forall name :: name in Classify(init).boolean <==> HasFlagArg(init, name)
    ensures NoDuplicates(Classify(vs).boolean)
    ensures forall name :: name in Classify(vs).boolean <==> HasFlagArg(vs, name)
  {
    var before := Classify(init).boolean;
    var k := KindOf(vs[|vs| - 1]);
    var after := Classify(vs).boolean;
    assert after == if k.Flag? && k.name !in before then before + [k.name] else before;
    if k.Flag? && k.name !in before {
      NoDuplicatesSnoc(before, k.name);
    }
    forall name
      ensures name in after <==> HasFlagArg(vs, name)
    {
      HasFlagArgSnoc(vs, name);
    }
  }

  lemma HasFlagArgSnoc(vs: seq<string>, name: string)
    requires |vs| > 0
    ensures HasFlagArg(vs, name) <==> HasFlagArg(vs[..|vs| - 1], name) || KindOf(vs[|vs| - 1]) == Flag(name)
  {
    var init := vs[..|vs| - 1];
    if HasFlagArg(vs, name) {
      var i :| 0 <= i < |vs| && KindOf(vs[i]) == Flag(name);
      if i < |vs| - 1 {
        assert init[i] == vs[i];
      }
    }
    if HasFlagArg(init, name) {
      var i :| 0 <= i < |init| && KindOf(init[i]) == Flag(name);
      assert vs[i] == init[i];
    }
  }

  lemma NoDuplicatesSnoc(s: seq<string>, x: string)
    requires NoDuplicates(s) && x !in s
    ensures NoDuplicates(s + [x])
  {
  }

  /** The pairs of an argument list, in order. */
  function PairsOf(vs: seq<string>): seq<(string, string)>
    decreases |vs|
  {
    if |vs| == 0 then []
    else
      var k := KindOf(vs[|vs| - 1]);
      PairsOf(vs[..|vs| - 1]) + (if k.Pair? then [(k.key, k.value)] else [])
  }

  /** The positional arguments of an argument list, in order. */
  function PositionalsOf(vs: seq<string>): seq<string>
    decreases |vs|
  {
    if |vs| == 0 then []
    else PositionalsOf(vs[..|vs| - 1]) + (if KindOf(vs[|vs| - 1]).Positional? then [vs[|vs| - 1]] else [])
  }

  /** Each argument goes to exactly one bucket: the pairs and positionals
      together with the flag arguments account for all of them. */
  lemma {:induction false} BucketsPartition(vs: seq<string>)
    ensures |PairsOf(vs)| + |PositionalsOf(vs)| + FlagCount(vs) == |vs|
    decreases |vs|
  {
    if |vs| > 0 {
      BucketsPartition(vs[..|vs| - 1]);
    }
  }

  function FlagCount(vs: seq<string>): nat
    decreases |vs|
  {
    if |vs| == 0 then 0 else FlagCount(vs[..|vs| - 1]) + (if KindOf(vs[|vs| - 1]).Flag? then 1 else 0)
  }

  // ---- the command phrase ----

  /** One step of the inner `forEach`: `prefix` is `argCmd` after the push. */
  function Candidate(phrase: string, cmd: string, prefix: seq<string>): string {
    if StartsWith(cmd, Join(prefix, " ")) && |prefix| >= |Split(phrase, ' ')| then Join(prefix, " ")
    else phrase
  }

  /** The phrase after the first `n` steps of the inner loop for `cmd`. */
  function AfterPrefixes(phrase: string, cmd: string, args: seq<string>, n: nat): string
    requires n <= |args|
  {
    if n == 0 then phrase else Candidate(AfterPrefixes(phrase, cmd, args, n - 1), cmd, args[..n])
  }

  /** The phrase after the outer loop over the known phrases. */
  function AfterCommands(cmds: seq<string>, args: seq<string>): string
    decreases |cmds|
  {
    if |cmds| == 0 then "" else AfterPrefixes(AfterCommands(cmds[..|cmds| - 1], args), cmds[|cmds| - 1], args, |args|)
  }

  /** The chosen phrase is empty, or the first `n >= 1` positional
      arguments joined by spaces that some known phrase starts with. */
  predicate IsPhraseOf(phrase: string, cmds: seq<string>, args: seq<string>) {
    phrase == "" || exists n, c :: 1 <= n <= |args| && 0 <= c < |cmds|
                                && phrase == Join(args[..n], " ") && StartsWith(cmds[c], phrase)
  }

  lemma {:induction false} AfterPrefixesIsPhrase(phrase: string, cmds: seq<string>, c: nat, args: seq<string>, n: nat)
    requires c < |cmds| && n <= |args|
    requires IsPhraseOf(phrase, cmds, args)
    ensures IsPhraseOf(AfterPrefixes(phrase, cmds[c], args, n), cmds, args)
  {
    if n > 0 {
      AfterPrefixesIsPhrase(phrase, cmds, c, args, n - 1);
      var before := AfterPrefixes(phrase, cmds[c], args, n - 1);
      var joined := Join(args[..n], " ");
      if StartsWith(cmds[c], joined) && |args[..n]| >= |Split(before, ' ')| {
        assert AfterPrefixes(phrase, cmds[c], args, n) == joined;
        assert 1 <= n <= |args| && 0 <= c < |cmds| && StartsWith(cmds[c], joined);
      } else {
        assert AfterPrefixes(phrase, cmds[c], args, n) == before;
      }
    }
  }

  lemma {:induction false} CommandPhraseIsPrefix(cmds: seq<string>, args: seq<string>, all: seq<string>)
    requires |cmds| <= |all| && cmds == all[..|cmds|]
    ensures IsPhraseOf(AfterCommands(cmds, args), all, args)
    decreases |cmds|
  {
    if |cmds| > 0 {
      var n := |cmds| - 1;
      CommandPhraseIsPrefix(cmds[..n], args, all);
      assert all[n] == cmds[n];
      AfterPrefixesIsPhrase(AfterCommands(cmds[..n], args), all, n, args, |args|);
    }
  }

  /** `args.filter((v, i) => v !== words[i])`, where a missing word keeps
      the argument. */
  function WithoutPhrase(args: seq<string>, words: seq<string>, from: nat): seq<string>
    decreases |args| - from
  {
    if from >= |args| then []
    else (if from < |words| && args[from] == words[from] then [] else [args[from]])
         + WithoutPhrase(args, words, from + 1)
  }

  /** When the phrase is the first `n` positional arguments and none of them
      holds a space, exactly those `n` are taken out. */
  lemma PhraseWordsRemoved(args: seq<string>, n: nat)
    requires 1 <= n <= |args|
    requires forall i :: 0 <= i < n ==> ' ' !in args[i]
    ensures WithoutPhrase(args, Split(Join(args[..n], " "), ' '), 0) == args[n..]
  {
    SplitJoin(args[..n], ' ');
    DropMatching(args, args[..n], 0);
  }

  lemma {:induction false} DropMatching(args: seq<string>, words: seq<string>, from: nat)
    requires from <= |args| && |words| <= |args| && words == args[..|words|]
    ensures WithoutPhrase(args, words, from) == args[if from <= |words| then |words| else from..]
    decreases |args| - from
  {
    if from < |args| {
      DropMatching(args, words, from + 1);
      if from < |words| {
        assert args[from] == words[from];
      } else {
        assert args[from..] == [args[from]] + args[from + 1..];
      }
    }
  }

  // ---- the parsed object ----

  /** The three quote characters `getKV` strips. */
  predicate IsQuote(c: char) {
    c == '\'' || c == '"' || c == '`'
  }

  /** One leading and one trailing quote character removed, when present. */
  function StripQuotes(v: string): string {
    var a := if |v| > 0 && IsQuote(v[0]) then v[1..] else v;
    if |a| > 0 && IsQuote(a[|a| - 1]) then a[..|a| - 1] else a
  }

  /** A value quoted on both sides loses exactly its two quotes; one without
      quotes at its ends is kept. */
  lemma StripQuotesRoundTrip(q: char, inner: string, p: char)
    requires IsQuote(q) && IsQuote(p)
    ensures StripQuotes([q] + inner + [p]) == inner
    ensures |inner| > 0 && !IsQuote(inner[0]) && !IsQuote(inner[|inner| - 1]) ==> StripQuotes(inner) == inner
  {
    var v := [q] + inner + [p];
    assert v[1..] == inner + [p];
    assert (inner + [p])[..|inner|] == inner;
  }

  /** Pairs whose key is searched for get their value stripped; the rest
      stay as they are. */
  function StripSearched(kv: seq<(string, string)>, keys: seq<string>): (r: seq<(string, string)>)
    ensures |r| == |kv|
    ensures forall i :: 0 <= i < |kv| ==>
      r[i] == if kv[i].0 in keys then (kv[i].0, StripQuotes(kv[i].1)) else kv[i]
  {
    seq(|kv|, i requires 0 <= i < |kv| => if kv[i].0 in keys then (kv[i].0, StripQuotes(kv[i].1)) else kv[i])
  }

  function Selected(kv: seq<(string, string)>, keys: seq<string>): (r: seq<(string, string)>)
    ensures forall p :: p in r <==> p in kv && p.0 in keys
    decreases |kv|
  {
    if |kv| == 0 then []
    else Selected(kv[..|kv| - 1], keys) + (if kv[|kv| - 1].0 in keys then [kv[|kv| - 1]] else [])
  }

  datatype Condition = And | Or

  /** The value `parseCliArgs` returns, with its two closures. */
  class ParsedArgs {
    var commandPhrase: string
    var boolean: seq<string>
    var keyValue: seq<(string, string)>
    var args: seq<string>
    const primitive: seq<string>

    constructor(primitive: seq<string>, commandPhrase: string, b: Buckets, args: seq<string>)
      ensures this.primitive == primitive && this.commandPhrase == commandPhrase
      ensures boolean == b.boolean && keyValue == b.keyValue && this.args == args
    {
      this.primitive := primitive;
      this.commandPhrase := commandPhrase;
      boolean := b.boolean;
      keyValue := b.keyValue;
      this.args := args;
    }

    /** `hasBoolean`: with `AND`, a non-empty search all of whose flags were
        given; with `OR`, a search one of whose flags was given. */
    method HasBoolean(search: seq<string>, condition: Condition) returns (result: bool)
      ensures condition == And ==> (result <==> |search| > 0 && forall i :: 0 <= i < |search| ==> search[i] in boolean)
      ensures condition == Or ==> (result <==> exists i :: 0 <= i < |search| && search[i] in boolean)
    {
      result := false;
      var founded: seq<string> := [];
      for i := 0 to |search|
        invariant forall x :: x in founded <==> x in search[..i] && x in boolean
      {
        if search[i] in boolean {
          founded := founded + [search[i]];
        }
      }
      assert search[..|search|] == search;
      assert forall k :: 0 <= k < |search| ==> (search[k] in founded <==> search[k] in boolean) by {
        forall k | 0 <= k < |search|
          ensures search[k] in founded <==> search[k] in boolean
        {
          assert search[k] in search;
        }
      }
      var i := 0;
      while i < |search|
        invariant 0 <= i <= |search|
        invariant condition == And ==> (result <==> i > 0) && forall k :: 0 <= k < i ==> search[k] in boolean
        invariant condition == Or ==> !result && forall k :: 0 <= k < i ==> search[k] !in boolean
      {
        if condition == And {
          if search[i] !in founded {
            result := false;
            return;
          } else if result == false {
            // the `continue` here only skips to the next index
            result := true;
          }
        } else if condition == Or && result == false && search[i] in founded {
          result := true;
          return;
        }
        i := i + 1;
      }
    }

    /** `getKV('*')`: every pair, in insertion order. */
    method GetAllKV() returns (r: seq<(string, string)>)
      ensures r == keyValue
    {
      r := keyValue;
    }

    /** `getKV(keys)`: the pairs with those keys. Their values are stripped
        of one quote at each end in the stored pairs themselves, so asking
        again strips again. */
    method GetKV(keys: seq<string>) returns (r: seq<(string, string)>)
      modifies this
      ensures keyValue == StripSearched(old(keyValue), keys)
      ensures r == Selected(keyValue, keys)
      ensures boolean == old(boolean) && args == old(args) && commandPhrase == old(commandPhrase)
    {
      var i := 0;
      while i < |keyValue|
        invariant 0 <= i <= |keyValue| == |old(keyValue)|
        invariant forall j :: 0 <= j < i ==> keyValue[j] == StripSearched(old(keyValue), keys)[j]
        invariant forall j :: i <= j < |keyValue| ==> keyValue[j] == old(keyValue)[j]
        invariant boolean == old(boolean) && args == old(args) && commandPhrase == old(commandPhrase)
      {
        if keyValue[i].0 in keys {
          keyValue := keyValue[i := (keyValue[i].0, StripQuotes(keyValue[i].1))];
        }
        i := i + 1;
      }
      r := Selected(keyValue, keys);
    }
  }

  /** The parsed value, as a function of the arguments and the known phrases. */
  function Parse(denoArgs: seq<string>, phrases: seq<string>): (Buckets, string, seq<string>) {
    var b := Classify(denoArgs);
    var phrase := AfterCommands(phrases, b.args);
    (b, phrase, WithoutPhrase(b.args, Split(phrase, ' '), 0))
  }

  /** `parseCliArgs` */
  method ParseCliArgs(denoArgs: seq<string>, phrases: seq<string>) returns (p: ParsedArgs)
    ensures fresh(p)
    ensures var (b, phrase, rest) := Parse(denoArgs, phrases);
      && p.boolean == b.boolean && p.keyValue == b.keyValue
      && p.commandPhrase == phrase && p.args == rest && p.primitive == denoArgs
  {
    var b := ClassifyLoop(denoArgs);
    var phrase := PhraseLoop(phrases, b.args);
    p := new ParsedArgs(denoArgs, phrase, b, WithoutPhrase(b.args, Split(phrase, ' '), 0));
  }

  /** The `for (const arg of denoArgs)` loop of `parseCliArgs`. */
  method ClassifyLoop(denoArgs: seq<string>) returns (b: Buckets)
    ensures b == Classify(denoArgs)
  {
    b := Buckets([], [], []);
    for i := 0 to |denoArgs|
      invariant b == Classify(denoArgs[..i])
    {
      assert denoArgs[..i + 1][..i] == denoArgs[..i];
      b := Place(b, denoArgs[i]);
    }
    assert denoArgs[..|denoArgs|] == denoArgs;
  }

  /** The loop over the known command phrases. */
  method PhraseLoop(phrases: seq<string>, args: seq<string>) returns (phrase: string)
    ensures phrase == AfterCommands(phrases, args)
  {
    phrase := "";
    for c := 0 to |phrases|
      invariant phrase == AfterCommands(phrases[..c], args)
    {
      assert phrases[..c + 1][..c] == phrases[..c];
      phrase := PrefixLoop(phrase, phrases[c], args);
    }
    assert phrases[..|phrases|] == phrases;
  }

  /** The inner loop: every prefix of the positional arguments that the
      phrase `cmd` starts with and that is at least as long as the current
      choice replaces it. */
  method PrefixLoop(start: string, cmd: string, args: seq<string>) returns (phrase: string)
    ensures phrase == AfterPrefixes(start, cmd, args, |args|)
  {
    phrase := start;
    var argCmd: seq<string> := [];
    for n := 0 to |args|
      invariant argCmd == args[..n]
      invariant phrase == AfterPrefixes(start, cmd, args, n)
    {
      argCmd := argCmd + [args[n]];
      assert argCmd == args[..n + 1];
      if StartsWith(cmd, Join(argCmd, " ")) && |argCmd| >= |Split(phrase, ' ')| {
        phrase := Join(argCmd, " ");
      }
    }
  }
}
