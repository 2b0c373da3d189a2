/** `classLogger`: its configuration, the in-memory archive of log lines
    and the text handed to the console. `JSON.stringify`, `JSON.parse`, the
    byte weight of the archive, the clock and the ANSI colour strings are
    parameters. */
module Logging {
  import opened Wrappers
  import opened JsString
  import opened JsonValue

  const Megabyte := 1024 * 1024

  /** The options the constructor accepts; `None` is an omitted option. */
  datatype Options = Options(omitStorage: Option<bool>, maxWeight: Option<int>,
                             displayDebug: Option<bool>, displayDate: Option<bool>)

  /** What `getLogLine` returns and the archive keeps. */
  datatype LogLine = LogLine(message: string, logType: string)

  /** The entries of `ansiColors` the logger uses. */
  datatype Palette = Palette(reset: string, magenta: string, red: string, cyan: string,
                             green: string, dim: string)

  /** What `primaryLogFunction` hands to its console callback. */
  datatype Output = Output(header: string, data: seq<Json>)

  /** `config.maxWeight`: the option when it is at least one megabyte. */
  function MaxWeight(given: Option<int>): (r: int)
    ensures r >= Megabyte
    ensures given.Some? && given.value >= Megabyte ==> r == given.value
    ensures given.None? || given.value < Megabyte ==> r == Megabyte
  {
    if given.Some? && given.value != 0 && given.value >= Megabyte then given.value else Megabyte
  }

  predicate IsDebug(logType: string) {
    logType == "debug" || logType == "debugVar" || logType == "debugFn"
  }

  /** `getMessageColor` */
  function MessageColor(c: Palette, logType: string): string {
    if IsDebug(logType) then c.magenta
    else if logType == "error" then c.red
    else if logType == "info" then c.cyan
    else if logType == "success" then c.green
    else c.reset
  }

  predicate Distinct(c: Palette) {
    && c.reset != c.magenta && c.reset != c.red && c.reset != c.cyan && c.reset != c.green
    && c.magenta != c.red && c.magenta != c.cyan && c.magenta != c.green
    && c.red != c.cyan && c.red != c.green && c.cyan != c.green
  }

  /** With distinct colours, each colour belongs to exactly its log types;
      `log` and every unknown type get the reset colour. */
  lemma ColorsByType(c: Palette, logType: string)
    requires Distinct(c)
    ensures MessageColor(c, logType) == c.magenta <==> IsDebug(logType)
    ensures MessageColor(c, logType) == c.red <==> logType == "error"
    ensures MessageColor(c, logType) == c.cyan <==> logType == "info"
    ensures MessageColor(c, logType) == c.green <==> logType == "success"
    ensures MessageColor(c, logType) == c.reset <==>
      !IsDebug(logType) && logType !in {"error", "info", "success"}
  {
  }

  /** One leading and one trailing `"` removed, when present. */
  function Unquote(s: string): string {
    DropTail(DropHead(s))
  }

  /** A leading `"` is sliced off. */
  function DropHead(s: string): string {
    if StartsWith(s, "\"") then s[1..] else s
  }

  /** A trailing `"` is sliced off. */
  function DropTail(a: string): string {
    if EndsWith(a, "\"") then a[..|a| - 1] else a
  }

  predicate QuoteOrNothing(p: string) {
    p == "" || p == "\""
  }

  /** `Unquote` takes off at most one quote at each end and nothing else:
      the text is `p + Unquote(s) + q` with `p` and `q` each empty or `"`. */
  lemma UnquoteShape(s: string) returns (p: string, q: string)
    ensures QuoteOrNothing(p) && QuoteOrNothing(q) && s == p + Unquote(s) + q
  {
    var a := DropHead(s);
    p := QuoteHead(s);
    q := QuoteTail(a);
    Regroup(s, p, a, DropTail(a), q);
  }

  lemma Regroup(s: string, p: string, a: string, b: string, q: string)
    requires s == p + a && a == b + q
    ensures s == p + b + q
  {
  }

  lemma QuoteHead(s: string) returns (p: string)
    ensures QuoteOrNothing(p)
    ensures s == p + DropHead(s)
  {
    if StartsWith(s, "\"") {
      p := "\"";
      assert s == [s[0]] + s[1..];
    } else {
      p := "";
    }
  }

  lemma QuoteTail(a: string) returns (q: string)
    ensures QuoteOrNothing(q)
    ensures a == DropTail(a) + q
  {
    if EndsWith(a, "\"") {
      q := "\"";
      assert a == a[..|a| - 1] + [a[|a| - 1]];
    } else {
      q := "";
      assert a + "" == a;
    }
  }

  /** A JSON string literal without inner quotes at its ends loses exactly
      its two delimiters. */
  lemma UnquoteLiteral(t: string)
    ensures Unquote("\"" + t + "\"") == t
  {
    var s := "\"" + t + "\"";
    assert s[1..] == t + "\"";
    assert (t + "\"")[..|t|] == t;
  }

  /** The items of a `getLogLine` message. */
  function Rendered(data: seq<Json>, stringify: Json -> string): (r: seq<string>)
    ensures |r| == |data|
    ensures forall i :: 0 <= i < |data| ==> r[i] == Unquote(stringify(data[i]))
  {
    seq(|data|, i requires 0 <= i < |data| => Unquote(stringify(data[i])))
  }

  /** `getLogLine` */
  function GetLogLine(logType: string, data: seq<Json>, stringify: Json -> string): (r: LogLine)
    ensures r.logType == logType
    ensures r.message == Join(Rendered(data, stringify), ", ")
  {
    LogLine(Join(Rendered(data, stringify), ", "), logType)
  }

  /** A string longer than 200 characters, cut to 197 plus an ellipsis;
      anything else as it is. */
  function Truncate(d: Json): (r: Json)
    ensures d.Str? ==> r.Str? && |r.s| <= 200
    ensures d.Str? && |d.s| > 200 ==> r == Str(d.s[..197] + "...")
    ensures !(d.Str? && |d.s| > 200) ==> r == d
  {
    if d.Str? && |d.s| > 200 then Str(d.s[..197] + "...") else d
  }

  /** `truncateLogData` */
  function TruncateLogData(data: seq<Json>): (r: seq<Json>)
    ensures |r| == |data|
    ensures forall i :: 0 <= i < |data| ==> r[i] == Truncate(data[i])
  {
    seq(|data|, i requires 0 <= i < |data| => Truncate(data[i]))
  }

  /** Truncation never lengthens a string, keeps every short string and
      every non-string, and truncating twice is truncating once. */
  lemma TruncateBounds(d: Json)
    ensures d.Str? ==> |Truncate(d).s| <= |d.s| && StartsWith(d.s, Truncate(d).s[..Min(|d.s|, 197)])
    ensures Truncate(Truncate(d)) == Truncate(d)
  {
  }

  function Min(a: int, b: int): int {
    if a < b then a else b
  }

  // ---- secret masking ----

  /** `new Array(n).fill('*').join('')` */
  function Mask(secret: string): string {
    Repeat('*', |secret|)
  }

  /** `s.replaceAll(t, Mask(t))`: every occurrence, scanning left to right
      without overlaps. An empty secret leaves the text as it is. */
  function ReplaceAll(s: string, t: string): (r: string)
    decreases |s|
  {
    if |t| == 0 || |s| == 0 then s
    else if OccursAt(s, t, 0) then Mask(t) + ReplaceAll(s[|t|..], t)
    else [s[0]] + ReplaceAll(s[1..], t)
  }

  /** Masking keeps the length and changes characters only to `*`. */
  lemma {:induction false} ReplaceAllPointwise(s: string, t: string)
    ensures |ReplaceAll(s, t)| == |s|
    ensures forall j :: 0 <= j < |s| ==> ReplaceAll(s, t)[j] == s[j] || ReplaceAll(s, t)[j] == '*'
    decreases |s|
  {
    if |t| == 0 || |s| == 0 {
    } else if OccursAt(s, t, 0) {
      ReplaceAllPointwise(s[|t|..], t);
      var r := ReplaceAll(s, t);
      forall j | 0 <= j < |s|
        ensures r[j] == s[j] || r[j] == '*'
      {
        if j >= |t| {
          assert r[j] == ReplaceAll(s[|t|..], t)[j - |t|];
        }
      }
    } else {
      ReplaceAllPointwise(s[1..], t);
      var r := ReplaceAll(s, t);
      forall j | 0 <= j < |s|
        ensures r[j] == s[j] || r[j] == '*'
      {
        if j >= 1 {
          assert r[j] == ReplaceAll(s[1..], t)[j - 1];
        }
      }
    }
  }

  /** Text without the secret is left unchanged. */
  lemma {:induction false} ReplaceAllAbsent(s: string, t: string)
    requires forall i :: !OccursAt(s, t, i)
    ensures ReplaceAll(s, t) == s
    decreases |s|
  {
    if |t| == 0 || |s| == 0 {
    } else {
      assert !OccursAt(s, t, 0);
      forall i
        ensures !OccursAt(s[1..], t, i)
      {
        if 0 <= i && i + |t| <= |s[1..]| {
          assert s[1..][i..i + |t|] == s[i + 1..i + 1 + |t|];
          assert !OccursAt(s, t, i + 1);
        }
      }
      ReplaceAllAbsent(s[1..], t);
    }
  }

  /** Pointwise masking cannot create an occurrence of a word without `*`. */
  lemma MaskingCreatesNothing(s: string, r: string, w: string, i: int)
    requires |r| == |s|
    requires forall j :: 0 <= j < |s| ==> r[j] == s[j] || r[j] == '*'
    requires '*' !in w
    ensures OccursAt(r, w, i) ==> OccursAt(s, w, i)
  {
    if OccursAt(r, w, i) {
      forall k | 0 <= k < |w|
        ensures s[i + k] == w[k]
      {
        assert r[i..i + |w|][k] == r[i + k];
        assert w[k] != '*';
      }
      assert s[i..i + |w|] == w;
    }
  }

  /** An occurrence past a prefix is an occurrence in what follows it. */
  lemma OccursPastPrefix(p: string, q: string, t: string, i: int)
    requires |p| <= i
    ensures OccursAt(p + q, t, i) <==> OccursAt(q, t, i - |p|)
  {
    if i + |t| <= |p + q| {
      assert (p + q)[i..i + |t|] == q[i - |p|..i - |p| + |t|];
    }
  }

  /** After masking, a non-empty secret without `*` occurs nowhere. */
  lemma {:induction false} ReplaceAllRemoves(s: string, t: string)
    requires |t| > 0 && '*' !in t
    ensures forall i :: !OccursAt(ReplaceAll(s, t), t, i)
    decreases |s|
  {
    if |s| == 0 {
    } else if OccursAt(s, t, 0) {
      ReplaceAllRemoves(s[|t|..], t);
      MaskedHeadClean(s, t);
    } else {
      ReplaceAllRemoves(s[1..], t);
      KeptHeadClean(s, t);
    }
  }

  /** The step of `ReplaceAllRemoves` where the text starts with the secret. */
  lemma MaskedHeadClean(s: string, t: string)
    requires |t| > 0 && '*' !in t && OccursAt(s, t, 0)
    requires forall i :: !OccursAt(ReplaceAll(s[|t|..], t), t, i)
    ensures forall i :: !OccursAt(ReplaceAll(s, t), t, i)
  {
    var rest := ReplaceAll(s[|t|..], t);
    var r := ReplaceAll(s, t);
    assert r == Mask(t) + rest;
    forall i | 0 <= i && i + |t| <= |r|
      ensures !OccursAt(r, t, i)
    {
      if i < |t| {
        assert r[i..i + |t|][0] == r[i] == '*';
        assert t[0] != '*';
      } else {
        OccursPastPrefix(Mask(t), rest, t, i);
      }
    }
  }

  /** The step of `ReplaceAllRemoves` where the first character is kept. */
  lemma KeptHeadClean(s: string, t: string)
    requires |t| > 0 && '*' !in t && |s| > 0 && !OccursAt(s, t, 0)
    requires forall i :: !OccursAt(ReplaceAll(s[1..], t), t, i)
    ensures forall i :: !OccursAt(ReplaceAll(s, t), t, i)
  {
    var rest := ReplaceAll(s[1..], t);
    var r := ReplaceAll(s, t);
    assert r == [s[0]] + rest;
    ReplaceAllPointwise(s, t);
    forall i | 0 <= i && i + |t| <= |r|
      ensures !OccursAt(r, t, i)
    {
      if i == 0 {
        MaskingCreatesNothing(s, r, t, 0);
      } else {
        OccursPastPrefix([s[0]], rest, t, i);
      }
    }
  }

  /** Every secret masked in turn, as the `for` loop of `hashSecrets` does. */
  function MaskedBy(s: string, secrets: seq<string>): string
    decreases |secrets|
  {
    if |secrets| == 0 then s else ReplaceAll(MaskedBy(s, secrets[..|secrets| - 1]), secrets[|secrets| - 1])
  }

  /** Masking every secret keeps the length and only turns characters to `*`. */
  lemma {:induction false} MaskedByPointwise(s: string, secrets: seq<string>)
    ensures |MaskedBy(s, secrets)| == |s|
    ensures forall j :: 0 <= j < |s| ==> MaskedBy(s, secrets)[j] == s[j] || MaskedBy(s, secrets)[j] == '*'
    decreases |secrets|
  {
    if |secrets| > 0 {
      var before := MaskedBy(s, secrets[..|secrets| - 1]);
      MaskedByPointwise(s, secrets[..|secrets| - 1]);
      ReplaceAllPointwise(before, secrets[|secrets| - 1]);
    }
  }

  /** No non-empty secret without `*` survives masking by all of them. */
  lemma {:induction false} MaskedByRemovesAll(s: string, secrets: seq<string>)
    requires forall k :: 0 <= k < |secrets| ==> |secrets[k]| > 0 && '*' !in secrets[k]
    ensures forall k, i :: 0 <= k < |secrets| ==> !OccursAt(MaskedBy(s, secrets), secrets[k], i)
    decreases |secrets|
  {
    if |secrets| > 0 {
      var n := |secrets| - 1;
      var init := secrets[..n];
      var before := MaskedBy(s, init);
      var after := MaskedBy(s, secrets);
      MaskedByRemovesAll(s, init);
      ReplaceAllRemoves(before, secrets[n]);
      ReplaceAllPointwise(before, secrets[n]);
      forall k, i | 0 <= k < |secrets|
        ensures !OccursAt(after, secrets[k], i)
      {
        if k < n {
          assert init[k] == secrets[k];
          assert !OccursAt(before, secrets[k], i);
          MaskingCreatesNothing(before, after, secrets[k], i);
        }
      }
    }
  }

  /** Text that holds no secret is not changed by masking. */
  lemma {:induction false} MaskedByAbsent(s: string, secrets: seq<string>)
    requires forall k :: 0 <= k < |secrets| ==> !Includes(s, secrets[k])
    ensures MaskedBy(s, secrets) == s
    decreases |secrets|
  {
    if |secrets| > 0 {
      var n := |secrets| - 1;
      MaskedByAbsent(s, secrets[..n]);
      ReplaceAllAbsent(s, secrets[n]);
    }
  }

  /** `stringContainsSecret` */
  predicate ContainsSecret(x: string, secrets: seq<string>) {
    exists k :: 0 <= k < |secrets| && Includes(x, secrets[k])
  }

  /** `stringContainsSecret`, with its loop and early return. */
  method StringContainsSecret(x: string, secrets: seq<string>) returns (r: bool)
    ensures r <==> ContainsSecret(x, secrets)
  {
    for i := 0 to |secrets|
      invariant forall k :: 0 <= k < i ==> !Includes(x, secrets[k])
    {
      if Includes(x, secrets[i]) {
        return true;
      }
    }
    return false;
  }

  /** The `for` loop of `hashSecrets` that masks one stringified item. */
  method MaskSecrets(s: string, secrets: seq<string>) returns (hashed: string)
    ensures hashed == MaskedBy(s, secrets)
  {
    hashed := s;
    for i := 0 to |secrets|
      invariant hashed == MaskedBy(s, secrets[..i])
    {
      assert secrets[..i + 1][..i] == secrets[..i];
      hashed := ReplaceAll(hashed, secrets[i]);
    }
    assert secrets[..|secrets|] == secrets;
  }

  /** One item of `hashSecrets`: a string is masked in place; any other value
      is stringified, masked and parsed back, or kept as the masked text when
      that no longer parses. */
  function HashItem(d: Json, secrets: seq<string>, stringify: Json -> string,
                    parse: string -> Option<Json>): Json
  {
    var text := if d.Str? then d.s else stringify(d);
    if !ContainsSecret(text, secrets) then d
    else
      var hashed := MaskedBy(text, secrets);
      if d.Str? then Str(hashed)
      else match parse(hashed)
        case Some(v) => v
        case None => Str(hashed)
  }

  /** `hashSecrets` */
  function HashSecrets(data: seq<Json>, secrets: seq<string>, stringify: Json -> string,
                       parse: string -> Option<Json>): (r: seq<Json>)
    ensures |r| == |data|
    ensures forall i :: 0 <= i < |data| ==> r[i] == HashItem(data[i], secrets, stringify, parse)
  {
    seq(|data|, i requires 0 <= i < |data| => HashItem(data[i], secrets, stringify, parse))
  }

  /** A string item keeps its length, loses every secret, and is untouched
      when it holds none. */
  lemma HashedStringHidesSecrets(s: string, secrets: seq<string>, stringify: Json -> string,
                                 parse: string -> Option<Json>)
    requires forall k :: 0 <= k < |secrets| ==> |secrets[k]| > 0 && '*' !in secrets[k]
    ensures var h := HashItem(Str(s), secrets, stringify, parse);
      && h.Str? && |h.s| == |s|
      && (forall k, i :: 0 <= k < |secrets| ==> !OccursAt(h.s, secrets[k], i))
      && (!ContainsSecret(s, secrets) ==> h == Str(s))
  {
    MaskedByPointwise(s, secrets);
    MaskedByRemovesAll(s, secrets);
    if !ContainsSecret(s, secrets) {
      forall k, i | 0 <= k < |secrets|
        ensures !OccursAt(s, secrets[k], i)
      {
        assert !Includes(s, secrets[k]);
      }
    }
  }

  // ---- the archive ----

  /** `keepLogsOptimized`: drop entries from the front while the archive
      weighs more than the limit (or nothing is left to drop). */
  function Trimmed(archive: seq<LogLine>, weight: seq<LogLine> -> nat, maxWeight: int): seq<LogLine>
    decreases |archive|
  {
    if |archive| == 0 || weight(archive) <= maxWeight then archive
    else Trimmed(archive[1..], weight, maxWeight)
  }

  /** The trimmed archive is the shortest-dropping suffix that fits: it keeps
      the newest entries in order, every longer suffix was too heavy, and it
      fits whenever an empty archive does. */
  lemma {:induction false} TrimmedIsFittingSuffix(archive: seq<LogLine>, weight: seq<LogLine> -> nat,
                                               maxWeight: int)
    ensures var t := Trimmed(archive, weight, maxWeight);
      && |t| <= |archive| && t == archive[|archive| - |t|..]
      && (forall j :: 0 <= j < |archive| - |t| ==> weight(archive[j..]) > maxWeight)
      && (weight([]) <= maxWeight ==> weight(t) <= maxWeight)
    decreases |archive|
  {
    if |archive| == 0 || weight(archive) <= maxWeight {
    } else {
      var rest := archive[1..];
      TrimmedIsFittingSuffix(rest, weight, maxWeight);
      var t := Trimmed(archive, weight, maxWeight);
      assert t == rest[|rest| - |t|..];
      assert rest[|rest| - |t|..] == archive[|archive| - |t|..];
      forall j | 0 <= j < |archive| - |t|
        ensures weight(archive[j..]) > maxWeight
      {
        if j > 0 {
          assert archive[j..] == rest[j - 1..];
        }
      }
    }
  }

  /** An archive that already fits is kept whole. */
  lemma TrimmedKeepsFitting(archive: seq<LogLine>, weight: seq<LogLine> -> nat, maxWeight: int)
    requires weight(archive) <= maxWeight
    ensures Trimmed(archive, weight, maxWeight) == archive
  {
  }

  /** The archive after `primaryLogFunction`: the line is pushed unless
      storage is omitted, then the archive is trimmed. */
  function Archived(archive: seq<LogLine>, line: LogLine, omitStorage: bool,
                    weight: seq<LogLine> -> nat, maxWeight: int): seq<LogLine>
  {
    Trimmed(if omitStorage then archive else archive + [line], weight, maxWeight)
  }

  /** A line lands in the archive exactly when storage is not omitted,
      whether or not it is shown, as long as the archive fits with it. */
  lemma ArchivedIffStored(archive: seq<LogLine>, line: LogLine, omitStorage: bool,
                          weight: seq<LogLine> -> nat, maxWeight: int)
    requires weight(archive + [line]) <= maxWeight && weight(archive) <= maxWeight
    ensures Archived(archive, line, omitStorage, weight, maxWeight)
            == (if omitStorage then archive else archive + [line])
    ensures !omitStorage <==> |Archived(archive, line, omitStorage, weight, maxWeight)| == |archive| + 1
  {
  }

  /** The first element of the console output of `primaryLogFunction`. */
  function Header(c: Palette, logType: string, displayDate: bool, date: string, caller: string): string {
    var color := MessageColor(c, logType);
    var extra := if IsDebug(logType) then " " + caller + "(...):" else "";
    (if displayDate then color + "[" + date + "]" + c.reset else "")
    + color + "[" + logType + "]:" + c.reset + c.dim + extra + c.reset
  }

  class Logger {
    var omitStorage: bool
    var maxWeight: int
    var displayDebug: bool
    var displayDate: bool
    var archive: seq<LogLine>
    /** `getSecrets()`: the secret key and the key derived from it. */
    const secrets: seq<string>
    /** UTF-8 byte length of `JSON.stringify(archive)`. */
    const weight: seq<LogLine> -> nat
    const stringify: Json -> string
    const parse: string -> Option<Json>
    const palette: Palette

    /** The limit is at least a megabyte, which an empty archive (`[]`, two
        bytes) always fits. */
    predicate Valid()
      reads this
    {
      maxWeight >= Megabyte && weight([]) <= 2
    }

    /** The constructor; its own debug line is written with storage turned
        off, so the archive starts empty. */
    constructor(options: Options, secrets: seq<string>, weight: seq<LogLine> -> nat,
                stringify: Json -> string, parse: string -> Option<Json>, palette: Palette)
      requires weight([]) == 2
      ensures Valid()
      ensures omitStorage == false && archive == []
      ensures maxWeight == MaxWeight(options.maxWeight)
      ensures displayDebug == options.displayDebug.GetOr(true)
      ensures displayDate == options.displayDate.GetOr(true)
      ensures this.secrets == secrets && this.weight == weight && this.stringify == stringify
      ensures this.parse == parse && this.palette == palette
    {
      this.secrets := secrets;
      this.weight := weight;
      this.stringify := stringify;
      this.parse := parse;
      this.palette := palette;
      omitStorage := options.omitStorage.GetOr(false);
      maxWeight := MaxWeight(options.maxWeight);
      displayDebug := options.displayDebug.GetOr(true);
      displayDate := options.displayDate.GetOr(true);
      archive := [];
      new;
      SetOmitStorage(true);
      var _ := PrimaryLog([Str("New Logger instance was created.")], "debug", "", "constructor");
      SetOmitStorage(false);
    }

    method SetOmitStorage(b: bool)
      modifies this
      ensures omitStorage == b
      ensures maxWeight == old(maxWeight) && displayDebug == old(displayDebug)
      ensures displayDate == old(displayDate) && archive == old(archive)
    {
      omitStorage := b;
    }

    method SetDisplayDebug(b: bool)
      modifies this
      ensures displayDebug == b
      ensures maxWeight == old(maxWeight) && omitStorage == old(omitStorage)
      ensures displayDate == old(displayDate) && archive == old(archive)
    {
      displayDebug := b;
    }

    method SetDisplayDate(b: bool)
      modifies this
      ensures displayDate == b
      ensures maxWeight == old(maxWeight) && omitStorage == old(omitStorage)
      ensures displayDebug == old(displayDebug) && archive == old(archive)
    {
      displayDate := b;
    }

    /** `keepLogsOptimized`, its recursion written as a loop. */
    method KeepLogsOptimized()
      requires Valid()
      modifies this
      ensures Valid()
      ensures archive == Trimmed(old(archive), weight, maxWeight)
      ensures maxWeight == old(maxWeight) && omitStorage == old(omitStorage)
      ensures displayDebug == old(displayDebug) && displayDate == old(displayDate)
    {
      while weight(archive) > maxWeight
        invariant Valid() && maxWeight == old(maxWeight)
        invariant Trimmed(archive, weight, maxWeight) == Trimmed(old(archive), weight, maxWeight)
        invariant omitStorage == old(omitStorage)
        invariant displayDebug == old(displayDebug) && displayDate == old(displayDate)
        decreases |archive|
      {
        assert archive != [];
        archive := archive[1..];
      }
    }

    /** `primaryLogFunction`. `date` is `formatDate(new Date())` and `caller`
        is `getCallingFunctionName()`, the name at the default offset 4 of the
        stack; `None` means nothing is printed. */
    method PrimaryLog(data: seq<Json>, logType: string, date: string, caller: string)
      returns (out: Option<Output>)
      requires Valid()
      modifies this
      ensures Valid()
      ensures var line := GetLogLine(logType, HashSecrets(data, secrets, stringify, parse), stringify);
        archive == Archived(old(archive), line, old(omitStorage), weight, maxWeight)
      ensures out.None? <==> IsDebug(logType) && !displayDebug
      ensures out.Some? ==> out.value == Output(Header(palette, logType, displayDate, date, caller),
                                                TruncateLogData(HashSecrets(data, secrets, stringify, parse)))
      ensures maxWeight == old(maxWeight) && omitStorage == old(omitStorage)
      ensures displayDebug == old(displayDebug) && displayDate == old(displayDate)
    {
      var hashed := HashSecrets(data, secrets, stringify, parse);
      var line := GetLogLine(logType, hashed, stringify);
      if !omitStorage {
        archive := archive + [line];
      }
      KeepLogsOptimized();
      var header := Header(palette, logType, displayDate, date, caller);
      var shown := TruncateLogData(hashed);
      if IsDebug(logType) && !displayDebug {
        return None;
      }
      return Some(Output(header, shown));
    }

    /** `debugVar`: the variable's name goes first. */
    method DebugVar(name: string, data: seq<Json>, date: string, caller: string)
      returns (out: Option<Output>)
      requires Valid()
      modifies this
      ensures Valid()
      ensures var d := [Str("Var \"" + name + "\":")] + data;
        var line := GetLogLine("debugVar", HashSecrets(d, secrets, stringify, parse), stringify);
        archive == Archived(old(archive), line, old(omitStorage), weight, maxWeight)
      ensures out.None? <==> !displayDebug
      ensures maxWeight == old(maxWeight) && omitStorage == old(omitStorage)
      ensures displayDebug == old(displayDebug) && displayDate == old(displayDate)
    {
      out := PrimaryLog([Str("Var \"" + name + "\":")] + data, "debugVar", date, caller);
    }

    /** `debugFn`: the call's arguments as one array, or nothing. */
    method DebugFn(args: seq<Json>, date: string, caller: string) returns (out: Option<Output>)
      requires Valid()
      modifies this
      ensures Valid()
      ensures var d := if |args| > 0 then [Str("Arguments:"), Arr(args)] else [];
        var line := GetLogLine("debugFn", HashSecrets(d, secrets, stringify, parse), stringify);
        archive == Archived(old(archive), line, old(omitStorage), weight, maxWeight)
      ensures out.None? <==> !displayDebug
      ensures maxWeight == old(maxWeight) && omitStorage == old(omitStorage)
      ensures displayDebug == old(displayDebug) && displayDate == old(displayDate)
    {
      out := PrimaryLog(if |args| > 0 then [Str("Arguments:"), Arr(args)] else [], "debugFn", date, caller);
    }

    /** `getAllLogs` */
    function GetAllLogs(): seq<LogLine>
      reads this
    {
      archive
    }

    /** `getLength` */
    function GetLength(): nat
      reads this
    {
      |archive|
    }

    /** `getLastLog`: `undefined` on an empty archive. */
    function GetLastLog(): (r: Option<LogLine>)
      reads this
      ensures r.None? <==> archive == []
      ensures r.Some? ==> r.value == archive[|archive| - 1]
    {
      if |archive| == 0 then None else Some(archive[|archive| - 1])
    }
  }
}
