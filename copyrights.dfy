/** The copyright task: find the `.ts` files under `src`, and give each one
    the current copyright header, adding it, refreshing an outdated one, or
    leaving an up-to-date one alone. The current year, the directory tree
    and the file contents are parameters. */
module Copyrights {
  import opened Wrappers
  import opened JsString

  type Files = map<string, string>

  /** The header for the current year: `// Copyright 2023-<year> the
      WPDucker authors. All rights reserved. MIT license.` */
  function Header(year: nat): string {
    Lead + "2023-" + NatToString(year) + Trail
  }

  // ---- the header pattern ----
  // `// Copyright [0-9]{1,}-[0-9]{1,} the WPDucker authors. All rights
  // reserved. MIT license.`, unanchored, with its three '.' unescaped.

  const Lead := "// Copyright "
  /** In pieces: the verifier reads the characters of short literals only. */
  const Trail := " the WPDucker" + " authors." + " All rights" + " reserved." + " MIT license."

  /** The characters a regular-expression '.' does not match. */
  const LineTerminators: set<char> := {'\n', '\r', '\U{2028}', '\U{2029}'}

  /** A pattern character against a text character: '.' takes any
      character but a line terminator, every other one only itself. */
  predicate CharMatches(p: char, c: char) {
    if p == '.' then c !in LineTerminators else c == p
  }

  /** The pattern piece `p` matches `s` at `i`. */
  predicate PieceAt(s: string, i: nat, p: string) {
    i + |p| <= |s| && forall k :: 0 <= k < |p| ==> CharMatches(p[k], s[i + k])
  }

  predicate IsDigit(c: char) {
    '0' <= c <= '9'
  }

  /** `s[from..to]` is all digits. */
  predicate AllDigits(s: string, from: nat, to: nat)
    requires from <= to <= |s|
  {
    forall k :: from <= k < to ==> IsDigit(s[k])
  }

  /** The length of the longest run of digits at `i`. */
  function DigitRun(s: string, i: nat): (r: nat)
    requires i <= |s|
    ensures i + r <= |s| && AllDigits(s, i, i + r)
    ensures i + r < |s| ==> !IsDigit(s[i + r])
    decreases |s| - i
  {
    if i < |s| && IsDigit(s[i]) then 1 + DigitRun(s, i + 1) else 0
  }

  /** Where the match that begins at `i` ends. Each digit run is taken
      whole: the character after it, '-' or ' ', is no digit, so a shorter
      run could not be followed by it. */
  function MatchEnd(s: string, i: nat): (r: Option<nat>)
    requires i <= |s|
    ensures r.Some? ==> i < r.value <= |s|
  {
    MatchEndWith(s, i, Lead, Trail)
  }

  /** The matcher for `<lead>[0-9]{1,}-[0-9]{1,}<trail>`. */
  function MatchEndWith(s: string, i: nat, lead: string, trail: string): (r: Option<nat>)
    requires i <= |s|
    ensures r.Some? ==> i < r.value <= |s|
  {
    if !PieceAt(s, i, lead) then None
    else
      var j := i + |lead|;
      var d1 := DigitRun(s, j);
      if d1 == 0 || !PieceAt(s, j + d1, "-") then None
      else
        var k := j + d1 + 1;
        var d2 := DigitRun(s, k);
        if d2 == 0 || !PieceAt(s, k + d2, trail) then None
        else Some(k + d2 + |trail|)
  }

  /** The pattern read as a regular expression: the lead, one or more
      digits up to the dash at `m`, one or more digits up to the trail at
      `t`, and the trail. */
  predicate Shape(s: string, i: nat, m: nat, t: nat) {
    ShapeWith(s, i, m, t, Lead, Trail)
  }

  predicate ShapeWith(s: string, i: nat, m: nat, t: nat, lead: string, trail: string) {
    && i + |lead| < m < t <= |s|
    && PieceAt(s, i, lead)
    && AllDigits(s, i + |lead|, m)
    && PieceAt(s, m, "-")
    && m + 1 < t
    && AllDigits(s, m + 1, t)
    && PieceAt(s, t, trail)
  }

  /** The regular expression matches `s[i..e]`. */
  ghost predicate RegexMatch(s: string, i: nat, e: nat) {
    exists m: nat, t: nat :: Shape(s, i, m, t) && e == t + |Trail|
  }

  /** A run of digits followed by a non-digit is the longest run. */
  lemma {:induction false} DigitRunExact(s: string, i: nat, j: nat)
    requires i <= j < |s|
    requires AllDigits(s, i, j) && !IsDigit(s[j])
    ensures DigitRun(s, i) == j - i
    decreases j - i
  {
    if i < j {
      DigitRunExact(s, i + 1, j);
    }
  }

  /** The matcher agrees with the regular expression, in both directions. */
  lemma MatchEndIff(s: string, i: nat, e: nat)
    requires i <= |s|
    ensures MatchEnd(s, i) == Some(e) <==> RegexMatch(s, i, e)
  {
    if MatchEnd(s, i) == Some(e) {
      MatchEndShape(s, i);
    }
    if RegexMatch(s, i, e) {
      var m: nat, t: nat :| Shape(s, i, m, t) && e == t + |Trail|;
      ShapeMatchEnd(s, i, m, t);
    }
  }

  /** What the matcher finds is a match of the regular expression. */
  lemma MatchEndShape(s: string, i: nat)
    requires i <= |s| && MatchEnd(s, i).Some?
    ensures RegexMatch(s, i, MatchEnd(s, i).value)
  {
    var m, t := MatchedAt(s, i, Lead, Trail);
    assert Shape(s, i, m, t);
  }

  /** Where the dash and the trail of a match stand. */
  lemma MatchedAt(s: string, i: nat, lead: string, trail: string) returns (m: nat, t: nat)
    requires i <= |s| && MatchEndWith(s, i, lead, trail).Some?
    ensures ShapeWith(s, i, m, t, lead, trail) && MatchEndWith(s, i, lead, trail) == Some(t + |trail|)
  {
    var j := i + |lead|;
    m := j + DigitRun(s, j);
    t := m + 1 + DigitRun(s, m + 1);
  }

  /** Every match of the regular expression is the one the matcher finds. */
  lemma ShapeMatchEnd(s: string, i: nat, m: nat, t: nat)
    requires Shape(s, i, m, t)
    ensures MatchEnd(s, i) == Some(t + |Trail|)
  {
    assert Trail[0] == ' ';
    ShapeMatched(s, i, m, t, Lead, Trail);
  }

  /** A match of the expression, when the trail starts with no digit and
      no '.', is the one the matcher finds. */
  lemma ShapeMatched(s: string, i: nat, m: nat, t: nat, lead: string, trail: string)
    requires ShapeWith(s, i, m, t, lead, trail)
    requires |trail| > 0 && !IsDigit(trail[0]) && trail[0] != '.'
    ensures MatchEndWith(s, i, lead, trail) == Some(t + |trail|)
  {
    assert s[m] == '-' by {
      assert CharMatches("-"[0], s[m + 0]);
    }
    DigitRunExact(s, i + |lead|, m);
    assert s[t] == trail[0] by {
      assert CharMatches(trail[0], s[t + 0]);
    }
    DigitRunExact(s, m + 1, t);
  }

  /** The leftmost match at or after `from`. */
  function FirstMatch(s: string, from: nat): (r: Option<nat>)
    requires from <= |s|
    ensures r.Some? ==> from <= r.value <= |s| && MatchEnd(s, r.value).Some?
    ensures forall i :: from <= i <= |s| && (r.None? || i < r.value) ==> MatchEnd(s, i).None?
  {
    FirstMatchWith(s, from, Lead, Trail)
  }

  /** The leftmost match at or after `from` of the matcher for any lead and
      trail. */
  function FirstMatchWith(s: string, from: nat, lead: string, trail: string): (r: Option<nat>)
    requires from <= |s|
    ensures r.Some? ==> from <= r.value <= |s| && MatchEndWith(s, r.value, lead, trail).Some?
    ensures forall i :: from <= i <= |s| && (r.None? || i < r.value) ==> MatchEndWith(s, i, lead, trail).None?
    decreases |s| - from
  {
    if MatchEndWith(s, from, lead, trail).Some? then Some(from)
    else if from == |s| then None
    else FirstMatchWith(s, from + 1, lead, trail)
  }

  /** `hasCopyrightRegexp.test(s)` */
  predicate Test(s: string) {
    FirstMatch(s, 0).Some?
  }

  /** The test is unanchored: it holds exactly when the expression matches
      somewhere in the string. */
  lemma TestIff(s: string)
    ensures Test(s) <==> exists i: nat, e: nat :: i <= |s| && RegexMatch(s, i, e)
  {
    if Test(s) {
      var i := FirstMatch(s, 0).value;
      MatchEndIff(s, i, MatchEnd(s, i).value);
    }
    if exists i: nat, e: nat :: i <= |s| && RegexMatch(s, i, e) {
      var i: nat, e: nat :| i <= |s| && RegexMatch(s, i, e);
      MatchEndIff(s, i, e);
    }
  }

  /** `s.replace(hasCopyrightRegexp, header)`: the leftmost match, and only
      it, becomes `header`. */
  function ReplaceFirst(s: string, header: string): (r: string)
    ensures !Test(s) ==> r == s
    ensures Test(s) ==>
      var i := FirstMatch(s, 0).value;
      r == s[..i] + header + s[MatchEnd(s, i).value..]
  {
    match FirstMatch(s, 0)
    case None => s
    case Some(i) => s[..i] + header + s[MatchEnd(s, i).value..]
  }

  // ---- the first line ----

  /** `s.replaceAll('\n\n', '\n')`: every empty line squeezed out, pairs
      taken from the left without overlap. */
  function CollapseBlankLines(s: string): string
    decreases |s|
  {
    if |s| >= 2 && s[0] == '\n' && s[1] == '\n' then "\n" + CollapseBlankLines(s[2..])
    else if |s| == 0 then ""
    else [s[0]] + CollapseBlankLines(s[1..])
  }

  /** `getFirstLine` */
  function FirstLine(content: string): string {
    Split(CollapseBlankLines(content), '\n')[0]
  }

  /** The text before the first newline, or the whole text. */
  function BeforeNewline(s: string): (r: string)
    ensures '\n' !in r && StartsWith(s, r)
    ensures |r| < |s| ==> s[|r|] == '\n'
  {
    var k := IndexOfChar(s, '\n');
    if k < 0 then s else s[..k]
  }

  /** Squeezing empty lines copies the text before the first newline. */
  lemma {:induction false} CollapseCopiesFirstLine(s: string)
    ensures CollapseBlankLines(s) == BeforeNewline(s) + CollapseBlankLines(s[|BeforeNewline(s)|..])
    decreases |s|
  {
    if |s| > 0 && s[0] != '\n' {
      var tail := s[1..];
      assert s == [s[0]] + tail;
      CollapseCopiesFirstLine(tail);
      var bt := BeforeNewline(tail);
      NewlineAfter([s[0]], tail);
      assert BeforeNewline(s) == [s[0]] + bt;
      assert CollapseBlankLines(s) == [s[0]] + CollapseBlankLines(tail);
      assert s[|BeforeNewline(s)|..] == tail[|bt|..];
    } else {
      assert BeforeNewline(s) == "";
      assert s[0..] == s;
    }
  }

  /** The text before the first newline of `a + b`, when `a` has none. */
  lemma NewlineAfter(a: string, b: string)
    requires '\n' !in a
    ensures BeforeNewline(a + b) == a + BeforeNewline(b)
  {
    var s := a + b;
    assert s[..|a|] == a && s[|a|..] == b;
    var kb := IndexOfChar(b, '\n');
    if kb >= 0 {
      assert s[|a| + kb] == '\n';
      assert s[..|a| + kb] == a + b[..kb];
    }
  }

  /** Squeezing empty lines leaves the text up to the first newline alone. */
  lemma CollapseKeepsFirstLine(s: string)
    ensures BeforeNewline(CollapseBlankLines(s)) == BeforeNewline(s)
  {
    var b := BeforeNewline(s);
    CollapseCopiesFirstLine(s);
    var rest := CollapseBlankLines(s[|b|..]);
    NewlineAfter(b, rest);
    if |b| < |s| {
      assert s[|b|..][0] == '\n';
      assert rest[0] == '\n';
    }
  }

  /** The first piece of a split is the text before the first separator. */
  lemma SplitFirst(s: string)
    ensures Split(s, '\n')[0] == BeforeNewline(s)
  {
  }

  /** `getFirstLine` is the text before the first newline. */
  lemma FirstLineIsBeforeNewline(content: string)
    ensures FirstLine(content) == BeforeNewline(content)
  {
    SplitFirst(CollapseBlankLines(content));
    CollapseKeepsFirstLine(content);
  }

  // ---- the decision ----

  /** What `ensureCopyrightForTsFile` does to one file. */
  datatype Decision = Add | Update | Keep

  /** No header on the first line: add one; a header that is not the
      current one at the start of the line: refresh it; else nothing. */
  function Decide(firstLine: string, header: string): (r: Decision)
    ensures r == Add <==> !Test(firstLine)
    ensures r == Keep <==> Test(firstLine) && StartsWith(firstLine, header)
  {
    if !Test(firstLine) then Add
    else if !StartsWith(firstLine, header) then Update
    else Keep
  }

  /** The content written back, or `None` when the file is not written. */
  function EnsureCopyright(content: string, header: string): (r: Option<string>)
    ensures Decide(FirstLine(content), header) == Add ==> r == Some(header + "\n\n" + content)
    ensures Decide(FirstLine(content), header) == Update ==> r == Some(ReplaceFirst(content, header))
    ensures Decide(FirstLine(content), header) == Keep <==> r.None?
  {
    match Decide(FirstLine(content), header)
    case Add => Some(header + "\n\n" + content)
    case Update => Some(ReplaceFirst(content, header))
    case Keep => None
  }

  /** The current header matches from the start of any text it begins. */
  lemma HeaderMatches(year: nat, rest: string)
    ensures MatchEnd(Header(year) + rest, 0) == Some(|Header(year)|)
  {
    var s := Header(year) + rest;
    assert s[0..|Header(year)|] == Header(year);
    HeaderMatchesAt(s, 0, year);
  }

  /** A header for any year matches wherever it stands. */
  lemma HeaderMatchesAfter(before: string, year: nat, rest: string)
    ensures MatchEnd(before + Header(year) + rest, |before|) == Some(|before| + |Header(year)|)
  {
    var s := before + Header(year) + rest;
    assert s[|before|..|before| + |Header(year)|] == Header(year);
    HeaderMatchesAt(s, |before|, year);
  }

  /** The test is unanchored: a header anywhere in the line counts. */
  lemma TestFindsHeaderAnywhere(before: string, year: nat, rest: string)
    ensures Test(before + Header(year) + rest)
  {
    HeaderMatchesAfter(before, year, rest);
  }

  /** A copy of the header at `i` is a match that ends where the copy does. */
  lemma HeaderMatchesAt(s: string, i: nat, year: nat)
    requires i + |Header(year)| <= |s| && s[i..i + |Header(year)|] == Header(year)
    ensures MatchEnd(s, i) == Some(i + |Header(year)|)
  {
    var y := NatToString(year);
    var m := i + |Lead| + 4;
    var t := m + 1 + |y|;
    HeaderShape(s, i, y);
    ShapeMatchEnd(s, i, m, t);
  }

  /** The pieces of a copy at `i` of the header for the year `y`. */
  lemma HeaderShape(s: string, i: nat, y: string)
    requires |y| >= 1 && forall k :: 0 <= k < |y| ==> '0' <= y[k] <= '9'
    requires i + |Lead + "2023-" + y + Trail| <= |s|
    requires s[i..i + |Lead + "2023-" + y + Trail|] == Lead + "2023-" + y + Trail
    ensures Shape(s, i, i + |Lead| + 4, i + |Lead| + 5 + |y|)
  {
    LeadPieces(s, i, y);
    TrailPieces(s, i, y);
  }

  /** The lead, the first year and the dash of such a copy. */
  lemma LeadPieces(s: string, i: nat, y: string)
    requires i + |Lead + "2023-" + y + Trail| <= |s|
    requires s[i..i + |Lead + "2023-" + y + Trail|] == Lead + "2023-" + y + Trail
    ensures PieceAt(s, i, Lead) && AllDigits(s, i + |Lead|, i + |Lead| + 4) && PieceAt(s, i + |Lead| + 4, "-")
  {
    LeadPiecesWith(s, i, y, Lead, Trail);
  }

  lemma LeadPiecesWith(s: string, i: nat, y: string, lead: string, trail: string)
    requires i + |lead + "2023-" + y + trail| <= |s|
    requires s[i..i + |lead + "2023-" + y + trail|] == lead + "2023-" + y + trail
    ensures PieceAt(s, i, lead) && AllDigits(s, i + |lead|, i + |lead| + 4) && PieceAt(s, i + |lead| + 4, "-")
  {
    var h := lead + "2023-" + y + trail;
    var m := i + |lead| + 4;
    var w := s[i..i + |h|];
    SubSlice(s, i, i + |h|, 0, |lead|);
    assert w[..|lead|] == lead;
    PieceSelf(s, i, lead);
    SubSlice(s, i, i + |h|, |lead|, |lead| + 5);
    assert w[|lead|..|lead| + 5] == "2023-";
    forall k | i + |lead| <= k < m
      ensures IsDigit(s[k])
    {
      assert s[k] == "2023-"[k - i - |lead|];
    }
    assert s[m..m + 1] == "-";
    PieceSelf(s, m, "-");
  }

  /** The second year and the trail of such a copy. */
  lemma TrailPieces(s: string, i: nat, y: string)
    requires forall k :: 0 <= k < |y| ==> '0' <= y[k] <= '9'
    requires i + |Lead + "2023-" + y + Trail| <= |s|
    requires s[i..i + |Lead + "2023-" + y + Trail|] == Lead + "2023-" + y + Trail
    ensures AllDigits(s, i + |Lead| + 5, i + |Lead| + 5 + |y|)
    ensures PieceAt(s, i + |Lead| + 5 + |y|, Trail)
  {
    TrailPiecesWith(s, i, y, Lead, Trail);
  }

  lemma TrailPiecesWith(s: string, i: nat, y: string, lead: string, trail: string)
    requires forall k :: 0 <= k < |y| ==> '0' <= y[k] <= '9'
    requires i + |lead + "2023-" + y + trail| <= |s|
    requires s[i..i + |lead + "2023-" + y + trail|] == lead + "2023-" + y + trail
    ensures AllDigits(s, i + |lead| + 5, i + |lead| + 5 + |y|)
    ensures PieceAt(s, i + |lead| + 5 + |y|, trail)
  {
    var h := lead + "2023-" + y + trail;
    var t := i + |lead| + 5 + |y|;
    var w := s[i..i + |h|];
    SubSlice(s, i, i + |h|, |lead| + 5, |lead| + 5 + |y|);
    assert w[|lead| + 5..|lead| + 5 + |y|] == y;
    SubSlice(s, i, i + |h|, |lead| + 5 + |y|, |h|);
    assert w[|lead| + 5 + |y|..] == trail;
    PieceSelf(s, t, trail);
  }

  /** A slice of a slice is a slice. */
  lemma SubSlice(s: string, i: nat, j: nat, a: nat, b: nat)
    requires i <= j <= |s| && a <= b <= j - i
    ensures s[i..j][a..b] == s[i + a..i + b]
  {
    forall k | 0 <= k < b - a
      ensures s[i..j][a..b][k] == s[i + a..i + b][k]
    {
      assert s[i..j][a..b][k] == s[i + a + k];
    }
  }

  /** A piece matches a copy of itself: '.' is no line terminator. */
  lemma PieceSelf(s: string, i: nat, p: string)
    requires i + |p| <= |s| && s[i..i + |p|] == p
    ensures PieceAt(s, i, p)
  {
    forall k | 0 <= k < |p|
      ensures CharMatches(p[k], s[i + k])
    {
      assert s[i + k] == p[k];
    }
  }

  /** The header holds no newline. */
  lemma HeaderOneLine(year: nat)
    ensures '\n' !in Header(year)
  {
    var y := NatToString(year);
    assert '\n' !in y by {
      assert forall i :: 0 <= i < |y| ==> y[i] != '\n';
    }
    assert '\n' !in Lead && '\n' !in "2023-" && '\n' !in Trail;
  }

  /** A file that begins with the current header is left alone. */
  lemma HeadedIsKept(year: nat, rest: string)
    ensures EnsureCopyright(Header(year) + rest, Header(year)) == None
  {
    var h := Header(year);
    var s := h + rest;
    HeaderOneLine(year);
    FirstLineIsBeforeNewline(s);
    NewlineAfter(h, rest);
    var first := FirstLine(s);
    assert first == h + BeforeNewline(rest);
    HeaderMatches(year, BeforeNewline(rest));
    assert FirstMatch(first, 0) == Some(0);
    assert first[..|h|] == h;
  }

  /** Once a header is added, the next run leaves the file alone. */
  lemma AddThenKeep(content: string, year: nat)
    requires Decide(FirstLine(content), Header(year)) == Add
    ensures EnsureCopyright(EnsureCopyright(content, Header(year)).value, Header(year)) == None
  {
    HeadedIsKept(year, "\n\n" + content);
    assert Header(year) + "\n\n" + content == Header(year) + ("\n\n" + content);
  }

  /** A file that begins with an outdated header gets the current one in
      its place, and the next run leaves it alone. */
  lemma OutdatedAtStartRefreshed(content: string, year: nat)
    requires MatchEnd(content, 0).Some?
    requires Decide(FirstLine(content), Header(year)) == Update
    ensures EnsureCopyright(content, Header(year)) == Some(Header(year) + content[MatchEnd(content, 0).value..])
    ensures EnsureCopyright(EnsureCopyright(content, Header(year)).value, Header(year)) == None
  {
    var h := Header(year);
    var rest := content[MatchEnd(content, 0).value..];
    ReplaceAtStart(content, h);
    assert EnsureCopyright(content, h) == Some(h + rest);
    HeadedIsKept(year, rest);
  }

  /** A match at the very start is the one replaced. */
  lemma ReplaceAtStart(content: string, header: string)
    requires MatchEnd(content, 0).Some?
    ensures ReplaceFirst(content, header) == header + content[MatchEnd(content, 0).value..]
  {
    assert FirstMatch(content, 0) == Some(0);
    var rest := content[MatchEnd(content, 0).value..];
    assert content[..0] + header + rest == header + rest;
  }

  // ---- the .ts files under src ----

  /** A directory entry: a file, a directory with its own entries, or
      anything else (a symbolic link), which the scan skips. */
  datatype Entry = File(name: string) | Directory(name: string, entries: seq<Entry>) | Other(name: string)

  /** The paths the scan collects from `entries` of the directory `path`,
      in the order it visits them. */
  function TsFiles(path: string, entries: seq<Entry>): seq<string>
    decreases entries, 1
  {
    if |entries| == 0 then []
    else TsFiles(path, entries[..|entries| - 1]) + EntryFiles(path, entries[|entries| - 1])
  }

  /** The paths the scan collects from one entry of `path`. */
  function EntryFiles(path: string, e: Entry): seq<string>
    decreases e, 0
  {
    match e
    case File(name) => if EndsWith(name, ".ts") then [path + "/" + name] else []
    case Directory(name, children) => TsFiles(path + "/" + name, children)
    case Other(_) => []
  }

  /** `scanDir`: visits the entries in order, collects `.ts` files and
      descends into directories. */
  method ScanDir(path: string, entries: seq<Entry>, found: seq<string>) returns (out: seq<string>)
    ensures out == found + TsFiles(path, entries)
    decreases entries, 0
  {
    out := found;
    for i := 0 to |entries|
      invariant out == found + TsFiles(path, entries[..i])
    {
      var dirEntry := entries[i];
      var currentPath := path + "/" + dirEntry.name;
      assert entries[..i + 1][..i] == entries[..i];
      if dirEntry.File? && EndsWith(dirEntry.name, ".ts") {
        out := out + [currentPath];
      } else if dirEntry.Directory? {
        out := ScanDir(currentPath, dirEntry.entries, out);
      }
    }
    assert entries[..|entries|] == entries;
  }

  /** `findTsFiles` for the working directory `cwd`. */
  method FindTsFiles(cwd: string, entries: seq<Entry>) returns (found: seq<string>)
    ensures found == TsFiles(cwd + "/src", entries)
  {
    found := ScanDir(cwd + "/src", entries, []);
  }

  /** `f` is the path of a `.ts` file somewhere below `path`. */
  ghost predicate Below(path: string, entries: seq<Entry>, f: string)
    decreases entries, 1
  {
    exists i :: 0 <= i < |entries| && BelowEntry(path, entries[i], f)
  }

  ghost predicate BelowEntry(path: string, e: Entry, f: string)
    decreases e, 0
  {
    match e
    case File(name) => EndsWith(name, ".ts") && f == path + "/" + name
    case Directory(name, children) => Below(path + "/" + name, children, f)
    case Other(_) => false
  }

  /** The scan collects exactly the `.ts` files of the whole tree. */
  lemma {:induction false} TsFilesIff(path: string, entries: seq<Entry>, f: string)
    ensures f in TsFiles(path, entries) <==> Below(path, entries, f)
    decreases entries, 1
  {
    if |entries| > 0 {
      var init, last := entries[..|entries| - 1], entries[|entries| - 1];
      TsFilesIff(path, init, f);
      EntryFilesIff(path, last, f);
      if Below(path, entries, f) {
        var i :| 0 <= i < |entries| && BelowEntry(path, entries[i], f);
        if i < |entries| - 1 {
          assert init[i] == entries[i];
        }
      }
      if Below(path, init, f) {
        var i :| 0 <= i < |init| && BelowEntry(path, init[i], f);
        assert entries[i] == init[i];
      }
    }
  }

  lemma {:induction false} EntryFilesIff(path: string, e: Entry, f: string)
    ensures f in EntryFiles(path, e) <==> BelowEntry(path, e, f)
    decreases e, 0
  {
    match e
    case File(_) =>
    case Directory(name, children) => TsFilesIff(path + "/" + name, children, f);
    case Other(_) =>
  }

  /** Every collected path ends in `.ts` and lies below `path`. */
  lemma {:induction false} TsFilesShape(path: string, entries: seq<Entry>)
    ensures forall f :: f in TsFiles(path, entries) ==> EndsWith(f, ".ts") && StartsWith(f, path + "/")
    decreases entries, 1
  {
    if |entries| > 0 {
      TsFilesShape(path, entries[..|entries| - 1]);
      EntryFilesShape(path, entries[|entries| - 1]);
    }
  }

  lemma {:induction false} EntryFilesShape(path: string, e: Entry)
    ensures forall f :: f in EntryFiles(path, e) ==> EndsWith(f, ".ts") && StartsWith(f, path + "/")
    decreases e, 0
  {
    match e
    case File(name) =>
      if EndsWith(name, ".ts") {
        FilePathShape(path, name);
      }
    case Directory(name, children) =>
      TsFilesShape(path + "/" + name, children);
      forall f | f in EntryFiles(path, e)
        ensures StartsWith(f, path + "/")
      {
        DirPrefix(f, path, name);
      }
    case Other(_) =>
  }

  /** A `.ts` file's path ends in `.ts` and lies below its directory. */
  lemma FilePathShape(path: string, name: string)
    requires EndsWith(name, ".ts")
    ensures EndsWith(path + "/" + name, ".ts") && StartsWith(path + "/" + name, path + "/")
  {
    var f := path + "/" + name;
    assert f[|f| - 3..] == name[|name| - 3..];
    assert f[..|path + "/"|] == path + "/";
  }

  /** A path below a subdirectory lies below its parent. */
  lemma DirPrefix(f: string, path: string, name: string)
    requires StartsWith(f, path + "/" + name + "/")
    ensures StartsWith(f, path + "/")
  {
    var dir := path + "/" + name;
    assert (dir + "/")[..|path + "/"|] == path + "/";
    StartsWithTrans(f, dir + "/", path + "/");
  }

  lemma StartsWithTrans(s: string, p: string, q: string)
    requires StartsWith(s, p) && StartsWith(p, q)
    ensures StartsWith(s, q)
  {
    assert s[..|q|] == s[..|p|][..|q|];
  }

  // ---- every file ----

  /** `Deno.readTextFileSync` on a missing file. */
  function ReadError(path: string): string {
    NotFound + path + "'"
  }

  const NotFound := "No such file or directory (os error 2): readfile '"

  /** `ensureCopyrightForTsFile` as a function of the file's content. */
  function Ensurer(header: string): string -> Option<string> {
    content => EnsureCopyright(content, header)
  }

  /** One file's step: read it, and write back what `ensure` decides, or
      leave it when `ensure` decides not to write. */
  function EnsureFile(fs: Files, f: string, ensure: string -> Option<string>): (r: Result<Files>)
    ensures f !in fs <==> r == Err(ReadError(f))
    ensures r.Ok? ==> r.value.Keys == fs.Keys
    ensures r.Ok? ==> forall g :: g in fs && g != f ==> r.value[g] == fs[g]
  {
    if f !in fs then Err(ReadError(f))
    else
      var written := ensure(fs[f]);
      if written.None? then Ok(fs) else Ok(fs[f := written.value])
  }

  /** A listed file that exists gets what `ensure` writes, or keeps its
      content when `ensure` writes nothing. */
  lemma EnsureFileWrites(fs: Files, f: string, ensure: string -> Option<string>)
    requires f in fs
    ensures ensure(fs[f]).None? ==> EnsureFile(fs, f, ensure) == Ok(fs)
    ensures ensure(fs[f]).Some? ==> EnsureFile(fs, f, ensure) == Ok(fs[f := ensure(fs[f]).value])
  {
  }

  /** The files after the first `n` steps of the forEach; the first
      missing file stops it. */
  function EnsuredUpTo(files: seq<string>, fs: Files, ensure: string -> Option<string>, n: nat): Result<Files>
    requires n <= |files|
  {
    if n == 0 then Ok(fs)
    else match EnsuredUpTo(files, fs, ensure, n - 1)
      case Err(e) => Err(e)
      case Ok(m) => EnsureFile(m, files[n - 1], ensure)
  }

  /** `tsFiles.forEach(ensureCopyrightForTsFile)` */
  method EnsureAll(files: seq<string>, fs: Files, header: string) returns (r: Result<Files>)
    ensures r == EnsuredUpTo(files, fs, Ensurer(header), |files|)
  {
    r := ForEachFile(files, fs, Ensurer(header));
  }

  /** The forEach, for any per-file decision `ensure`. */
  method ForEachFile(files: seq<string>, fs: Files, ensure: string -> Option<string>) returns (r: Result<Files>)
    ensures r == EnsuredUpTo(files, fs, ensure, |files|)
  {
    var current := fs;
    for i := 0 to |files|
      invariant EnsuredUpTo(files, fs, ensure, i) == Ok(current)
    {
      var step := EnsureFile(current, files[i], ensure);
      EnsuredStep(files, fs, ensure, i, current);
      if step.Err? {
        r := step;
        EnsureStops(files, fs, ensure, i + 1);
        return;
      }
      current := step.value;
    }
    r := Ok(current);
  }

  /** One more file of the forEach. */
  lemma EnsuredStep(files: seq<string>, fs: Files, ensure: string -> Option<string>, i: nat, m: Files)
    requires i < |files| && EnsuredUpTo(files, fs, ensure, i) == Ok(m)
    ensures EnsuredUpTo(files, fs, ensure, i + 1) == EnsureFile(m, files[i], ensure)
  {
  }

  /** An error stays an error for the rest of the forEach. */
  lemma {:induction false} EnsureStops(files: seq<string>, fs: Files, ensure: string -> Option<string>, n: nat)
    requires n <= |files|
    requires EnsuredUpTo(files, fs, ensure, n).Err?
    ensures EnsuredUpTo(files, fs, ensure, |files|) == EnsuredUpTo(files, fs, ensure, n)
    decreases |files| - n
  {
    if n < |files| {
      EnsureStops(files, fs, ensure, n + 1);
    }
  }

  /** The forEach writes no new file and deletes none. */
  lemma {:induction false} EnsureKeepsKeys(files: seq<string>, fs: Files, ensure: string -> Option<string>, n: nat)
    requires n <= |files|
    ensures EnsuredUpTo(files, fs, ensure, n).Ok? ==> EnsuredUpTo(files, fs, ensure, n).value.Keys == fs.Keys
  {
    if n > 0 && EnsuredUpTo(files, fs, ensure, n).Ok? {
      EnsureKeepsKeys(files, fs, ensure, n - 1);
    }
  }

  /** The forEach changes no file outside the list. */
  lemma {:induction false} EnsureAllFrame(files: seq<string>, fs: Files, ensure: string -> Option<string>, n: nat)
    requires n <= |files|
    ensures EnsuredUpTo(files, fs, ensure, n).Ok? ==>
      var m := EnsuredUpTo(files, fs, ensure, n).value;
      forall g :: g in fs && g !in files[..n] ==> g in m && m[g] == fs[g]
  {
    if n > 0 && EnsuredUpTo(files, fs, ensure, n).Ok? {
      EnsureAllFrame(files, fs, ensure, n - 1);
      EnsureKeepsKeys(files, fs, ensure, n - 1);
      assert files[..n] == files[..n - 1] + [files[n - 1]];
    }
  }

  /** One file exists after the forEach exactly when it did before. */
  lemma {:induction false} EnsureKeepsKey(files: seq<string>, fs: Files, ensure: string -> Option<string>, n: nat, f: string)
    requires n <= |files|
    ensures EnsuredUpTo(files, fs, ensure, n).Ok? ==> (f in EnsuredUpTo(files, fs, ensure, n).value <==> f in fs)
  {
    if n > 0 && EnsuredUpTo(files, fs, ensure, n).Ok? {
      EnsureKeepsKey(files, fs, ensure, n - 1, f);
    }
  }

  /** The first of the first `n` listed files that does not exist. */
  function FirstMissing(files: seq<string>, fs: Files, n: nat): (r: Option<nat>)
    requires n <= |files|
    ensures r.Some? ==> r.value < n && files[r.value] !in fs && forall j :: 0 <= j < r.value ==> files[j] in fs
    ensures r.None? ==> forall j :: 0 <= j < n ==> files[j] in fs
  {
    if n == 0 then None
    else match FirstMissing(files, fs, n - 1)
      case Some(k) => Some(k)
      case None => if files[n - 1] !in fs then Some(n - 1) else None
  }

  /** The forEach fails exactly when a listed file is missing. */
  lemma {:induction false} EnsureAllFails(files: seq<string>, fs: Files, ensure: string -> Option<string>, n: nat)
    requires n <= |files|
    ensures EnsuredUpTo(files, fs, ensure, n).Err? <==> FirstMissing(files, fs, n).Some?
  {
    if n > 0 {
      EnsureAllFails(files, fs, ensure, n - 1);
      var prev := EnsuredUpTo(files, fs, ensure, n - 1);
      if prev.Ok? {
        EnsureKeepsKey(files, fs, ensure, n - 1, files[n - 1]);
        assert EnsuredUpTo(files, fs, ensure, n) == EnsureFile(prev.value, files[n - 1], ensure);
      }
    }
  }

  /** A failed forEach reports the first missing file. */
  lemma {:induction false} EnsureAllFailsFirst(files: seq<string>, fs: Files, ensure: string -> Option<string>, n: nat)
    requires n <= |files|
    ensures EnsuredUpTo(files, fs, ensure, n).Err? ==>
      FirstMissing(files, fs, n).Some? &&
      EnsuredUpTo(files, fs, ensure, n) == Err(ReadError(files[FirstMissing(files, fs, n).value]))
  {
    EnsureAllFails(files, fs, ensure, n);
    if n > 0 {
      EnsureAllFailsFirst(files, fs, ensure, n - 1);
      var prev := EnsuredUpTo(files, fs, ensure, n - 1);
      if prev.Err? {
        assert EnsuredUpTo(files, fs, ensure, n) == prev;
      } else {
        EnsureAllFails(files, fs, ensure, n - 1);
        assert EnsuredUpTo(files, fs, ensure, n) == EnsureFile(prev.value, files[n - 1], ensure);
      }
    }
  }

  /** `updateCopyrights` without the licence: every `.ts` file under
      `cwd/src` gets the header for `year`. */
  method UpdateCopyrights(cwd: string, entries: seq<Entry>, fs: Files, year: nat) returns (r: Result<Files>)
    ensures r == EnsuredUpTo(TsFiles(cwd + "/src", entries), fs, Ensurer(Header(year)), |TsFiles(cwd + "/src", entries)|)
  {
    var tsFiles := FindTsFiles(cwd, entries);
    r := EnsureAll(tsFiles, fs, Header(year));
  }
}
