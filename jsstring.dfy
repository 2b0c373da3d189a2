/** The JavaScript string operations the modelled code relies on, with the
    ECMAScript semantics it depends on (clamping, swapped bounds, -1 for
    "not found", an empty input splitting into one empty piece). */
module JsString {

  /** `s.startsWith(p)` */
  predicate StartsWith(s: string, p: string) {
    |p| <= |s| && s[..|p|] == p
  }

  /** `s.endsWith(p)` */
  predicate EndsWith(s: string, p: string) {
    |p| <= |s| && s[|s| - |p|..] == p
  }

  /** `t` occurs in `s` starting at index `i`. */
  predicate OccursAt(s: string, t: string, i: int) {
    0 <= i && i + |t| <= |s| && s[i..i + |t|] == t
  }

  /** First index at or after `from` where `t` occurs, or -1. */
  function IndexFrom(s: string, t: string, from: nat): (r: int)
    requires from <= |s|
    ensures r == -1 || (from <= r && OccursAt(s, t, r))
    ensures r == -1 ==> forall i :: from <= i ==> !OccursAt(s, t, i)
    ensures r != -1 ==> forall i :: from <= i < r ==> !OccursAt(s, t, i)
    decreases |s| - from
  {
    if OccursAt(s, t, from) then from
    else if from + |t| >= |s| then -1
    else IndexFrom(s, t, from + 1)
  }

  /** `s.indexOf(t)` */
  function IndexOf(s: string, t: string): (r: int)
    ensures -1 <= r <= |s|
    ensures r >= 0 ==> OccursAt(s, t, r) && forall i :: 0 <= i < r ==> !OccursAt(s, t, i)
    ensures r == -1 <==> forall i :: !OccursAt(s, t, i)
  {
    IndexFrom(s, t, 0)
  }

  /** Last index at or before `upTo` where `t` occurs, or -1. */
  function LastIndexUpTo(s: string, t: string, upTo: int): (r: int)
    ensures r == -1 || (0 <= r <= upTo && OccursAt(s, t, r))
    ensures r == -1 ==> forall i :: i <= upTo ==> !OccursAt(s, t, i)
    ensures r != -1 ==> forall i :: r < i <= upTo ==> !OccursAt(s, t, i)
    decreases upTo + 1
  {
    if upTo < 0 then -1
    else if OccursAt(s, t, upTo) then upTo
    else LastIndexUpTo(s, t, upTo - 1)
  }

  /** `s.lastIndexOf(t)` */
  function LastIndexOf(s: string, t: string): (r: int)
    ensures -1 <= r <= |s|
    ensures r >= 0 ==> OccursAt(s, t, r) && forall i :: r < i ==> !OccursAt(s, t, i)
    ensures r == -1 <==> forall i :: !OccursAt(s, t, i)
  {
    LastIndexUpTo(s, t, |s| - |t|)
  }

  /** `s.includes(t)` */
  predicate Includes(s: string, t: string) {
    IndexOf(s, t) >= 0
  }

  /** `s.indexOf(c)` for a single character. */
  function IndexOfChar(s: string, c: char): (r: int)
    ensures -1 <= r < |s|
    ensures r >= 0 ==> s[r] == c && c !in s[..r]
    ensures r == -1 <==> c !in s
  {
    if |s| == 0 then -1
    else if s[0] == c then 0
    else
      var k := IndexOfChar(s[1..], c);
      assert s[1..][..if k < 0 then 0 else k] == s[1..1 + (if k < 0 then 0 else k)];
      if k < 0 then -1 else k + 1
  }

  /** `Math.min(Math.max(i, 0), n)`, the index clamping of `substring`. */
  function Clamp(i: int, n: nat): (r: nat)
    ensures r <= n
    ensures 0 <= i <= n ==> r == i
  {
    if i < 0 then 0 else if i > n then n else i
  }

  /** `s.substring(a, b)`: both bounds clamped into the string, swapped when
      the start exceeds the end. */
  function Substring(s: string, a: int, b: int): (r: string)
    ensures |r| <= |s|
    ensures 0 <= a <= b <= |s| ==> r == s[a..b]
    ensures 0 <= b <= a <= |s| ==> r == s[b..a]
  {
    var x, y := Clamp(a, |s|), Clamp(b, |s|);
    if x <= y then s[x..y] else s[y..x]
  }

  /** `c.repeat(n)` for a one-character string. */
  function Repeat(c: char, n: nat): (r: string)
    ensures |r| == n
    ensures forall i :: 0 <= i < n ==> r[i] == c
  {
    if n == 0 then "" else Repeat(c, n - 1) + [c]
  }

  function Max(a: int, b: int): int {
    if a < b then b else a
  }

  /** `s.padStart(n, c)` */
  function PadStart(s: string, n: int, c: char): (r: string)
    ensures |r| == Max(n, |s|)
    ensures EndsWith(r, s)
    ensures forall i :: 0 <= i < |r| - |s| ==> r[i] == c
  {
    if n <= |s| then s else Repeat(c, n - |s|) + s
  }

  /** `parts.join(sep)` */
  function Join(parts: seq<string>, sep: string): string
  {
    if |parts| == 0 then ""
    else if |parts| == 1 then parts[0]
    else parts[0] + sep + Join(parts[1..], sep)
  }

  /** `s.split(c)` for a one-character separator. */
  function Split(s: string, c: char): (r: seq<string>)
    ensures |r| >= 1
    ensures forall i :: 0 <= i < |r| ==> c !in r[i]
    decreases |s|
  {
    var k := IndexOfChar(s, c);
    if k < 0 then [s] else [s[..k]] + Split(s[k + 1..], c)
  }

  lemma JoinCons(a: string, rest: seq<string>, sep: string)
    requires |rest| >= 1
    ensures Join([a] + rest, sep) == a + sep + Join(rest, sep)
  {
    assert ([a] + rest)[1..] == rest;
  }

  lemma SplitAt(s: string, k: nat)
    requires k <= |s|
    ensures s[..k] + s[k..] == s
  {
  }

  lemma JoinSplitStep(s: string, c: char, k: int)
    requires 0 <= k < |s| && s[k] == c
    requires Split(s, c) == [s[..k]] + Split(s[k + 1..], c)
    requires Join(Split(s[k + 1..], c), [c]) == s[k + 1..]
    ensures Join(Split(s, c), [c]) == s
  {
    var head, tail := s[..k], s[k + 1..];
    JoinCons(head, Split(tail, c), [c]);
    assert s[k..] == [c] + tail;
    assert head + [c] + tail == head + ([c] + tail);
    SplitAt(s, k);
  }

  /** Splitting then joining with the same separator gives back the string. */
  lemma {:induction false} JoinSplit(s: string, c: char)
    ensures Join(Split(s, c), [c]) == s
    decreases |s|
  {
    var k := IndexOfChar(s, c);
    if k >= 0 {
      JoinSplit(s[k + 1..], c);
      JoinSplitStep(s, c, k);
    }
  }

  /** Joining pieces free of the separator and splitting again gives the
      pieces back. */
  lemma {:induction false} SplitJoin(parts: seq<string>, c: char)
    requires |parts| >= 1
    requires forall i :: 0 <= i < |parts| ==> c !in parts[i]
    ensures Split(Join(parts, [c]), c) == parts
    decreases |parts|
  {
    if |parts| > 1 {
      var p0, rest := parts[0], parts[1..];
      var tail := Join(rest, [c]);
      JoinCons(p0, rest, [c]);
      assert parts == [p0] + rest;
      var s := p0 + [c] + tail;
      FirstSeparator(p0, c, tail);
      assert s[|p0| + 1..] == tail && s[..|p0|] == p0;
      assert Split(s, c) == [p0] + Split(tail, c);
      SplitJoin(rest, c);
    }
  }

  /** The first separator of `p0 + [c] + rest` is the one after `p0`. */
  lemma FirstSeparator(p0: string, c: char, rest: string)
    requires c !in p0
    ensures IndexOfChar(p0 + [c] + rest, c) == |p0|
  {
    var s := p0 + [c] + rest;
    assert s[|p0|] == c;
    assert s[..|p0|] == p0;
    assert s[..|p0| + 1] == p0 + [c];
  }

  /** A piece-wise decimal digit. */
  function DigitChar(d: nat): char
    requires d < 10
  {
    "0123456789"[d]
  }

  /** `String(n)` for a natural number. */
  function NatToString(n: nat): (r: string)
    ensures |r| >= 1
    ensures forall i :: 0 <= i < |r| ==> '0' <= r[i] <= '9'
    decreases n
  {
    if n < 10 then [DigitChar(n)] else NatToString(n / 10) + [DigitChar(n % 10)]
  }

  lemma DigitCharInjective(a: nat, b: nat)
    requires a < 10 && b < 10 && DigitChar(a) == DigitChar(b)
    ensures a == b
  {
  }

  /** Different numbers print differently. */
  lemma {:induction false} NatToStringInjective(a: nat, b: nat)
    requires NatToString(a) == NatToString(b)
    ensures a == b
    decreases a
  {
    var s := NatToString(a);
    if a < 10 && b < 10 {
      DigitCharInjective(a, b);
    } else if a < 10 || b < 10 {
      // one side prints one digit, the other at least two
      assert false;
    } else {
      assert NatToString(a / 10) == s[..|s| - 1] == NatToString(b / 10);
      NatToStringInjective(a / 10, b / 10);
      DigitCharInjective(a % 10, b % 10);
    }
  }

  /** `String(i)` for an integer. */
  function IntToString(i: int): string {
    if i < 0 then "-" + NatToString(-i) else NatToString(i)
  }

  /** ASCII lower-case letter. */
  predicate IsLower(c: char) { 'a' <= c <= 'z' }

  /** `toUpperCase` restricted to the word characters it is applied to. */
  function UpperAscii(s: string): (r: string)
    ensures |r| == |s|
    ensures forall i :: 0 <= i < |s| ==> r[i] == (if IsLower(s[i]) then (s[i] as int - 32) as char else s[i])
  {
    if |s| == 0 then "" else
      [if IsLower(s[0]) then (s[0] as int - 32) as char else s[0]] + UpperAscii(s[1..])
  }

  /** ECMAScript WhiteSpace and LineTerminator: what `\s` and `trim` use. */
  predicate IsSpace(c: char) {
    c == '\t' || c == '\n' || c == '\U{000B}' || c == '\U{000C}' || c == '\r' || c == ' '
    || c == '\U{00A0}' || c == '\U{1680}' || ('\U{2000}' <= c <= '\U{200A}')
    || c == '\U{2028}' || c == '\U{2029}' || c == '\U{202F}' || c == '\U{205F}'
    || c == '\U{3000}' || c == '\U{FEFF}'
  }

  function TrimStart(s: string): (r: string)
    ensures |r| <= |s| && (|r| > 0 ==> !IsSpace(r[0]))
    ensures EndsWith(s, r)
  {
    if |s| > 0 && IsSpace(s[0]) then
      var r := TrimStart(s[1..]);
      assert s[|s| - |r|..] == s[1..][|s[1..]| - |r|..];
      r
    else s
  }

  function TrimEnd(s: string): (r: string)
    ensures |r| <= |s| && (|r| > 0 ==> !IsSpace(r[|r| - 1]))
    ensures StartsWith(s, r)
  {
    if |s| > 0 && IsSpace(s[|s| - 1]) then
      var r := TrimEnd(s[..|s| - 1]);
      assert s[..|r|] == s[..|s| - 1][..|r|];
      r
    else s
  }

  /** `String.prototype.trim` */
  function Trim(s: string): string {
    TrimEnd(TrimStart(s))
  }
}
