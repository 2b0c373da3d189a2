/** `formatDate`: `Y-MM-DD HH:MM:SS.mmm` from a date's local fields. */
module FormatDate {
  import opened JsString

  /** The fields the `Date` accessors return; `month` is zero-based. */
  datatype DateFields = DateFields(year: int, month: nat, day: nat, hours: nat, minutes: nat,
                                   seconds: nat, milliseconds: nat)

  /** `n.toString().padStart(width, '0')` */
  function Padded(n: nat, width: nat): string {
    PadStart(NatToString(n), width, '0')
  }

  /** The pieces of the template, in order. */
  function Pieces(d: DateFields): seq<string> {
    [IntToString(d.year), "-", Padded(d.month + 1, 2), "-", Padded(d.day, 2), " ",
     Padded(d.hours, 2), ":", Padded(d.minutes, 2), ":", Padded(d.seconds, 2), ".",
     Padded(d.milliseconds, 3)]
  }

  function Concat(ps: seq<string>): string {
    if |ps| == 0 then "" else Concat(ps[..|ps| - 1]) + ps[|ps| - 1]
  }

  function FormatDate(d: DateFields): string {
    Concat(Pieces(d))
  }

  /** Where piece `i` starts. */
  function Offset(ps: seq<string>, i: nat): nat
    requires i <= |ps|
  {
    |Concat(ps[..i])|
  }

  lemma {:induction false} ConcatSplit(ps: seq<string>, i: nat)
    requires i <= |ps|
    ensures Concat(ps) == Concat(ps[..i]) + Concat(ps[i..])
    decreases |ps|
  {
    if i < |ps| {
      var n := |ps|;
      ConcatSplit(ps[..n - 1], i);
      assert ps[..n - 1][..i] == ps[..i];
      assert ps[i..][..|ps[i..]| - 1] == ps[..n - 1][i..];
    } else {
      assert ps[..i] == ps;
      assert ps[i..] == [];
    }
  }

  /** Each piece sits at its offset. */
  lemma PieceAt(ps: seq<string>, i: nat)
    requires i < |ps|
    ensures Offset(ps, i) + |ps[i]| <= |Concat(ps)|
    ensures Concat(ps)[Offset(ps, i)..Offset(ps, i) + |ps[i]|] == ps[i]
  {
    ConcatSplit(ps, i);
    assert Concat(ps[i..]) == Concat(ps[i..][..1]) + Concat(ps[i..][1..]) by {
      ConcatSplit(ps[i..], 1);
    }
    assert ps[i..][..1] == [ps[i]];
    assert Concat([ps[i]]) == Concat([]) + ps[i];
  }

  lemma OffsetStep(ps: seq<string>, i: nat)
    requires i < |ps|
    ensures Offset(ps, i + 1) == Offset(ps, i) + |ps[i]|
  {
    assert ps[..i + 1][..i] == ps[..i];
  }

  /** The number a string of decimal digits denotes. */
  function DecimalValue(s: string): nat {
    if |s| == 0 then 0
    else
      var c := s[|s| - 1];
      DecimalValue(s[..|s| - 1]) * 10 + (if '0' <= c <= '9' then c as int - '0' as int else 0)
  }

  /** Printing then reading a number gives it back. */
  lemma {:induction false} DecimalOfNatToString(n: nat)
    ensures DecimalValue(NatToString(n)) == n
    decreases n
  {
    var s := NatToString(n);
    DigitValue(n % 10);
    if n >= 10 {
      assert s[..|s| - 1] == NatToString(n / 10);
      DecimalOfNatToString(n / 10);
    }
  }

  /** A digit character reads back as its digit. */
  lemma DigitValue(d: nat)
    requires d < 10
    ensures '0' <= DigitChar(d) <= '9' && DigitChar(d) as int - '0' as int == d
  {
    if d < 5 {
      assert d == 0 || d == 1 || d == 2 || d == 3 || d == 4;
    } else {
      assert d == 5 || d == 6 || d == 7 || d == 8 || d == 9;
    }
  }

  /** Leading zeros do not change the value. */
  lemma {:induction false} LeadingZerosIgnored(k: nat, s: string)
    ensures DecimalValue(Repeat('0', k) + s) == DecimalValue(s)
    decreases |s|
  {
    if |s| == 0 {
      assert Repeat('0', k) + s == Repeat('0', k);
      ZerosAreZero(k);
    } else {
      var t := Repeat('0', k) + s;
      assert t[..|t| - 1] == Repeat('0', k) + s[..|s| - 1];
      LeadingZerosIgnored(k, s[..|s| - 1]);
    }
  }

  lemma {:induction false} ZerosAreZero(k: nat)
    ensures DecimalValue(Repeat('0', k)) == 0
  {
    if k > 0 {
      var front := Repeat('0', k - 1);
      assert Repeat('0', k) == front + ['0'];
      assert (front + ['0'])[..k - 1] == front;
      ZerosAreZero(k - 1);
    }
  }

  /** A padded field reads back as the field, and is exactly `width`
      characters whenever the number has no more digits than that; longer
      numbers are kept whole. */
  lemma PaddedRoundTrip(n: nat, width: nat)
    ensures DecimalValue(Padded(n, width)) == n
    ensures |Padded(n, width)| == Max(width, |NatToString(n)|)
    ensures forall i :: 0 <= i < |Padded(n, width)| ==> '0' <= Padded(n, width)[i] <= '9'
  {
    var k := PaddedShape(n, width);
    DecimalOfNatToString(n);
    ZeroPadded(k, NatToString(n));
  }

  /** The padding is `k` zeros in front of the digits. */
  lemma PaddedShape(n: nat, width: nat) returns (k: nat)
    ensures Padded(n, width) == Repeat('0', k) + NatToString(n)
    ensures k == Max(width, |NatToString(n)|) - |NatToString(n)|
  {
    var s := NatToString(n);
    k := if width <= |s| then 0 else width - |s|;
    if width <= |s| {
      assert Repeat('0', 0) + s == s;
    }
  }

  /** Zeros in front of a digit string keep its value and its digits. */
  lemma ZeroPadded(k: nat, s: string)
    requires forall i :: 0 <= i < |s| ==> '0' <= s[i] <= '9'
    ensures DecimalValue(Repeat('0', k) + s) == DecimalValue(s)
    ensures forall i :: 0 <= i < |Repeat('0', k) + s| ==> '0' <= (Repeat('0', k) + s)[i] <= '9'
  {
    LeadingZerosIgnored(k, s);
  }

  predicate InRange(d: DateFields) {
    && d.year >= 0 && d.month < 12 && 1 <= d.day <= 31 && d.hours < 24 && d.minutes < 60
    && d.seconds < 60 && d.milliseconds < 1000
  }

  /** The text after the year has a fixed layout, and every field can be
      read back from its place. */
  predicate LaidOut(r: string, d: DateFields) {
    var y := |IntToString(d.year)|;
      && |r| == y + 19
      && r[..y] == IntToString(d.year)
      && r[y] == '-' && r[y + 3] == '-' && r[y + 6] == ' '
      && r[y + 9] == ':' && r[y + 12] == ':' && r[y + 15] == '.'
      && DecimalValue(r[y + 1..y + 3]) == d.month + 1
      && DecimalValue(r[y + 4..y + 6]) == d.day
      && DecimalValue(r[y + 7..y + 9]) == d.hours
      && DecimalValue(r[y + 10..y + 12]) == d.minutes
      && DecimalValue(r[y + 13..y + 15]) == d.seconds
      && DecimalValue(r[y + 16..]) == d.milliseconds
  }

  /** A date in range is laid out as the template says. */
  lemma Layout(d: DateFields)
    requires InRange(d)
    ensures LaidOut(FormatDate(d), d)
  {
    var ys, mo, da, h := IntToString(d.year), Padded(d.month + 1, 2), Padded(d.day, 2), Padded(d.hours, 2);
    var mi, s, ms := Padded(d.minutes, 2), Padded(d.seconds, 2), Padded(d.milliseconds, 3);
    FieldsWidth(d);
    FormatPieces(d);
    ReadBack(FormatDate(d), d, ys, mo, da, h, mi, s, ms);
  }

  /** The template's pieces, each field read back as the number it prints. */
  lemma ReadBack(r: string, d: DateFields, ys: string, mo: string, da: string, h: string, mi: string, s: string, ms: string)
    requires |mo| == 2 && |da| == 2 && |h| == 2 && |mi| == 2 && |s| == 2 && |ms| == 3
    requires r == Concat([ys, "-", mo, "-", da, " ", h, ":", mi, ":", s, ".", ms])
    requires DecimalValue(mo) == d.month + 1 && DecimalValue(da) == d.day && DecimalValue(h) == d.hours
    requires DecimalValue(mi) == d.minutes && DecimalValue(s) == d.seconds && DecimalValue(ms) == d.milliseconds
    requires ys == IntToString(d.year)
    ensures LaidOut(r, d)
  {
    TemplateLayout(r, ys, mo, da, h, mi, s, ms);
  }

  /** The formatted date is the concatenation of its pieces. */
  lemma FormatPieces(d: DateFields)
    ensures FormatDate(d) == Concat([IntToString(d.year), "-", Padded(d.month + 1, 2), "-", Padded(d.day, 2), " ",
      Padded(d.hours, 2), ":", Padded(d.minutes, 2), ":", Padded(d.seconds, 2), ".", Padded(d.milliseconds, 3)])
  {
  }

  /** The template with its fields left open: each field has a fixed place. */
  lemma TemplateLayout(r: string, y: string, mo: string, da: string, h: string, mi: string, s: string, ms: string)
    requires |mo| == 2 && |da| == 2 && |h| == 2 && |mi| == 2 && |s| == 2 && |ms| == 3
    requires r == Concat([y, "-", mo, "-", da, " ", h, ":", mi, ":", s, ".", ms])
    ensures var n := |y|;
      && |r| == n + 19
      && r[..n] == y
      && r[n] == '-' && r[n + 3] == '-' && r[n + 6] == ' '
      && r[n + 9] == ':' && r[n + 12] == ':' && r[n + 15] == '.'
      && r[n + 1..n + 3] == mo && r[n + 4..n + 6] == da && r[n + 7..n + 9] == h
      && r[n + 10..n + 12] == mi && r[n + 13..n + 15] == s && r[n + 16..] == ms
  {
    var ps := [y, "-", mo, "-", da, " ", h, ":", mi, ":", s, ".", ms];
    var n := |y|;
    assert Widths(ps, n);
    Slots(ps, n);
    assert r[n + 16..] == r[n + 16..n + 19];
  }

  /** The widths of the pieces of a date in range. */
  predicate Widths(ps: seq<string>, y: nat) {
    && |ps| == 13 && |ps[0]| == y
    && |ps[1]| == 1 && |ps[3]| == 1 && |ps[5]| == 1 && |ps[7]| == 1 && |ps[9]| == 1 && |ps[11]| == 1
    && |ps[2]| == 2 && |ps[4]| == 2 && |ps[6]| == 2 && |ps[8]| == 2 && |ps[10]| == 2
    && |ps[12]| == 3
  }

  /** In a concatenation of pieces of those widths, every piece sits at a fixed place. */
  lemma Slots(ps: seq<string>, y: nat)
    requires Widths(ps, y)
    ensures var r := Concat(ps);
      && |r| == y + 19
      && r[..y] == ps[0]
      && r[y] == ps[1][0] && r[y + 3] == ps[3][0] && r[y + 6] == ps[5][0]
      && r[y + 9] == ps[7][0] && r[y + 12] == ps[9][0] && r[y + 15] == ps[11][0]
      && r[y + 1..y + 3] == ps[2] && r[y + 4..y + 6] == ps[4] && r[y + 7..y + 9] == ps[6]
      && r[y + 10..y + 12] == ps[8] && r[y + 13..y + 15] == ps[10] && r[y + 16..y + 19] == ps[12]
  {
    OffsetsAfterYear(ps, y);
    assert Offset(ps, 0) == 0 by { assert ps[..0] == []; }
    assert |Concat(ps)| == y + 19 by { assert ps[..13] == ps; }
    PieceAt(ps, 0);
    PieceAt(ps, 1);
    PieceAt(ps, 2);
    PieceAt(ps, 3);
    PieceAt(ps, 4);
    PieceAt(ps, 5);
    PieceAt(ps, 6);
    PieceAt(ps, 7);
    PieceAt(ps, 8);
    PieceAt(ps, 9);
    PieceAt(ps, 10);
    PieceAt(ps, 11);
    PieceAt(ps, 12);
  }

  /** The offsets of the thirteen pieces once the year is `y` long. */
  lemma OffsetsAfterYear(ps: seq<string>, y: nat)
    requires Widths(ps, y)
    ensures Offset(ps, 1) == y && Offset(ps, 2) == y + 1 && Offset(ps, 3) == y + 3
    ensures Offset(ps, 4) == y + 4 && Offset(ps, 5) == y + 6 && Offset(ps, 6) == y + 7
    ensures Offset(ps, 7) == y + 9 && Offset(ps, 8) == y + 10 && Offset(ps, 9) == y + 12
    ensures Offset(ps, 10) == y + 13 && Offset(ps, 11) == y + 15 && Offset(ps, 12) == y + 16
    ensures Offset(ps, 13) == y + 19
  {
    assert Offset(ps, 0) == 0 by { assert ps[..0] == []; }
    OffsetStep(ps, 0);
    OffsetStep(ps, 1);
    OffsetStep(ps, 2);
    OffsetStep(ps, 3);
    OffsetStep(ps, 4);
    OffsetStep(ps, 5);
    OffsetStep(ps, 6);
    OffsetStep(ps, 7);
    OffsetStep(ps, 8);
    OffsetStep(ps, 9);
    OffsetStep(ps, 10);
    OffsetStep(ps, 11);
    OffsetStep(ps, 12);
  }

  /** In range, every padded field has exactly its width. */
  lemma FieldsWidth(d: DateFields)
    requires InRange(d)
    ensures |Padded(d.month + 1, 2)| == 2 && DecimalValue(Padded(d.month + 1, 2)) == d.month + 1
    ensures |Padded(d.day, 2)| == 2 && DecimalValue(Padded(d.day, 2)) == d.day
    ensures |Padded(d.hours, 2)| == 2 && DecimalValue(Padded(d.hours, 2)) == d.hours
    ensures |Padded(d.minutes, 2)| == 2 && DecimalValue(Padded(d.minutes, 2)) == d.minutes
    ensures |Padded(d.seconds, 2)| == 2 && DecimalValue(Padded(d.seconds, 2)) == d.seconds
    ensures |Padded(d.milliseconds, 3)| == 3 && DecimalValue(Padded(d.milliseconds, 3)) == d.milliseconds
  {
    PaddedRoundTrip(d.month + 1, 2);
    PaddedRoundTrip(d.day, 2);
    PaddedRoundTrip(d.hours, 2);
    PaddedRoundTrip(d.minutes, 2);
    PaddedRoundTrip(d.seconds, 2);
    PaddedRoundTrip(d.milliseconds, 3);
    ShortDigits(d.month + 1, 2);
    ShortDigits(d.day, 2);
    ShortDigits(d.hours, 2);
    ShortDigits(d.minutes, 2);
    ShortDigits(d.seconds, 2);
    ShortDigits(d.milliseconds, 3);
  }

  /** A number below `10^width` prints in at most `width` digits. */
  lemma ShortDigits(n: nat, width: nat)
    requires (width == 2 && n < 100) || (width == 3 && n < 1000)
    ensures |NatToString(n)| <= width
  {
    if n >= 10 {
      if n >= 100 {
        assert |NatToString(n / 100)| == 1;
        assert |NatToString(n / 10)| == 2;
      }
    }
  }
}
