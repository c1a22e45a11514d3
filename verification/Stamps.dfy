/** The dated names of backup/dbdump.go: fixed-width stamps sort as text the way they do in time. */
module Stamps {
  import opened Basics

  /** A UTC instant to the second, as the name of a dump spells it. */
  datatype Stamp = Stamp(year: nat, month: nat, day: nat, hour: nat, minute: nat, second: nat)

  predicate InRange(s: Stamp) {
    s.year < 10000 && s.month < 100 && s.day < 100 && s.hour < 100 && s.minute < 100 && s.second < 100
  }

  /** `n` in `width` decimal digits. */
  function Digits(n: nat, width: nat): Bytes
    decreases width
  {
    if width == 0 then [] else Digits(n / 10, width - 1) + [48 + n % 10]
  }

  const T: Bytes := [84]
  const Z: Bytes := [90]

  /** The layout 20060102T150405Z. */
  function Text(s: Stamp): Bytes {
    Digits(s.year, 4) + (Digits(s.month, 2) +
        (Digits(s.day, 2) + (T + (Digits(s.hour, 2) + (Digits(s.minute, 2) + (Digits(s.second, 2) + Z))))))
  }

  /** The number the two decimal digits at `i` stand for. */
  function NumberAt(t: Bytes, i: nat): int
    requires i + 1 < |t|
  {
    var tens, units: int := t[i], t[i + 1];
    10 * (tens - 48) + units - 48
  }

  lemma TwoDigits(n: nat)
    requires n < 100
    ensures |Digits(n, 2)| == 2 && NumberAt(Digits(n, 2), 0) == n
  {
    assert Digits(n / 10, 1) == Digits(n / 10 / 10, 0) + [48 + n / 10 % 10];
    assert Digits(n, 2) == [48 + n / 10 % 10, 48 + n % 10];
  }

  lemma FourDigits(n: nat)
    requires n < 10000
    ensures |Digits(n, 4)| == 4 && 100 * NumberAt(Digits(n, 4), 0) + NumberAt(Digits(n, 4), 2) == n
  {
    TwoDigits(n / 100);
    assert Digits(n / 10, 3) == Digits(n / 100, 2) + [48 + n / 10 % 10] by { assert n / 10 / 10 == n / 100; }
    assert Digits(n, 4) == Digits(n / 100, 2) + [48 + n / 10 % 10, 48 + n % 10];
  }

  lemma SameNumber(t: Bytes, i: nat, u: Bytes, j: nat)
    requires i + 1 < |t| && j + 1 < |u| && t[i] == u[j] && t[i + 1] == u[j + 1]
    ensures NumberAt(t, i) == NumberAt(u, j)
  {
  }

  /** Byte by byte: year, month and day in decimal, a T, the time of day in decimal, a Z. */
  lemma TextReadsBack(s: Stamp)
    requires InRange(s)
    ensures |Text(s)| == 16 && Text(s)[8] == 84 && Text(s)[15] == 90
    ensures s == Stamp(100 * NumberAt(Text(s), 0) + NumberAt(Text(s), 2), NumberAt(Text(s), 4), NumberAt(Text(s), 6),
                       NumberAt(Text(s), 9), NumberAt(Text(s), 11), NumberAt(Text(s), 13))
  {
    FourDigits(s.year);
    TwoDigits(s.month);
    TwoDigits(s.day);
    TwoDigits(s.hour);
    TwoDigits(s.minute);
    TwoDigits(s.second);
    hide Digits, NumberAt;
    SameNumber(Text(s), 0, Digits(s.year, 4), 0);
    SameNumber(Text(s), 2, Digits(s.year, 4), 2);
    SameNumber(Text(s), 4, Digits(s.month, 2), 0);
    SameNumber(Text(s), 6, Digits(s.day, 2), 0);
    SameNumber(Text(s), 9, Digits(s.hour, 2), 0);
    SameNumber(Text(s), 11, Digits(s.minute, 2), 0);
    SameNumber(Text(s), 13, Digits(s.second, 2), 0);
  }

  predicate Earlier(a: Stamp, b: Stamp) {
    if a.year != b.year then a.year < b.year
    else if a.month != b.month then a.month < b.month
    else if a.day != b.day then a.day < b.day
    else if a.hour != b.hour then a.hour < b.hour
    else if a.minute != b.minute then a.minute < b.minute
    else a.second < b.second
  }

  /** Strings of one length compare before whatever follows them. */
  lemma {:induction false} LessByPrefix(a: Bytes, b: Bytes, x: Bytes, y: Bytes)
    requires |a| == |b|
    ensures Less(a + x, b + y) <==> Less(a, b) || (a == b && Less(x, y))
  {
    if a == [] {
      assert a + x == x && b + y == y;
    } else {
      assert (a + x)[1..] == a[1..] + x && (b + y)[1..] == b[1..] + y;
      LessByPrefix(a[1..], b[1..], x, y);
      assert a == [a[0]] + a[1..] && b == [b[0]] + b[1..];
    }
  }

  function Pow10(w: nat): nat { if w == 0 then 1 else 10 * Pow10(w - 1) }

  lemma {:induction false} DigitsOrder(m: nat, n: nat, width: nat)
    requires m < Pow10(width) && n < Pow10(width)
    ensures |Digits(m, width)| == |Digits(n, width)| == width
    ensures Less(Digits(m, width), Digits(n, width)) <==> m < n
    ensures Digits(m, width) == Digits(n, width) <==> m == n
    decreases width
  {
    if width > 0 {
      var a, b := Digits(m / 10, width - 1), Digits(n / 10, width - 1);
      DigitsOrder(m / 10, n / 10, width - 1);
      LessByPrefix(a, b, [48 + m % 10], [48 + n % 10]);
      assert Digits(m, width)[..width - 1] == a && Digits(n, width)[..width - 1] == b;
      assert Digits(m, width)[width - 1] == 48 + m % 10 && Digits(n, width)[width - 1] == 48 + n % 10;
      assert [48 + m % 10][1..] == [] && [48 + n % 10][1..] == [];
    }
  }

  lemma Field(m: nat, n: nat, width: nat, x: Bytes, y: Bytes)
    requires m < Pow10(width) && n < Pow10(width)
    ensures Less(Digits(m, width) + x, Digits(n, width) + y) <==> m < n || (m == n && Less(x, y))
  {
    DigitsOrder(m, n, width);
    LessByPrefix(Digits(m, width), Digits(n, width), x, y);
  }

  /** Lexical order of the names is the order of the instants. */
  lemma TextOrderIsTimeOrder(a: Stamp, b: Stamp)
    requires InRange(a) && InRange(b)
    ensures Less(Text(a), Text(b)) <==> Earlier(a, b)
  {
    hide Digits, Less;
    assert Pow10(4) == 10000 && Pow10(2) == 100 by { Powers(); }
    var a6, b6 := Digits(a.second, 2) + Z, Digits(b.second, 2) + Z;
    var a5, b5 := Digits(a.minute, 2) + a6, Digits(b.minute, 2) + b6;
    var a4, b4 := Digits(a.hour, 2) + a5, Digits(b.hour, 2) + b5;
    var a3, b3 := Digits(a.day, 2) + (T + a4), Digits(b.day, 2) + (T + b4);
    var a2, b2 := Digits(a.month, 2) + a3, Digits(b.month, 2) + b3;
    LessIrreflexive(Z);
    LessIrreflexive(T);
    Field(a.second, b.second, 2, Z, Z);
    Field(a.minute, b.minute, 2, a6, b6);
    Field(a.hour, b.hour, 2, a5, b5);
    LessByPrefix(T, T, a4, b4);
    Field(a.day, b.day, 2, T + a4, T + b4);
    Field(a.month, b.month, 2, a3, b3);
    Field(a.year, b.year, 4, a2, b2);
  }

  lemma Powers()
    ensures Pow10(2) == 100 && Pow10(4) == 10000
  {
    assert Pow10(1) == 10 && Pow10(3) == 1000;
  }
}
