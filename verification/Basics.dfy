/** Types and sequence facts shared by every module. */
module Basics {

  type byte = x: int | 0 <= x < 256

  type u32 = x: int | 0 <= x <= 0xFFFF_FFFF

  /** A Go string or []byte: both are runs of bytes. */
  type Bytes = seq<byte>

  datatype Option<+T> = None | Some(value: T)

  /** `piece` occupies `b` from offset `off` on. */
  ghost predicate At(b: Bytes, off: nat, piece: Bytes) {
    off + |piece| <= |b| && b[off..off + |piece|] == piece
  }

  /** strings.HasPrefix. */
  predicate HasPrefix(s: Bytes, p: Bytes) { |p| <= |s| && s[..|p|] == p }

  lemma AtIndex(b: Bytes, off: nat, piece: Bytes, k: nat)
    requires At(b, off, piece) && k < |piece|
    ensures b[off + k] == piece[k]
  {
    assert b[off..off + |piece|][k] == piece[k];
  }

  lemma AtMiddle(pre: Bytes, piece: Bytes, post: Bytes)
    ensures At(pre + piece + post, |pre|, piece)
  {
    assert (pre + piece + post)[|pre|..|pre| + |piece|] == piece;
  }

  /** Pieces of a piece stay where they were. */
  lemma AtWithin(b: Bytes, off: nat, outer: Bytes, inOff: nat, inner: Bytes)
    requires At(b, off, outer) && At(outer, inOff, inner)
    ensures At(b, off + inOff, inner)
  {
    forall k: nat | k < |inner| ensures b[off + inOff + k] == inner[k] {
      AtIndex(outer, inOff, inner, k);
      AtIndex(b, off, outer, inOff + k);
    }
  }

  lemma AtAppend(b: Bytes, off: nat, piece: Bytes, post: Bytes)
    requires At(b, off, piece)
    ensures At(b + post, off, piece)
  {
    assert (b + post)[off..off + |piece|] == b[off..off + |piece|];
  }

  // ---- Go's string order ------------------------------------------------

  /** Go's `<` on strings: bytewise lexicographic. */
  predicate Less(a: Bytes, b: Bytes) {
    b != [] && (a == [] || a[0] < b[0] || (a[0] == b[0] && Less(a[1..], b[1..])))
  }

  lemma {:induction false} LessTransitive(a: Bytes, b: Bytes, c: Bytes)
    requires Less(a, b) && Less(b, c)
    ensures Less(a, c)
  {
    if a != [] && a[0] == b[0] && b[0] == c[0] { LessTransitive(a[1..], b[1..], c[1..]); }
  }

  lemma {:induction false} LessIrreflexive(a: Bytes)
    ensures !Less(a, a)
  {
    if a != [] { LessIrreflexive(a[1..]); }
  }

  lemma {:induction false} LessTotal(a: Bytes, b: Bytes)
    ensures Less(a, b) || a == b || Less(b, a)
  {
    if a != [] && b != [] && a[0] == b[0] {
      LessTotal(a[1..], b[1..]);
      if a[1..] == b[1..] { assert a == [a[0]] + a[1..] == b; }
    }
  }

  lemma {:induction false} LessAsymmetric(a: Bytes, b: Bytes)
    requires Less(a, b)
    ensures !Less(b, a)
  {
    if a != [] && a[0] == b[0] { LessAsymmetric(a[1..], b[1..]); }
  }

  lemma LessNegTransitive(a: Bytes, b: Bytes, c: Bytes)
    requires (a == b || !Less(a, b)) && !Less(b, c)
    ensures !Less(a, c)
  {
    LessTotal(a, b);
    LessTotal(b, c);
    if Less(a, c) && Less(c, b) { LessTransitive(a, c, b); }
  }

  lemma {:induction false} MultiplesApart(a: nat, b: nat, d: nat)
    requires a < b
    ensures a * d + d <= b * d
  {
    assert b * d == (b - 1) * d + d;
    if a < b - 1 { MultiplesApart(a, b - 1, d); }
  }

  // ---- Inserting -------------------------------------------------------

  function InsertAt<T>(s: seq<T>, i: nat, x: T): seq<T>
    requires i <= |s|
  {
    s[..i] + [x] + s[i..]
  }

  lemma InsertAtIndex<T>(s: seq<T>, i: nat, x: T)
    requires i <= |s|
    ensures |InsertAt(s, i, x)| == |s| + 1
    ensures forall a :: 0 <= a <= |s| ==> InsertAt(s, i, x)[a] == if a < i then s[a] else if a == i then x else s[a - 1]
    ensures forall y :: y in InsertAt(s, i, x) <==> y == x || y in s
  {
    assert s == s[..i] + s[i..];
  }

  /** A number above all of a finite set. */
  lemma {:induction false} Above(s: set<nat>) returns (m: nat)
    ensures forall x :: x in s ==> x < m
    decreases |s|
  {
    if s == {} {
      m := 0;
    } else {
      var x :| x in s;
      var n := Above(s - {x});
      assert forall y :: y in s ==> y == x || y in s - {x};
      m := if x < n then n else x + 1;
    }
  }
}
