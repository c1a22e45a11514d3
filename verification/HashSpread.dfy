/**
 The rolling re-hash spreads its work: the path hash is FNV-1a, and names that count up fall due in
 different generations (rehashDue of backup/inventory.go).
 */
module HashSpread {
  import opened Basics
  import opened FileCheck

  // ---- Exclusive or ------------------------------------------------------------

  lemma {:induction false} XorBound(a: nat, b: nat, m: nat)
    requires a < m && b < m && m in {1, 2, 4, 8, 16, 32, 64, 128, 256}
    ensures Xor(a, b) < m
  {
    if m > 1 { XorBound(a / 2, b / 2, m / 2); }
  }

  lemma Halves(r: nat, y: nat)
    requires r < 2
    ensures (r + 2 * y) % 2 == r && (r + 2 * y) / 2 == y
  {
  }

  lemma XorStep(a: nat, b: nat)
    ensures Xor(a, b) % 2 == (a + b) % 2 && Xor(a, b) / 2 == Xor(a / 2, b / 2)
  {
    var y := Xor(a / 2, b / 2);
    assert Xor(a, b) == (a + b) % 2 + 2 * y;
    hide Xor;
    Halves((a + b) % 2, y);
  }

  lemma Parity(a: nat, b: nat, c: nat)
    ensures (a + b) % 2 == (a + c) % 2 <==> b % 2 == c % 2
  {
  }

  lemma Whole(b: nat)
    ensures b == b % 2 + 2 * (b / 2)
  {
  }

  lemma {:induction false} XorInjective(a: nat, b: nat, c: nat)
    requires Xor(a, b) == Xor(a, c)
    ensures b == c
    decreases a + b + c
  {
    if a + b + c > 0 {
      XorStep(a, b);
      XorStep(a, c);
      Parity(a, b, c);
      Whole(b);
      Whole(c);
      hide Xor;
      XorInjective(a / 2, b / 2, c / 2);
    }
  }

  /** The low `n` bits agree. */
  predicate LowSame(x: nat, y: nat, n: nat) { n == 0 || (x % 2 == y % 2 && LowSame(x / 2, y / 2, n - 1)) }

  lemma {:induction false} XorLowBits(a: nat, b: nat, c: nat, n: nat)
    ensures LowSame(Xor(a, b), Xor(a, c), n) <==> LowSame(b, c, n)
  {
    if n > 0 {
      XorStep(a, b);
      XorStep(a, c);
      Parity(a, b, c);
      hide Xor;
      XorLowBits(a / 2, b / 2, c / 2, n - 1);
    }
  }

  lemma Bits(x: nat)
    ensures x % 8 == x % 2 + 2 * (x / 2 % 2) + 4 * (x / 2 / 2 % 2)
  {
  }

  lemma LowBits(x: nat, y: nat)
    ensures x % 8 == y % 8 <==> LowSame(x, y, 3)
  {
    assert LowSame(x / 2, y / 2, 2) <==> x / 2 % 2 == y / 2 % 2 && LowSame(x / 2 / 2, y / 2 / 2, 1);
    assert LowSame(x / 2 / 2, y / 2 / 2, 1) <==> x / 2 / 2 % 2 == y / 2 / 2 % 2;
    Bits(x);
    Bits(y);
  }

  // ---- Multiplying by the prime ------------------------------------------------

  lemma Multiple(d: int, q: int)
    requires d * 16777619 == q * 0x1_0000_0000 && -0x1_0000_0000 < d < 0x1_0000_0000
    ensures d == 0
  {
    assert d == (q * 899433627 - d * 3513497) * 0x1_0000_0000;
  }

  lemma Parts(x: int)
    ensures x == x / 0x1_0000_0000 * 0x1_0000_0000 + x % 0x1_0000_0000
  {
  }

  /** The multiplier is odd, so multiplying by it modulo 2^32 loses nothing. */
  lemma TimesPrimeInjective(x: u32, y: u32)
    requires x * 16777619 % 0x1_0000_0000 == y * 16777619 % 0x1_0000_0000
    ensures x == y
  {
    Parts(x * 16777619);
    Parts(y * 16777619);
    Multiple(x - y, x * 16777619 / 0x1_0000_0000 - y * 16777619 / 0x1_0000_0000);
  }

  lemma ModEight(y: nat, k: nat, s: nat)
    requires y == 8 * k + s && s < 8
    ensures y % 8 == s
  {
  }

  lemma Reduced(y: nat)
    ensures y % 0x1_0000_0000 % 8 == y % 8
  {
    Parts(y);
    var r := y % 0x1_0000_0000;
    ModEight(y, y / 0x1_0000_0000 * 0x2000_0000 + r / 8, r % 8);
  }

  /** Modulo 8 the prime is 3, and nothing above the low bits matters. */
  lemma LowOfProduct(hi: nat, x: nat)
    ensures (hi * 256 + x) * 16777619 % 0x1_0000_0000 % 8 == 3 * x % 8
  {
    var y := (hi * 256 + x) * 16777619;
    Reduced(y);
    assert y == 8 * (hi * 32 * 16777619 + x * 2097202) + 3 * x;
    ModEight(y, hi * 32 * 16777619 + x * 2097202 + 3 * x / 8, 3 * x % 8);
  }

  lemma Eighths(x: nat, y: nat, k: int)
    requires x == y + 8 * k
    ensures x % 8 == y % 8
  {
  }

  lemma Thrice(x: nat, y: nat)
    requires 3 * x % 8 == 3 * y % 8
    ensures x % 8 == y % 8
  {
    Eighths(x, y, 3 * (3 * x / 8) - x - 3 * (3 * y / 8) + y);
  }

  // ---- The hash ----------------------------------------------------------------

  lemma Mixed(h: u32, x: nat)
    requires x < 256
    ensures h / 256 * 256 + x <= 0xFFFF_FFFF
  {
  }

  lemma InjectiveFrom(hi: nat, lo: nat, b: nat, c: nat)
    requires hi + Xor(lo, b) <= 0xFFFF_FFFF && hi + Xor(lo, c) <= 0xFFFF_FFFF
    requires (hi + Xor(lo, b)) * 16777619 % 0x1_0000_0000 == (hi + Xor(lo, c)) * 16777619 % 0x1_0000_0000
    ensures b == c
  {
    hide Xor;
    TimesPrimeInjective(hi + Xor(lo, b), hi + Xor(lo, c));
    XorInjective(lo, b, c);
  }

  lemma StepInjective(h: u32, b: byte, c: byte)
    requires FnvStep(h, b) == FnvStep(h, c)
    ensures b == c
  {
    XorBound(h % 256, b, 256);
    XorBound(h % 256, c, 256);
    Mixed(h, Xor(h % 256, b));
    Mixed(h, Xor(h % 256, c));
    InjectiveFrom(h / 256 * 256, h % 256, b, c);
  }

  lemma StepLowBits(h: u32, b: byte, c: byte)
    requires FnvStep(h, b) % 8 == FnvStep(h, c) % 8
    ensures b % 8 == c % 8
  {
    var x, y := Xor(h % 256, b), Xor(h % 256, c);
    LowOfProduct(h / 256, x);
    LowOfProduct(h / 256, y);
    Thrice(x, y);
    LowBits(x, y);
    LowBits(b, c);
    XorLowBits(h % 256, b, c, 3);
  }

  lemma FnvOfLonger(path: Bytes, b: byte)
    ensures Fnv(path + [b]) == FnvStep(Fnv(path), b)
  {
    assert (path + [b])[..|path|] == path;
    hide FnvStep;
  }

  /** Two paths of one directory that differ only in their last byte never hash alike. */
  lemma LastByteTells(path: Bytes, b: byte, c: byte)
    requires Fnv(path + [b]) == Fnv(path + [c])
    ensures b == c
  {
    FnvOfLonger(path, b);
    FnvOfLonger(path, c);
    hide FnvStep;
    StepInjective(Fnv(path), b, c);
  }

  /**
   With the denominator the job uses, no two of eight names that count up in their last byte are due
   in the same generation.
   */
  lemma CountingNamesSpread(path: Bytes, b: byte, c: byte, gen: nat)
    requires b % 8 != c % 8
    ensures !(IsDue(path + [b], gen, 8) && IsDue(path + [c], gen, 8))
  {
    FnvOfLonger(path, b);
    FnvOfLonger(path, c);
    hide FnvStep;
    if IsDue(path + [b], gen, 8) && IsDue(path + [c], gen, 8) { StepLowBits(Fnv(path), b, c); }
  }

  lemma XorVectors()
    ensures Xor(0xC5, 97) == 0xA4 && Xor(0xC5, 98) == 0xA7
  {
    assert Xor(1, 0) == 1;
    assert Xor(3, 1) == 2;
    assert Xor(6, 3) == 5;
    assert Xor(12, 6) == 10;
    assert Xor(24, 12) == 20;
    assert Xor(49, 24) == 41;
    assert Xor(98, 48) == 82;
    assert Xor(98, 49) == 83;
  }

  lemma StepVectors()
    ensures FnvStep(0x811C9DC5, 97) == 0xE40C292C && FnvStep(0x811C9DC5, 98) == 0xE70C2DE5
  {
    XorVectors();
    hide Xor;
  }

  /** The published FNV-1a values of the empty string, "a" and "b", and the runs at which the job rereads them. */
  lemma KnownValues()
    ensures Fnv([]) == 0x811C9DC5 && Fnv([97]) == 0xE40C292C && Fnv([98]) == 0xE70C2DE5
    ensures forall gen: nat :: (IsDue([97], gen, 8) <==> gen % 8 == 4) && (IsDue([98], gen, 8) <==> gen % 8 == 5)
  {
    hide FnvStep;
    StepVectors();
    assert Fnv([]) == 0x811C9DC5;
    FnvOfLonger([], 97);
    FnvOfLonger([], 98);
    assert [] + [97] == [97] && [] + [98] == [98];
  }
}
