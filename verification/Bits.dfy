/**
 Bytes, minima and bitwise operations on natural numbers. Everything is defined by
 recursion on the bits, so that the proofs stay within linear arithmetic.
 */
module Bits {

  type Byte = b: nat | b < 256

  function Min(a: nat, b: nat): nat { if a < b then a else b }

  function Pow2(n: nat): nat {
    if n == 0 then 1 else 2 * Pow2(n - 1)
  }

  function And(a: nat, b: nat): nat {
    if a == 0 || b == 0 then 0 else 2 * And(a / 2, b / 2) + (if a % 2 == 1 == b % 2 then 1 else 0)
  }

  function ShiftLeft(a: nat, n: nat): nat {
    if n == 0 then a else 2 * ShiftLeft(a, n - 1)
  }

  function ShiftRight(a: nat, n: nat): nat {
    if n == 0 then a else ShiftRight(a / 2, n - 1)
  }

  /** The n low bits. */
  function Low(a: nat, n: nat): nat {
    if n == 0 then 0 else 2 * Low(a / 2, n - 1) + a % 2
  }

  lemma Doubled(a: nat, b: nat)
    ensures 2 * (a * b) == (2 * a) * b == a * (2 * b)
  {}

  lemma {:induction false} Pow2Positive(n: nat)
    ensures Pow2(n) > 0
  {
    if n > 0 {
      Pow2Positive(n - 1);
    }
  }

  lemma {:induction false} Pow2Sum(m: nat, n: nat)
    ensures Pow2(m + n) == Pow2(m) * Pow2(n)
  {
    if m > 0 {
      Pow2Sum(m - 1, n);
      Doubled(Pow2(m - 1), Pow2(n));
    }
  }

  lemma {:induction false} LowBound(a: nat, n: nat)
    ensures Low(a, n) < Pow2(n)
  {
    if n > 0 {
      LowBound(a / 2, n - 1);
    }
  }

  lemma {:induction false} LowOfSmall(a: nat, n: nat)
    requires a < Pow2(n)
    ensures Low(a, n) == a
  {
    if n > 0 {
      LowOfSmall(a / 2, n - 1);
    }
  }

  /** A number is its high bits and its low bits. */
  lemma {:induction false} SplitBits(a: nat, n: nat)
    ensures a == ShiftLeft(ShiftRight(a, n), n) + Low(a, n)
  {
    if n > 0 {
      SplitBits(a / 2, n - 1);
    }
  }

  lemma {:induction false} ShiftRightBound(a: nat, m: nat, n: nat)
    requires a < Pow2(m + n)
    ensures ShiftRight(a, n) < Pow2(m)
  {
    if n > 0 {
      ShiftRightBound(a / 2, m, n - 1);
    }
  }

  lemma {:induction false} ShiftLeftMask(m: nat, n: nat)
    ensures Pow2(m) > 0 && ShiftLeft(Pow2(m) - 1, n) == Pow2(m + n) - Pow2(n)
  {
    Pow2Positive(m);
    if n > 0 {
      ShiftLeftMask(m, n - 1);
    }
  }

  lemma {:induction false} ShiftLeftIsProduct(a: nat, n: nat)
    ensures ShiftLeft(a, n) == a * Pow2(n)
  {
    if n > 0 {
      ShiftLeftIsProduct(a, n - 1);
      Doubled(a, Pow2(n - 1));
    }
  }

  /** Masking with n low bits set keeps those. */
  lemma {:induction false} AndLow(a: nat, n: nat)
    ensures Pow2(n) > 0 && And(a, Pow2(n) - 1) == Low(a, n)
  {
    Pow2Positive(n);
    if n > 0 {
      AndLow(a / 2, n - 1);
      assert (Pow2(n) - 1) / 2 == Pow2(n - 1) - 1;
    }
  }

  /** A mask shifted left by n leaves out the n low bits. */
  lemma {:induction false} AndShifted(a: nat, m: nat, n: nat)
    ensures And(a, ShiftLeft(m, n)) == ShiftLeft(And(ShiftRight(a, n), m), n)
  {
    if n > 0 {
      AndShifted(a / 2, m, n - 1);
      var b := ShiftLeft(m, n - 1);
      assert 2 * b / 2 == b && 2 * b % 2 == 0;
    }
  }

  /** A field of m bits above the n low ones. */
  lemma AndField(a: nat, m: nat, n: nat)
    ensures Pow2(m + n) >= Pow2(n)
    ensures And(a, Pow2(m + n) - Pow2(n)) == ShiftLeft(Low(ShiftRight(a, n), m), n)
  {
    ShiftLeftMask(m, n);
    AndShifted(a, Pow2(m) - 1, n);
    AndLow(ShiftRight(a, n), m);
  }

  /** Clearing the n low bits of a word rounds it down to a multiple of 2^n. */
  lemma ClearLow(a: nat, m: nat, n: nat)
    requires a < Pow2(m + n)
    ensures Pow2(m + n) >= Pow2(n)
    ensures And(a, Pow2(m + n) - Pow2(n)) == a - Low(a, n) == ShiftRight(a, n) * Pow2(n)
  {
    AndField(a, m, n);
    ShiftRightBound(a, m, n);
    LowOfSmall(ShiftRight(a, n), m);
    SplitBits(a, n);
    ShiftLeftIsProduct(ShiftRight(a, n), n);
  }

  // ------------------------------------------------------------ single bits

  lemma {:induction false} AtLeastOnce(k: nat, d: nat)
    requires k >= 1
    ensures k * d >= d
  {}

  lemma QuotientBy(a: nat, d: nat, q: nat, r: nat)
    requires a == q * d + r && r < d
    ensures a / d == q
  {
    var p := a / d;
    assert a == p * d + a % d;
    if p < q {
      AtLeastOnce(q - p, d);
    } else if q < p {
      AtLeastOnce(p - q, d);
    }
  }

  /** Bit k by division and remainder. */
  function Bit(a: nat, k: nat): (r: nat)
    ensures r < 2
  {
    Pow2Positive(k);
    a / Pow2(k) % 2
  }

  lemma BitByShift(a: nat, k: nat)
    ensures Bit(a, k) == ShiftRight(a, k) % 2
  {
    Pow2Positive(k);
    HighAndLow(a, k);
    QuotientBy(a, Pow2(k), ShiftRight(a, k), Low(a, k));
  }

  /** A number of n bits is determined by them. */
  lemma {:induction false} BitsDetermine(n: nat, a: nat, b: nat)
    requires a < Pow2(n) && b < Pow2(n)
    requires forall k :: 0 <= k < n ==> ShiftRight(a, k) % 2 == ShiftRight(b, k) % 2
    ensures a == b
  {
    if n > 0 {
      forall k | 0 <= k < n - 1
        ensures ShiftRight(a / 2, k) % 2 == ShiftRight(b / 2, k) % 2
      {
        assert ShiftRight(a, k + 1) == ShiftRight(a / 2, k) && ShiftRight(b, k + 1) == ShiftRight(b / 2, k);
      }
      BitsDetermine(n - 1, a / 2, b / 2);
      assert ShiftRight(a, 0) % 2 == ShiftRight(b, 0) % 2;
    }
  }

  // ------------------------------------------------------------ masks on bytes

  lemma HighAndLow(b: nat, n: nat)
    ensures b == ShiftRight(b, n) * Pow2(n) + Low(b, n) && Low(b, n) < Pow2(n)
  {
    SplitBits(b, n);
    LowBound(b, n);
    ShiftLeftIsProduct(ShiftRight(b, n), n);
  }

  lemma BytePowers()
    ensures Pow2(1) == 2 && Pow2(3) == 8 && Pow2(4) == 16 && Pow2(7) == 128 && Pow2(8) == 256
  {}

  lemma LowMask(b: nat, n: nat, d: nat)
    requires Pow2(n) == d > 0
    ensures b == ShiftRight(b, n) * d + And(b, d - 1) && And(b, d - 1) < d
  {
    AndLow(b, n);
    HighAndLow(b, n);
  }

  lemma Modulo16(b: nat, q: nat, r: nat)
    requires b == q * 16 + r && r < 16
    ensures b % 16 == r
  {}

  lemma Modulo128(b: nat, q: nat, r: nat)
    requires b == q * 128 + r && r < 128
    ensures b % 128 == r
  {}

  /** `b & 0x80` is set. */
  function TopBit(b: Byte): (r: bool)
    ensures r == (b >= 128)
  {
    BytePowers();
    AndField(b, 1, 7);
    HighAndLow(b, 7);
    LowOfSmall(ShiftRight(b, 7), 1);
    ShiftLeftIsProduct(ShiftRight(b, 7), 7);
    And(b, 0x80) != 0
  }

  /** `b & 0x7F`. */
  function LowSeven(b: Byte): (r: nat)
    ensures r == b % 128
  {
    BytePowers();
    LowMask(b, 7, 128);
    Modulo128(b, ShiftRight(b, 7), And(b, 0x7F));
    And(b, 0x7F)
  }

  /** `b & 0x0F`. */
  function LowNibble(b: Byte): (r: nat)
    ensures r == b % 16
  {
    BytePowers();
    LowMask(b, 4, 16);
    Modulo16(b, ShiftRight(b, 4), And(b, 0x0F));
    And(b, 0x0F)
  }
}
