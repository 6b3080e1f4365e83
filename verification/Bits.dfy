/** Bitwise arithmetic on naturals, one bit at a time. */
module Bits {

  function BothOdd(x: nat, y: nat): nat {
    if x % 2 == 1 && y % 2 == 1 then 1 else 0
  }

  function BitAnd(x: nat, y: nat): nat {
    if x == 0 || y == 0 then 0 else BothOdd(x, y) + 2 * BitAnd(x / 2, y / 2)
  }

  function BitXor(x: nat, y: nat): nat
    decreases x + y
  {
    if x == 0 then y
    else if y == 0 then x
    else (x + y) % 2 + 2 * BitXor(x / 2, y / 2)
  }

  function CountOnes(x: nat): nat {
    if x == 0 then 0 else x % 2 + CountOnes(x / 2)
  }

  predicate IsPowerOfTwo(x: nat) {
    CountOnes(x) == 1
  }

  function Pow2(k: nat): (p: nat)
    ensures p > 0
  {
    if k == 0 then 1 else 2 * Pow2(k - 1)
  }

  /** Exactly one set bit means one of the numbers 1, 2, 4, ... */
  lemma {:induction false} PowerOfTwoExponent(x: nat) returns (k: nat)
    requires IsPowerOfTwo(x)
    ensures x == Pow2(k)
  {
    if x % 2 == 1 {
      ZeroOnes(x / 2);
      k := 0;
    } else {
      k := PowerOfTwoExponent(x / 2);
      k := k + 1;
    }
  }

  lemma {:induction false} ZeroOnes(x: nat)
    ensures CountOnes(x) == 0 <==> x == 0
  {
    if x != 0 {
      ZeroOnes(x / 2);
    }
  }

  lemma {:induction false} PowersMultiply(k: nat, j: nat)
    ensures Pow2(k + j) == Pow2(k) * Pow2(j)
  {
    if k > 0 {
      PowersMultiply(k - 1, j);
    }
  }

  /** Clearing the k low bits of a w-bit number with the complement of a low mask
      rounds the number down to a multiple of 2^k. */
  lemma {:induction false} ClearLowBits(v: nat, k: nat, w: nat)
    requires k <= w && v < Pow2(w)
    ensures Pow2(w) >= Pow2(k)
    ensures BitAnd(v, Pow2(w) - Pow2(k)) == v - v % Pow2(k)
  {
    if k == 0 {
      KeepAll(v, w);
    } else {
      ClearLowBits(v / 2, k - 1, w - 1);
      EvenMask(v, Pow2(w - 1) - Pow2(k - 1));
      HalveRemainder(v, Pow2(k - 1));
    }
  }

  lemma EvenMask(v: nat, m: nat)
    ensures BitAnd(v, 2 * m) == 2 * BitAnd(v / 2, m)
  {
    assert (2 * m) / 2 == m;
  }

  lemma {:induction false} KeepAll(v: nat, w: nat)
    requires v < Pow2(w)
    ensures BitAnd(v, Pow2(w) - 1) == v
  {
    if v != 0 {
      assert (Pow2(w) - 1) / 2 == Pow2(w - 1) - 1;
      KeepAll(v / 2, w - 1);
    }
  }

  lemma HalveRemainder(v: nat, p: nat)
    requires p > 0
    ensures v - v % (2 * p) == 2 * (v / 2 - (v / 2) % p)
  {
    var q, r := (v / 2) / p, (v / 2) % p;
    assert v / 2 == q * p + r;
    assert v == q * (2 * p) + (2 * r + v % 2);
    RemainderIs(v, 2 * p, q, 2 * r + v % 2);
  }

  lemma RemainderIs(v: nat, d: nat, q: nat, r: nat)
    requires r < d && v == q * d + r
    ensures v / d == q && v % d == r
  {
    assert (v / d - q) * d == r - v % d;
    SmallMultiple(v / d - q, d);
  }

  lemma SmallMultiple(a: int, d: int)
    requires -d < a * d < d
    ensures a == 0
  {
    if a > 0 {
      MultipleAtLeast(a, d);
    } else if a < 0 {
      MultipleAtLeast(-a, d);
    }
  }

  lemma MultipleAtLeast(a: int, d: int)
    requires a > 0 && d >= 0
    ensures a * d >= d
  {
    assert (a - 1) * d >= 0;
  }

  /** XOR works bit by bit. */
  lemma XorStep(x: nat, y: nat)
    ensures BitXor(x, y) % 2 == (x + y) % 2
    ensures BitXor(x, y) / 2 == BitXor(x / 2, y / 2)
  {
    hide BitXor;
    if x == 0 || y == 0 {
      XorZero(x, y);
      XorZero(x / 2, y / 2);
    } else {
      XorDigits(x, y);
      LowDigit((x + y) % 2, BitXor(x / 2, y / 2));
    }
  }

  lemma XorZero(x: nat, y: nat)
    requires x == 0 || y == 0
    ensures BitXor(x, y) == x + y
  {
  }

  lemma XorDigits(x: nat, y: nat)
    requires x != 0 && y != 0
    ensures BitXor(x, y) == (x + y) % 2 + 2 * BitXor(x / 2, y / 2)
  {
  }

  lemma LowDigit(d: nat, q: nat)
    requires d < 2
    ensures (d + 2 * q) % 2 == d && (d + 2 * q) / 2 == q
  {
  }

  /** XOR with the same key twice gives the number back. */
  lemma {:induction false} XorCancels(x: nat, k: nat)
    ensures BitXor(BitXor(x, k), k) == x
    decreases x + k
  {
    if x == 0 {
      XorSelf(k);
    } else if k != 0 {
      XorCancels(x / 2, k / 2);
      XorStep(x, k);
      XorStep(BitXor(x, k), k);
    }
  }

  lemma {:induction false} XorSelf(k: nat)
    ensures BitXor(k, k) == 0
  {
    if k != 0 {
      XorSelf(k / 2);
    }
  }

  /** XOR of two w-bit numbers stays within w bits. */
  lemma {:induction false} XorFits(x: nat, y: nat, w: nat)
    requires x < Pow2(w) && y < Pow2(w)
    ensures BitXor(x, y) < Pow2(w)
  {
    if x != 0 && y != 0 {
      XorFits(x / 2, y / 2, w - 1);
    }
  }

  type bit = b: nat | b < 2

  function AndBit(b: bit, c: bit): bit {
    if b == 1 && c == 1 then 1 else 0
  }

  /** A number from its lowest bit and the rest. */
  function Put(b: bit, x: nat): nat {
    b + 2 * x
  }

  lemma Halves(x: nat)
    ensures x == Put(x % 2, x / 2)
  {
  }

  lemma AndDigit(b: bit, x: nat, c: bit, y: nat)
    ensures BitAnd(Put(b, x), Put(c, y)) == Put(AndBit(b, c), BitAnd(x, y))
  {
    assert (b + 2 * x) / 2 == x && (c + 2 * y) / 2 == y;
  }

  /** A number from its six low bits and the rest. */
  function Word(b0: bit, b1: bit, b2: bit, b3: bit, b4: bit, b5: bit, rest: nat): nat {
    Put(b0, Put(b1, Put(b2, Put(b3, Put(b4, Put(b5, rest))))))
  }

  lemma AndOfWords(b0: bit, b1: bit, b2: bit, b3: bit, b4: bit, b5: bit, r: nat,
                   c0: bit, c1: bit, c2: bit, c3: bit, c4: bit, c5: bit, t: nat)
    ensures BitAnd(Word(b0, b1, b2, b3, b4, b5, r), Word(c0, c1, c2, c3, c4, c5, t)) ==
            Word(AndBit(b0, c0), AndBit(b1, c1), AndBit(b2, c2), AndBit(b3, c3), AndBit(b4, c4),
                 AndBit(b5, c5), BitAnd(r, t))
  {
    hide BitAnd, AndBit, Put;
    var x5, y5 := Put(b5, r), Put(c5, t);
    var x4, y4 := Put(b4, x5), Put(c4, y5);
    var x3, y3 := Put(b3, x4), Put(c3, y4);
    var x2, y2 := Put(b2, x3), Put(c2, y3);
    AndDigit(b5, r, c5, t);
    AndDigit(b4, x5, c4, y5);
    AndDigit(b3, x4, c3, y4);
    AndDigit(b2, x3, c2, y3);
    AndDigit(b1, x2, c1, y2);
    AndDigit(b0, Put(b1, x2), c0, Put(c1, y2));
  }

  lemma NoBits(x: nat)
    ensures BitAnd(x, 0) == 0
  {
  }
}
