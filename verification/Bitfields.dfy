/** Arbitrary-precision integers as two's-complement bit strings without end. */
module Bitfields {

  /** Bit `k` of `n`: `n & (1 << k)` is not zero. */
  predicate BitAt(n: int, k: nat)
    decreases k
  {
    if k == 0 then n % 2 == 1 else BitAt(n / 2, k - 1)
  }

  /** `n | (1 << k)`. */
  function OrBit(n: int, k: nat): int
    decreases k
  {
    if k == 0 then n / 2 * 2 + 1 else OrBit(n / 2, k - 1) * 2 + n % 2
  }

  /** `n ^ (1 << k)`. */
  function XorBit(n: int, k: nat): int
    decreases k
  {
    if k == 0 then n / 2 * 2 + (1 - n % 2) else XorBit(n / 2, k - 1) * 2 + n % 2
  }

  lemma {:induction false} OrBitBits(n: int, k: nat, j: nat)
    ensures BitAt(OrBit(n, k), j) == (j == k || BitAt(n, j))
    decreases j
  {
    if k > 0 && j > 0 {
      OrBitBits(n / 2, k - 1, j - 1);
    }
  }

  lemma {:induction false} XorBitBits(n: int, k: nat, j: nat)
    ensures BitAt(XorBit(n, k), j) == if j == k then !BitAt(n, k) else BitAt(n, j)
    decreases j
  {
    if k > 0 && j > 0 {
      XorBitBits(n / 2, k - 1, j - 1);
    }
  }

  lemma {:induction false} OrBitNonNegative(n: int, k: nat)
    requires n >= 0
    ensures OrBit(n, k) >= 0
  {
    if k > 0 { OrBitNonNegative(n / 2, k - 1); }
  }

  ghost predicate SameBits(a: int, b: int) {
    forall k: nat :: BitAt(a, k) == BitAt(b, k)
  }

  /** The bits determine the integer, negative ones included. */
  lemma {:induction false} BitsDetermine(a: int, b: int)
    requires SameBits(a, b)
    ensures a == b
    decreases (if a < 0 then -a else a) + (if b < 0 then -b else b)
  {
    assert BitAt(a, 0) == BitAt(b, 0);
    if !(a == 0 || a == -1) || !(b == 0 || b == -1) {
      forall k: nat ensures BitAt(a / 2, k) == BitAt(b / 2, k) {
        assert BitAt(a, k + 1) == BitAt(b, k + 1);
      }
      BitsDetermine(a / 2, b / 2);
    }
  }

  /** The number of binary digits of a magnitude; zero has none. */
  function BitLength(n: nat): nat {
    if n == 0 then 0 else 1 + BitLength(n / 2)
  }

  lemma {:induction false} BitLengthMeaning(n: nat, k: nat)
    ensures BitAt(n, k) ==> k < BitLength(n)
    ensures n > 0 && k == BitLength(n) - 1 ==> BitAt(n, k)
    decreases n
  {
    if n == 0 {
      ZeroHasNoBits(k);
    } else {
      assert BitLength(n) == 1 + BitLength(n / 2);
      if k > 0 {
        BitLengthMeaning(n / 2, k - 1);
      } else if n > 1 {
        assert BitLength(n / 2) == 1 + BitLength(n / 2 / 2);
      } else {
        assert BitAt(n, 0);
      }
    }
  }

  lemma {:induction false} ZeroHasNoBits(k: nat)
    ensures !BitAt(0, k)
  {
    if k > 0 { ZeroHasNoBits(k - 1); }
  }

  /** A negative integer has all bits set from some point on. */
  lemma {:induction false} NegativeHighBits(n: int, k: nat)
    requires n < 0 && -n <= k + 1
    ensures BitAt(n, k)
    decreases k
  {
    if k > 0 { NegativeHighBits(n / 2, k - 1); }
  }
}
