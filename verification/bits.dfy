/**
 * Powers of two and binary length, the vocabulary in which the pivot rules of
 * both prototypes and the heights of the shapes they build are stated.
 */
module Bits {

  function Pow2(k: nat): (r: nat)
    ensures r >= 1
  {
    if k == 0 then 1 else 2 * Pow2(k - 1)
  }

  /** Number of binary digits of n, that is ceil(log2(n + 1)). */
  function BitLength(n: nat): nat
  {
    if n == 0 then 0 else 1 + BitLength(n / 2)
  }

  function Max(a: nat, b: nat): nat
  {
    if a < b then b else a
  }

  /** n lies between the value of its most significant bit and the next power of two. */
  lemma {:induction false} BitLengthBounds(n: nat)
    requires n >= 1
    ensures BitLength(n) >= 1
    ensures Pow2(BitLength(n) - 1) <= n < Pow2(BitLength(n))
  {
    if n >= 2 {
      BitLengthBounds(n / 2);
      assert Pow2(BitLength(n) - 1) == 2 * Pow2(BitLength(n / 2) - 1);
    }
  }

  /** Conversely, bounds between two consecutive powers of two fix the binary length. */
  lemma {:induction false} BitLengthOfRange(m: nat, j: nat)
    requires Pow2(j) <= m < Pow2(j + 1)
    ensures BitLength(m) == j + 1
  {
    if j > 0 {
      assert Pow2(j) == 2 * Pow2(j - 1);
      BitLengthOfRange(m / 2, j - 1);
    }
  }

  /** Binary length never decreases as the number grows. */
  lemma {:induction false} BitLengthMonotone(a: nat, b: nat)
    requires a <= b
    ensures BitLength(a) <= BitLength(b)
  {
    if a > 0 {
      BitLengthMonotone(a / 2, b / 2);
    }
  }
}
