/**
 * The pivot rule of `balance_tree` in wbt.py (wbt.py:125-157): the position of
 * the subtree root in a sibling list is chosen from the list's length alone.
 */
module WbtPivot {
  import opened Bits

  /** The value of the most significant bit of n. */
  function TopBit(n: nat): (t: nat)
    requires n >= 1
    ensures t >= 1
  {
    if n < 2 then 1 else 2 * TopBit(n / 2)
  }

  /** The most significant bit is the power of two below the binary length. */
  lemma {:induction false} TopBitBounds(n: nat)
    requires n >= 1
    ensures TopBit(n) <= n < 2 * TopBit(n)
    ensures BitLength(n) >= 1 && TopBit(n) == Pow2(BitLength(n) - 1)
    ensures n >= 2 ==> TopBit(n) >= 2 && TopBit(n) % 2 == 0
  {
    if n >= 2 {
      var h := n / 2;
      TopBitBounds(h);
      assert TopBit(n) == 2 * TopBit(h);
      assert BitLength(n) - 1 == BitLength(h);
      assert Pow2(BitLength(h)) == 2 * Pow2(BitLength(h) - 1);
    }
  }

  /** n (at least 2) is written 10... in binary: its second most significant bit is 0. */
  predicate StartsWith10(n: nat)
    requires n >= 2
  {
    n < TopBit(n) + TopBit(n) / 2
  }

  /**
   * The pivot `balance_tree` takes in a list of n nodes: the size of the left
   * side. With h half the most significant bit of n, n is written 10... when
   * n < 3h and 11... otherwise; `PivotRule` restates it as the comment does.
   */
  function PivotOf(n: nat): (p: nat)
    requires n >= 1
    ensures p < n
  {
    if n == 1 then 0
    else
      HalfTopBitRange(n);
      var h := HalfTopBit(n);
      if n < 3 * h then n - h else 2 * h - 1
  }

  /** Half the most significant bit of n. */
  function HalfTopBit(n: nat): (h: nat)
    requires n >= 2
    ensures h >= 1
  {
    if n < 4 then 1 else 2 * HalfTopBit(n / 2)
  }

  lemma {:induction false} HalfTopBitRange(n: nat)
    requires n >= 2
    ensures 2 * HalfTopBit(n) <= n < 4 * HalfTopBit(n)
  {
    if n >= 4 {
      HalfTopBitRange(n / 2);
    }
  }

  lemma {:induction false} HalfOfTopBit(n: nat)
    requires n >= 2
    ensures TopBit(n) == 2 * HalfTopBit(n)
  {
    if n >= 4 {
      HalfOfTopBit(n / 2);
    }
  }

  /**
   * The rule as the comment above `balance_tree` states it. When n starts with
   * 10, the left size (which is the pivot) is n with that 10 replaced by 01,
   * i.e. n - TopBit(n)/2; when n starts with 11, the right size n - 1 - pivot is
   * n with its most significant bit removed, i.e. n - TopBit(n).
   */
  lemma PivotRule(n: nat)
    requires n >= 2
    ensures PivotOf(n) == if StartsWith10(n) then n - TopBit(n) / 2 else TopBit(n) - 1
  {
    HalfOfTopBit(n);
    TopBitBounds(n);
  }

  lemma ShiftStep(r: nat, w: nat, n: nat)
    requires r * w <= n < (r + 1) * w
    ensures (r / 2) * (2 * w) <= n < (r / 2 + 1) * (2 * w)
  {
    var q, e := r / 2, r % 2;
    assert r == 2 * q + e;
    assert r * w == 2 * q * w + e * w;
    assert (r + 1) * w == 2 * q * w + e * w + w;
    assert (q + 1) * (2 * w) == 2 * q * w + 2 * w;
  }

  /** The pivot computation of `balance_tree`: shift until two bits remain. */
  method Pivot(n: nat) returns (pivot: nat)
    requires n >= 1
    ensures pivot == PivotOf(n)
  {
    if n == 1 {
      pivot := 0;
    } else {
      var reduced := n;
      var fullSize := 0;
      ghost var k: nat := 0;
      while reduced > 3
        invariant reduced >= 2
        invariant fullSize + 1 == Pow2(k)
        invariant reduced * Pow2(k) <= n < (reduced + 1) * Pow2(k)
        decreases reduced
      {
        ShiftStep(reduced, Pow2(k), n);
        reduced := reduced / 2;
        fullSize := fullSize * 2 + 1;
        k := k + 1;
      }
      // reduced holds the two leading bits of n, and k bits follow them
      var w := Pow2(k);
      assert Pow2(k + 1) == 2 * w && Pow2(k + 2) == 4 * w;
      if reduced == 3 {
        assert 3 * w <= n < 4 * w;
      } else {
        assert 2 * w <= n < 3 * w;
      }
      BitLengthOfRange(n, k + 1);
      TopBitBounds(n);
      assert TopBit(n) == 2 * w;
      PivotRule(n);
      if reduced == 3 {
        pivot := fullSize * 2 + 1;
      } else {
        pivot := n - 1 - fullSize;
      }
    }
  }

  /** Height of the shape the rule gives to n nodes. */
  function Height(n: nat): nat
  {
    if n == 0 then 0 else 1 + Max(Height(PivotOf(n)), Height(n - 1 - PivotOf(n)))
  }

  /**
   * The sizes of the two sides. Starting with 10, the right side is a perfect
   * tree of TopBit(n)/2 - 1 nodes; starting with 11, the left side is a perfect
   * tree of TopBit(n) - 1 nodes. Either way left and right stay within a factor
   * of two of each other.
   */
  lemma PivotSizes(n: nat)
    requires n >= 2
    ensures StartsWith10(n) ==> n - 1 - PivotOf(n) == TopBit(n) / 2 - 1
    ensures !StartsWith10(n) ==> PivotOf(n) == TopBit(n) - 1 && n - 1 - PivotOf(n) == n - TopBit(n)
    ensures n - 1 - PivotOf(n) <= PivotOf(n) <= 2 * (n - 1 - PivotOf(n)) + 1
  {
    TopBitBounds(n);
    PivotRule(n);
  }

  /** Binary lengths of the two sides: both one shorter than n, except the right side of a 10 list. */
  lemma SideLengths(n: nat)
    requires n >= 2
    ensures BitLength(PivotOf(n)) == BitLength(n) - 1
    ensures BitLength(n - 1 - PivotOf(n)) == if StartsWith10(n) then BitLength(n) - 2 else BitLength(n) - 1
    ensures StartsWith10(n) ==> BitLength(PivotOf(n)) == BitLength(n - 1 - PivotOf(n)) + 1
    ensures !StartsWith10(n) ==> BitLength(PivotOf(n)) == BitLength(n - 1 - PivotOf(n))
  {
    var j := BitLength(n) - 1;
    TopBitBounds(n);
    assert Pow2(j) == 2 * Pow2(j - 1);
    LeftLength(n, j);
    if StartsWith10(n) {
      ShortRightLength(n, j);
    } else {
      LongRightLength(n, j);
    }
  }

  /** The left side lies between the two powers of two below the top bit. */
  lemma LeftLength(n: nat, j: nat)
    requires n >= 2 && j >= 1 && TopBit(n) == Pow2(j) && Pow2(j) == 2 * Pow2(j - 1)
    ensures BitLength(PivotOf(n)) == j
  {
    PivotSizes(n);
    TopBitBounds(n);
    assert Pow2(j - 1) <= PivotOf(n) < Pow2(j);
    BitLengthOfRange(PivotOf(n), j - 1);
  }

  /** For 10..., the right side is a perfect tree of TopBit(n)/2 - 1 nodes. */
  lemma ShortRightLength(n: nat, j: nat)
    requires n >= 2 && j >= 1 && TopBit(n) == Pow2(j) && Pow2(j) == 2 * Pow2(j - 1)
    requires StartsWith10(n)
    ensures BitLength(n - 1 - PivotOf(n)) == j - 1
  {
    PivotSizes(n);
    if j >= 2 {
      assert Pow2(j - 1) == 2 * Pow2(j - 2);
      BitLengthOfRange(Pow2(j - 1) - 1, j - 2);
    }
  }

  /** For 11..., the right side is n without its most significant bit. */
  lemma LongRightLength(n: nat, j: nat)
    requires n >= 2 && j >= 1 && TopBit(n) == Pow2(j) && Pow2(j) == 2 * Pow2(j - 1)
    requires !StartsWith10(n)
    ensures BitLength(n - 1 - PivotOf(n)) == j
  {
    PivotSizes(n);
    TopBitBounds(n);
    BitLengthOfRange(n - TopBit(n), j - 1);
  }

  /** The rule builds the lowest possible tree: height ceil(log2(n + 1)). */
  lemma {:induction false} CanonicalHeight(n: nat)
    ensures Height(n) == BitLength(n)
    decreases n
  {
    if n >= 2 {
      var l, r := PivotOf(n), n - 1 - PivotOf(n);
      CanonicalHeight(l);
      CanonicalHeight(r);
      assert BitLength(l) == BitLength(n) - 1 && BitLength(r) <= BitLength(n) - 1 by { SideLengths(n); }
    }
  }

  /** First case of the comment above `balance_tree`: for 10... the left subtree is the higher one. */
  lemma LeftHigher(n: nat)
    requires n >= 2 && StartsWith10(n)
    ensures Height(PivotOf(n)) == Height(n - 1 - PivotOf(n)) + 1
  {
    LeftLonger(n);
    OneDigitHigher(PivotOf(n), n - 1 - PivotOf(n));
  }

  /** Second case of that comment: for 11... both subtrees have the same height. */
  lemma EqualHeights(n: nat)
    requires n >= 2 && !StartsWith10(n)
    ensures Height(PivotOf(n)) == Height(n - 1 - PivotOf(n))
  {
    SidesAsLong(n);
    SameDigitsSameHeight(PivotOf(n), n - 1 - PivotOf(n));
  }

  lemma LeftLonger(n: nat)
    requires n >= 2 && StartsWith10(n)
    ensures BitLength(PivotOf(n)) == BitLength(n - 1 - PivotOf(n)) + 1
  {
    SideLengths(n);
  }

  lemma SidesAsLong(n: nat)
    requires n >= 2 && !StartsWith10(n)
    ensures BitLength(PivotOf(n)) == BitLength(n - 1 - PivotOf(n))
  {
    SideLengths(n);
  }

  lemma OneDigitHigher(a: nat, b: nat)
    requires BitLength(a) == BitLength(b) + 1
    ensures Height(a) == Height(b) + 1
  {
    CanonicalHeight(a);
    CanonicalHeight(b);
  }

  lemma SameDigitsSameHeight(a: nat, b: nat)
    requires BitLength(a) == BitLength(b)
    ensures Height(a) == Height(b)
  {
    CanonicalHeight(a);
    CanonicalHeight(b);
  }

  /** A single node is its own pivot; and the examples of the comment above `balance_tree` for lists written 10...: the left sizes. */
  lemma LeftSizeExamples()
    ensures PivotOf(1) == 0
    ensures PivotOf(2) == 1 && PivotOf(4) == 2 && PivotOf(5) == 3 && PivotOf(8) == 4
    ensures PivotOf(9) == 5 && PivotOf(11) == 7 && PivotOf(16) == 8
  {
  }

  /** The examples of that comment for lists written 11...: the right sizes. */
  lemma RightSizeExamples()
    ensures 3 - 1 - PivotOf(3) == 1 && 6 - 1 - PivotOf(6) == 2 && 7 - 1 - PivotOf(7) == 3
    ensures 12 - 1 - PivotOf(12) == 4 && 13 - 1 - PivotOf(13) == 5
    ensures 14 - 1 - PivotOf(14) == 6 && 15 - 1 - PivotOf(15) == 7
  {
  }
}
