/**
 * Facts about sequence slicing and concatenation, stated once so that the
 * proofs about node lists can cite them instead of re-deriving sequence
 * equality in a context full of recursive definitions.
 */
module Seqs {

  lemma EmptyAppend<T>(a: seq<T>, b: seq<T>)
    requires |a| == 0
    ensures a + b == b
  {
  }

  lemma AppendEmpty<T>(a: seq<T>, b: seq<T>)
    requires |b| == 0
    ensures a + b == a
  {
  }

  lemma HeadTail<T>(a: seq<T>, b: seq<T>)
    requires |a| > 0
    ensures (a + b)[0] == a[0] && (a + b)[1..] == a[1..] + b
  {
  }

  lemma TakeAppend<T>(a: seq<T>, b: seq<T>)
    ensures (a + b)[..|a|] == a && (a + b)[|a|..] == b
  {
  }

  lemma TakeTake<T>(s: seq<T>, i: nat, j: nat)
    requires j <= i <= |s|
    ensures s[..i][..j] == s[..j]
  {
  }

  lemma TakeAll<T>(s: seq<T>)
    ensures s[..|s|] == s
  {
  }

  lemma TakeSucc<T>(s: seq<T>, i: nat)
    requires i < |s|
    ensures s[..i + 1] == s[..i] + [s[i]]
  {
  }

  lemma DropLast<T>(s: seq<T>)
    requires |s| > 0
    ensures s == s[..|s| - 1] + [s[|s| - 1]]
  {
  }

  lemma Split<T>(s: seq<T>, i: nat)
    requires i < |s|
    ensures s == s[..i] + ([s[i]] + s[i + 1..])
    ensures s == s[..i] + [s[i]] + s[i + 1..]
  {
  }

  lemma Assoc3<T>(a: seq<T>, b: seq<T>, c: seq<T>)
    ensures a + (b + c) == a + b + c
  {
  }

  lemma Assoc4<T>(a: seq<T>, b: seq<T>, c: seq<T>, d: seq<T>)
    ensures a + (b + c + d) == a + b + c + d
  {
  }

  /** Appending to a right-nested concatenation appends to its last part. */
  lemma AppendNested3<T>(a: seq<T>, b: seq<T>, c: seq<T>, e: seq<T>)
    ensures (a + (b + c)) + e == a + (b + (c + e))
  {
  }

  lemma AppendNested4<T>(a: seq<T>, b: seq<T>, c: seq<T>, d: seq<T>, e: seq<T>)
    ensures (a + (b + (c + d))) + e == a + (b + (c + (d + e)))
  {
  }

  lemma Cons<T>(s: seq<T>)
    requires |s| > 0
    ensures s == [s[0]] + s[1..]
  {
  }

  lemma ConsTail<T>(x: T, w: seq<T>)
    ensures ([x] + w)[0] == x && ([x] + w)[1..] == w
  {
  }

  /** s is what remains of t once some of its first elements are dropped. */
  predicate IsSuffix<T(==)>(s: seq<T>, t: seq<T>)
  {
    |s| <= |t| && s == t[|t| - |s|..]
  }

  lemma SuffixTrans<T>(a: seq<T>, b: seq<T>, c: seq<T>)
    requires IsSuffix(b, a) && IsSuffix(c, b)
    ensures IsSuffix(c, a)
  {
  }

  lemma SuffixOfTail<T>(s: seq<T>)
    requires |s| > 0
    ensures IsSuffix(s[1..], s)
  {
  }

  lemma SuffixOfSelf<T>(s: seq<T>)
    ensures IsSuffix(s, s)
  {
  }

  /** Rearranging a side, a pivot and its own part: a pivot listed first, then the two sides. */
  lemma PermuteLeaf<T>(a: seq<T>, a2: seq<T>, x: T, o: seq<T>, b: seq<T>, b2: seq<T>)
    requires multiset(a) == multiset(a2) && multiset(b) == multiset(b2) && o == []
    ensures multiset(a + [x] + o + b) == multiset([x] + (a2 + b2))
  {
  }

  /** Rearranging sides: the left side, the pivot, its own part and the right side. */
  lemma PermuteNested<T>(a: seq<T>, a2: seq<T>, x: T, o: seq<T>, o2: seq<T>, b: seq<T>, b2: seq<T>)
    requires multiset(a) == multiset(a2) && multiset(o) == multiset(o2) && multiset(b) == multiset(b2)
    ensures multiset(a + [x] + o + b) == multiset(a2 + ([x] + (o2 + b2)))
  {
  }
}
