/**
 * Composite keys and node paths, and the order both prototypes sort them by.
 *
 * wbt.py and avl.py define the same nested comparator `compare` (wbt.py:78-93,
 * avl.py:73-88); it is modelled once here. Python compares the `path` strings
 * of the nodes with its built-in string order, which is the same lexicographic
 * order over the code points of the characters, so paths are compared by
 * mapping them to their code points and reusing `Cmp`.
 */
module Keys {

  /** The comparator's result as a function: lexicographic, a strict prefix first. */
  function Cmp(a: seq<int>, b: seq<int>): (r: int)
    ensures -1 <= r <= 1
    decreases |a|
  {
    if |a| == 0 && |b| == 0 then 0
    else if |a| == 0 then -1
    else if |b| == 0 then 1
    else if a[0] < b[0] then -1
    else if a[0] > b[0] then 1
    else Cmp(a[1..], b[1..])
  }

  /** The textbook definition of "a sorts strictly before b", stated without recursion. */
  ghost predicate LexLess(a: seq<int>, b: seq<int>)
  {
    (|a| < |b| && a == b[..|a|]) ||
    (exists i :: 0 <= i < |a| && i < |b| && a[..i] == b[..i] && a[i] < b[i])
  }

  /** `compare`: the index loop of the source, proved to compute `Cmp`. */
  method Compare(seq1: seq<int>, seq2: seq<int>) returns (r: int)
    ensures r == Cmp(seq1, seq2)
  {
    var i := 0;
    while i < |seq1| || i < |seq2|
      invariant i <= |seq1| && i <= |seq2|
      invariant Cmp(seq1, seq2) == Cmp(seq1[i..], seq2[i..])
      decreases |seq1| - i
    {
      if i >= |seq1| {
        // The source tests here whether seq2 is exhausted too and returns 0 if
        // so; the loop guard rules that out, so only its -1 branch is reachable.
        return -1;
      }
      if i >= |seq2| {
        return 1;
      }
      if seq1[i] < seq2[i] {
        return -1;
      } else if seq1[i] > seq2[i] {
        return 1;
      }
      assert seq1[i..][1..] == seq1[i + 1..] && seq2[i..][1..] == seq2[i + 1..];
      i := i + 1;
    }
    return 0;
  }

  /** `Cmp` agrees with the textbook order: 0 exactly on equal keys, -1 exactly on LexLess. */
  lemma CmpIsLexicographic(a: seq<int>, b: seq<int>)
    ensures Cmp(a, b) == 0 <==> a == b
    ensures Cmp(a, b) == -1 <==> LexLess(a, b)
  {
    CmpZeroIffEqual(a, b);
    CmpNegativeIffLexLess(a, b);
  }

  lemma {:induction false} CmpZeroIffEqual(a: seq<int>, b: seq<int>)
    ensures Cmp(a, b) == 0 <==> a == b
    decreases |a|
  {
    if |a| > 0 && |b| > 0 && a[0] == b[0] {
      CmpZeroIffEqual(a[1..], b[1..]);
      assert a == [a[0]] + a[1..] && b == [b[0]] + b[1..];
    }
  }

  lemma {:induction false} CmpNegativeIffLexLess(a: seq<int>, b: seq<int>)
    ensures Cmp(a, b) == -1 <==> LexLess(a, b)
    decreases |a|
  {
    if |a| == 0 && |b| == 0 {
    } else if |a| == 0 {
      assert a == b[..0];
    } else if |b| == 0 {
    } else if a[0] < b[0] {
      assert a[..0] == b[..0];
    } else if a[0] > b[0] {
      if |a| < |b| {
        assert a[0] != b[..|a|][0];
      }
      forall i | 0 < i < |a| && i < |b| ensures a[..i] != b[..i] {
        assert a[..i][0] != b[..i][0];
      }
    } else {
      var a', b' := a[1..], b[1..];
      CmpNegativeIffLexLess(a', b');
      assert a == [a[0]] + a' && b == [b[0]] + b';
      if LexLess(a', b') {
        if |a'| < |b'| && a' == b'[..|a'|] {
          assert a == b[..|a|];
        } else {
          var i :| 0 <= i < |a'| && i < |b'| && a'[..i] == b'[..i] && a'[i] < b'[i];
          assert a[..i + 1] == [a[0]] + a'[..i] && b[..i + 1] == [b[0]] + b'[..i];
          assert a[i + 1] == a'[i] && b[i + 1] == b'[i];
        }
      }
      if LexLess(a, b) {
        if |a| < |b| && a == b[..|a|] {
          assert a' == b'[..|a'|];
        } else {
          var i :| 0 <= i < |a| && i < |b| && a[..i] == b[..i] && a[i] < b[i];
          assert i > 0;
          assert a'[..i - 1] == a[..i][1..] && b'[..i - 1] == b[..i][1..];
          assert a'[i - 1] == a[i] && b'[i - 1] == b[i];
        }
      }
    }
  }

  /** Swapping the arguments negates the result. */
  lemma {:induction false} CmpAntisymmetric(a: seq<int>, b: seq<int>)
    ensures Cmp(a, b) == -Cmp(b, a)
    decreases |a|
  {
    if |a| > 0 && |b| > 0 && a[0] == b[0] {
      CmpAntisymmetric(a[1..], b[1..]);
    }
  }

  /** The order is transitive. */
  lemma {:induction false} CmpTransitive(a: seq<int>, b: seq<int>, c: seq<int>)
    requires Cmp(a, b) < 0 && Cmp(b, c) < 0
    ensures Cmp(a, c) < 0
    decreases |a|
  {
    if |a| > 0 && |b| > 0 && |c| > 0 && a[0] == b[0] && b[0] == c[0] {
      CmpTransitive(a[1..], b[1..], c[1..]);
    }
  }

  /** A common prefix does not decide the comparison. */
  lemma {:induction false} CmpCommonPrefix(u: seq<int>, x: seq<int>, y: seq<int>)
    ensures Cmp(u + x, u + y) == Cmp(x, y)
    decreases |u|
  {
    if |u| > 0 {
      assert (u + x)[1..] == u[1..] + x && (u + y)[1..] == u[1..] + y;
      CmpCommonPrefix(u[1..], x, y);
    } else {
      assert u + x == x && u + y == y;
    }
  }

  /** A strict prefix sorts before every extension of it. */
  lemma PrefixSortsFirst(u: seq<int>, y: seq<int>)
    requires |y| > 0
    ensures Cmp(u, u + y) == -1
  {
    CmpCommonPrefix(u, [], y);
    assert u + [] == u;
  }

  /** Code points of a path string, in order. */
  function Codes(s: string): (c: seq<int>)
    ensures |c| == |s|
    ensures forall i :: 0 <= i < |s| ==> c[i] == s[i] as int
  {
    seq(|s|, i requires 0 <= i < |s| => s[i] as int)
  }

  /** Python's `<`, `==`, `>` on two path strings, as -1, 0, 1. */
  function PathCmp(p: string, q: string): int
  {
    Cmp(Codes(p), Codes(q))
  }

  /** Python's `s.startswith(p)`. */
  predicate HasPrefix(s: string, p: string)
  {
    |p| <= |s| && s[..|p|] == p
  }

  /** Path q sorts after p without lying under p: what `hash_subtree` treats as "not mine". */
  predicate After(p: string, q: string)
  {
    PathCmp(p, q) < 0 && !HasPrefix(q, p)
  }

  lemma CodesConcat(s: string, t: string)
    ensures Codes(s + t) == Codes(s) + Codes(t)
  {
  }

  /** Code points see the same prefixes as characters do. */
  lemma CodesPrefix(p: string, q: string)
    requires |p| <= |q|
    ensures Codes(q)[..|p|] == Codes(p) <==> q[..|p|] == p
  {
    if Codes(q)[..|p|] == Codes(p) {
      assert forall i :: 0 <= i < |p| ==> p[i] as int == q[i] as int;
    }
  }

  /** Path comparison is 0 exactly on equal paths, and swapping negates it. */
  lemma PathCmpBasics(p: string, q: string)
    ensures PathCmp(p, q) == 0 <==> p == q
    ensures PathCmp(p, q) == -PathCmp(q, p)
  {
    CmpIsLexicographic(Codes(p), Codes(q));
    CmpAntisymmetric(Codes(p), Codes(q));
    if Codes(p) == Codes(q) {
      assert forall i :: 0 <= i < |p| ==> p[i] as int == q[i] as int;
    }
  }

  /** A path sorts before everything that lies under it and is longer. */
  lemma PathPrefixFirst(p: string, s: string)
    requires HasPrefix(s, p)
    ensures PathCmp(p, s) <= 0
    ensures s != p ==> PathCmp(p, s) == -1
  {
    assert s == p + s[|p|..];
    CodesConcat(p, s[|p|..]);
    if s != p {
      PrefixSortsFirst(Codes(p), Codes(s[|p|..]));
    } else {
      PathCmpBasics(p, s);
    }
  }

  /** Under a common prefix, the first differing token decides the order. */
  lemma PathBranch(p: string, a: char, b: char, x: string, y: string)
    requires a < b
    requires HasPrefix(x, p + [a]) && HasPrefix(y, p + [b])
    ensures PathCmp(x, y) == -1
  {
    var x', y' := x[|p| + 1..], y[|p| + 1..];
    assert x == p + ([a] + x') && y == p + ([b] + y');
    CodesConcat(p, [a] + x');
    CodesConcat(p, [b] + y');
    CodesConcat([a], x');
    CodesConcat([b], y');
    CmpCommonPrefix(Codes(p), Codes([a] + x'), Codes([b] + y'));
  }

  /** A path lying under p + [b] comes after everything under p + [a] when a < b. */
  lemma AfterBranch(p: string, a: char, b: char, q: string)
    requires a < b
    requires HasPrefix(q, p + [b])
    ensures After(p + [a], q)
  {
    assert HasPrefix(p + [a], p + [a]);
    PathBranch(p, a, b, p + [a], q);
    assert q[|p|] == b;
  }

  /** What lies after p, and not under it, lies after every extension of p too. */
  lemma AfterExtend(p: string, c: char, q: string)
    requires After(p, q)
    ensures After(p + [c], q)
  {
    var P, Q := Codes(p), Codes(q);
    CmpIsLexicographic(P, Q);
    if |p| <= |q| {
      CodesPrefix(p, q);
    }
    var i :| 0 <= i < |P| && i < |Q| && P[..i] == Q[..i] && P[i] < Q[i];
    var P' := Codes(p + [c]);
    assert P'[..i] == P[..i] && P'[i] == P[i];
    CmpIsLexicographic(P', Q);
    assert (p + [c])[..|p|] == p;
  }

  /** What lies under p + [c] lies strictly below p. */
  lemma PrefixWiden(q: string, p: string, c: char)
    requires HasPrefix(q, p + [c])
    ensures HasPrefix(q, p) && |q| > |p| && PathCmp(p, q) == -1
  {
    assert q[..|p|] == q[..|p| + 1][..|p|];
    assert (p + [c])[..|p|] == p;
    PathPrefixFirst(p, q);
  }
}
