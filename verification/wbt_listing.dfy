/**
 * The order in which wbt.py hands the labelled nodes to `initial_hash`: the
 * listing of `flatten_tree`, sorted by path with Python's string order
 * (wbt.py:287-289). Because the path tokens sort as L < M < N < R and a path
 * sorts before everything under it, that order is fixed by the shape alone:
 * `Listing` gives it structurally, and the lemmas below show that it is
 * strictly increasing, that it holds exactly the nodes of the listing, and
 * hence that sorting can produce nothing else.
 */
module WbtListing {
  import opened Seqs
  import opened Keys
  import opened WbtPivot
  import opened WbtTree

  /**
   * The labelled nodes of `Balance(path, nodes)` in path order: a leaf pivot
   * (path `path`) before both sides; a nested pivot (path + "M") after the
   * left side and before its nested list (path + "N") and the right side.
   */
  function Listing(path: string, nodes: seq<WbtNode>): seq<WbtNode>
    decreases nodes
  {
    if |nodes| == 0 then []
    else
      var p := PivotOf(|nodes|);
      var x := nodes[p];
      if x.tree then
        Listing(path + "L", nodes[..p]) +
        ([Label(path, x)] + (Listing(path + "N", x.subtree) + Listing(path + "R", nodes[p + 1..])))
      else
        [Label(path, x)] + (Listing(path + "L", nodes[..p]) + Listing(path + "R", nodes[p + 1..]))
  }

  lemma ListingOfNested(path: string, nodes: seq<WbtNode>)
    requires |nodes| > 0 && nodes[PivotOf(|nodes|)].tree
    ensures var p := PivotOf(|nodes|);
      Listing(path, nodes) == Listing(path + "L", nodes[..p]) +
        ([Label(path, nodes[p])] + (Listing(path + "N", nodes[p].subtree) + Listing(path + "R", nodes[p + 1..])))
  {
  }

  lemma ListingOfLeaf(path: string, nodes: seq<WbtNode>)
    requires |nodes| > 0 && !nodes[PivotOf(|nodes|)].tree
    ensures var p := PivotOf(|nodes|);
      Listing(path, nodes) == [Label(path, nodes[p])] + (Listing(path + "L", nodes[..p]) + Listing(path + "R", nodes[p + 1..]))
  {
  }

  /** The listing of a list with a nested pivot, followed by other nodes. */
  lemma ListingOfNestedThen(path: string, nodes: seq<WbtNode>, rest: seq<WbtNode>)
    requires |nodes| > 0 && nodes[PivotOf(|nodes|)].tree
    ensures var p := PivotOf(|nodes|);
      var L, R := Listing(path + "L", nodes[..p]), Listing(path + "R", nodes[p + 1..]);
      var N := Listing(path + "N", nodes[p].subtree);
      Listing(path, nodes) + rest == L + ([Label(path, nodes[p])] + (N + (R + rest)))
  {
    var p := PivotOf(|nodes|);
    var X := Label(path, nodes[p]);
    var L, R := Listing(path + "L", nodes[..p]), Listing(path + "R", nodes[p + 1..]);
    var N := Listing(path + "N", nodes[p].subtree);
    ListingOfNested(path, nodes);
    AppendNested4(L, [X], N, R, rest);
  }

  /** The listing of a list with a leaf pivot, followed by other nodes. */
  lemma ListingOfLeafThen(path: string, nodes: seq<WbtNode>, rest: seq<WbtNode>)
    requires |nodes| > 0 && !nodes[PivotOf(|nodes|)].tree
    ensures var p := PivotOf(|nodes|);
      var L, R := Listing(path + "L", nodes[..p]), Listing(path + "R", nodes[p + 1..]);
      Listing(path, nodes) + rest == [Label(path, nodes[p])] + (L + (R + rest))
  {
    var p := PivotOf(|nodes|);
    var X := Label(path, nodes[p]);
    var L, R := Listing(path + "L", nodes[..p]), Listing(path + "R", nodes[p + 1..]);
    ListingOfLeaf(path, nodes);
    AppendNested3([X], L, R, rest);
  }

  /** Every node of s has a path under p. */
  ghost predicate Under(s: seq<WbtNode>, p: string)
  {
    forall i :: 0 <= i < |s| ==> HasPrefix(s[i].path, p)
  }

  /** Every path in a sorts strictly before every path in b. */
  ghost predicate Precedes(a: seq<WbtNode>, b: seq<WbtNode>)
  {
    forall i, j :: 0 <= i < |a| && 0 <= j < |b| ==> PathCmp(a[i].path, b[j].path) < 0
  }

  ghost predicate StrictlySorted(s: seq<WbtNode>)
  {
    forall i, j :: 0 <= i < j < |s| ==> PathCmp(s[i].path, s[j].path) < 0
  }

  /** What `flat.sort(key=lambda n: n.path)` guarantees of its result's order. */
  ghost predicate SortedByPath(s: seq<WbtNode>)
  {
    forall i, j :: 0 <= i < j < |s| ==> PathCmp(s[i].path, s[j].path) <= 0
  }

  lemma UnderConcat(a: seq<WbtNode>, b: seq<WbtNode>, p: string)
    requires Under(a, p) && Under(b, p)
    ensures Under(a + b, p)
  {
  }

  lemma UnderWiden(a: seq<WbtNode>, p: string, c: char)
    requires Under(a, p + [c])
    ensures Under(a, p)
  {
    forall i | 0 <= i < |a|
      ensures HasPrefix(a[i].path, p)
    {
      PrefixWiden(a[i].path, p, c);
    }
  }

  /** Under a common prefix, a branch with a smaller token comes first. */
  lemma BranchPrecedes(a: seq<WbtNode>, b: seq<WbtNode>, p: string, x: char, y: char)
    requires x < y && Under(a, p + [x]) && Under(b, p + [y])
    ensures Precedes(a, b)
  {
    forall i, j | 0 <= i < |a| && 0 <= j < |b|
      ensures PathCmp(a[i].path, b[j].path) < 0
    {
      PathBranch(p, x, y, a[i].path, b[j].path);
    }
  }

  /** A node labelled p comes before everything under p + [c]. */
  lemma ParentPrecedes(x: WbtNode, a: seq<WbtNode>, p: string, c: char)
    requires x.path == p && Under(a, p + [c])
    ensures Precedes([x], a)
  {
    forall j | 0 <= j < |a|
      ensures PathCmp(x.path, a[j].path) < 0
    {
      PrefixWiden(a[j].path, p, c);
    }
  }

  lemma PrecedesJoinRight(a: seq<WbtNode>, b: seq<WbtNode>, c: seq<WbtNode>)
    requires Precedes(a, b) && Precedes(a, c)
    ensures Precedes(a, b + c)
  {
  }

  lemma SortedConcat(a: seq<WbtNode>, b: seq<WbtNode>)
    requires StrictlySorted(a) && StrictlySorted(b) && Precedes(a, b)
    ensures StrictlySorted(a + b)
  {
  }

  /** The listing lies under its prefix and is strictly increasing in path order. */
  lemma {:induction false} ListingOrdered(path: string, nodes: seq<WbtNode>)
    ensures Under(Listing(path, nodes), path)
    ensures StrictlySorted(Listing(path, nodes))
    decreases nodes, 2
  {
    if |nodes| != 0 {
      if nodes[PivotOf(|nodes|)].tree {
        NestedOrdered(path, nodes);
      } else {
        LeafOrdered(path, nodes);
      }
    }
  }

  /** Both sides of the pivot, ordered under their own prefixes. */
  lemma {:induction false} SidesOrdered(path: string, nodes: seq<WbtNode>)
    requires |nodes| > 0
    ensures var p := PivotOf(|nodes|);
      var L, R := Listing(path + "L", nodes[..p]), Listing(path + "R", nodes[p + 1..]);
      Under(L, path + "L") && StrictlySorted(L) && Under(R, path + "R") && StrictlySorted(R)
    decreases nodes, 0
  {
    var p := PivotOf(|nodes|);
    ListingOrdered(path + "L", nodes[..p]);
    ListingOrdered(path + "R", nodes[p + 1..]);
  }

  lemma {:induction false} LeafOrdered(path: string, nodes: seq<WbtNode>)
    requires |nodes| > 0 && !nodes[PivotOf(|nodes|)].tree
    ensures Under(Listing(path, nodes), path)
    ensures StrictlySorted(Listing(path, nodes))
    decreases nodes, 1
  {
    var p := PivotOf(|nodes|);
    var X := Label(path, nodes[p]);
    var L, R := Listing(path + "L", nodes[..p]), Listing(path + "R", nodes[p + 1..]);
    SidesOrdered(path, nodes);
    ListingOfLeaf(path, nodes);
    UnderWiden(L, path, 'L');
    UnderWiden(R, path, 'R');
    BranchPrecedes(L, R, path, 'L', 'R');
    SortedConcat(L, R);
    ParentPrecedes(X, L, path, 'L');
    ParentPrecedes(X, R, path, 'R');
    PrecedesJoinRight([X], L, R);
    SortedConcat([X], L + R);
    assert HasPrefix(X.path, path);
    UnderConcat(L, R, path);
    UnderConcat([X], L + R, path);
  }

  lemma {:induction false} NestedOrdered(path: string, nodes: seq<WbtNode>)
    requires |nodes| > 0 && nodes[PivotOf(|nodes|)].tree
    ensures Under(Listing(path, nodes), path)
    ensures StrictlySorted(Listing(path, nodes))
    decreases nodes, 1
  {
    var p := PivotOf(|nodes|);
    var x := nodes[p];
    var X := Label(path, x);
    var L, R := Listing(path + "L", nodes[..p]), Listing(path + "R", nodes[p + 1..]);
    var N := Listing(path + "N", x.subtree);
    SidesOrdered(path, nodes);
    ListingOrdered(path + "N", x.subtree);
    ListingOfNested(path, nodes);
    UnderWiden(L, path, 'L');
    UnderWiden(R, path, 'R');
    UnderWiden(N, path, 'N');
    assert Under([X], path + "M");
    UnderWiden([X], path, 'M');
    BranchPrecedes(N, R, path, 'N', 'R');
    SortedConcat(N, R);
    BranchPrecedes([X], N, path, 'M', 'N');
    BranchPrecedes([X], R, path, 'M', 'R');
    PrecedesJoinRight([X], N, R);
    SortedConcat([X], N + R);
    BranchPrecedes(L, [X], path, 'L', 'M');
    BranchPrecedes(L, N, path, 'L', 'N');
    BranchPrecedes(L, R, path, 'L', 'R');
    PrecedesJoinRight(L, N, R);
    PrecedesJoinRight(L, [X], N + R);
    SortedConcat(L, [X] + (N + R));
    UnderConcat(N, R, path);
    UnderConcat([X], N + R, path);
    UnderConcat(L, [X] + (N + R), path);
  }

  /** The path order holds exactly the nodes `flatten_tree` lists after `balance_tree`. */
  lemma {:induction false} ListingPermutes(path: string, nodes: seq<WbtNode>)
    ensures multiset(Listing(path, nodes)) == multiset(Flatten(Balance(path, nodes)))
    decreases nodes
  {
    if |nodes| != 0 {
      var p := PivotOf(|nodes|);
      var x := nodes[p];
      var X := Label(path, x);
      var L, R := Listing(path + "L", nodes[..p]), Listing(path + "R", nodes[p + 1..]);
      var FL, FR := Flatten(Balance(path + "L", nodes[..p])), Flatten(Balance(path + "R", nodes[p + 1..]));
      ListingPermutes(path + "L", nodes[..p]);
      ListingPermutes(path + "R", nodes[p + 1..]);
      FlattenOfBalance(path, nodes);
      if x.tree {
        ListingPermutes(path + "N", x.subtree);
        ListingOfNested(path, nodes);
        PermuteNested(FL, L, X, Own(X), Listing(path + "N", x.subtree), FR, R);
      } else {
        ListingOfLeaf(path, nodes);
        PermuteLeaf(FL, L, X, Own(X), FR, R);
      }
    }
  }

  /** Both sequences start with the node of least path. */
  lemma HeadsAgree(a: seq<WbtNode>, b: seq<WbtNode>)
    requires StrictlySorted(a) && SortedByPath(b)
    requires multiset(a) == multiset(b) && |a| != 0
    ensures |b| != 0 && a[0] == b[0]
  {
    assert a[0] in multiset(b);
    var k :| 0 <= k < |b| && b[k] == a[0];
    assert b[0] in multiset(a);
    var m :| 0 <= m < |a| && a[m] == b[0];
    if m != 0 {
      PathCmpBasics(a[0].path, a[m].path);
      assert false;
    }
  }

  /**
   * Sorting cannot reorder a strictly sorted sequence: a path-sorted
   * permutation of it is the sequence itself.
   */
  lemma {:induction false} SortedUnique(a: seq<WbtNode>, b: seq<WbtNode>)
    requires StrictlySorted(a) && SortedByPath(b)
    requires multiset(a) == multiset(b)
    ensures a == b
    decreases |a|
  {
    if |a| != 0 {
      HeadsAgree(a, b);
      Cons(a);
      Cons(b);
      assert multiset(a) == multiset([a[0]]) + multiset(a[1..]);
      assert multiset(b) == multiset([a[0]]) + multiset(b[1..]);
      assert multiset(a[1..]) == multiset(a) - multiset([a[0]]) == multiset(b[1..]);
      SortedUnique(a[1..], b[1..]);
    } else {
      assert |multiset(b)| == 0;
    }
  }
}
