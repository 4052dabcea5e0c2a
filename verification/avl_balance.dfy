/**
 * `balance_tree` and `flatten_tree` of avl.py (avl.py:123-140), and what
 * `graph_tree` relies on when it draws the result (avl.py:146-153).
 *
 * The pivot of a list of n nodes is n / 2. It takes the current depth and
 * path. A nested list below it is labelled under path + "x" at the same depth,
 * and the two sides are labelled under path + "0" and path + "1", one level
 * deeper. The whole tree starts at depth 0 under "x" (avl.py:111). So every
 * depth counts the "0"/"1" steps of its node's path, every path is distinct,
 * and every path other than "x" has its parent (the path less its last token)
 * among the labels.
 */
module AvlBalance {
  import opened Seqs
  import opened Bits
  import opened AvlTree

  // ---------------------------------------------------------------- shape

  /** Height of the shape that the n / 2 pivot gives to n nodes. */
  function Height(n: nat): nat
  {
    if n == 0 then 0 else 1 + Max(Height(n / 2), Height(n - 1 - n / 2))
  }

  /** Both sides are smaller than the list, and they differ in size by at most one. */
  lemma SideSizes(n: nat)
    requires n >= 1
    ensures n / 2 < n && n - 1 - n / 2 < n
    ensures n - 1 - n / 2 <= n / 2 <= n - 1 - n / 2 + 1
  {
  }

  /** The n / 2 pivot builds the lowest possible tree: height ceil(log2(n + 1)). */
  lemma {:induction false} MinimalHeight(n: nat)
    ensures Height(n) == BitLength(n)
    decreases n
  {
    if n >= 1 {
      MinimalHeight(n / 2);
      MinimalHeight(n - 1 - n / 2);
      BitLengthMonotone(n - 1 - n / 2, n / 2);
    }
  }

  // ---------------------------------------------------------------- labelling

  /**
   * `balance_tree(depth, path, nodes)`: the pivot takes `depth` and `path`, the
   * nodes before it are labelled under path + "0" and those after it under
   * path + "1", both at depth + 1.
   */
  function Balance(depth: nat, path: string, nodes: seq<AvlNode>): (r: seq<AvlNode>)
    ensures |r| == |nodes|
    decreases nodes
  {
    if |nodes| == 0 then []
    else
      var p := |nodes| / 2;
      Balance(depth + 1, path + "0", nodes[..p]) + [Label(depth, path, nodes[p])] + Balance(depth + 1, path + "1", nodes[p + 1..])
  }

  /** The pivot's own depth and path; a nested list below it is labelled under path + "x" at the same depth. */
  function Label(depth: nat, path: string, pivot: AvlNode): AvlNode
    decreases pivot, 1
  {
    if pivot.tree then pivot.(depth := depth, path := path, subtree := Balance(depth, path + "x", pivot.subtree))
    else pivot.(depth := depth, path := path)
  }

  /** A list with every depth and path, at every nesting level, reset. */
  function Unlabel(nodes: seq<AvlNode>): (r: seq<AvlNode>)
    ensures |r| == |nodes|
    decreases nodes
  {
    if |nodes| == 0 then []
    else [Blank(nodes[0])] + Unlabel(nodes[1..])
  }

  function Blank(n: AvlNode): AvlNode
    decreases n, 1
  {
    n.(depth := 0, path := "", subtree := Unlabel(n.subtree))
  }

  lemma {:induction false} UnlabelConcat(a: seq<AvlNode>, b: seq<AvlNode>)
    ensures Unlabel(a + b) == Unlabel(a) + Unlabel(b)
    decreases a
  {
    if |a| == 0 {
      EmptyAppend(a, b);
      EmptyAppend(Unlabel(a), Unlabel(b));
    } else {
      HeadTail(a, b);
      UnlabelConcat(a[1..], b);
      Assoc3([Blank(a[0])], Unlabel(a[1..]), Unlabel(b));
    }
  }

  lemma UnlabelSplit(a: seq<AvlNode>, x: AvlNode, b: seq<AvlNode>)
    ensures Unlabel(a + [x] + b) == Unlabel(a) + [Blank(x)] + Unlabel(b)
  {
    UnlabelConcat(a + [x], b);
    UnlabelConcat(a, [x]);
    assert |[x][1..]| == 0;
    AppendEmpty([Blank(x)], Unlabel([x][1..]));
  }

  /** Labelling changes depths and paths and nothing else: no node is lost, moved or altered otherwise. */
  lemma {:induction false} BalanceOnlyLabels(depth: nat, path: string, nodes: seq<AvlNode>)
    ensures Unlabel(Balance(depth, path, nodes)) == Unlabel(nodes)
    decreases nodes
  {
    if |nodes| != 0 {
      var p := |nodes| / 2;
      var pivot := nodes[p];
      BalanceOnlyLabels(depth + 1, path + "0", nodes[..p]);
      BalanceOnlyLabels(depth + 1, path + "1", nodes[p + 1..]);
      if pivot.tree {
        BalanceOnlyLabels(depth, path + "x", pivot.subtree);
      }
      assert Blank(Label(depth, path, pivot)) == Blank(pivot);
      UnlabelSplit(Balance(depth + 1, path + "0", nodes[..p]), Label(depth, path, pivot), Balance(depth + 1, path + "1", nodes[p + 1..]));
      Split(nodes, p);
      UnlabelSplit(nodes[..p], pivot, nodes[p + 1..]);
    }
  }

  // ---------------------------------------------------------------- listing

  /** Every node, each followed by the listing of its nested list if it owns one. */
  function Flatten(nodes: seq<AvlNode>): seq<AvlNode>
    decreases nodes
  {
    if |nodes| == 0 then []
    else [nodes[0]] + Own(nodes[0]) + Flatten(nodes[1..])
  }

  /** What one node contributes to a listing after itself. */
  function Own(n: AvlNode): seq<AvlNode>
    decreases n, 1
  {
    if n.tree then Flatten(n.subtree) else []
  }

  lemma FlattenCons(n: AvlNode, rest: seq<AvlNode>)
    ensures Flatten([n] + rest) == [n] + Own(n) + Flatten(rest)
  {
    HeadTail([n], rest);
    assert |[n][1..]| == 0;
    EmptyAppend([n][1..], rest);
  }

  lemma {:induction false} FlattenConcat(a: seq<AvlNode>, b: seq<AvlNode>)
    ensures Flatten(a + b) == Flatten(a) + Flatten(b)
    decreases a
  {
    if |a| == 0 {
      EmptyAppend(a, b);
      EmptyAppend(Flatten(a), Flatten(b));
    } else {
      HeadTail(a, b);
      FlattenConcat(a[1..], b);
      Assoc3([a[0]] + Own(a[0]), Flatten(a[1..]), Flatten(b));
    }
  }

  /** The listing of a prefix one node longer. */
  lemma FlattenStep(nodes: seq<AvlNode>, i: nat)
    requires i < |nodes|
    ensures Flatten(nodes[..i + 1]) == Flatten(nodes[..i]) + [nodes[i]] + Own(nodes[i])
  {
    var x := nodes[i];
    TakeSucc(nodes, i);
    FlattenConcat(nodes[..i], [x]);
    FlattenCons(x, []);
    assert |Flatten([])| == 0;
    AppendEmpty([x] + Own(x), Flatten([]));
    assert [x] + [] == [x];
    Assoc3(Flatten(nodes[..i]), [x], Own(x));
  }

  /** `flatten_tree(nodes, flat)`: appends the listing of `nodes` to `flat`. */
  method FlattenTree(nodes: seq<AvlNode>, flat: seq<AvlNode>) returns (out: seq<AvlNode>)
    ensures out == flat + Flatten(nodes)
    decreases nodes
  {
    out := flat;
    for i := 0 to |nodes|
      invariant out == flat + Flatten(nodes[..i])
    {
      var node := nodes[i];
      out := out + [node];
      if node.tree {
        out := FlattenTree(node.subtree, out);
      } else {
        AppendEmpty(out, Own(node));
      }
      FlattenStep(nodes, i);
      Assoc4(flat, Flatten(nodes[..i]), [node], Own(node));
    }
    TakeAll(nodes);
  }

  /** The listing of a list split around one of its nodes. */
  lemma FlattenSplit(a: seq<AvlNode>, x: AvlNode, b: seq<AvlNode>)
    ensures Flatten(a + [x] + b) == Flatten(a) + [x] + Own(x) + Flatten(b)
  {
    FlattenConcat(a, [x] + b);
    FlattenCons(x, b);
    Assoc3(a, [x], b);
    Assoc4(Flatten(a), [x], Own(x), Flatten(b));
  }

  /** Number of owners of nested lists, at every depth. */
  function Owners(nodes: seq<AvlNode>): nat
    decreases nodes
  {
    if |nodes| == 0 then 0
    else (if nodes[0].tree then 1 + Owners(nodes[0].subtree) else 0) + Owners(nodes[1..])
  }

  /** The listing holds one node per record and one per nested list. */
  lemma {:induction false} FlattenSize(nodes: seq<AvlNode>)
    ensures |Flatten(nodes)| == |Records(nodes)| + Owners(nodes)
    decreases nodes
  {
    if |nodes| != 0 {
      FlattenSize(nodes[1..]);
      if nodes[0].tree {
        FlattenSize(nodes[0].subtree);
      }
    }
  }

  /**
   * The listing `flatten_tree` gives of `balance_tree(depth, path, nodes)`,
   * built side by side: the left side's listing, the pivot, its nested list's
   * listing, the right side's listing.
   */
  function Labels(depth: nat, path: string, nodes: seq<AvlNode>): seq<AvlNode>
    decreases nodes
  {
    if |nodes| == 0 then []
    else
      var p := |nodes| / 2;
      var x := nodes[p];
      Labels(depth + 1, path + "0", nodes[..p]) +
        ([Label(depth, path, x)] +
         ((if x.tree then Labels(depth, path + "x", x.subtree) else []) + Labels(depth + 1, path + "1", nodes[p + 1..])))
  }

  /** The listing of a labelled list: left side, pivot, the pivot's nested list, right side. */
  lemma ListingSplit(depth: nat, path: string, nodes: seq<AvlNode>)
    requires |nodes| > 0
    ensures var p := |nodes| / 2;
      Flatten(Balance(depth, path, nodes)) ==
        Flatten(Balance(depth + 1, path + "0", nodes[..p])) + [Label(depth, path, nodes[p])] +
        Own(Label(depth, path, nodes[p])) + Flatten(Balance(depth + 1, path + "1", nodes[p + 1..]))
  {
    var p := |nodes| / 2;
    var BL, BR := Balance(depth + 1, path + "0", nodes[..p]), Balance(depth + 1, path + "1", nodes[p + 1..]);
    assert Balance(depth, path, nodes) == BL + [Label(depth, path, nodes[p])] + BR;
    FlattenSplit(BL, Label(depth, path, nodes[p]), BR);
  }

  lemma OwnOfLabel(depth: nat, path: string, x: AvlNode)
    ensures Own(Label(depth, path, x)) == if x.tree then Flatten(Balance(depth, path + "x", x.subtree)) else []
  {
  }

  /** `Labels` is what `flatten_tree` lists after `balance_tree`. */
  lemma {:induction false} FlattenBalance(depth: nat, path: string, nodes: seq<AvlNode>)
    ensures Flatten(Balance(depth, path, nodes)) == Labels(depth, path, nodes)
    decreases nodes
  {
    if |nodes| != 0 {
      var p := |nodes| / 2;
      var x := nodes[p];
      var X := Label(depth, path, x);
      var L, R := Labels(depth + 1, path + "0", nodes[..p]), Labels(depth + 1, path + "1", nodes[p + 1..]);
      var O := if x.tree then Labels(depth, path + "x", x.subtree) else [];
      assert Flatten(Balance(depth, path, nodes)) == L + ([X] + (O + R)) by {
        var FL, FR := Flatten(Balance(depth + 1, path + "0", nodes[..p])), Flatten(Balance(depth + 1, path + "1", nodes[p + 1..]));
        ListingSplit(depth, path, nodes);
        FlattenBalance(depth + 1, path + "0", nodes[..p]);
        FlattenBalance(depth + 1, path + "1", nodes[p + 1..]);
        assert Own(X) == O by {
          OwnOfLabel(depth, path, x);
          if x.tree {
            FlattenBalance(depth, path + "x", x.subtree);
          }
        }
        Assoc3([X], O, R);
        Assoc4(L, [X], O, R);
      }
    }
  }

  // ---------------------------------------------------------------- labels

  /** One token of a path: a left or right step ("0" or "1") counts, a nesting step ("x") does not. */
  function Step(c: char): nat
  {
    if c == '0' || c == '1' then 1 else 0
  }

  /** Number of left/right steps in a path. */
  function Steps(path: string): nat
  {
    if |path| == 0 then 0
    else Steps(path[..|path| - 1]) + Step(path[|path| - 1])
  }

  lemma StepsSnoc(path: string, c: char)
    ensures Steps(path + [c]) == Steps(path) + Step(c)
  {
    assert (path + [c])[..|path|] == path;
  }

  /**
   * Every node of s is labelled under `path`, and its depth is `depth` plus the
   * left/right steps its path takes beyond `path`.
   */
  ghost predicate Placed(s: seq<AvlNode>, depth: nat, path: string)
  {
    forall i :: 0 <= i < |s| ==> path <= s[i].path && s[i].depth + Steps(path) == depth + Steps(s[i].path)
  }

  lemma PlacedWiden(s: seq<AvlNode>, depth: nat, path: string, c: char)
    requires Placed(s, depth + Step(c), path + [c])
    ensures Placed(s, depth, path)
  {
    StepsSnoc(path, c);
    forall i | 0 <= i < |s|
      ensures path <= s[i].path
    {
      assert path <= path + [c];
    }
  }

  lemma PlacedJoin(a: seq<AvlNode>, x: AvlNode, o: seq<AvlNode>, b: seq<AvlNode>, depth: nat, path: string)
    requires Placed(a, depth, path) && Placed(o, depth, path) && Placed(b, depth, path)
    requires x.path == path && x.depth == depth
    ensures Placed(a + ([x] + (o + b)), depth, path)
  {
  }

  /** The listing of `balance_tree(depth, path, nodes)` lies under `path`, with depths counting its steps. */
  lemma {:induction false} ListingPlaced(depth: nat, path: string, nodes: seq<AvlNode>)
    ensures Placed(Labels(depth, path, nodes), depth, path)
    decreases nodes
  {
    if |nodes| != 0 {
      var p := |nodes| / 2;
      var x := nodes[p];
      var L, R := Labels(depth + 1, path + "0", nodes[..p]), Labels(depth + 1, path + "1", nodes[p + 1..]);
      var O := if x.tree then Labels(depth, path + "x", x.subtree) else [];
      ListingPlaced(depth + 1, path + "0", nodes[..p]);
      ListingPlaced(depth + 1, path + "1", nodes[p + 1..]);
      PlacedWiden(L, depth, path, '0');
      PlacedWiden(R, depth, path, '1');
      if x.tree {
        ListingPlaced(depth, path + "x", x.subtree);
        PlacedWiden(O, depth, path, 'x');
      }
      PlacedJoin(L, Label(depth, path, x), O, R, depth, path);
    }
  }

  /** The paths written into the nodes of s. */
  ghost function Paths(s: seq<AvlNode>): set<string>
  {
    set i | 0 <= i < |s| :: s[i].path
  }

  lemma PathsConcat(a: seq<AvlNode>, b: seq<AvlNode>)
    ensures Paths(a + b) == Paths(a) + Paths(b)
  {
    forall q | q in Paths(a + b)
      ensures q in Paths(a) + Paths(b)
    {
      var i :| 0 <= i < |a + b| && (a + b)[i].path == q;
      if i >= |a| {
        assert b[i - |a|].path == q;
      } else {
        assert a[i].path == q;
      }
    }
    forall q | q in Paths(a)
      ensures q in Paths(a + b)
    {
      var j :| 0 <= j < |a| && a[j].path == q;
      assert (a + b)[j].path == q;
    }
    forall q | q in Paths(b)
      ensures q in Paths(a + b)
    {
      var j :| 0 <= j < |b| && b[j].path == q;
      assert (a + b)[|a| + j].path == q;
    }
  }

  /**
   * The parent links `graph_tree` draws are all there: `root` is a path of s,
   * and every other path of s has its parent, the path less its last token.
   */
  ghost predicate Linked(s: seq<AvlNode>, root: string)
  {
    root in Paths(s) &&
    forall q :: q in Paths(s) && q != root ==> |q| > 0 && q[..|q| - 1] in Paths(s)
  }

  /** Every path of s has its parent among the paths of s or equal to `root`. */
  ghost predicate Hangs(s: seq<AvlNode>, root: string)
  {
    forall q :: q in Paths(s) ==> |q| > 0 && (q[..|q| - 1] == root || q[..|q| - 1] in Paths(s))
  }

  /** A pivot labelled `root` joins the parts hanging from it into one linked listing. */
  lemma LinkedJoin(a: seq<AvlNode>, x: AvlNode, o: seq<AvlNode>, b: seq<AvlNode>, root: string)
    requires Hangs(a, root) && Hangs(o, root) && Hangs(b, root) && x.path == root
    ensures Linked(a + ([x] + (o + b)), root)
  {
    PathsConcat(a, [x] + (o + b));
    PathsConcat([x], o + b);
    PathsConcat(o, b);
    assert [x][0].path == root;
  }

  /** A part listed below `root` + [c]: empty, or linked under its own root. */
  lemma Hanging(s: seq<AvlNode>, root: string, c: char)
    requires |s| == 0 || Linked(s, root + [c])
    ensures Hangs(s, root)
  {
    if |s| > 0 {
      forall q | q in Paths(s)
        ensures |q| > 0 && (q[..|q| - 1] == root || q[..|q| - 1] in Paths(s))
      {
        if q == root + [c] {
          assert q[..|q| - 1] == root;
        }
      }
    } else {
      assert Paths(s) == {};
    }
  }

  /** Every path of a nonempty listing links back to its root. */
  lemma {:induction false} ListingLinked(depth: nat, path: string, nodes: seq<AvlNode>)
    ensures |nodes| > 0 ==> Linked(Labels(depth, path, nodes), path)
    ensures |nodes| == 0 ==> Labels(depth, path, nodes) == []
    decreases nodes
  {
    if |nodes| != 0 {
      var p := |nodes| / 2;
      var x := nodes[p];
      var L, R := Labels(depth + 1, path + "0", nodes[..p]), Labels(depth + 1, path + "1", nodes[p + 1..]);
      var O := if x.tree then Labels(depth, path + "x", x.subtree) else [];
      ListingLinked(depth + 1, path + "0", nodes[..p]);
      ListingLinked(depth + 1, path + "1", nodes[p + 1..]);
      Hanging(L, path, '0');
      Hanging(R, path, '1');
      if x.tree {
        ListingLinked(depth, path + "x", x.subtree);
      }
      Hanging(O, path, 'x');
      LinkedJoin(L, Label(depth, path, x), O, R, path);
    }
  }

  /** No two nodes of s carry the same path. */
  ghost predicate DistinctPaths(s: seq<AvlNode>)
  {
    forall i, j :: 0 <= i < j < |s| ==> s[i].path != s[j].path
  }

  /** No path of a is a path of b. */
  ghost predicate Apart(a: seq<AvlNode>, b: seq<AvlNode>)
  {
    forall i, j :: 0 <= i < |a| && 0 <= j < |b| ==> a[i].path != b[j].path
  }

  /** Every node of s is labelled under `path`. */
  ghost predicate Under(s: seq<AvlNode>, path: string)
  {
    forall i :: 0 <= i < |s| ==> path <= s[i].path
  }

  /** Two branches under different tokens share no path. */
  lemma BranchesApart(a: seq<AvlNode>, b: seq<AvlNode>, path: string, x: char, y: char)
    requires x != y && Under(a, path + [x]) && Under(b, path + [y])
    ensures Apart(a, b)
  {
    forall i, j | 0 <= i < |a| && 0 <= j < |b|
      ensures a[i].path != b[j].path
    {
      assert a[i].path[|path|] == (path + [x])[|path|];
      assert b[j].path[|path|] == (path + [y])[|path|];
    }
  }

  /** A node labelled `path` shares no path with a branch below it. */
  lemma NodeApart(n: AvlNode, b: seq<AvlNode>, path: string, y: char)
    requires n.path == path && Under(b, path + [y])
    ensures Apart([n], b) && Apart(b, [n])
  {
    forall j | 0 <= j < |b|
      ensures |b[j].path| > |path|
    {
      assert |path + [y]| <= |b[j].path|;
    }
  }

  lemma DistinctConcat(a: seq<AvlNode>, b: seq<AvlNode>)
    requires DistinctPaths(a) && DistinctPaths(b) && Apart(a, b)
    ensures DistinctPaths(a + b)
  {
  }

  lemma ApartJoin(a: seq<AvlNode>, b: seq<AvlNode>, c: seq<AvlNode>)
    requires Apart(a, b) && Apart(a, c)
    ensures Apart(a, b + c)
  {
  }

  /** A pivot labelled `path` and three parts with distinct paths under path + "0", "x" and "1". */
  lemma DistinctJoin(a: seq<AvlNode>, x: AvlNode, o: seq<AvlNode>, b: seq<AvlNode>, path: string)
    requires DistinctPaths(a) && DistinctPaths(o) && DistinctPaths(b) && x.path == path
    requires Under(a, path + "0") && Under(o, path + "x") && Under(b, path + "1")
    ensures DistinctPaths(a + ([x] + (o + b)))
  {
    NodeApart(x, a, path, '0');
    NodeApart(x, o, path, 'x');
    NodeApart(x, b, path, '1');
    BranchesApart(a, o, path, '0', 'x');
    BranchesApart(a, b, path, '0', '1');
    BranchesApart(o, b, path, 'x', '1');
    DistinctConcat(o, b);
    ApartJoin([x], o, b);
    DistinctConcat([x], o + b);
    ApartJoin(a, o, b);
    ApartJoin(a, [x], o + b);
    DistinctConcat(a, [x] + (o + b));
  }

  /** No two nodes of the listing, at whatever nesting level, get the same path. */
  lemma {:induction false} ListingDistinct(depth: nat, path: string, nodes: seq<AvlNode>)
    ensures DistinctPaths(Labels(depth, path, nodes))
    decreases nodes
  {
    if |nodes| != 0 {
      var p := |nodes| / 2;
      var x := nodes[p];
      var L, R := Labels(depth + 1, path + "0", nodes[..p]), Labels(depth + 1, path + "1", nodes[p + 1..]);
      var O := if x.tree then Labels(depth, path + "x", x.subtree) else [];
      ListingDistinct(depth + 1, path + "0", nodes[..p]);
      ListingDistinct(depth + 1, path + "1", nodes[p + 1..]);
      ListingPlaced(depth + 1, path + "0", nodes[..p]);
      ListingPlaced(depth + 1, path + "1", nodes[p + 1..]);
      if x.tree {
        ListingDistinct(depth, path + "x", x.subtree);
        ListingPlaced(depth, path + "x", x.subtree);
      }
      DistinctJoin(L, Label(depth, path, x), O, R, path);
    }
  }

  /**
   * The labels of the whole tree, as `build_initial_tree` leaves them
   * (`balance_tree(depth=0, path='x', ...)`): every path starts with "x" and is
   * held by one node only, every depth is the number of left/right steps in
   * its path, and every path but "x" hangs from its parent.
   */
  lemma TreeLabels(tree: seq<AvlNode>)
    ensures var flat := Flatten(Balance(0, "x", tree));
      DistinctPaths(flat) &&
      (forall i :: 0 <= i < |flat| ==> "x" <= flat[i].path && flat[i].depth == Steps(flat[i].path)) &&
      (|tree| > 0 ==> Linked(flat, "x"))
  {
    FlattenBalance(0, "x", tree);
    ListingDistinct(0, "x", tree);
    ListingPlaced(0, "x", tree);
    ListingLinked(0, "x", tree);
    assert Steps("x") == 0 by { assert "x"[..0] == ""; }
  }
}
