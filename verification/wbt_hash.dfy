/**
 * The Merkle commitment of wbt.py (`hash_subtree` and `initial_hash`,
 * wbt.py:206-245). The hash primitive, StarkWare's Pedersen hash, is the
 * parameter `h`; the file of intermediate hashes and the progress messages are
 * left out.
 *
 * `hash_subtree` is modelled as written: it reads the path-sorted nodes from
 * the front and returns what it did not consume together with a root. A
 * broken ordering stops Python with an AssertionError; here it is the
 * `OutOfOrder` outcome.
 */
module WbtHash {
  import opened Seqs
  import opened Keys
  import opened WbtPivot
  import opened WbtTree
  import opened WbtListing

  /** What is left of the input and the root, or the two paths of a failed ordering assert. */
  datatype Outcome = Done(rest: seq<WbtNode>, root: int) | OutOfOrder(path: string, nodePath: string)

  /** What `initial_hash` returns, or which of its two asserts fails. */
  datatype Commitment = Root(root: int) | Unordered(path: string, nodePath: string) | Unused(count: nat)

  /** How many tokens the first node's path still has below `path`. */
  function Slack(path: string, nodes: seq<WbtNode>): nat
  {
    if |nodes| == 0 || |nodes[0].path| < |path| then 0 else |nodes[0].path| - |path|
  }

  /** The next node is the root of the nested list owned at `path`: its path is path + "M". */
  predicate NestedRootAt(path: string, nodes: seq<WbtNode>)
  {
    |nodes| > 0 && |nodes[0].path| > 0 && nodes[0].path[|nodes[0].path| - 1] == 'M' &&
    path == nodes[0].path[..|nodes[0].path| - 1]
  }

  /** A node that passes the ordering tests of `hash_subtree` without having `path` lies strictly below it. */
  lemma DescendsBelow(path: string, q: string)
    requires PathCmp(path, q) <= 0 && (PathCmp(path, q) < 0 ==> HasPrefix(q, path)) && path != q
    ensures |q| > |path|
  {
    PathCmpBasics(path, q);
    if |q| == |path| {
      TakeAll(q);
    }
  }

  /**
   * `hash_subtree`. A node whose path sorts after `path` without lying under it
   * belongs to someone else: nothing is consumed and the root is 0. A node
   * whose path sorts before `path` fails the ordering assert. Otherwise the
   * node is consumed only if its path is `path` itself, and the root combines
   * the left side, the node and the right side, with the nested list in place
   * of the value when the node after the left side is the nested root at
   * path + "M". When the first node is not consumed, its key and value are
   * still the ones combined.
   */
  function HashSubtree(h: (int, int) -> int, path: string, nodes: seq<WbtNode>): (r: Outcome)
    ensures |nodes| == 0 ==> r == Done(nodes, 0)
    ensures |nodes| > 0 && PathCmp(path, nodes[0].path) > 0 ==> r == OutOfOrder(path, nodes[0].path)
    ensures r.Done? ==> |r.rest| <= |nodes| && (|r.rest| == |nodes| ==> r.rest == nodes)
    decreases |nodes|, Slack(path, nodes)
  {
    if |nodes| == 0 then Done(nodes, 0)
    else
      var n := nodes[0];
      if PathCmp(path, n.path) < 0 && !HasPrefix(n.path, path) then Done(nodes, 0)
      else if PathCmp(path, n.path) > 0 then OutOfOrder(path, n.path)
      else
        var afterHead := if path == n.path then nodes[1..] else nodes;
        assert path != n.path ==> |n.path| > |path| by {
          if path != n.path {
            DescendsBelow(path, n.path);
          }
        }
        match HashSubtree(h, path + "L", afterHead)
        case OutOfOrder(p, q) => OutOfOrder(p, q)
        case Done(rest1, leftRoot) =>
          if NestedRootAt(path, rest1) then
            var nn := rest1[0];
            match HashSubtree(h, path + "N", rest1[1..])
            case OutOfOrder(p, q) => OutOfOrder(p, q)
            case Done(rest2, nestedRoot) =>
              match HashSubtree(h, path + "R", rest2)
              case OutOfOrder(p, q) => OutOfOrder(p, q)
              case Done(rest3, rightRoot) => Done(rest3, h(h(leftRoot, nn.key), h(nestedRoot, rightRoot)))
          else
            match HashSubtree(h, path + "R", rest1)
            case OutOfOrder(p, q) => OutOfOrder(p, q)
            case Done(rest3, rightRoot) => Done(rest3, h(h(leftRoot, n.key), h(n.val, rightRoot)))
  }

  /** `initial_hash`: the root of the whole path-sorted listing, which must be used up. */
  function InitialHash(h: (int, int) -> int, flat: seq<WbtNode>): (c: Commitment)
    ensures c.Unused? ==> 0 < c.count <= |flat|
  {
    match HashSubtree(h, "", flat)
    case OutOfOrder(p, q) => Unordered(p, q)
    case Done(rest, root) => if |rest| == 0 then Root(root) else Unused(|rest|)
  }

  /**
   * The head node is combined even when it is not consumed. A listing whose
   * only node sits at "L", with nothing at the root path "", passes both
   * asserts of `initial_hash`; the node is hashed once as the root of the left
   * side and its key and value enter the root a second time.
   */
  lemma UnconsumedHeadCountsTwice(h: (int, int) -> int, n: WbtNode)
    requires n.path == "L"
    ensures var once := h(h(0, n.key), h(n.val, 0));
      InitialHash(h, [n]) == Root(h(h(once, n.key), h(n.val, 0)))
  {
    var once := h(h(0, n.key), h(n.val, 0));
    PathCmpBasics("L", "L");
    PrefixWiden("L", "", 'L');
    assert HashSubtree(h, "LL", []) == Done([], 0);
    assert HashSubtree(h, "L", [n]) == Done([], once);
    assert PathCmp("", n.path) == -1 && HasPrefix(n.path, "") && "" != n.path;
    assert !NestedRootAt("", []) && HashSubtree(h, "R", []) == Done([], 0);
    assert HashSubtree(h, "", [n]) == Done([], h(h(once, n.key), h(n.val, 0)));
  }

  /** What `hash_subtree` leaves over is always a suffix of what it was given. */
  lemma {:induction false} HashLeavesSuffix(h: (int, int) -> int, path: string, nodes: seq<WbtNode>)
    ensures HashSubtree(h, path, nodes).Done? ==> IsSuffix(HashSubtree(h, path, nodes).rest, nodes)
    decreases |nodes|, Slack(path, nodes)
  {
    if |nodes| > 0 {
      var n := nodes[0];
      if !(PathCmp(path, n.path) < 0 && !HasPrefix(n.path, path)) && PathCmp(path, n.path) <= 0 {
        if path != n.path {
          DescendsBelow(path, n.path);
          SuffixOfSelf(nodes);
        } else {
          SuffixOfTail(nodes);
        }
        var afterHead := if path == n.path then nodes[1..] else nodes;
        HashLeavesSuffix(h, path + "L", afterHead);
        var left := HashSubtree(h, path + "L", afterHead);
        if left.Done? {
          var rest1 := left.rest;
          SuffixTrans(nodes, afterHead, rest1);
          if NestedRootAt(path, rest1) {
            SuffixOfTail(rest1);
            SuffixTrans(nodes, rest1, rest1[1..]);
            HashLeavesSuffix(h, path + "N", rest1[1..]);
            var nested := HashSubtree(h, path + "N", rest1[1..]);
            if nested.Done? {
              SuffixTrans(nodes, rest1[1..], nested.rest);
              HashLeavesSuffix(h, path + "R", nested.rest);
              var right := HashSubtree(h, path + "R", nested.rest);
              if right.Done? {
                SuffixTrans(nodes, nested.rest, right.rest);
              }
            }
          } else {
            HashLeavesSuffix(h, path + "R", rest1);
            var right := HashSubtree(h, path + "R", rest1);
            if right.Done? {
              SuffixTrans(nodes, rest1, right.rest);
            }
          }
        }
      }
    }
  }

  /**
   * The root the commitment should have: the Merkle hash of the shape
   * `balance_tree` gives a list. A leaf pivot combines its key with the left
   * root and its value with the right root; an owner of a nested list puts
   * that list's root in place of the value.
   */
  function TreeHash(h: (int, int) -> int, nodes: seq<WbtNode>): int
    decreases nodes
  {
    if |nodes| == 0 then 0
    else
      var p := PivotOf(|nodes|);
      var x := nodes[p];
      var left, right := TreeHash(h, nodes[..p]), TreeHash(h, nodes[p + 1..]);
      if x.tree then h(h(left, x.key), h(TreeHash(h, x.subtree), right))
      else h(h(left, x.key), h(x.val, right))
  }

  /** Nothing of a subtree's listing is left to whoever follows it. */
  ghost predicate Follows(path: string, rest: seq<WbtNode>)
  {
    |rest| == 0 || After(path, rest[0].path)
  }

  /** One level of `hash_subtree` on a leaf pivot, its left side and its right side. */
  lemma LeafStep(h: (int, int) -> int, path: string, x: WbtNode, left: seq<WbtNode>, tail: seq<WbtNode>,
                 rest: seq<WbtNode>, leftRoot: int, rightRoot: int)
    requires x.path == path && !NestedRootAt(path, tail)
    requires HashSubtree(h, path + "L", left + tail) == Done(tail, leftRoot)
    requires HashSubtree(h, path + "R", tail) == Done(rest, rightRoot)
    ensures HashSubtree(h, path, [x] + (left + tail)) == Done(rest, h(h(leftRoot, x.key), h(x.val, rightRoot)))
  {
    ConsTail(x, left + tail);
    PathCmpBasics(path, path);
  }

  /** One level of `hash_subtree` on a nested pivot, its left side, its nested list and its right side. */
  lemma NestedStep(h: (int, int) -> int, path: string, x: WbtNode, left: seq<WbtNode>, inner: seq<WbtNode>,
                   tail: seq<WbtNode>, rest: seq<WbtNode>, leftRoot: int, nestedRoot: int, rightRoot: int)
    requires x.path == path + "M"
    requires |left| > 0 ==> HasPrefix(left[0].path, path + "L")
    requires HashSubtree(h, path + "L", left + ([x] + (inner + tail))) == Done([x] + (inner + tail), leftRoot)
    requires HashSubtree(h, path + "N", inner + tail) == Done(tail, nestedRoot)
    requires HashSubtree(h, path + "R", tail) == Done(rest, rightRoot)
    ensures HashSubtree(h, path, left + ([x] + (inner + tail)))
         == Done(rest, h(h(leftRoot, x.key), h(nestedRoot, rightRoot)))
  {
    var after := [x] + (inner + tail);
    var input := left + after;
    var q := input[0].path;
    if |left| > 0 {
      PrefixWiden(q, path, 'L');
    } else {
      EmptyAppend(left, after);
      PrefixWiden(q, path, 'M');
    }
    ConsTail(x, inner + tail);
    assert (path + "M")[..|path|] == path;
    assert NestedRootAt(path, after);
  }

  /** The node after one side lies after that side's prefix. */
  lemma NextFollows(path: string, c: char, d: char, next: seq<WbtNode>, rest: seq<WbtNode>)
    requires c < d && Under(next, path + [d]) && Follows(path, rest)
    ensures Follows(path + [c], next + rest)
  {
    if |next| > 0 {
      AfterBranch(path, c, d, next[0].path);
    } else {
      EmptyAppend(next, rest);
      if |rest| > 0 {
        AfterExtend(path, c, rest[0].path);
      }
    }
  }

  /** A leaf pivot's right side, or whatever follows the list, is not a nested root at `path`. */
  lemma NotNestedRoot(path: string, next: seq<WbtNode>, rest: seq<WbtNode>)
    requires Under(next, path + "R") && Follows(path, rest)
    ensures !NestedRootAt(path, next + rest)
  {
    if |next| > 0 {
      var q := next[0].path;
      assert q[..|path| + 1] == path + "R";
      assert q[|path|] == 'R';
    } else {
      EmptyAppend(next, rest);
      if |rest| > 0 {
        var q := rest[0].path;
        if |q| == |path| + 1 {
          assert q[..|path|] == q[..|q| - 1];
        }
      }
    }
  }

  /**
   * `hash_subtree` over the path-ordered listing of a balanced list, followed
   * by nodes that lie after its prefix, consumes exactly that listing and
   * returns the Merkle root of the list.
   */
  lemma {:induction false} HashOfListing(h: (int, int) -> int, path: string, nodes: seq<WbtNode>, rest: seq<WbtNode>)
    requires Follows(path, rest)
    ensures HashSubtree(h, path, Listing(path, nodes) + rest) == Done(rest, TreeHash(h, nodes))
    decreases nodes, 3
  {
    if |nodes| == 0 {
      EmptyAppend(Listing(path, nodes), rest);
    } else if nodes[PivotOf(|nodes|)].tree {
      HashOfNestedPivot(h, path, nodes, rest);
    } else {
      HashOfLeafPivot(h, path, nodes, rest);
    }
  }

  /** The listing of a right side, followed by what follows the whole list. */
  lemma {:induction false} RightSide(h: (int, int) -> int, path: string, side: seq<WbtNode>, rest: seq<WbtNode>)
    requires Follows(path, rest)
    ensures HashSubtree(h, path + "R", Listing(path + "R", side) + rest) == Done(rest, TreeHash(h, side))
    decreases side, 4
  {
    if |rest| > 0 {
      AfterExtend(path, 'R', rest[0].path);
    }
    HashOfListing(h, path + "R", side, rest);
  }

  /**
   * The listing of a list at `path + [c]` for a branch letter before "R" (the
   * left side of a leaf pivot, "L", or the nested list of an owner pivot,
   * "N"), followed by the right side.
   */
  lemma {:induction false} BeforeRight(h: (int, int) -> int, path: string, c: char, side: seq<WbtNode>,
                                       right: seq<WbtNode>, rest: seq<WbtNode>)
    requires c < 'R' && Follows(path, rest)
    ensures var R := Listing(path + "R", right);
      HashSubtree(h, path + [c], Listing(path + [c], side) + (R + rest)) == Done(R + rest, TreeHash(h, side))
    decreases side, 4
  {
    var R := Listing(path + "R", right);
    ListingOrdered(path + "R", right);
    NextFollows(path, c, 'R', R, rest);
    HashOfListing(h, path + [c], side, R + rest);
  }

  /** The listing of a left side of a nested pivot, followed by the pivot at path + "M". */
  lemma {:induction false} LeftBeforeNested(h: (int, int) -> int, path: string, side: seq<WbtNode>, after: seq<WbtNode>)
    requires |after| > 0 && after[0].path == path + "M"
    ensures HashSubtree(h, path + "L", Listing(path + "L", side) + after) == Done(after, TreeHash(h, side))
    ensures var L := Listing(path + "L", side); |L| > 0 ==> HasPrefix(L[0].path, path + "L")
    decreases side, 4
  {
    assert HasPrefix(after[0].path, path + "M");
    AfterBranch(path, 'L', 'M', after[0].path);
    HashOfListing(h, path + "L", side, after);
    ListingOrdered(path + "L", side);
  }

  /** `hash_subtree` over the listing of a list whose pivot is a leaf, as the listing is laid out. */
  lemma {:induction false} LeafPivotParts(h: (int, int) -> int, path: string, nodes: seq<WbtNode>, rest: seq<WbtNode>)
    requires Follows(path, rest) && |nodes| > 0 && !nodes[PivotOf(|nodes|)].tree
    ensures var p := PivotOf(|nodes|);
      var L, R := Listing(path + "L", nodes[..p]), Listing(path + "R", nodes[p + 1..]);
      HashSubtree(h, path, [Label(path, nodes[p])] + (L + (R + rest))) == Done(rest, TreeHash(h, nodes))
    decreases nodes, 1
  {
    var p := PivotOf(|nodes|);
    var R := Listing(path + "R", nodes[p + 1..]);
    RightSide(h, path, nodes[p + 1..], rest);
    BeforeRight(h, path, 'L', nodes[..p], nodes[p + 1..], rest);
    ListingOrdered(path + "R", nodes[p + 1..]);
    NotNestedRoot(path, R, rest);
    LeafStep(h, path, Label(path, nodes[p]), Listing(path + "L", nodes[..p]), R + rest, rest,
             TreeHash(h, nodes[..p]), TreeHash(h, nodes[p + 1..]));
  }

  /** `hash_subtree` over the listing of a list whose pivot owns a nested list, as the listing is laid out. */
  lemma {:induction false} NestedPivotParts(h: (int, int) -> int, path: string, nodes: seq<WbtNode>, rest: seq<WbtNode>)
    requires Follows(path, rest) && |nodes| > 0 && nodes[PivotOf(|nodes|)].tree
    ensures var p := PivotOf(|nodes|);
      var L, R := Listing(path + "L", nodes[..p]), Listing(path + "R", nodes[p + 1..]);
      var N := Listing(path + "N", nodes[p].subtree);
      HashSubtree(h, path, L + ([Label(path, nodes[p])] + (N + (R + rest)))) == Done(rest, TreeHash(h, nodes))
    decreases nodes, 1
  {
    var p := PivotOf(|nodes|);
    var x := nodes[p];
    var X := Label(path, x);
    var R := Listing(path + "R", nodes[p + 1..]);
    var N := Listing(path + "N", x.subtree);
    var after := [X] + (N + (R + rest));
    RightSide(h, path, nodes[p + 1..], rest);
    BeforeRight(h, path, 'N', x.subtree, nodes[p + 1..], rest);
    LeftBeforeNested(h, path, nodes[..p], after);
    NestedStep(h, path, X, Listing(path + "L", nodes[..p]), N, R + rest, rest,
               TreeHash(h, nodes[..p]), TreeHash(h, x.subtree), TreeHash(h, nodes[p + 1..]));
  }

  lemma {:induction false} HashOfLeafPivot(h: (int, int) -> int, path: string, nodes: seq<WbtNode>, rest: seq<WbtNode>)
    requires Follows(path, rest) && |nodes| > 0 && !nodes[PivotOf(|nodes|)].tree
    ensures HashSubtree(h, path, Listing(path, nodes) + rest) == Done(rest, TreeHash(h, nodes))
    decreases nodes, 2
  {
    LeafPivotParts(h, path, nodes, rest);
    ListingOfLeafThen(path, nodes, rest);
  }

  lemma {:induction false} HashOfNestedPivot(h: (int, int) -> int, path: string, nodes: seq<WbtNode>, rest: seq<WbtNode>)
    requires Follows(path, rest) && |nodes| > 0 && nodes[PivotOf(|nodes|)].tree
    ensures HashSubtree(h, path, Listing(path, nodes) + rest) == Done(rest, TreeHash(h, nodes))
    decreases nodes, 2
  {
    NestedPivotParts(h, path, nodes, rest);
    ListingOfNestedThen(path, nodes, rest);
  }

  /**
   * The commitment of wbt.py end to end: whatever order Python's sort leaves
   * the listing of the balanced tree in, `initial_hash` consumes every node
   * and returns the Merkle root of the tree.
   */
  lemma CommitmentOfSortedFlat(h: (int, int) -> int, tree: seq<WbtNode>, flat: seq<WbtNode>)
    requires multiset(flat) == multiset(Flatten(Balance("", tree)))
    requires SortedByPath(flat)
    ensures InitialHash(h, flat) == Root(TreeHash(h, tree))
  {
    ListingPermutes("", tree);
    ListingOrdered("", tree);
    SortedUnique(Listing("", tree), flat);
    HashOfListing(h, "", tree, []);
    AppendEmpty(flat, []);
  }
}
