/**
 * The weight-balanced tree of wbt.py: its node record, the grouping of the
 * sorted records into nested sibling lists (`build_initial_tree`), the labelling
 * of every node with its path (`balance_tree`) and the listing of all nodes
 * (`flatten_tree`).
 *
 * Python builds and labels the nodes through shared references: a nested list
 * is at once on `tree_stack` and the `subtree` of its owner, and `balance_tree`
 * writes `path` into node objects that the slices `nodes[:pivot]` still share
 * with the caller. Here nodes are values; grouping keeps the open lists in a
 * stack of frames and attaches each one to its owner when it is closed, and
 * labelling returns the relabelled list.
 */
module WbtTree {
  import opened Seqs
  import opened WbtPivot

  /**
   * `WbtNode` (wbt.py:59-68). `tree` marks the owner of a nested list, whose
   * nodes are `subtree`; a leaf keeps its value in `val` and has no subtree
   * (None in the source, the empty list here). `height` is never assigned
   * anything but 0 and is left out.
   */
  datatype WbtNode = WbtNode(key: int, composite: seq<int>, nesting: nat, path: string,
                             tree: bool, val: int, subtree: seq<WbtNode>)

  // ---------------------------------------------------------------- grouping

  /**
   * What holds of every node grouping builds at nesting `level` in the list
   * of the key prefix `prefix`. An owner carries the prefix of its nested list
   * (one key longer than `prefix`) and is keyed by that extra key. A leaf is the
   * record composite + [val], which starts with `prefix` and has at most one
   * key beyond it; its key is the record's element at position `level`.
   */
  ghost predicate NodeFields(n: WbtNode, prefix: seq<int>, level: nat)
  {
    n.nesting == level && n.path == "" &&
    if n.tree then
      |n.composite| == level + 1 && n.composite[..level] == prefix &&
      n.key == n.composite[level] && n.val == 0
    else
      var item := n.composite + [n.val];
      level <= |n.composite| <= level + 1 && item[..level] == prefix &&
      n.key == item[level] && n.subtree == []
  }

  /** A node and, for an owner, its whole nested list are as grouping builds them. */
  ghost predicate Grouped(n: WbtNode, prefix: seq<int>, level: nat)
    decreases n
  {
    NodeFields(n, prefix, level) &&
    (n.tree ==>
       n.subtree != [] &&
       forall i :: 0 <= i < |n.subtree| ==> Grouped(n.subtree[i], n.composite, level + 1))
  }

  ghost predicate AllGrouped(nodes: seq<WbtNode>, prefix: seq<int>, level: nat)
  {
    forall i :: 0 <= i < |nodes| ==> Grouped(nodes[i], prefix, level)
  }

  /** The records a list of nodes holds, in order: each leaf stands for composite + [val]. */
  function Records(nodes: seq<WbtNode>): seq<seq<int>>
    decreases nodes
  {
    if |nodes| == 0 then []
    else Held(nodes[0]) + Records(nodes[1..])
  }

  /** The records one node holds. */
  function Held(n: WbtNode): seq<seq<int>>
    decreases n, 1
  {
    if n.tree then Records(n.subtree) else [n.composite + [n.val]]
  }

  lemma {:induction false} RecordsConcat(a: seq<WbtNode>, b: seq<WbtNode>)
    ensures Records(a + b) == Records(a) + Records(b)
    decreases a
  {
    if |a| == 0 {
      EmptyAppend(a, b);
      EmptyAppend(Records(a), Records(b));
    } else {
      HeadTail(a, b);
      RecordsConcat(a[1..], b);
      Assoc3(Held(a[0]), Records(a[1..]), Records(b));
    }
  }

  lemma RecordsOne(n: WbtNode)
    ensures Records([n]) == Held(n)
  {
    assert |[n][1..]| == 0;
    AppendEmpty(Held(n), Records([n][1..]));
  }

  /*
   * The frames of `tree_stack`. Frame k is the list being filled at nesting k;
   * below the top, its last node is the owner of frame k + 1, whose subtree is
   * left empty until that frame is closed and attached to it.
   */

  /** `tree_stack[-1].append(n)`. */
  function AppendTop<T>(stack: seq<seq<T>>, n: T): (s: seq<seq<T>>)
    requires |stack| >= 1
    ensures |s| == |stack|
  {
    stack[..|stack| - 1] + [stack[|stack| - 1] + [n]]
  }

  /** Hands a closed list to the owner that ends the frame below it. */
  function Attach(frame: seq<WbtNode>, sub: seq<WbtNode>): seq<WbtNode>
    requires frame != []
  {
    frame[..|frame| - 1] + [frame[|frame| - 1].(subtree := sub)]
  }

  /** `tree_stack.pop(-1)`: the top frame is closed. */
  function PopFrame(stack: seq<seq<WbtNode>>): (s: seq<seq<WbtNode>>)
    requires |stack| >= 2 && stack[|stack| - 2] != []
    ensures |s| == |stack| - 1
  {
    stack[..|stack| - 2] + [Attach(stack[|stack| - 2], stack[|stack| - 1])]
  }

  /** The tree `tree_stack[0]` stands for: every open frame closed. */
  function Close(stack: seq<seq<WbtNode>>): seq<WbtNode>
    requires |stack| >= 1 && forall k :: 0 <= k < |stack| - 1 ==> stack[k] != []
    decreases |stack|
  {
    if |stack| == 1 then stack[0] else Close(PopFrame(stack))
  }

  /** The frames and the key prefixes of `prefix_stack` agree, and all nodes are as grouping builds them. */
  ghost predicate Shaped(stack: seq<seq<WbtNode>>, prefixes: seq<seq<int>>)
  {
    |stack| == |prefixes| >= 1 &&
    (forall k :: 0 <= k < |prefixes| ==> |prefixes[k]| == k) &&
    (forall k :: 0 <= k < |stack| - 1 ==> stack[k] != [])
  }

  ghost predicate Frames(stack: seq<seq<WbtNode>>, prefixes: seq<seq<int>>)
  {
    |stack| == |prefixes| >= 1 &&
    (forall k :: 0 <= k < |prefixes| ==> |prefixes[k]| == k) &&
    (forall k {:trigger stack[k]} :: 0 <= k < |stack| - 1 ==>
       stack[k] != [] &&
       AllGrouped(stack[k][..|stack[k]| - 1], prefixes[k], k) &&
       Owner(stack[k][|stack[k]| - 1], prefixes[k], k, prefixes[k + 1])) &&
    AllGrouped(stack[|stack| - 1], prefixes[|stack| - 1], |stack| - 1)
  }

  /** The owner of an open nested list: its subtree is still the empty placeholder. */
  ghost predicate Owner(n: WbtNode, prefix: seq<int>, level: nat, nested: seq<int>)
  {
    n.tree && n.composite == nested && n.subtree == [] && NodeFields(n, prefix, level)
  }

  /** Every nested list that was opened has received its first node. */
  ghost predicate Settled(stack: seq<seq<WbtNode>>)
  {
    |stack| >= 1 && (|stack| == 1 || stack[|stack| - 1] != [])
  }

  /** The records held by all frames, bottom first. */
  function StackRecords(stack: seq<seq<WbtNode>>): seq<seq<int>>
  {
    if |stack| == 0 then [] else StackRecords(stack[..|stack| - 1]) + Records(stack[|stack| - 1])
  }

  lemma StackRecordsSnoc(stack: seq<seq<WbtNode>>, frame: seq<WbtNode>)
    ensures StackRecords(stack + [frame]) == StackRecords(stack) + Records(frame)
  {
    TakeAppend(stack, [frame]);
  }

  lemma StackRecordsAppendTop(stack: seq<seq<WbtNode>>, n: WbtNode)
    requires |stack| >= 1
    ensures StackRecords(AppendTop(stack, n)) == StackRecords(stack) + Held(n)
  {
    var t := |stack| - 1;
    StackRecordsSnoc(stack[..t], stack[t] + [n]);
    RecordsConcat(stack[t], [n]);
    RecordsOne(n);
    DropLast(stack);
    StackRecordsSnoc(stack[..t], stack[t]);
    Assoc3(StackRecords(stack[..t]), Records(stack[t]), Held(n));
  }

  lemma PopKeeps(stack: seq<seq<WbtNode>>, prefixes: seq<seq<int>>)
    requires Frames(stack, prefixes) && Settled(stack) && |stack| >= 2
    ensures Frames(PopFrame(stack), prefixes[..|prefixes| - 1]) && Settled(PopFrame(stack))
    ensures StackRecords(PopFrame(stack)) == StackRecords(stack)
  {
    PopFrames(stack, prefixes);
    PopRecords(stack);
  }

  lemma PopFrames(stack: seq<seq<WbtNode>>, prefixes: seq<seq<int>>)
    requires Frames(stack, prefixes) && Settled(stack) && |stack| >= 2
    ensures Frames(PopFrame(stack), prefixes[..|prefixes| - 1]) && Settled(PopFrame(stack))
  {
    var t := |stack| - 1;
    var frame := stack[t - 1];
    var attached := frame[|frame| - 1].(subtree := stack[t]);
    assert Grouped(attached, prefixes[t - 1], t - 1);
    var a := Attach(frame, stack[t]);
    assert AllGrouped(a, prefixes[t - 1], t - 1);
    var s := PopFrame(stack);
    assert s[t - 1] == a;
  }

  lemma PopRecords(stack: seq<seq<WbtNode>>)
    requires |stack| >= 2 && stack[|stack| - 2] != []
    requires var frame := stack[|stack| - 2]; frame[|frame| - 1].tree && frame[|frame| - 1].subtree == []
    ensures StackRecords(PopFrame(stack)) == StackRecords(stack)
  {
    var t := |stack| - 1;
    var frame, sub := stack[t - 1], stack[t];
    var below := stack[..t - 1];
    AttachRecords(frame, sub);
    StackRecordsSnoc(below, Attach(frame, sub));
    DropLast(stack);
    StackRecordsSnoc(stack[..t], sub);
    DropLast(stack[..t]);
    TakeTake(stack, t, t - 1);
    StackRecordsSnoc(below, frame);
    Assoc3(StackRecords(below), Records(frame), Records(sub));
  }

  /** Attaching a closed list to a placeholder owner adds exactly that list's records. */
  lemma AttachRecords(frame: seq<WbtNode>, sub: seq<WbtNode>)
    requires frame != [] && frame[|frame| - 1].tree && frame[|frame| - 1].subtree == []
    ensures Records(Attach(frame, sub)) == Records(frame) + Records(sub)
  {
    var front, owner := frame[..|frame| - 1], frame[|frame| - 1];
    var attached := owner.(subtree := sub);
    DropLast(frame);
    RecordsConcat(front, [owner]);
    RecordsOne(owner);
    RecordsConcat(front, [attached]);
    RecordsOne(attached);
    assert |Records([])| == 0;
    AppendEmpty(Records(front), Held(owner));
  }

  lemma PushKeeps(stack: seq<seq<WbtNode>>, prefixes: seq<seq<int>>, item: seq<int>)
    requires Frames(stack, prefixes)
    requires |stack| + 1 < |item| && item[..|stack| - 1] == prefixes[|stack| - 1]
    ensures var t := |stack| - 1; var nested := item[..t + 1];
      var s := AppendTop(stack, WbtNode(nested[t], nested, t, "", true, 0, [])) + [[]];
      Frames(s, prefixes + [nested]) && StackRecords(s) == StackRecords(stack)
  {
    var t := |stack| - 1;
    var nested := item[..t + 1];
    var owner := WbtNode(nested[t], nested, t, "", true, 0, []);
    PushFrames(stack, prefixes, item, owner);
    var top := AppendTop(stack, owner);
    StackRecordsSnoc(top, []);
    StackRecordsAppendTop(stack, owner);
    assert |Held(owner)| == 0 && |Records([])| == 0;
    AppendEmpty(StackRecords(stack), Held(owner));
    AppendEmpty(StackRecords(top), Records([]));
  }

  lemma PushFrames(stack: seq<seq<WbtNode>>, prefixes: seq<seq<int>>, item: seq<int>, owner: WbtNode)
    requires Frames(stack, prefixes)
    requires |stack| + 1 < |item| && item[..|stack| - 1] == prefixes[|stack| - 1]
    requires var t := |stack| - 1; owner == WbtNode(item[t], item[..t + 1], t, "", true, 0, [])
    ensures Frames(AppendTop(stack, owner) + [[]], prefixes + [owner.composite])
  {
    var t := |stack| - 1;
    TakeTake(item, t + 1, t);
    assert Owner(owner, prefixes[t], t, owner.composite);
    var s := AppendTop(stack, owner) + [[]];
    TakeAppend(stack[t], [owner]);
    assert s[t] == stack[t] + [owner];
  }

  lemma AppendLeafKeeps(stack: seq<seq<WbtNode>>, prefixes: seq<seq<int>>, item: seq<int>)
    requires Frames(stack, prefixes)
    requires |stack| <= |item| <= |stack| + 1 && item[..|stack| - 1] == prefixes[|stack| - 1]
    ensures var t := |stack| - 1;
      var s := AppendTop(stack, WbtNode(item[t], item[..|item| - 1], t, "", false, item[|item| - 1], []));
      Frames(s, prefixes) && Settled(s) && StackRecords(s) == StackRecords(stack) + [item]
  {
    var t := |stack| - 1;
    var leaf := WbtNode(item[t], item[..|item| - 1], t, "", false, item[|item| - 1], []);
    DropLast(item);
    assert leaf.composite + [leaf.val] == item;
    AppendLeafFrames(stack, prefixes, item, leaf);
    StackRecordsAppendTop(stack, leaf);
  }

  lemma AppendLeafFrames(stack: seq<seq<WbtNode>>, prefixes: seq<seq<int>>, item: seq<int>, leaf: WbtNode)
    requires Frames(stack, prefixes)
    requires |stack| <= |item| <= |stack| + 1 && item[..|stack| - 1] == prefixes[|stack| - 1]
    requires var t := |stack| - 1;
      leaf == WbtNode(item[t], item[..|item| - 1], t, "", false, item[|item| - 1], [])
    requires leaf.composite + [leaf.val] == item
    ensures Frames(AppendTop(stack, leaf), prefixes) && Settled(AppendTop(stack, leaf))
  {
    var t := |stack| - 1;
    assert Grouped(leaf, prefixes[t], t);
    var s := AppendTop(stack, leaf);
    TakeAppend(stack[t], [leaf]);
    assert s[t] == stack[t] + [leaf];
  }

  lemma {:induction false} CloseKeeps(stack: seq<seq<WbtNode>>, prefixes: seq<seq<int>>)
    requires Frames(stack, prefixes) && Settled(stack)
    ensures AllGrouped(Close(stack), [], 0) && Records(Close(stack)) == StackRecords(stack)
    decreases |stack|
  {
    if |stack| == 1 {
      assert |prefixes[0]| == 0;
      assert |stack[..0]| == 0;
      EmptyAppend(StackRecords(stack[..0]), Records(stack[0]));
    } else {
      PopKeeps(stack, prefixes);
      CloseKeeps(PopFrame(stack), prefixes[..|prefixes| - 1]);
    }
  }

  // ---------------------------------------------------------------- listing

  /** Every node, each followed by the listing of its nested list if it owns one. */
  function Flatten(nodes: seq<WbtNode>): seq<WbtNode>
    decreases nodes
  {
    if |nodes| == 0 then []
    else [nodes[0]] + Own(nodes[0]) + Flatten(nodes[1..])
  }

  /** What one node contributes to a listing after itself. */
  function Own(n: WbtNode): seq<WbtNode>
    decreases n, 1
  {
    if n.tree then Flatten(n.subtree) else []
  }

  lemma FlattenCons(n: WbtNode, rest: seq<WbtNode>)
    ensures Flatten([n] + rest) == [n] + Own(n) + Flatten(rest)
  {
    HeadTail([n], rest);
    assert |[n][1..]| == 0;
    EmptyAppend([n][1..], rest);
  }

  lemma {:induction false} FlattenConcat(a: seq<WbtNode>, b: seq<WbtNode>)
    ensures Flatten(a + b) == Flatten(a) + Flatten(b)
    decreases a
  {
    if |a| == 0 {
      EmptyAppend(a, b);
      EmptyAppend(Flatten(a), Flatten(b));
    } else {
      HeadTail(a, b);
      FlattenConcat(a[1..], b);
      Assoc3([a[0]] + Own(a[0]), Flatten(a[1..]), Flatten(b));
    }
  }

  /** The listing of a prefix one node longer. */
  lemma FlattenStep(nodes: seq<WbtNode>, i: nat)
    requires i < |nodes|
    ensures Flatten(nodes[..i + 1]) == Flatten(nodes[..i]) + [nodes[i]] + Own(nodes[i])
  {
    var x := nodes[i];
    TakeSucc(nodes, i);
    FlattenConcat(nodes[..i], [x]);
    FlattenCons(x, []);
    assert |Flatten([])| == 0;
    AppendEmpty([x] + Own(x), Flatten([]));
    assert [x] + [] == [x];
    Assoc3(Flatten(nodes[..i]), [x], Own(x));
  }

  /** `flatten_tree(nodes, flat)`: appends the listing of `nodes` to `flat`. */
  method FlattenTree(nodes: seq<WbtNode>, flat: seq<WbtNode>) returns (out: seq<WbtNode>)
    ensures out == flat + Flatten(nodes)
    decreases nodes
  {
    out := flat;
    for i := 0 to |nodes|
      invariant out == flat + Flatten(nodes[..i])
    {
      var node := nodes[i];
      out := out + [node];
      if node.tree {
        out := FlattenTree(node.subtree, out);
      } else {
        AppendEmpty(out, Own(node));
      }
      FlattenStep(nodes, i);
      Assoc4(flat, Flatten(nodes[..i]), [node], Own(node));
    }
    TakeAll(nodes);
  }

  /** A node is listed right before the listing of its own nested list. */
  lemma FlattenAt(nodes: seq<WbtNode>, i: nat)
    requires i < |nodes|
    ensures Flatten(nodes) == Flatten(nodes[..i]) + [nodes[i]] + Own(nodes[i]) + Flatten(nodes[i + 1..])
  {
    var front, x, back := nodes[..i], nodes[i], nodes[i + 1..];
    Split(nodes, i);
    FlattenConcat(front, [x] + back);
    FlattenCons(x, back);
    Assoc4(Flatten(front), [x], Own(x), Flatten(back));
  }

  /** The listing of a list split around one of its nodes. */
  lemma FlattenSplit(a: seq<WbtNode>, x: WbtNode, b: seq<WbtNode>)
    ensures Flatten(a + [x] + b) == Flatten(a) + [x] + Own(x) + Flatten(b)
  {
    FlattenConcat(a, [x] + b);
    FlattenCons(x, b);
    Assoc3(a, [x], b);
    Assoc4(Flatten(a), [x], Own(x), Flatten(b));
  }

  /** Number of owners of nested lists, at every depth. */
  function Owners(nodes: seq<WbtNode>): nat
    decreases nodes
  {
    if |nodes| == 0 then 0
    else (if nodes[0].tree then 1 + Owners(nodes[0].subtree) else 0) + Owners(nodes[1..])
  }

  /** The listing holds one node per record and one per nested list. */
  lemma {:induction false} FlattenSize(nodes: seq<WbtNode>)
    ensures |Flatten(nodes)| == |Records(nodes)| + Owners(nodes)
    decreases nodes
  {
    if |nodes| != 0 {
      FlattenSize(nodes[1..]);
      if nodes[0].tree {
        FlattenSize(nodes[0].subtree);
      }
    }
  }

  // ---------------------------------------------------------------- labelling

  /**
   * `balance_tree`: the node at the pivot of the list takes `path`, or
   * path + "M" when it owns a nested list, whose nodes are labelled under
   * path + "N"; the nodes before the pivot are labelled under path + "L" and
   * those after it under path + "R".
   */
  function Balance(path: string, nodes: seq<WbtNode>): (r: seq<WbtNode>)
    ensures |r| == |nodes|
    decreases nodes
  {
    if |nodes| == 0 then []
    else
      var p := PivotOf(|nodes|);
      Balance(path + "L", nodes[..p]) + [Label(path, nodes[p])] + Balance(path + "R", nodes[p + 1..])
  }

  /** The label `balance_tree` gives a pivot node, and its nested list's labels. */
  function Label(path: string, pivot: WbtNode): WbtNode
    decreases pivot, 1
  {
    if pivot.tree then pivot.(path := path + "M", subtree := Balance(path + "N", pivot.subtree))
    else pivot.(path := path)
  }

  /** The listing of a labelled list: left side, pivot, the pivot's nested list, right side. */
  lemma FlattenOfBalance(path: string, nodes: seq<WbtNode>)
    requires |nodes| > 0
    ensures var p := PivotOf(|nodes|);
      var X := Label(path, nodes[p]);
      Flatten(Balance(path, nodes)) ==
        Flatten(Balance(path + "L", nodes[..p])) + [X] + Own(X) + Flatten(Balance(path + "R", nodes[p + 1..])) &&
      Own(X) == if nodes[p].tree then Flatten(Balance(path + "N", nodes[p].subtree)) else []
  {
    var p := PivotOf(|nodes|);
    var BL, BR := Balance(path + "L", nodes[..p]), Balance(path + "R", nodes[p + 1..]);
    assert Balance(path, nodes) == BL + [Label(path, nodes[p])] + BR;
    FlattenSplit(BL, Label(path, nodes[p]), BR);
  }

  /** A list with every path, at every depth, blanked out. */
  function Unlabel(nodes: seq<WbtNode>): (r: seq<WbtNode>)
    ensures |r| == |nodes|
    decreases nodes
  {
    if |nodes| == 0 then []
    else [Blank(nodes[0])] + Unlabel(nodes[1..])
  }

  function Blank(n: WbtNode): WbtNode
    decreases n, 1
  {
    n.(path := "", subtree := Unlabel(n.subtree))
  }

  lemma {:induction false} UnlabelConcat(a: seq<WbtNode>, b: seq<WbtNode>)
    ensures Unlabel(a + b) == Unlabel(a) + Unlabel(b)
    decreases a
  {
    if |a| == 0 {
      EmptyAppend(a, b);
      EmptyAppend(Unlabel(a), Unlabel(b));
    } else {
      HeadTail(a, b);
      UnlabelConcat(a[1..], b);
      Assoc3([Blank(a[0])], Unlabel(a[1..]), Unlabel(b));
    }
  }

  lemma UnlabelSplit(a: seq<WbtNode>, x: WbtNode, b: seq<WbtNode>)
    ensures Unlabel(a + [x] + b) == Unlabel(a) + [Blank(x)] + Unlabel(b)
  {
    UnlabelConcat(a + [x], b);
    UnlabelConcat(a, [x]);
    assert |[x][1..]| == 0;
    AppendEmpty([Blank(x)], Unlabel([x][1..]));
  }

  /** Labelling changes paths and nothing else: no node is lost, moved or altered otherwise. */
  lemma {:induction false} BalanceOnlyLabels(path: string, nodes: seq<WbtNode>)
    ensures Unlabel(Balance(path, nodes)) == Unlabel(nodes)
    decreases nodes
  {
    if |nodes| != 0 {
      var p := PivotOf(|nodes|);
      var pivot := nodes[p];
      BalanceOnlyLabels(path + "L", nodes[..p]);
      BalanceOnlyLabels(path + "R", nodes[p + 1..]);
      if pivot.tree {
        BalanceOnlyLabels(path + "N", pivot.subtree);
      }
      assert Blank(Label(path, pivot)) == Blank(pivot);
      UnlabelSplit(Balance(path + "L", nodes[..p]), Label(path, pivot), Balance(path + "R", nodes[p + 1..]));
      Split(nodes, p);
      UnlabelSplit(nodes[..p], pivot, nodes[p + 1..]);
    }
  }
}
