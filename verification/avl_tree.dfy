/**
 * The node record of avl.py and the grouping loop of its `build_initial_tree`
 * (avl.py:90-108).
 *
 * The loop is the one of wbt.py line for line; only the nodes it creates
 * differ: an `AvlNode` keeps the whole key prefix (`nested_key` for an owner,
 * `item[:num_keys]` for a leaf) where a `WbtNode` keeps it in `composite`, and
 * has `depth` in place of `key` and `nesting`. The model runs the loop on
 * `AvlNode`s and carries the `WbtNode` stack it corresponds to as ghost state,
 * so that the invariants proved for wbt.py's grouping carry over.
 */
module AvlTree {
  import opened Seqs
  import W = WbtTree
  import G = WbtGrouping

  /** `AvlNode` (avl.py:57-64); a leaf's subtree, None in the source, is the empty list. */
  datatype AvlNode = AvlNode(key: seq<int>, depth: nat, path: string, tree: bool, val: int, subtree: seq<AvlNode>)

  /**
   * What holds of every node grouping builds at nesting `level` in the list
   * of `prefix`: an owner's key is its nested list's prefix, one key longer than
   * `prefix`; a leaf's key and value together make its record.
   */
  ghost predicate NodeFields(n: AvlNode, prefix: seq<int>, level: nat)
  {
    n.depth == 0 && n.path == "" &&
    if n.tree then
      |n.key| == level + 1 && n.key[..level] == prefix && n.val == 0
    else
      level <= |n.key| <= level + 1 && (n.key + [n.val])[..level] == prefix && n.subtree == []
  }

  ghost predicate Grouped(n: AvlNode, prefix: seq<int>, level: nat)
    decreases n
  {
    NodeFields(n, prefix, level) &&
    (n.tree ==>
       n.subtree != [] &&
       forall i :: 0 <= i < |n.subtree| ==> Grouped(n.subtree[i], n.key, level + 1))
  }

  ghost predicate AllGrouped(nodes: seq<AvlNode>, prefix: seq<int>, level: nat)
  {
    forall i :: 0 <= i < |nodes| ==> Grouped(nodes[i], prefix, level)
  }

  /** The records a list of nodes holds, in order: each leaf stands for key + [val]. */
  function Records(nodes: seq<AvlNode>): seq<seq<int>>
    decreases nodes
  {
    if |nodes| == 0 then []
    else Held(nodes[0]) + Records(nodes[1..])
  }

  function Held(n: AvlNode): seq<seq<int>>
    decreases n, 1
  {
    if n.tree then Records(n.subtree) else [n.key + [n.val]]
  }

  /** Hands a closed list to the owner that ends the frame below it. */
  function Attach(frame: seq<AvlNode>, sub: seq<AvlNode>): seq<AvlNode>
    requires frame != []
  {
    frame[..|frame| - 1] + [frame[|frame| - 1].(subtree := sub)]
  }

  /** `tree_stack.pop(-1)`: the top frame is closed. */
  function PopFrame(stack: seq<seq<AvlNode>>): (s: seq<seq<AvlNode>>)
    requires |stack| >= 2 && stack[|stack| - 2] != []
    ensures |s| == |stack| - 1
  {
    stack[..|stack| - 2] + [Attach(stack[|stack| - 2], stack[|stack| - 1])]
  }

  /** The tree `tree_stack[0]` stands for: every open frame closed. */
  function Close(stack: seq<seq<AvlNode>>): seq<AvlNode>
    requires |stack| >= 1 && forall k :: 0 <= k < |stack| - 1 ==> stack[k] != []
    decreases |stack|
  {
    if |stack| == 1 then stack[0] else Close(PopFrame(stack))
  }

  /** One round of the opening loop: an owner keyed by `item[..|stack|]`, and its empty nested list pushed. */
  function Push(stack: seq<seq<AvlNode>>, item: seq<int>): (s: seq<seq<AvlNode>>)
    requires 1 <= |stack| <= |item|
    ensures |s| == |stack| + 1
  {
    W.AppendTop(stack, AvlNode(item[..|stack|], 0, "", true, 0, [])) + [[]]
  }

  /** Rounds of the opening loop until there are `n` frames. */
  function PushTo(stack: seq<seq<AvlNode>>, item: seq<int>, n: nat): (s: seq<seq<AvlNode>>)
    requires 1 <= |stack| && n <= |item| + 1
    ensures |s| == if n <= |stack| then |stack| else n
    decreases n
  {
    if n <= |stack| then stack else Push(PushTo(stack, item, n - 1), item)
  }

  /** Rounds of the closing loop until `n` frames are left. */
  function PopTo(stack: seq<seq<AvlNode>>, n: nat): (s: seq<seq<AvlNode>>)
    requires 1 <= n <= |stack| && forall k :: 0 <= k < |stack| - 1 ==> stack[k] != []
    ensures |s| == n && forall k :: 0 <= k < n - 1 ==> s[k] != []
    decreases |stack|
  {
    if |stack| == n then stack else PopTo(PopFrame(stack), n)
  }

  lemma {:induction false} PopToStep(stack: seq<seq<AvlNode>>, m: nat)
    requires 2 <= m <= |stack| && forall k :: 0 <= k < |stack| - 1 ==> stack[k] != []
    ensures PopTo(stack, m - 1) == PopFrame(PopTo(stack, m))
    decreases |stack|
  {
    if |stack| > m {
      PopToStep(PopFrame(stack), m);
    }
  }

  /** The leaf of a record: its keys as `key`, its last element as value. */
  function Leaf(item: seq<int>): AvlNode
    requires |item| >= 1
  {
    AvlNode(item[..|item| - 1], 0, "", false, item[|item| - 1], [])
  }

  /** The keys of all owners, each before those of its nested list. */
  function OwnerKeys(nodes: seq<AvlNode>): seq<seq<int>>
    decreases nodes
  {
    if |nodes| == 0 then []
    else Owned(nodes[0]) + OwnerKeys(nodes[1..])
  }

  function Owned(n: AvlNode): seq<seq<int>>
    decreases n, 1
  {
    if n.tree then [n.key] + OwnerKeys(n.subtree) else []
  }

  // ------------------------------------------------- correspondence with wbt.py

  /** The `AvlNode` grouping creates where wbt.py's grouping creates `n`. */
  function FromWbt(n: W.WbtNode): (a: AvlNode)
    ensures a.key == n.composite && a.tree == n.tree && a.val == n.val && |a.subtree| == |n.subtree|
    decreases n
  {
    AvlNode(n.composite, 0, "", n.tree, n.val,
            seq(|n.subtree|, i requires 0 <= i < |n.subtree| => FromWbt(n.subtree[i])))
  }

  function FromWbtList(nodes: seq<W.WbtNode>): (r: seq<AvlNode>)
    ensures |r| == |nodes| && forall i :: 0 <= i < |nodes| ==> r[i] == FromWbt(nodes[i])
  {
    seq(|nodes|, i requires 0 <= i < |nodes| => FromWbt(nodes[i]))
  }

  function FromWbtStack(stack: seq<seq<W.WbtNode>>): (r: seq<seq<AvlNode>>)
    ensures |r| == |stack| && forall k :: 0 <= k < |stack| ==> r[k] == FromWbtList(stack[k])
  {
    seq(|stack|, k requires 0 <= k < |stack| => FromWbtList(stack[k]))
  }

  lemma {:induction false} FromWbtSubtree(n: W.WbtNode)
    ensures FromWbt(n).subtree == FromWbtList(n.subtree)
  {
  }

  /** Converted nodes have the fields of avl.py's grouping. */
  lemma {:induction false} GroupedFromWbt(n: W.WbtNode, prefix: seq<int>, level: nat)
    requires W.Grouped(n, prefix, level)
    ensures Grouped(FromWbt(n), prefix, level)
    decreases n
  {
    var a := FromWbt(n);
    if n.tree {
      forall i | 0 <= i < |a.subtree|
        ensures Grouped(a.subtree[i], a.key, level + 1)
      {
        GroupedFromWbt(n.subtree[i], n.composite, level + 1);
      }
    } else {
      assert |a.subtree| == 0;
    }
  }

  lemma {:induction false} AllGroupedFromWbt(nodes: seq<W.WbtNode>, prefix: seq<int>, level: nat)
    requires W.AllGrouped(nodes, prefix, level)
    ensures AllGrouped(FromWbtList(nodes), prefix, level)
  {
    forall i | 0 <= i < |nodes|
      ensures Grouped(FromWbtList(nodes)[i], prefix, level)
    {
      GroupedFromWbt(nodes[i], prefix, level);
    }
  }

  /** Converted nodes hold the same records. */
  lemma {:induction false} RecordsFromWbt(nodes: seq<W.WbtNode>)
    ensures Records(FromWbtList(nodes)) == W.Records(nodes)
    decreases nodes
  {
    if |nodes| != 0 {
      var a := FromWbtList(nodes);
      assert a[1..] == FromWbtList(nodes[1..]);
      RecordsFromWbt(nodes[1..]);
      if nodes[0].tree {
        FromWbtSubtree(nodes[0]);
        RecordsFromWbt(nodes[0].subtree);
      }
    }
  }

  /** Converted nodes have the same owner keys. */
  lemma {:induction false} OwnerKeysFromWbt(nodes: seq<W.WbtNode>)
    ensures OwnerKeys(FromWbtList(nodes)) == G.OwnerKeys(nodes)
    decreases nodes
  {
    if |nodes| != 0 {
      var a := FromWbtList(nodes);
      assert a[1..] == FromWbtList(nodes[1..]);
      OwnerKeysFromWbt(nodes[1..]);
      if nodes[0].tree {
        FromWbtSubtree(nodes[0]);
        OwnerKeysFromWbt(nodes[0].subtree);
      }
    }
  }

  lemma {:induction false} AppendTopFromWbt(stack: seq<seq<W.WbtNode>>, n: W.WbtNode)
    requires |stack| >= 1
    ensures FromWbtStack(W.AppendTop(stack, n)) == W.AppendTop(FromWbtStack(stack), FromWbt(n))
  {
    var t := |stack| - 1;
    assert FromWbtList(stack[t] + [n]) == FromWbtList(stack[t]) + [FromWbt(n)];
  }

  lemma {:induction false} PushFromWbt(stack: seq<seq<W.WbtNode>>)
    ensures FromWbtStack(stack + [[]]) == FromWbtStack(stack) + [[]]
  {
    assert FromWbtList([]) == [];
  }

  lemma {:induction false} PopFromWbt(stack: seq<seq<W.WbtNode>>)
    requires |stack| >= 2 && stack[|stack| - 2] != []
    ensures FromWbtStack(W.PopFrame(stack)) == PopFrame(FromWbtStack(stack))
  {
    var t := |stack| - 1;
    var frame, sub := stack[t - 1], stack[t];
    var owner := frame[|frame| - 1];
    assert FromWbt(owner.(subtree := sub)) == FromWbt(owner).(subtree := FromWbtList(sub));
    assert FromWbtList(W.Attach(frame, sub)) == Attach(FromWbtList(frame), FromWbtList(sub));
  }

  lemma {:induction false} PopToFromWbt(stack: seq<seq<W.WbtNode>>, n: nat)
    requires 1 <= n <= |stack| && forall k :: 0 <= k < |stack| - 1 ==> stack[k] != []
    ensures FromWbtStack(G.PopTo(stack, n)) == PopTo(FromWbtStack(stack), n)
    decreases |stack|
  {
    if |stack| > n {
      PopFromWbt(stack);
      PopToFromWbt(W.PopFrame(stack), n);
    }
  }

  lemma {:induction false} PushOneFromWbt(stack: seq<seq<W.WbtNode>>, item: seq<int>)
    requires 1 <= |stack| <= |item|
    ensures FromWbtStack(G.Push(stack, item)) == Push(FromWbtStack(stack), item)
  {
    var t := |stack| - 1;
    var owner := W.WbtNode(item[t], item[..t + 1], t, "", true, 0, []);
    AppendTopFromWbt(stack, owner);
    PushFromWbt(W.AppendTop(stack, owner));
    assert FromWbt(owner) == AvlNode(item[..|stack|], 0, "", true, 0, []);
  }

  lemma {:induction false} PushToFromWbt(stack: seq<seq<W.WbtNode>>, item: seq<int>, n: nat)
    requires 1 <= |stack| && n <= |item|
    ensures FromWbtStack(G.PushTo(stack, item, n)) == PushTo(FromWbtStack(stack), item, n)
    decreases n
  {
    if n > |stack| {
      PushToFromWbt(stack, item, n - 1);
      PushOneFromWbt(G.PushTo(stack, item, n - 1), item);
    }
  }

  lemma {:induction false} LeafFromWbt(stack: seq<seq<W.WbtNode>>, item: seq<int>, level: nat)
    requires |stack| >= 1 && level < |item|
    ensures FromWbtStack(W.AppendTop(stack, G.Leaf(item, level))) == W.AppendTop(FromWbtStack(stack), Leaf(item))
  {
    AppendTopFromWbt(stack, G.Leaf(item, level));
  }

  /**
   * One step of wbt.py's grouping loop, converted, is the same step of
   * avl.py's: close the lists down to `m`, open lists up to `n` frames and
   * append the record's leaf.
   */
  lemma {:induction false} ShadowStep(shadow: seq<seq<W.WbtNode>>, item: seq<int>, m: nat, n: nat)
    returns (next: seq<seq<W.WbtNode>>)
    requires 1 <= m <= |shadow| && forall k :: 0 <= k < |shadow| - 1 ==> shadow[k] != []
    requires m <= n <= |item| && 1 <= n
    ensures next == W.AppendTop(G.PushTo(G.PopTo(shadow, m), item, n), G.Leaf(item, n - 1))
    ensures FromWbtStack(next) == W.AppendTop(PushTo(PopTo(FromWbtStack(shadow), m), item, n), Leaf(item))
  {
    var pushed := ShadowPopPush(shadow, item, m, n);
    LeafFromWbt(pushed, item, n - 1);
    next := W.AppendTop(pushed, G.Leaf(item, n - 1));
  }

  lemma {:induction false} ShadowPopPush(shadow: seq<seq<W.WbtNode>>, item: seq<int>, m: nat, n: nat)
    returns (pushed: seq<seq<W.WbtNode>>)
    requires 1 <= m <= |shadow| && forall k :: 0 <= k < |shadow| - 1 ==> shadow[k] != []
    requires n <= |item|
    ensures pushed == G.PushTo(G.PopTo(shadow, m), item, n) && |pushed| >= 1
    ensures FromWbtStack(pushed) == PushTo(PopTo(FromWbtStack(shadow), m), item, n)
  {
    var popped := G.PopTo(shadow, m);
    PopToFromWbt(shadow, m);
    PushToFromWbt(popped, item, n);
    pushed := G.PushTo(popped, item, n);
  }

  lemma {:induction false} CloseFromWbt(stack: seq<seq<W.WbtNode>>)
    requires |stack| >= 1 && forall k :: 0 <= k < |stack| - 1 ==> stack[k] != []
    ensures FromWbtList(W.Close(stack)) == Close(FromWbtStack(stack))
    decreases |stack|
  {
    if |stack| > 1 {
      PopFromWbt(stack);
      CloseFromWbt(W.PopFrame(stack));
    }
  }

  /** Before any record, wbt.py's stacks, converted, are avl.py's initial ones. */
  lemma {:induction false} ShadowStart(items: seq<seq<int>>)
    requires forall j :: 0 <= j < |items| ==> |items[j]| >= 1
    ensures FromWbtStack(G.Run(items, 0).0) == [[]] && G.Run(items, 0).1 == [[]]
  {
    assert FromWbtStack(G.Run(items, 0).0)[0] == [];
  }

  /** avl.py's loop body for one record is the converted step of wbt.py's. */
  lemma {:induction false} ShadowMatches(shadow: seq<seq<W.WbtNode>>, prefixes: seq<seq<int>>, item: seq<int>, m: nat,
                                         after: seq<seq<AvlNode>>, grown: seq<seq<int>>)
    requires W.Shaped(shadow, prefixes) && |item| >= 1 && prefixes[0] == []
    requires m == G.Matched(item, prefixes) && |grown| == G.Opened(m, item)
    requires grown == prefixes[..m] + G.PrefixRun(item, m, |grown|)
    requires after == W.AppendTop(PushTo(PopTo(FromWbtStack(shadow), m), item, |grown|), Leaf(item))
    ensures FromWbtStack(G.Step(shadow, prefixes, item).0) == after && G.Step(shadow, prefixes, item).1 == grown
  {
    var next := ShadowStep(shadow, item, m, |grown|);
    G.StepMatches(shadow, prefixes, item, m, next, grown);
  }

  /** avl.py's step for a record, on wbt.py's stacks converted, is wbt.py's step converted. */
  lemma {:induction false} StepConverted(shadow: seq<seq<W.WbtNode>>, prefixes: seq<seq<int>>, item: seq<int>)
    requires W.Shaped(shadow, prefixes) && Stacked(FromWbtStack(shadow), prefixes) && |item| >= 1
    ensures Step(FromWbtStack(shadow), prefixes, item)
         == (FromWbtStack(G.Step(shadow, prefixes, item).0), G.Step(shadow, prefixes, item).1)
  {
    var m := G.Matched(item, prefixes);
    var grown := prefixes[..m] + G.PrefixRun(item, m, G.Opened(m, item));
    ShadowMatches(shadow, prefixes, item, m, Step(FromWbtStack(shadow), prefixes, item).0, grown);
  }

  /** avl.py's stacks after every prefix of the records are wbt.py's, converted node by node. */
  lemma {:induction false} RunConverted(items: seq<seq<int>>)
    requires forall j :: 0 <= j < |items| ==> |items[j]| >= 1
    ensures Run(items, |items|) == (FromWbtStack(G.Run(items, |items|).0), G.Run(items, |items|).1)
  {
    var cur, shadow := Run(items, 0), G.Run(items, 0);
    ShadowStart(items);
    var i := 0;
    while i < |items|
      invariant i <= |items| && cur == Run(items, i) && shadow == G.Run(items, i)
      invariant cur == (FromWbtStack(shadow.0), shadow.1)
    {
      StepConverted(shadow.0, shadow.1, items[i]);
      RunSucc(items, i);
      G.RunSucc(items, i);
      cur, shadow := Step(cur.0, cur.1, items[i]), G.Step(shadow.0, shadow.1, items[i]);
      i := i + 1;
    }
  }

  /** After the last record, closing every frame gives the tree of wbt.py's grouping, converted, with its records and owners. */
  lemma {:induction false} RunClosed(items: seq<seq<int>>)
    requires forall j :: 0 <= j < |items| ==> |items[j]| >= 1
    ensures var tree := Close(Run(items, |items|).0);
      tree == FromWbtList(G.BuildTree(items)) &&
      AllGrouped(tree, [], 0) && Records(tree) == items &&
      (G.SortedItems(items) ==> G.Distinct(OwnerKeys(tree)))
  {
    var shadow, prefixes := G.Run(items, |items|).0, G.Run(items, |items|).1;
    RunConverted(items);
    G.RunGrouping(items, |items|);
    G.GroupingClosed(shadow, prefixes, items);
    CloseFromWbt(shadow);
    RecordsFromWbt(W.Close(shadow));
    OwnerKeysFromWbt(W.Close(shadow));
    AllGroupedFromWbt(W.Close(shadow), [], 0);
  }

  // ---------------------------------------------------------------- grouping

  /**
   * The shape the grouping loop keeps: one prefix per frame, the prefix of
   * frame k of length k (the base prefix empty), and every frame below the top
   * non-empty.
   */
  ghost predicate Stacked(stack: seq<seq<AvlNode>>, prefixes: seq<seq<int>>)
  {
    |stack| == |prefixes| >= 1 && prefixes[0] == [] &&
    (forall k :: 0 <= k < |prefixes| ==> |prefixes[k]| == k) &&
    (forall k :: 0 <= k < |stack| - 1 ==> stack[k] != [])
  }

  /**
   * avl.py's loop body for one record, on both stacks: the lists it does not
   * match are closed, nested lists are opened for its further keys and its
   * leaf joins the top list.
   */
  function Step(stack: seq<seq<AvlNode>>, prefixes: seq<seq<int>>, item: seq<int>)
    : (seq<seq<AvlNode>>, seq<seq<int>>)
    requires Stacked(stack, prefixes) && |item| >= 1
  {
    var m := G.Matched(item, prefixes);
    var n := G.Opened(m, item);
    (W.AppendTop(PushTo(PopTo(stack, m), item, n), Leaf(item)), prefixes[..m] + G.PrefixRun(item, m, n))
  }

  /** A step keeps the stacks in shape. */
  lemma {:induction false} StepStacked(stack: seq<seq<AvlNode>>, prefixes: seq<seq<int>>, item: seq<int>)
    requires Stacked(stack, prefixes) && |item| >= 1
    ensures Stacked(Step(stack, prefixes, item).0, Step(stack, prefixes, item).1)
  {
    var m := G.Matched(item, prefixes);
    var n := G.Opened(m, item);
    assert |prefixes[m - 1]| == m - 1;
    var popped := PopTo(stack, m);
    PushToStacked(popped, item, n);
    var pushed := PushTo(popped, item, n);
    var after := W.AppendTop(pushed, Leaf(item));
    assert forall k :: 0 <= k < |after| - 1 ==> after[k] == pushed[k];
    G.PrefixRunShaped(prefixes, item, m, n);
  }

  /** Opening lists leaves every frame below the top non-empty. */
  lemma {:induction false} PushToStacked(stack: seq<seq<AvlNode>>, item: seq<int>, n: nat)
    requires 1 <= |stack| && n <= |item| + 1 && forall k :: 0 <= k < |stack| - 1 ==> stack[k] != []
    ensures forall k :: 0 <= k < |PushTo(stack, item, n)| - 1 ==> PushTo(stack, item, n)[k] != []
    decreases n
  {
    if n > |stack| {
      PushToStacked(stack, item, n - 1);
      var before := PushTo(stack, item, n - 1);
      var owner := AvlNode(item[..|before|], 0, "", true, 0, []);
      var s := W.AppendTop(before, owner);
      assert forall k :: 0 <= k < |s| - 1 ==> s[k] == before[k];
      assert s[|s| - 1] == before[|before| - 1] + [owner];
      assert Push(before, item) == s + [[]];
    }
  }

  /**
   * The stacks of avl.py's grouping loop after the first i records: the
   * loop body's step for each record in turn.
   */
  ghost function Run(items: seq<seq<int>>, i: nat): (r: (seq<seq<AvlNode>>, seq<seq<int>>))
    requires i <= |items| && forall j :: 0 <= j < |items| ==> |items[j]| >= 1
    ensures Stacked(r.0, r.1)
  {
    if i == 0 then ([[]], [[]])
    else
      StepStacked(Run(items, i - 1).0, Run(items, i - 1).1, items[i - 1]);
      Step(Run(items, i - 1).0, Run(items, i - 1).1, items[i - 1])
  }

  lemma {:induction false} RunSucc(items: seq<seq<int>>, k: nat)
    requires k < |items| && forall j :: 0 <= j < |items| ==> |items[j]| >= 1
    ensures Run(items, k + 1) == Step(Run(items, k).0, Run(items, k).1, items[k])
  {
  }

  /**
   * The grouping loop of `build_initial_tree` in avl.py, over records already
   * read: the tree of its steps in turn, which is the tree of wbt.py's loop on
   * the same records converted node by node; hence every record is held
   * exactly once and in the order given, and every node satisfies `Grouped`,
   * whatever the order of the records. For records in
   * the order of `compare`, as the source sorts them, no two owners carry the
   * same key: each key prefix has one nested list.
   */
  method BuildInitialTree(items: seq<seq<int>>) returns (mainTree: seq<AvlNode>)
    requires forall i :: 0 <= i < |items| ==> |items[i]| >= 1
    ensures mainTree == Close(Run(items, |items|).0)
    ensures mainTree == FromWbtList(G.BuildTree(items))
    ensures AllGrouped(mainTree, [], 0)
    ensures Records(mainTree) == items
    ensures G.SortedItems(items) ==> G.Distinct(OwnerKeys(mainTree))
  {
    var treeStack: seq<seq<AvlNode>> := [[]];
    var prefixStack: seq<seq<int>> := [[]];
    for i := 0 to |items|
      invariant (treeStack, prefixStack) == Run(items, i)
    {
      ghost var stack, prefixes := treeStack, prefixStack;
      treeStack, prefixStack := AddRecord(treeStack, prefixStack, items[i]);
      RunNext(items, i, i + 1, stack, prefixes, treeStack, prefixStack);
    }
    RunClosed(items);
    mainTree := Close(treeStack);
  }

  /** The loop body's stacks for record k are those of the fold after k + 1 records. */
  lemma {:induction false} RunNext(items: seq<seq<int>>, k: nat, i: nat, stack: seq<seq<AvlNode>>, prefixes: seq<seq<int>>,
                                   after: seq<seq<AvlNode>>, grown: seq<seq<int>>)
    requires i == k + 1 <= |items| && forall j :: 0 <= j < |items| ==> |items[j]| >= 1
    requires (stack, prefixes) == Run(items, k) && (after, grown) == Step(stack, prefixes, items[k])
    ensures (after, grown) == Run(items, i)
  {
  }

  /**
   * The body of the loop for one record: the lists outside its scope are
   * closed (the `Matched` open lists that contain it remain), nested lists are
   * opened for its further keys, and its leaf joins the list on top.
   */
  method AddRecord(stack: seq<seq<AvlNode>>, prefixes: seq<seq<int>>, item: seq<int>)
    returns (treeStack: seq<seq<AvlNode>>, prefixStack: seq<seq<int>>)
    requires Stacked(stack, prefixes) && |item| >= 1
    ensures |prefixStack| == G.Opened(G.Matched(item, prefixes), item)
    ensures prefixStack == prefixes[..G.Matched(item, prefixes)] + G.PrefixRun(item, G.Matched(item, prefixes), |prefixStack|)
    ensures treeStack == W.AppendTop(PushTo(PopTo(stack, G.Matched(item, prefixes)), item, |prefixStack|), Leaf(item))
    ensures (treeStack, prefixStack) == Step(stack, prefixes, item)
  {
    treeStack, prefixStack := CloseUnmatched(stack, prefixes, item);
    ghost var m := |prefixStack|;
    G.MatchedUnique(item, prefixes, m);
    assert |prefixStack[m - 1]| == m - 1;
    treeStack, prefixStack := OpenAndAdd(treeStack, prefixStack, item);
  }

  /** The record's nested lists are opened and its leaf is added. */
  method OpenAndAdd(stack: seq<seq<AvlNode>>, prefixes: seq<seq<int>>, item: seq<int>)
    returns (treeStack: seq<seq<AvlNode>>, prefixStack: seq<seq<int>>)
    requires |stack| == |prefixes| >= 1 && |prefixes[|prefixes| - 1]| == |prefixes| - 1
    requires G.Contains(item, prefixes[|prefixes| - 1])
    ensures |prefixStack| == G.Opened(|prefixes|, item)
    ensures prefixStack == prefixes + G.PrefixRun(item, |prefixes|, |prefixStack|)
    ensures treeStack == W.AppendTop(PushTo(stack, item, |prefixStack|), Leaf(item))
  {
    treeStack, prefixStack := OpenNested(stack, prefixes, item);
    treeStack := AddLeaf(treeStack, prefixStack, item);
  }

  /** The first inner loop: pops down to the deepest open list whose prefix contains the record. */
  method CloseUnmatched(stack: seq<seq<AvlNode>>, prefixes: seq<seq<int>>, item: seq<int>)
    returns (treeStack: seq<seq<AvlNode>>, prefixStack: seq<seq<int>>)
    requires |stack| == |prefixes| >= 1 && prefixes[0] == [] && |item| >= 1
    requires forall k :: 0 <= k < |stack| - 1 ==> stack[k] != []
    ensures 1 <= |prefixStack| <= |prefixes| && prefixStack == prefixes[..|prefixStack|]
    ensures G.Contains(item, prefixStack[|prefixStack| - 1])
    ensures G.Unmatched(item, prefixes, |prefixStack|)
    ensures treeStack == PopTo(stack, |prefixStack|)
  {
    treeStack, prefixStack := stack, prefixes;
    var numKeys := |item| - 1;
    while numKeys < |prefixStack[|prefixStack| - 1]|
          || item[..|prefixStack[|prefixStack| - 1]|] != prefixStack[|prefixStack| - 1]
      invariant 1 <= |prefixStack| <= |prefixes| && prefixStack == prefixes[..|prefixStack|]
      invariant G.Unmatched(item, prefixes, |prefixStack|)
      invariant treeStack == PopTo(stack, |prefixStack|)
      decreases |prefixStack|
    {
      ghost var k := |prefixStack|;
      assert prefixStack[k - 1] == prefixes[k - 1];
      G.UnmatchedStep(item, prefixes, k);
      PopToStep(stack, k);
      treeStack, prefixStack := CloseList(treeStack, prefixStack);
      TakeTake(prefixes, k, k - 1);
    }
  }

  /** One round of that loop: `prefix_stack.pop(-1)` and `tree_stack.pop(-1)`. */
  method CloseList(stack: seq<seq<AvlNode>>, prefixes: seq<seq<int>>)
    returns (treeStack: seq<seq<AvlNode>>, prefixStack: seq<seq<int>>)
    requires |stack| == |prefixes| >= 2 && forall k :: 0 <= k < |stack| - 1 ==> stack[k] != []
    ensures treeStack == PopFrame(stack) && prefixStack == prefixes[..|prefixes| - 1]
  {
    prefixStack := prefixes[..|prefixes| - 1];
    treeStack := PopFrame(stack);
  }

  /**
   * The second inner loop: opens a nested list for every key of the record
   * beyond the next one, until the top prefix is all its keys but one.
   */
  method OpenNested(stack: seq<seq<AvlNode>>, prefixes: seq<seq<int>>, item: seq<int>)
    returns (treeStack: seq<seq<AvlNode>>, prefixStack: seq<seq<int>>)
    requires |stack| == |prefixes| >= 1 && |prefixes[|prefixes| - 1]| == |prefixes| - 1
    requires G.Contains(item, prefixes[|prefixes| - 1])
    ensures |prefixStack| == if |prefixes| < |item| - 1 then |item| - 1 else |prefixes|
    ensures prefixStack == prefixes + G.PrefixRun(item, |prefixes|, |prefixStack|)
    ensures G.Contains(item, prefixStack[|prefixStack| - 1]) && |item| <= |prefixStack[|prefixStack| - 1]| + 2
    ensures treeStack == PushTo(stack, item, |prefixStack|)
  {
    treeStack, prefixStack := stack, prefixes;
    var numKeys := |item| - 1;
    while numKeys > |prefixStack[|prefixStack| - 1]| + 1
      invariant |treeStack| == |prefixStack| && |prefixStack[|prefixStack| - 1]| == |prefixStack| - 1
      invariant G.Contains(item, prefixStack[|prefixStack| - 1])
      invariant |prefixes| <= |prefixStack| && (|prefixStack| == |prefixes| || |prefixStack| <= numKeys)
      invariant prefixStack == prefixes + G.PrefixRun(item, |prefixes|, |prefixStack|)
      invariant treeStack == PushTo(stack, item, |prefixStack|)
      decreases numKeys - |prefixStack|
    {
      ghost var n, run := |prefixStack|, G.PrefixRun(item, |prefixes|, |prefixStack|);
      G.PrefixRunSnoc(item, |prefixes|, n);
      treeStack, prefixStack := OpenList(treeStack, prefixStack, item);
      Assoc3(prefixes, run, [item[..n]]);
    }
  }

  /** One round of that loop: an owner keyed by the record's prefix, and its empty nested list pushed. */
  method OpenList(stack: seq<seq<AvlNode>>, prefixes: seq<seq<int>>, item: seq<int>)
    returns (treeStack: seq<seq<AvlNode>>, prefixStack: seq<seq<int>>)
    requires |stack| == |prefixes| >= 1 && |prefixes[|prefixes| - 1]| == |prefixes| - 1
    requires |prefixes[|prefixes| - 1]| + 2 < |item|
    requires item[..|prefixes[|prefixes| - 1]|] == prefixes[|prefixes| - 1]
    ensures treeStack == Push(stack, item) && prefixStack == prefixes + [item[..|prefixes|]]
  {
    var top := prefixes[|prefixes| - 1];
    var nestedKey := item[..|top| + 1];
    treeStack := W.AppendTop(stack, AvlNode(nestedKey, 0, "", true, 0, [])) + [[]];
    prefixStack := prefixes + [nestedKey];
  }

  /** The last step for each record: its leaf joins the list on top of the stack. */
  method AddLeaf(stack: seq<seq<AvlNode>>, prefixStack: seq<seq<int>>, item: seq<int>)
    returns (treeStack: seq<seq<AvlNode>>)
    requires |stack| >= 1 && |prefixStack| >= 1
    requires |prefixStack[|prefixStack| - 1]| < |item| <= |prefixStack[|prefixStack| - 1]| + 2
    requires item[..|prefixStack[|prefixStack| - 1]|] == prefixStack[|prefixStack| - 1]
    ensures treeStack == W.AppendTop(stack, Leaf(item))
  {
    var numKeys := |item| - 1;
    treeStack := W.AppendTop(stack, AvlNode(item[..numKeys], 0, "", false, item[numKeys], []));
  }
}
