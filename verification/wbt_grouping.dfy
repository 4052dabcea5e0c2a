/**
 * The grouping loop of wbt.py's `build_initial_tree` (wbt.py:95-111): how each
 * record moves `tree_stack` and `prefix_stack`, what the finished lists hold,
 * and why, once the records are sorted, no key prefix gets two nested lists.
 */
module WbtGrouping {
  import opened Seqs
  import opened Keys
  import opened WbtTree

  // ------------------------------------------------------- stack transitions

  /**
   * One round of the opening loop: the top frame gets an owner for the record's
   * prefix one key longer than the top prefix, and the owner's (empty) nested
   * list is pushed.
   */
  function Push(stack: seq<seq<WbtNode>>, item: seq<int>): (s: seq<seq<WbtNode>>)
    requires 1 <= |stack| <= |item|
    ensures |s| == |stack| + 1
  {
    var t := |stack| - 1;
    AppendTop(stack, WbtNode(item[t], item[..t + 1], t, "", true, 0, [])) + [[]]
  }

  /** The leaf of a record at nesting `level`: all keys but the last as composite, the last element as value. */
  function Leaf(item: seq<int>, level: nat): WbtNode
    requires level < |item|
  {
    WbtNode(item[level], item[..|item| - 1], level, "", false, item[|item| - 1], [])
  }

  /** Rounds of the opening loop until there are `n` frames. */
  function PushTo(stack: seq<seq<WbtNode>>, item: seq<int>, n: nat): (s: seq<seq<WbtNode>>)
    requires 1 <= |stack| && n <= |item| + 1
    ensures |s| == if n <= |stack| then |stack| else n
    decreases n
  {
    if n <= |stack| then stack else Push(PushTo(stack, item, n - 1), item)
  }

  /** Rounds of the closing loop until `n` frames are left. */
  function PopTo(stack: seq<seq<WbtNode>>, n: nat): (s: seq<seq<WbtNode>>)
    requires 1 <= n <= |stack| && forall k :: 0 <= k < |stack| - 1 ==> stack[k] != []
    ensures |s| == n && forall k :: 0 <= k < n - 1 ==> s[k] != []
    decreases |stack|
  {
    if |stack| == n then stack else PopTo(PopFrame(stack), n)
  }

  lemma {:induction false} PopToStep(stack: seq<seq<WbtNode>>, m: nat)
    requires 2 <= m <= |stack| && forall k :: 0 <= k < |stack| - 1 ==> stack[k] != []
    ensures PopTo(stack, m - 1) == PopFrame(PopTo(stack, m))
    decreases |stack|
  {
    if |stack| > m {
      PopToStep(PopFrame(stack), m);
    }
  }

  /** The prefixes `item[..from]`, ..., `item[..to - 1]` that the opening loop pushes. */
  function PrefixRun(item: seq<int>, from: nat, to: nat): (r: seq<seq<int>>)
    requires from <= to <= |item| + 1
    ensures |r| == to - from && forall j :: 0 <= j < to - from ==> r[j] == item[..from + j]
  {
    seq(to - from, j requires 0 <= j < to - from => item[..from + j])
  }

  lemma {:induction false} PrefixRunSnoc(item: seq<int>, from: nat, to: nat)
    requires from <= to <= |item|
    ensures PrefixRun(item, from, to + 1) == PrefixRun(item, from, to) + [item[..to]]
  {
    assert PrefixRun(item, from, to + 1)[to - from] == item[..to];
  }

  lemma {:induction false} AppendRunSnoc(keys: seq<seq<int>>, item: seq<int>, from: nat, to: nat)
    requires from < to <= |item|
    ensures keys + PrefixRun(item, from, to) == keys + PrefixRun(item, from, to - 1) + [item[..to - 1]]
  {
    PrefixRunSnoc(item, from, to - 1);
    Assoc3(keys, PrefixRun(item, from, to - 1), [item[..to - 1]]);
  }

  /**
   * The record lies in the scope of the key prefix: it starts with it and has at
   * least one more key. The closing loop runs exactly while this fails for the
   * top prefix.
   */
  predicate Contains(item: seq<int>, prefix: seq<int>)
  {
    |prefix| < |item| && item[..|prefix|] == prefix
  }

  /** No prefix from position `from` on contains the record. */
  ghost predicate Unmatched(item: seq<int>, prefixes: seq<seq<int>>, from: nat)
  {
    forall k :: from <= k < |prefixes| ==> !Contains(item, prefixes[k])
  }

  lemma {:induction false} UnmatchedStep(item: seq<int>, prefixes: seq<seq<int>>, m: nat)
    requires 1 <= m <= |prefixes| && Unmatched(item, prefixes, m)
    requires |item| - 1 < |prefixes[m - 1]| || item[..|prefixes[m - 1]|] != prefixes[m - 1]
    ensures Unmatched(item, prefixes, m - 1)
  {
  }

  // ---------------------------------------------------------------- owners

  /** The composites of all owners, each before those of its nested list. */
  function OwnerKeys(nodes: seq<WbtNode>): seq<seq<int>>
    decreases nodes
  {
    if |nodes| == 0 then []
    else Owned(nodes[0]) + OwnerKeys(nodes[1..])
  }

  function Owned(n: WbtNode): seq<seq<int>>
    decreases n, 1
  {
    if n.tree then [n.composite] + OwnerKeys(n.subtree) else []
  }

  /** The owner composites in all frames, bottom first. */
  function StackOwnerKeys(stack: seq<seq<WbtNode>>): seq<seq<int>>
  {
    if |stack| == 0 then [] else StackOwnerKeys(stack[..|stack| - 1]) + OwnerKeys(stack[|stack| - 1])
  }

  lemma {:induction false} OwnerKeysConcat(a: seq<WbtNode>, b: seq<WbtNode>)
    ensures OwnerKeys(a + b) == OwnerKeys(a) + OwnerKeys(b)
    decreases a
  {
    if |a| == 0 {
      EmptyAppend(a, b);
      EmptyAppend(OwnerKeys(a), OwnerKeys(b));
    } else {
      HeadTail(a, b);
      OwnerKeysConcat(a[1..], b);
      Assoc3(Owned(a[0]), OwnerKeys(a[1..]), OwnerKeys(b));
    }
  }

  lemma {:induction false} OwnerKeysOne(n: WbtNode)
    ensures OwnerKeys([n]) == Owned(n)
  {
    assert |[n][1..]| == 0;
    AppendEmpty(Owned(n), OwnerKeys([n][1..]));
  }

  lemma {:induction false} StackOwnerKeysAppendTop(stack: seq<seq<WbtNode>>, n: WbtNode)
    requires |stack| >= 1
    ensures StackOwnerKeys(AppendTop(stack, n)) == StackOwnerKeys(stack) + Owned(n)
  {
    var t := |stack| - 1;
    TakeAppend(stack[..t], [stack[t] + [n]]);
    OwnerKeysConcat(stack[t], [n]);
    OwnerKeysOne(n);
    DropLast(stack);
    TakeAppend(stack[..t], [stack[t]]);
    Assoc3(StackOwnerKeys(stack[..t]), OwnerKeys(stack[t]), Owned(n));
  }

  /** Pushing the owner of a new nested list adds its composite and nothing else. */
  lemma {:induction false} PushOwners(stack: seq<seq<WbtNode>>, item: seq<int>)
    requires 1 <= |stack| <= |item|
    ensures StackOwnerKeys(Push(stack, item)) == StackOwnerKeys(stack) + [item[..|stack|]]
  {
    var t := |stack| - 1;
    var owner := WbtNode(item[t], item[..t + 1], t, "", true, 0, []);
    var top := AppendTop(stack, owner);
    TakeAppend(top, [[]]);
    StackOwnerKeysAppendTop(stack, owner);
    assert |OwnerKeys([])| == 0;
    AppendEmpty([owner.composite], OwnerKeys([]));
    AppendEmpty(StackOwnerKeys(top), OwnerKeys([]));
  }

  /** A leaf adds no owner. */
  lemma {:induction false} LeafOwners(stack: seq<seq<WbtNode>>, leaf: WbtNode)
    requires |stack| >= 1 && !leaf.tree
    ensures StackOwnerKeys(AppendTop(stack, leaf)) == StackOwnerKeys(stack)
  {
    StackOwnerKeysAppendTop(stack, leaf);
    AppendEmpty(StackOwnerKeys(stack), Owned(leaf));
  }

  /** Attaching a closed list to its placeholder owner moves its owners, in place. */
  lemma {:induction false} AttachOwners(frame: seq<WbtNode>, sub: seq<WbtNode>)
    requires frame != [] && frame[|frame| - 1].tree && frame[|frame| - 1].subtree == []
    ensures OwnerKeys(Attach(frame, sub)) == OwnerKeys(frame) + OwnerKeys(sub)
  {
    var front, owner := frame[..|frame| - 1], frame[|frame| - 1];
    var attached := owner.(subtree := sub);
    DropLast(frame);
    OwnerKeysConcat(front, [owner]);
    OwnerKeysOne(owner);
    OwnerKeysConcat(front, [attached]);
    OwnerKeysOne(attached);
    assert |OwnerKeys([])| == 0;
    AppendEmpty([owner.composite], OwnerKeys([]));
    Assoc3(OwnerKeys(front), [owner.composite], OwnerKeys(sub));
  }

  lemma {:induction false} PopOwners(stack: seq<seq<WbtNode>>)
    requires |stack| >= 2 && stack[|stack| - 2] != []
    requires var frame := stack[|stack| - 2]; frame[|frame| - 1].tree && frame[|frame| - 1].subtree == []
    ensures StackOwnerKeys(PopFrame(stack)) == StackOwnerKeys(stack)
  {
    var t := |stack| - 1;
    var frame, sub := stack[t - 1], stack[t];
    var below := stack[..t - 1];
    AttachOwners(frame, sub);
    TakeAppend(below, [Attach(frame, sub)]);
    DropLast(stack);
    TakeAppend(stack[..t], [sub]);
    DropLast(stack[..t]);
    TakeTake(stack, t, t - 1);
    TakeAppend(below, [frame]);
    Assoc3(StackOwnerKeys(below), OwnerKeys(frame), OwnerKeys(sub));
  }

  /** Closing lists down to the `n` bottom ones keeps the stack's shape. */
  lemma {:induction false} PopToKeeps(stack: seq<seq<WbtNode>>, prefixes: seq<seq<int>>, n: nat)
    requires Frames(stack, prefixes) && Settled(stack) && 1 <= n <= |stack|
    ensures Frames(PopTo(stack, n), prefixes[..n]) && Settled(PopTo(stack, n))
    decreases |stack|
  {
    if |stack| > n {
      var popped := PopFrame(stack);
      assert PopTo(stack, n) == PopTo(popped, n);
      PopKeeps(stack, prefixes);
      PopToKeeps(popped, prefixes[..|prefixes| - 1], n);
      TakeTake(prefixes, |prefixes| - 1, n);
    } else {
      assert PopTo(stack, n) == stack && prefixes[..n] == prefixes;
    }
  }

  /** ... and its records and its owners. */
  lemma {:induction false} PopToRecords(stack: seq<seq<WbtNode>>, prefixes: seq<seq<int>>, n: nat)
    requires Frames(stack, prefixes) && Settled(stack) && 1 <= n <= |stack|
    ensures StackRecords(PopTo(stack, n)) == StackRecords(stack)
    ensures StackOwnerKeys(PopTo(stack, n)) == StackOwnerKeys(stack)
    decreases |stack|
  {
    if |stack| > n {
      var popped := PopFrame(stack);
      assert PopTo(stack, n) == PopTo(popped, n);
      PopKeeps(stack, prefixes);
      PopOwners(stack);
      PopToRecords(popped, prefixes[..|prefixes| - 1], n);
    }
  }

  lemma {:induction false} CloseOwners(stack: seq<seq<WbtNode>>, prefixes: seq<seq<int>>)
    requires Frames(stack, prefixes) && Settled(stack)
    ensures OwnerKeys(Close(stack)) == StackOwnerKeys(stack)
    decreases |stack|
  {
    if |stack| == 1 {
      assert |stack[..0]| == 0;
      EmptyAppend(StackOwnerKeys(stack[..0]), OwnerKeys(stack[0]));
    } else {
      var t := |stack| - 1;
      assert Owner(stack[t - 1][|stack[t - 1]| - 1], prefixes[t - 1], t - 1, prefixes[t]);
      PopKeeps(stack, prefixes);
      PopOwners(stack);
      CloseOwners(PopFrame(stack), prefixes[..|prefixes| - 1]);
    }
  }

  // ---------------------------------------------------------------- scopes

  /** The order `sort(key=cmp_to_key(compare))` puts the records in. */
  ghost predicate SortedItems(items: seq<seq<int>>)
  {
    forall i, j :: 0 <= i < j < |items| ==> Cmp(items[i], items[j]) <= 0
  }

  ghost predicate Distinct(keys: seq<seq<int>>)
  {
    forall i, j :: 0 <= i < j < |keys| ==> keys[i] != keys[j]
  }

  /** No record from position i on lies in the scope of `prefix`. */
  ghost predicate Gone(items: seq<seq<int>>, i: nat, prefix: seq<int>)
  {
    forall j :: i <= j < |items| ==> !Contains(items[j], prefix)
  }

  /** Every open prefix contains `item`. */
  ghost predicate Along(prefixes: seq<seq<int>>, item: seq<int>)
  {
    forall k :: 0 <= k < |prefixes| ==> Contains(item, prefixes[k])
  }

  /**
   * The owner composites so far are pairwise different, and each is either
   * still open or closed for good: no record from position i on belongs to it.
   */
  ghost predicate Unique(keys: seq<seq<int>>, prefixes: seq<seq<int>>, items: seq<seq<int>>, i: nat)
  {
    Distinct(keys) && forall q :: q in keys ==> q in prefixes || Gone(items, i, q)
  }

  /** The records of one scope are contiguous in sorted order. */
  lemma {:induction false} ContainsBetween(q: seq<int>, x: seq<int>, y: seq<int>, z: seq<int>)
    requires Contains(x, q) && Contains(z, q)
    requires Cmp(x, y) <= 0 && Cmp(y, z) <= 0
    ensures Contains(y, q)
    decreases |q|
  {
    if |y| == 0 {
      assert false;
    } else if |q| > 0 {
      assert x[0] == q[0] && z[0] == q[0];
      assert x[0] <= y[0] <= z[0];
      assert x[1..][..|q| - 1] == q[1..] && z[1..][..|q| - 1] == q[1..];
      ContainsBetween(q[1..], x[1..], y[1..], z[1..]);
      assert y[..|q|] == [y[0]] + y[1..][..|q| - 1];
      assert q == [q[0]] + q[1..];
    }
  }

  /** A scope the sorted records leave is never entered again. */
  lemma {:induction false} PoppedGone(items: seq<seq<int>>, i: nat, q: seq<int>)
    requires SortedItems(items) && 0 < i < |items|
    requires Contains(items[i - 1], q) && !Contains(items[i], q)
    ensures Gone(items, i, q)
  {
    forall j | i < j < |items|
      ensures !Contains(items[j], q)
    {
      if Contains(items[j], q) {
        ContainsBetween(q, items[i - 1], items[i], items[j]);
      }
    }
  }

  /** After the closing loop, every prefix left open contains the record. */
  lemma {:induction false} AlongAfterClose(prefixes: seq<seq<int>>, items: seq<seq<int>>, i: nat, m: nat)
    requires forall k :: 0 <= k < |prefixes| ==> |prefixes[k]| == k
    requires i < |items| && (i == 0 ==> |prefixes| == 1) && (i > 0 ==> Along(prefixes, items[i - 1]))
    requires 1 <= m <= |prefixes| && Contains(items[i], prefixes[m - 1])
    ensures Along(prefixes[..m], items[i])
  {
    forall k | 0 <= k < m - 1
      ensures Contains(items[i], prefixes[k])
    {
      var prev, top := items[i - 1], prefixes[m - 1];
      TakeTake(prev, m - 1, k);
      TakeTake(items[i], m - 1, k);
    }
  }

  /** With sorted records, what the closing loop pops is closed for good. */
  lemma {:induction false} UniqueAfterClose(keys: seq<seq<int>>, prefixes: seq<seq<int>>, items: seq<seq<int>>, i: nat, m: nat)
    requires SortedItems(items) && Unique(keys, prefixes, items, i)
    requires i < |items| && (i == 0 ==> |prefixes| == 1) && (i > 0 ==> Along(prefixes, items[i - 1]))
    requires 1 <= m <= |prefixes|
    requires Unmatched(items[i], prefixes, m)
    ensures Unique(keys, prefixes[..m], items, i)
  {
    forall q | q in keys && q !in prefixes[..m]
      ensures Gone(items, i, q)
    {
      if q in prefixes {
        var k :| 0 <= k < |prefixes| && prefixes[k] == q;
        assert m <= k;
        PoppedGone(items, i, q);
      }
    }
  }

  /** The prefixes the opening loop pushes all contain the record. */
  lemma {:induction false} AlongAfterOpen(prefixes: seq<seq<int>>, item: seq<int>, n: nat)
    requires Along(prefixes, item) && |prefixes| <= n <= |item|
    ensures Along(prefixes + PrefixRun(item, |prefixes|, n), item)
  {
    var run := PrefixRun(item, |prefixes|, n);
    forall k | 0 <= k < |prefixes| + |run|
      ensures Contains(item, (prefixes + run)[k])
    {
      if k >= |prefixes| {
        assert (prefixes + run)[k] == run[k - |prefixes|];
      }
    }
  }

  /** The owners the opening loop adds are new: longer than every open prefix, and inside the record's scope. */
  lemma {:induction false} UniqueAfterOpen(keys: seq<seq<int>>, prefixes: seq<seq<int>>, items: seq<seq<int>>, i: nat, n: nat)
    requires forall k :: 0 <= k < |prefixes| ==> |prefixes[k]| == k
    requires i < |items| && Along(prefixes, items[i]) && Unique(keys, prefixes, items, i)
    requires |prefixes| <= n <= |items[i]|
    ensures var run := PrefixRun(items[i], |prefixes|, n);
      Unique(keys + run, prefixes + run, items, i)
  {
    var item := items[i];
    var run := PrefixRun(item, |prefixes|, n);
    var all := keys + run;
    forall a, b | 0 <= a < b < |all|
      ensures all[a] != all[b]
    {
      if b >= |keys| {
        assert all[b] == run[b - |keys|] && |all[b]| == b - |keys| + |prefixes|;
        if a >= |keys| {
          assert all[a] == run[a - |keys|];
        } else {
          assert all[a] in keys;
          assert Contains(item, all[b]);
          if all[a] in prefixes {
            var k :| 0 <= k < |prefixes| && prefixes[k] == all[a];
          }
        }
      }
    }
    forall q | q in all
      ensures q in prefixes + run || Gone(items, i, q)
    {
      if q in run {
        var j :| 0 <= j < |run| && run[j] == q;
        assert (prefixes + run)[|prefixes| + j] == q;
      }
    }
  }

  /**
   * One record's effect on the scopes: the prefixes the closing loop leaves and
   * the opening loop pushes all contain the record, and with sorted records the
   * owners stay pairwise different.
   */
  lemma {:induction false} ItemScope(keys: seq<seq<int>>, prefixes: seq<seq<int>>, items: seq<seq<int>>, i: nat, m: nat,
                  after: seq<seq<int>>)
    requires forall k :: 0 <= k < |prefixes| ==> |prefixes[k]| == k
    requires i < |items| && (i == 0 ==> |prefixes| == 1) && (i > 0 ==> Along(prefixes, items[i - 1]))
    requires SortedItems(items) ==> Unique(keys, prefixes, items, i)
    requires 1 <= m <= |prefixes| && Contains(items[i], prefixes[m - 1]) && Unmatched(items[i], prefixes, m)
    requires m <= |after| <= |items[i]| && after == prefixes[..m] + PrefixRun(items[i], m, |after|)
    ensures Along(after, items[i])
    ensures SortedItems(items) ==> Unique(keys + PrefixRun(items[i], m, |after|), after, items, i + 1)
  {
    AlongAfterClose(prefixes, items, i, m);
    AlongAfterOpen(prefixes[..m], items[i], |after|);
    if SortedItems(items) {
      UniqueAfterClose(keys, prefixes, items, i, m);
      UniqueAfterOpen(keys, prefixes[..m], items, i, |after|);
      UniqueNext(keys + PrefixRun(items[i], m, |after|), after, items, i);
    }
  }

  /** The invariant of the grouping loop after the first i records. */
  ghost predicate Grouping(stack: seq<seq<WbtNode>>, prefixes: seq<seq<int>>, items: seq<seq<int>>, i: nat)
  {
    i <= |items| && Frames(stack, prefixes) && Settled(stack) && StackRecords(stack) == items[..i] &&
    (i == 0 ==> |prefixes| == 1) && (i > 0 ==> Along(prefixes, items[i - 1])) &&
    (SortedItems(items) ==> Unique(StackOwnerKeys(stack), prefixes, items, i))
  }

  /** One round of the opening loop keeps the stack's shape and records, and adds one owner. */
  lemma {:induction false} PushStep(stack: seq<seq<WbtNode>>, prefixes: seq<seq<int>>, item: seq<int>)
    requires Frames(stack, prefixes)
    requires |stack| + 1 < |item| && item[..|stack| - 1] == prefixes[|stack| - 1]
    ensures Frames(Push(stack, item), prefixes + [item[..|stack|]])
    ensures StackRecords(Push(stack, item)) == StackRecords(stack)
    ensures StackOwnerKeys(Push(stack, item)) == StackOwnerKeys(stack) + [item[..|stack|]]
  {
    PushKeeps(stack, prefixes, item);
    PushOwners(stack, item);
  }

  /** Rounds of the opening loop keep the stack's shape and records; each adds one owner. */
  lemma {:induction false} PushToKeeps(stack: seq<seq<WbtNode>>, prefixes: seq<seq<int>>, item: seq<int>, n: nat)
    requires Frames(stack, prefixes) && Contains(item, prefixes[|prefixes| - 1])
    requires |stack| <= n && (n == |stack| || n < |item|)
    ensures Frames(PushTo(stack, item, n), prefixes + PrefixRun(item, |stack|, n))
    ensures StackRecords(PushTo(stack, item, n)) == StackRecords(stack)
    ensures StackOwnerKeys(PushTo(stack, item, n)) == StackOwnerKeys(stack) + PrefixRun(item, |stack|, n)
    decreases n
  {
    var run := PrefixRun(item, |stack|, n);
    if n == |stack| {
      assert prefixes + run == prefixes && StackOwnerKeys(stack) + run == StackOwnerKeys(stack);
    } else {
      PushToKeeps(stack, prefixes, item, n - 1);
      var q, before := PushTo(stack, item, n - 1), PrefixRun(item, |stack|, n - 1);
      assert (prefixes + before)[n - 2] == item[..n - 2];
      PushStep(q, prefixes + before, item);
      AppendRunSnoc(prefixes, item, |stack|, n);
      AppendRunSnoc(StackOwnerKeys(stack), item, |stack|, n);
    }
  }

  /** The leaf step keeps the stack's shape, adds the record and no owner. */
  lemma {:induction false} LeafStep(stack: seq<seq<WbtNode>>, prefixes: seq<seq<int>>, item: seq<int>, level: nat)
    requires Frames(stack, prefixes) && level == |stack| - 1
    requires |stack| <= |item| <= |stack| + 1 && item[..level] == prefixes[level]
    ensures var after := AppendTop(stack, Leaf(item, level));
      Frames(after, prefixes) && Settled(after) &&
      StackRecords(after) == StackRecords(stack) + [item] && StackOwnerKeys(after) == StackOwnerKeys(stack)
  {
    AppendLeafKeeps(stack, prefixes, item);
    LeafOwners(stack, Leaf(item, level));
  }

  /** Closing lists down to the `n` bottom ones keeps the shape, the records and the owners. */
  lemma {:induction false} PopToAll(stack: seq<seq<WbtNode>>, prefixes: seq<seq<int>>, n: nat)
    requires Frames(stack, prefixes) && Settled(stack) && 1 <= n <= |stack|
    ensures var popped := PopTo(stack, n);
      Frames(popped, prefixes[..n]) && Settled(popped) &&
      StackRecords(popped) == StackRecords(stack) && StackOwnerKeys(popped) == StackOwnerKeys(stack)
  {
    PopToKeeps(stack, prefixes, n);
    PopToRecords(stack, prefixes, n);
  }

  /** After the last record, closing every frame gives the finished tree. */
  lemma {:induction false} GroupingClosed(stack: seq<seq<WbtNode>>, prefixes: seq<seq<int>>, items: seq<seq<int>>)
    requires Grouping(stack, prefixes, items, |items|)
    ensures |stack| >= 1 && forall k :: 0 <= k < |stack| - 1 ==> stack[k] != []
    ensures AllGrouped(Close(stack), [], 0) && Records(Close(stack)) == items
    ensures SortedItems(items) ==> Distinct(OwnerKeys(Close(stack)))
  {
    CloseKeeps(stack, prefixes);
    CloseOwners(stack, prefixes);
    TakeAll(items);
  }

  lemma {:induction false} UniqueNext(keys: seq<seq<int>>, prefixes: seq<seq<int>>, items: seq<seq<int>>, i: nat)
    requires Unique(keys, prefixes, items, i)
    ensures Unique(keys, prefixes, items, i + 1)
  {
  }

  // ------------------------------------------------------------ the fold

  /**
   * How many open lists the closing loop leaves for `item`: it pops from the
   * top until the top prefix contains the record, so this is the deepest
   * open list whose prefix contains it.
   */
  function Matched(item: seq<int>, prefixes: seq<seq<int>>): (m: nat)
    requires |prefixes| >= 1 && prefixes[0] == [] && |item| >= 1
    ensures 1 <= m <= |prefixes| && Contains(item, prefixes[m - 1]) && Unmatched(item, prefixes, m)
    decreases |prefixes|
  {
    if Contains(item, prefixes[|prefixes| - 1]) then |prefixes|
    else Matched(item, prefixes[..|prefixes| - 1])
  }

  /** The closing loop's stopping point is unique: the deepest containing prefix. */
  lemma {:induction false} MatchedUnique(item: seq<int>, prefixes: seq<seq<int>>, m: nat)
    requires |prefixes| >= 1 && prefixes[0] == [] && |item| >= 1
    requires 1 <= m <= |prefixes| && Contains(item, prefixes[m - 1]) && Unmatched(item, prefixes, m)
    ensures m == Matched(item, prefixes)
  {
  }

  /** The number of open lists after the opening loop: `len(item) - 1`, unless more are open already. */
  function Opened(m: nat, item: seq<int>): (n: nat)
    ensures m <= n && (n == m || n == |item| - 1)
  {
    if m < |item| - 1 then |item| - 1 else m
  }

  /**
   * One pass of the loop body for `item`, on both stacks: close the lists
   * down to `Matched`, open lists for the record's further keys until the top
   * prefix is all its keys but one, and append its leaf to the top list.
   */
  ghost function Step(stack: seq<seq<WbtNode>>, prefixes: seq<seq<int>>, item: seq<int>)
    : (r: (seq<seq<WbtNode>>, seq<seq<int>>))
    requires Shaped(stack, prefixes) && |item| >= 1
    decreases |prefixes|
  {
    assert |prefixes[0]| == 0;
    if Contains(item, prefixes[|prefixes| - 1]) then
      var n := Opened(|prefixes|, item);
      (AppendTop(PushTo(stack, item, n), Leaf(item, n - 1)), prefixes + PrefixRun(item, |prefixes|, n))
    else
      assert forall k :: 0 <= k < |stack| - 2 ==> PopFrame(stack)[k] == stack[k];
      Step(PopFrame(stack), prefixes[..|prefixes| - 1], item)
  }

  /** A step leaves both stacks well formed. */
  lemma {:induction false} StepShaped(stack: seq<seq<WbtNode>>, prefixes: seq<seq<int>>, item: seq<int>)
    requires Shaped(stack, prefixes) && |item| >= 1
    ensures Shaped(Step(stack, prefixes, item).0, Step(stack, prefixes, item).1)
    decreases |prefixes|
  {
    assert |prefixes[0]| == 0;
    if Contains(item, prefixes[|prefixes| - 1]) {
      var n := Opened(|prefixes|, item);
      PushToShaped(stack, item, n);
      AppendTopShaped(PushTo(stack, item, n), Leaf(item, n - 1));
      PrefixRunShaped(prefixes, item, |prefixes|, n);
      assert prefixes[..|prefixes|] == prefixes;
    } else {
      assert forall k :: 0 <= k < |stack| - 2 ==> PopFrame(stack)[k] == stack[k];
      StepShaped(PopFrame(stack), prefixes[..|prefixes| - 1], item);
    }
  }

  /** `Step` spelled out for a known match and depth. */
  lemma {:induction false} StepIs(stack: seq<seq<WbtNode>>, prefixes: seq<seq<int>>, item: seq<int>, m: nat, n: nat)
    requires Shaped(stack, prefixes) && |item| >= 1 && prefixes[0] == []
    requires m == Matched(item, prefixes) && n == Opened(m, item)
    ensures Step(stack, prefixes, item).0 == AppendTop(PushTo(PopTo(stack, m), item, n), Leaf(item, n - 1))
    ensures Step(stack, prefixes, item).1 == prefixes[..m] + PrefixRun(item, m, n)
    decreases |prefixes|
  {
    if Contains(item, prefixes[|prefixes| - 1]) {
      StepOpens(stack, prefixes, item, n);
    } else {
      var popped, p := StepCloses(stack, prefixes, item, m);
      StepIs(popped, p, item, m, n);
    }
  }

  /** When the top prefix contains the record, no frame is closed. */
  lemma {:induction false} StepOpens(stack: seq<seq<WbtNode>>, prefixes: seq<seq<int>>, item: seq<int>, n: nat)
    requires Shaped(stack, prefixes) && |item| >= 1 && prefixes[0] == []
    requires Contains(item, prefixes[|prefixes| - 1]) && n == Opened(|prefixes|, item)
    ensures Matched(item, prefixes) == |prefixes|
    ensures PopTo(stack, |prefixes|) == stack
    ensures Step(stack, prefixes, item).0 == AppendTop(PushTo(stack, item, n), Leaf(item, n - 1))
    ensures Step(stack, prefixes, item).1 == prefixes[..|prefixes|] + PrefixRun(item, |prefixes|, n)
  {
    assert |stack| == |prefixes|;
    PopToNone(stack);
    assert prefixes[..|prefixes|] == prefixes;
  }

  /** With as many frames as asked for, the closing loop does not run. */
  lemma {:induction false} PopToNone(stack: seq<seq<WbtNode>>)
    requires 1 <= |stack| && forall k :: 0 <= k < |stack| - 1 ==> stack[k] != []
    ensures PopTo(stack, |stack|) == stack
  {
  }

  /** When it does not, the top frame is closed and the step goes on from there. */
  lemma {:induction false} StepCloses(stack: seq<seq<WbtNode>>, prefixes: seq<seq<int>>, item: seq<int>, m: nat)
    returns (popped: seq<seq<WbtNode>>, p: seq<seq<int>>)
    requires Shaped(stack, prefixes) && |item| >= 1 && prefixes[0] == []
    requires !Contains(item, prefixes[|prefixes| - 1]) && m == Matched(item, prefixes)
    ensures |stack| >= 2 && popped == PopFrame(stack) && p == prefixes[..|prefixes| - 1]
    ensures Shaped(popped, p) && p[0] == [] && m == Matched(item, p)
    ensures PopTo(stack, m) == PopTo(popped, m) && p[..m] == prefixes[..m]
    ensures Step(stack, prefixes, item) == Step(popped, p, item)
  {
    p := prefixes[..|prefixes| - 1];
    popped := PopFrame(stack);
    assert forall k :: 0 <= k < |stack| - 2 ==> popped[k] == stack[k];
  }

  /** `StepIs` with the two new stacks named. */
  lemma {:induction false} StepAs(stack: seq<seq<WbtNode>>, prefixes: seq<seq<int>>, item: seq<int>, m: nat, n: nat)
    returns (after: seq<seq<WbtNode>>, grown: seq<seq<int>>)
    requires Shaped(stack, prefixes) && |item| >= 1 && prefixes[0] == []
    requires m == Matched(item, prefixes) && n == Opened(m, item)
    ensures Step(stack, prefixes, item) == (after, grown)
    ensures after == AppendTop(PushTo(PopTo(stack, m), item, n), Leaf(item, n - 1))
    ensures grown == prefixes[..m] + PrefixRun(item, m, n)
  {
    StepIs(stack, prefixes, item, m, n);
    after, grown := Step(stack, prefixes, item).0, Step(stack, prefixes, item).1;
  }

  /** Opening lists leaves every frame below the new top nonempty: each ends with an owner. */
  lemma {:induction false} PushToShaped(stack: seq<seq<WbtNode>>, item: seq<int>, n: nat)
    requires 1 <= |stack| && n <= |item| + 1 && forall k :: 0 <= k < |stack| - 1 ==> stack[k] != []
    ensures forall k :: 0 <= k < |PushTo(stack, item, n)| - 1 ==> PushTo(stack, item, n)[k] != []
    decreases n
  {
    if n > |stack| {
      PushToShaped(stack, item, n - 1);
      var before := PushTo(stack, item, n - 1);
      var t := |before| - 1;
      var owner := WbtNode(item[t], item[..t + 1], t, "", true, 0, []);
      AppendTopShaped(before, owner);
      assert AppendTop(before, owner)[t] == before[t] + [owner];
      assert Push(before, item) == AppendTop(before, owner) + [[]];
    }
  }

  /** Appending to the top frame leaves the frames below it as they were, and the top one nonempty. */
  lemma {:induction false} AppendTopShaped(stack: seq<seq<WbtNode>>, x: WbtNode)
    requires |stack| >= 1 && forall k :: 0 <= k < |stack| - 1 ==> stack[k] != []
    ensures forall k :: 0 <= k < |AppendTop(stack, x)| ==> AppendTop(stack, x)[k] != []
  {
    var s := AppendTop(stack, x);
    assert forall k :: 0 <= k < |s| - 1 ==> s[k] == stack[k];
    assert s[|s| - 1] == stack[|stack| - 1] + [x];
  }

  /** Cutting the prefixes back to `m` and pushing the record's next prefixes keeps the k-th of length k. */
  lemma {:induction false} PrefixRunShaped(prefixes: seq<seq<int>>, item: seq<int>, m: nat, n: nat)
    requires m <= |prefixes| && m <= n <= |item| && forall k :: 0 <= k < |prefixes| ==> |prefixes[k]| == k
    ensures var r := prefixes[..m] + PrefixRun(item, m, n); |r| == n && forall k :: 0 <= k < n ==> |r[k]| == k
  {
    var r := prefixes[..m] + PrefixRun(item, m, n);
    assert forall k :: 0 <= k < m ==> r[k] == prefixes[k];
    assert forall k :: m <= k < n ==> r[k] == item[..k];
  }

  /** Both stacks after the first i records. */
  ghost function Run(items: seq<seq<int>>, i: nat): (r: (seq<seq<WbtNode>>, seq<seq<int>>))
    requires i <= |items| && forall j :: 0 <= j < |items| ==> |items[j]| >= 1
    ensures Shaped(r.0, r.1)
  {
    if i == 0 then ([[]], [[]])
    else
      StepShaped(Run(items, i - 1).0, Run(items, i - 1).1, items[i - 1]);
      Step(Run(items, i - 1).0, Run(items, i - 1).1, items[i - 1])
  }

  /** The tree `build_initial_tree` returns: `tree_stack[0]` after the last record, every open list attached. */
  ghost function BuildTree(items: seq<seq<int>>): seq<WbtNode>
    requires forall j :: 0 <= j < |items| ==> |items[j]| >= 1
  {
    Close(Run(items, |items|).0)
  }

  lemma {:induction false} PopStep(stack: seq<seq<WbtNode>>, prefixes: seq<seq<int>>, m: nat)
    returns (popped: seq<seq<WbtNode>>, cut: seq<seq<int>>)
    requires Frames(stack, prefixes) && Settled(stack) && 1 <= m <= |stack|
    ensures |cut| == m && popped == PopTo(stack, |cut|) && cut == prefixes[..|cut|]
    ensures Frames(popped, cut) && Settled(popped)
    ensures StackRecords(popped) == StackRecords(stack) && StackOwnerKeys(popped) == StackOwnerKeys(stack)
  {
    PopToAll(stack, prefixes, m);
    popped, cut := PopTo(stack, m), prefixes[..m];
  }

  lemma {:induction false} Pushed(stack: seq<seq<WbtNode>>, prefixes: seq<seq<int>>, item: seq<int>, n: nat)
    returns (pushed: seq<seq<WbtNode>>, grown: seq<seq<int>>)
    requires Frames(stack, prefixes) && Contains(item, prefixes[|prefixes| - 1])
    requires |stack| <= n && (n == |stack| || n < |item|)
    ensures |grown| == n && pushed == PushTo(stack, item, |grown|) && grown == prefixes + PrefixRun(item, |stack|, |grown|)
    ensures Frames(pushed, grown)
    ensures StackRecords(pushed) == StackRecords(stack)
    ensures StackOwnerKeys(pushed) == StackOwnerKeys(stack) + PrefixRun(item, |stack|, |grown|)
  {
    PushToKeeps(stack, prefixes, item, n);
    pushed, grown := PushTo(stack, item, n), prefixes + PrefixRun(item, |stack|, n);
  }

  lemma {:induction false} Leafed(stack: seq<seq<WbtNode>>, prefixes: seq<seq<int>>, item: seq<int>)
    returns (after: seq<seq<WbtNode>>)
    requires Frames(stack, prefixes)
    requires |stack| <= |item| <= |stack| + 1 && item[..|stack| - 1] == prefixes[|stack| - 1]
    ensures after == AppendTop(stack, Leaf(item, |prefixes| - 1))
    ensures Frames(after, prefixes) && Settled(after)
    ensures StackRecords(after) == StackRecords(stack) + [item] && StackOwnerKeys(after) == StackOwnerKeys(stack)
  {
    LeafStep(stack, prefixes, item, |stack| - 1);
    after := AppendTop(stack, Leaf(item, |prefixes| - 1));
  }

  lemma {:induction false} OpenStep(stack: seq<seq<WbtNode>>, prefixes: seq<seq<int>>, item: seq<int>)
    returns (after: seq<seq<WbtNode>>, grown: seq<seq<int>>)
    requires Frames(stack, prefixes) && Contains(item, prefixes[|prefixes| - 1])
    ensures |grown| == Opened(|prefixes|, item)
    ensures grown == prefixes + PrefixRun(item, |prefixes|, |grown|)
    ensures after == AppendTop(PushTo(stack, item, |grown|), Leaf(item, |grown| - 1))
    ensures Frames(after, grown) && Settled(after)
    ensures StackRecords(after) == StackRecords(stack) + [item]
    ensures StackOwnerKeys(after) == StackOwnerKeys(stack) + PrefixRun(item, |prefixes|, |grown|)
  {
    var n := Opened(|prefixes|, item);
    var pushed;
    pushed, grown := Pushed(stack, prefixes, item, n);
    assert |pushed| == n <= |item| && grown[n - 1] == item[..n - 1];
    after := Leafed(pushed, grown, item);
  }

  /** One record's closing rounds, opening rounds and leaf, with what they keep. */
  lemma {:induction false} StepFacts(stack: seq<seq<WbtNode>>, prefixes: seq<seq<int>>, item: seq<int>)
    returns (m: nat, after: seq<seq<WbtNode>>, grown: seq<seq<int>>)
    requires Frames(stack, prefixes) && Settled(stack) && |item| >= 1
    ensures prefixes[0] == [] && m == Matched(item, prefixes) && |grown| == Opened(m, item)
    ensures after == AppendTop(PushTo(PopTo(stack, m), item, |grown|), Leaf(item, |grown| - 1))
    ensures grown == prefixes[..m] + PrefixRun(item, m, |grown|)
    ensures m <= |grown| <= |item| && Frames(after, grown) && Settled(after)
    ensures StackRecords(after) == StackRecords(stack) + [item]
    ensures StackOwnerKeys(after) == StackOwnerKeys(stack) + PrefixRun(item, m, |grown|)
  {
    assert |prefixes[0]| == 0;
    m := Matched(item, prefixes);
    var popped, cut := PopStep(stack, prefixes, m);
    after, grown := OpenStep(popped, cut, item);
  }

  /** The invariant holds of the stacks after every prefix of the records. */
  lemma {:induction false} RunGrouping(items: seq<seq<int>>, i: nat)
    requires i <= |items| && forall j :: 0 <= j < |items| ==> |items[j]| >= 1
    ensures Grouping(Run(items, i).0, Run(items, i).1, items, i)
    decreases i
  {
    if i == 0 {
      RunStart(items);
    } else {
      RunGrouping(items, i - 1);
      StepGrouping(Run(items, i - 1).0, Run(items, i - 1).1, items, i - 1, i);
      RunSucc(items, i - 1);
    }
  }

  /** Before the first record: the base frame alone. */
  lemma {:induction false} RunStart(items: seq<seq<int>>)
    requires forall j :: 0 <= j < |items| ==> |items[j]| >= 1
    ensures Grouping(Run(items, 0).0, Run(items, 0).1, items, 0)
  {
    var stack: seq<seq<WbtNode>> := [[]];
    assert Run(items, 0) == (stack, [[]]);
    assert StackOwnerKeys(stack) == [];
  }

  /** Record k keeps the invariant. */
  lemma {:induction false} StepGrouping(stack: seq<seq<WbtNode>>, prefixes: seq<seq<int>>, items: seq<seq<int>>, k: nat, i: nat)
    requires i == k + 1 && Grouping(stack, prefixes, items, k) && k < |items| && |items[k]| >= 1
    ensures Grouping(Step(stack, prefixes, items[k]).0, Step(stack, prefixes, items[k]).1, items, i)
  {
    var m, after, grown := GroupingStep(stack, prefixes, items, k, i);
    StepMatches(stack, prefixes, items[k], m, after, grown);
  }

  lemma {:induction false} GroupingStep(stack: seq<seq<WbtNode>>, prefixes: seq<seq<int>>, items: seq<seq<int>>, k: nat, i: nat)
    returns (m: nat, after: seq<seq<WbtNode>>, grown: seq<seq<int>>)
    requires i == k + 1 && Grouping(stack, prefixes, items, k) && k < |items| && |items[k]| >= 1
    ensures prefixes[0] == [] && m == Matched(items[k], prefixes) && |grown| == Opened(m, items[k])
    ensures after == AppendTop(PushTo(PopTo(stack, m), items[k], |grown|), Leaf(items[k], |grown| - 1))
    ensures grown == prefixes[..m] + PrefixRun(items[k], m, |grown|)
    ensures Grouping(after, grown, items, i)
  {
    m, after, grown := StepFacts(stack, prefixes, items[k]);
    ItemScope(StackOwnerKeys(stack), prefixes, items, k, m, grown);
    TakeSucc(items, k);
  }


  // ---------------------------------------------------------------- the loop

  /** The stacks the loop holds before each record are well formed. */
  lemma {:induction false} RunFrames(items: seq<seq<int>>, i: nat)
    requires i <= |items| && forall j :: 0 <= j < |items| ==> |items[j]| >= 1
    ensures Frames(Run(items, i).0, Run(items, i).1) && Settled(Run(items, i).0)
  {
    RunGrouping(items, i);
  }

  /** The closing and opening rounds for record i are the fold's step i. */
  lemma {:induction false} StepMatches(stack: seq<seq<WbtNode>>, prefixes: seq<seq<int>>, item: seq<int>, m: nat,
                                   after: seq<seq<WbtNode>>, grown: seq<seq<int>>)
    requires Shaped(stack, prefixes) && |item| >= 1 && prefixes[0] == []
    requires m == Matched(item, prefixes) && |grown| == Opened(m, item)
    requires grown == prefixes[..m] + PrefixRun(item, m, |grown|)
    requires after == AppendTop(PushTo(PopTo(stack, m), item, |grown|), Leaf(item, |grown| - 1))
    ensures Step(stack, prefixes, item) == (after, grown)
  {
    var a, g := StepAs(stack, prefixes, item, m, |grown|);
  }

  lemma {:induction false} RunLink(items: seq<seq<int>>, k: nat, i: nat, stack: seq<seq<WbtNode>>, prefixes: seq<seq<int>>,
                                   after: seq<seq<WbtNode>>, grown: seq<seq<int>>)
    requires i == k + 1 <= |items| && forall j :: 0 <= j < |items| ==> |items[j]| >= 1
    requires stack == Run(items, k).0 && prefixes == Run(items, k).1
    requires Step(stack, prefixes, items[k]) == (after, grown)
    ensures after == Run(items, i).0 && grown == Run(items, i).1
  {
    RunSucc(items, k);
  }

  /** Unfolding the fold once. */
  lemma {:induction false} RunSucc(items: seq<seq<int>>, i: nat)
    requires i < |items| && forall j :: 0 <= j < |items| ==> |items[j]| >= 1
    ensures Run(items, i + 1) == Step(Run(items, i).0, Run(items, i).1, items[i])
  {
  }

  /**
   * The grouping loop of `build_initial_tree` in wbt.py, over records already
   * read: the tree of its steps in turn, `BuildTree`. It holds every record
   * exactly once and in the order given, and every node satisfies `Grouped`,
   * whatever the order of the records. For records in the order of `compare`,
   * as the source sorts them, no two owners carry the same composite: each key
   * prefix has one nested list.
   */
  method BuildInitialTree(items: seq<seq<int>>) returns (mainTree: seq<WbtNode>)
    requires forall i :: 0 <= i < |items| ==> |items[i]| >= 1
    ensures mainTree == BuildTree(items)
    ensures AllGrouped(mainTree, [], 0)
    ensures Records(mainTree) == items
    ensures SortedItems(items) ==> Distinct(OwnerKeys(mainTree))
  {
    var treeStack: seq<seq<WbtNode>> := [[]];
    var prefixStack: seq<seq<int>> := [[]];
    for i := 0 to |items|
      invariant treeStack == Run(items, i).0 && prefixStack == Run(items, i).1
    {
      RunFrames(items, i);
      ghost var stack, prefixes := treeStack, prefixStack;
      treeStack, prefixStack := AddRecord(treeStack, prefixStack, items[i]);
      StepMatches(stack, prefixes, items[i], Matched(items[i], prefixes), treeStack, prefixStack);
      RunLink(items, i, i + 1, stack, prefixes, treeStack, prefixStack);
    }
    RunGrouping(items, |items|);
    GroupingClosed(treeStack, prefixStack, items);
    mainTree := Close(treeStack);
  }

  method AddRecord(stack: seq<seq<WbtNode>>, prefixes: seq<seq<int>>, item: seq<int>)
    returns (treeStack: seq<seq<WbtNode>>, prefixStack: seq<seq<int>>)
    requires Frames(stack, prefixes) && Settled(stack) && |item| >= 1
    ensures prefixes[0] == [] && |prefixStack| == Opened(Matched(item, prefixes), item)
    ensures prefixStack == prefixes[..Matched(item, prefixes)] + PrefixRun(item, Matched(item, prefixes), |prefixStack|)
    ensures treeStack == AppendTop(PushTo(PopTo(stack, Matched(item, prefixes)), item, |prefixStack|), Leaf(item, |prefixStack| - 1))
  {
    assert |prefixes[0]| == 0;
    treeStack, prefixStack := CloseUnmatched(stack, prefixes, item);
    ghost var m := |prefixStack|;
    MatchedUnique(item, prefixes, m);
    ghost var popped, cut := PopStep(stack, prefixes, m);
    treeStack, prefixStack := OpenAndAdd(treeStack, prefixStack, item);
  }

  /** The record's nested lists are opened and its leaf is added. */
  method OpenAndAdd(stack: seq<seq<WbtNode>>, prefixes: seq<seq<int>>, item: seq<int>)
    returns (treeStack: seq<seq<WbtNode>>, prefixStack: seq<seq<int>>)
    requires Frames(stack, prefixes) && Settled(stack) && Contains(item, prefixes[|prefixes| - 1])
    ensures |prefixStack| == if |prefixes| < |item| - 1 then |item| - 1 else |prefixes|
    ensures prefixStack == prefixes + PrefixRun(item, |prefixes|, |prefixStack|)
    ensures treeStack == AppendTop(PushTo(stack, item, |prefixStack|), Leaf(item, |prefixStack| - 1))
    ensures Frames(treeStack, prefixStack) && Settled(treeStack)
    ensures StackRecords(treeStack) == StackRecords(stack) + [item]
    ensures StackOwnerKeys(treeStack) == StackOwnerKeys(stack) + PrefixRun(item, |prefixes|, |prefixStack|)
  {
    treeStack, prefixStack := OpenNested(stack, prefixes, item);
    treeStack := AddLeaf(treeStack, prefixStack, item);
  }

  /**
   * The first inner loop of `build_initial_tree`: pops down to the deepest open
   * list whose prefix contains the record. The bottom list has the empty
   * prefix, which contains every record, so it is never closed.
   */
  method CloseUnmatched(stack: seq<seq<WbtNode>>, prefixes: seq<seq<int>>, item: seq<int>)
    returns (treeStack: seq<seq<WbtNode>>, prefixStack: seq<seq<int>>)
    requires |stack| == |prefixes| >= 1 && prefixes[0] == [] && |item| >= 1
    requires forall k :: 0 <= k < |stack| - 1 ==> stack[k] != []
    ensures 1 <= |prefixStack| <= |prefixes| && prefixStack == prefixes[..|prefixStack|]
    ensures Contains(item, prefixStack[|prefixStack| - 1])
    ensures Unmatched(item, prefixes, |prefixStack|)
    ensures treeStack == PopTo(stack, |prefixStack|)
  {
    treeStack, prefixStack := stack, prefixes;
    var numKeys := |item| - 1;
    while numKeys < |prefixStack[|prefixStack| - 1]|
          || item[..|prefixStack[|prefixStack| - 1]|] != prefixStack[|prefixStack| - 1]
      invariant 1 <= |prefixStack| <= |prefixes| && prefixStack == prefixes[..|prefixStack|]
      invariant Unmatched(item, prefixes, |prefixStack|)
      invariant treeStack == PopTo(stack, |prefixStack|)
      decreases |prefixStack|
    {
      ghost var m := |prefixStack|;
      assert prefixStack[m - 1] == prefixes[m - 1];
      UnmatchedStep(item, prefixes, m);
      PopToStep(stack, m);
      treeStack, prefixStack := CloseList(treeStack, prefixStack);
      TakeTake(prefixes, m, m - 1);
    }
  }

  /** One round of that loop: `prefix_stack.pop(-1)` and `tree_stack.pop(-1)`. */
  method CloseList(stack: seq<seq<WbtNode>>, prefixes: seq<seq<int>>)
    returns (treeStack: seq<seq<WbtNode>>, prefixStack: seq<seq<int>>)
    requires |stack| == |prefixes| >= 2 && forall k :: 0 <= k < |stack| - 1 ==> stack[k] != []
    ensures treeStack == PopFrame(stack) && prefixStack == prefixes[..|prefixes| - 1]
  {
    prefixStack := prefixes[..|prefixes| - 1];
    treeStack := PopFrame(stack);
  }

  /**
   * The second inner loop of `build_initial_tree`: opens a nested list for
   * every key of the record beyond the next one, each owned by a node of the
   * list below it, until the top prefix is all the record's keys but one.
   */
  method OpenNested(stack: seq<seq<WbtNode>>, prefixes: seq<seq<int>>, item: seq<int>)
    returns (treeStack: seq<seq<WbtNode>>, prefixStack: seq<seq<int>>)
    requires Frames(stack, prefixes) && Contains(item, prefixes[|prefixes| - 1])
    ensures |prefixStack| == if |prefixes| < |item| - 1 then |item| - 1 else |prefixes|
    ensures prefixStack == prefixes + PrefixRun(item, |prefixes|, |prefixStack|)
    ensures Contains(item, prefixStack[|prefixStack| - 1]) && |item| <= |prefixStack[|prefixStack| - 1]| + 2
    ensures treeStack == PushTo(stack, item, |prefixStack|)
    ensures Frames(treeStack, prefixStack)
    ensures StackRecords(treeStack) == StackRecords(stack)
    ensures StackOwnerKeys(treeStack) == StackOwnerKeys(stack) + PrefixRun(item, |prefixes|, |prefixStack|)
  {
    treeStack, prefixStack := stack, prefixes;
    var numKeys := |item| - 1;
    while numKeys > |prefixStack[|prefixStack| - 1]| + 1
      invariant Frames(treeStack, prefixStack) && Contains(item, prefixStack[|prefixStack| - 1])
      invariant |prefixes| <= |prefixStack| && (|prefixStack| == |prefixes| || |prefixStack| <= numKeys)
      invariant prefixStack == prefixes + PrefixRun(item, |prefixes|, |prefixStack|)
      invariant treeStack == PushTo(stack, item, |prefixStack|)
      invariant StackRecords(treeStack) == StackRecords(stack)
      invariant StackOwnerKeys(treeStack) == StackOwnerKeys(stack) + PrefixRun(item, |prefixes|, |prefixStack|)
      decreases numKeys - |prefixStack|
    {
      ghost var n, run, keys := |prefixStack|, PrefixRun(item, |prefixes|, |prefixStack|), StackOwnerKeys(treeStack);
      PrefixRunSnoc(item, |prefixes|, n);
      treeStack, prefixStack := OpenList(treeStack, prefixStack, item);
      Assoc3(prefixes, run, [item[..n]]);
      Assoc3(StackOwnerKeys(stack), run, [item[..n]]);
      assert treeStack == PushTo(stack, item, n + 1);
    }
  }

  /**
   * One round of that loop: the list on top gets an owner keyed by the
   * record's next key, and the owner's (still empty) nested list is pushed.
   */
  method OpenList(stack: seq<seq<WbtNode>>, prefixes: seq<seq<int>>, item: seq<int>)
    returns (treeStack: seq<seq<WbtNode>>, prefixStack: seq<seq<int>>)
    requires Frames(stack, prefixes)
    requires |prefixes[|prefixes| - 1]| + 2 < |item|
    requires item[..|prefixes[|prefixes| - 1]|] == prefixes[|prefixes| - 1]
    ensures treeStack == Push(stack, item) && prefixStack == prefixes + [item[..|prefixes|]]
    ensures Frames(treeStack, prefixStack)
    ensures StackRecords(treeStack) == StackRecords(stack)
    ensures StackOwnerKeys(treeStack) == StackOwnerKeys(stack) + [item[..|prefixes|]]
  {
    var top := prefixes[|prefixes| - 1];
    var nestedKey := item[..|top| + 1];
    PushKeeps(stack, prefixes, item);
    PushOwners(stack, item);
    treeStack := AppendTop(stack, WbtNode(nestedKey[|top|], nestedKey, |prefixes| - 1, "", true, 0, [])) + [[]];
    prefixStack := prefixes + [nestedKey];
  }

  /** The last step for each record: its leaf joins the list on top of the stack. */
  method AddLeaf(stack: seq<seq<WbtNode>>, prefixStack: seq<seq<int>>, item: seq<int>)
    returns (treeStack: seq<seq<WbtNode>>)
    requires Frames(stack, prefixStack)
    requires |prefixStack[|prefixStack| - 1]| < |item| <= |prefixStack[|prefixStack| - 1]| + 2
    requires item[..|prefixStack[|prefixStack| - 1]|] == prefixStack[|prefixStack| - 1]
    ensures treeStack == AppendTop(stack, Leaf(item, |prefixStack| - 1))
    ensures Frames(treeStack, prefixStack) && Settled(treeStack)
    ensures StackRecords(treeStack) == StackRecords(stack) + [item]
    ensures StackOwnerKeys(treeStack) == StackOwnerKeys(stack)
  {
    var top := prefixStack[|prefixStack| - 1];
    var numKeys := |item| - 1;
    var leaf := WbtNode(item[|top|], item[..numKeys], |prefixStack| - 1, "", false, item[numKeys], []);
    AppendLeafKeeps(stack, prefixStack, item);
    LeafOwners(stack, leaf);
    treeStack := AppendTop(stack, leaf);
  }
}
