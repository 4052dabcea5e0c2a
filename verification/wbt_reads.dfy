/**
 * `select_reads` of wbt.py (wbt.py:256-272): the keys a proof of reads is
 * asked for. Some are composite keys of listed nodes; the others are such keys
 * with their last component raised by one, which are then usually missing. The
 * two `random.sample` draws are the parameters `existIdx` and `missIdx`. The
 * dictionary keyed by `str(key)` is a set of keys, since two integer lists have
 * the same `str` exactly when they are equal.
 */
module WbtReads {
  import opened Keys
  import opened WbtTree

  /** `key[-1] += 1` on a copy of the key. */
  function Bump(key: seq<int>): (k: seq<int>)
    requires |key| > 0
    ensures |k| == |key| && k[..|k| - 1] == key[..|key| - 1] && k[|k| - 1] == key[|key| - 1] + 1
  {
    key[..|key| - 1] + [key[|key| - 1] + 1]
  }

  /**
   * The raised key sorts right after the key in the order of `compare`: after
   * it, and with no key of the same length and the same front strictly
   * between the two.
   */
  lemma BumpSortsNext(key: seq<int>, other: seq<int>)
    requires |key| > 0
    ensures Cmp(key, Bump(key)) == -1
    ensures |other| == |key| && other[..|key| - 1] == key[..|key| - 1] ==>
      !(Cmp(key, other) == -1 && Cmp(other, Bump(key)) == -1)
  {
    var n := |key| - 1;
    var front, last, bumped := key[..n], key[n], Bump(key);
    assert key == front + [last] && bumped == front + [last + 1];
    LastDecides(front, last, last + 1);
    if |other| == |key| && other[..n] == front {
      assert other == front + [other[n]];
      LastDecides(front, last, other[n]);
      LastDecides(front, other[n], last + 1);
    }
  }

  /** Two keys that differ only in their last component are ordered by it. */
  lemma LastDecides(front: seq<int>, a: int, b: int)
    ensures Cmp(front + [a], front + [b]) == -1 <==> a < b
  {
    CmpCommonPrefix(front, [a], [b]);
    assert [a][1..] == [] && [b][1..] == [];
  }

  /** The index lists `random.sample` draws: every index names a node, and a missing one a node with a key. */
  ghost predicate Drawn(nodes: seq<WbtNode>, existIdx: seq<nat>, missIdx: seq<nat>)
  {
    (forall i :: 0 <= i < |existIdx| ==> existIdx[i] < |nodes|) &&
    (forall i :: 0 <= i < |missIdx| ==> missIdx[i] < |nodes| && |nodes[missIdx[i]].composite| > 0)
  }

  /** The raised keys of the nodes at the first k missing indices. */
  ghost function Raised(nodes: seq<WbtNode>, missIdx: seq<nat>, k: nat): set<seq<int>>
    requires k <= |missIdx|
    requires forall i :: 0 <= i < |missIdx| ==> missIdx[i] < |nodes| && |nodes[missIdx[i]].composite| > 0
  {
    set i | 0 <= i < k :: Bump(nodes[missIdx[i]].composite)
  }

  lemma RaisedSucc(nodes: seq<WbtNode>, missIdx: seq<nat>, k: nat)
    requires k < |missIdx|
    requires forall i :: 0 <= i < |missIdx| ==> missIdx[i] < |nodes| && |nodes[missIdx[i]].composite| > 0
    ensures Raised(nodes, missIdx, k + 1) == Raised(nodes, missIdx, k) + {Bump(nodes[missIdx[k]].composite)}
  {
    var key := Bump(nodes[missIdx[k]].composite);
    forall x | x in Raised(nodes, missIdx, k + 1)
      ensures x in Raised(nodes, missIdx, k) + {key}
    {
      var i :| 0 <= i < k + 1 && x == Bump(nodes[missIdx[i]].composite);
      if i < k {
        assert x in Raised(nodes, missIdx, k);
      }
    }
    assert key in Raised(nodes, missIdx, k + 1);
  }

  /**
   * What `select_reads` has built after the first k missing indices: the
   * existing keys first, then raised keys of those k nodes, no appended key
   * repeating an earlier one, and every one of those k raised keys present.
   */
  ghost predicate Selected(nodes: seq<WbtNode>, existIdx: seq<nat>, missIdx: seq<nat>, k: nat, result: seq<seq<int>>)
    requires Drawn(nodes, existIdx, missIdx) && k <= |missIdx|
  {
    |existIdx| <= |result| <= |existIdx| + k &&
    (forall i :: 0 <= i < |existIdx| ==> result[i] == nodes[existIdx[i]].composite) &&
    (forall j :: |existIdx| <= j < |result| ==> result[j] in Raised(nodes, missIdx, k)) &&
    (forall i, j :: 0 <= i < j < |result| && |existIdx| <= j ==> result[i] != result[j]) &&
    (forall i :: 0 <= i < k ==> Bump(nodes[missIdx[i]].composite) in result)
  }

  /**
   * `select_reads`: first the keys of the nodes at `existIdx`, in that order;
   * then raised keys of nodes at `missIdx`, each one not yet among the
   * result. The raised key of every node at `missIdx` ends up in the
   * result, no appended key repeats an earlier one, and the result has at most
   * |existIdx| + |missIdx| keys.
   */
  method SelectReads(nodes: seq<WbtNode>, existIdx: seq<nat>, missIdx: seq<nat>) returns (result: seq<seq<int>>)
    requires forall i :: 0 <= i < |existIdx| ==> existIdx[i] < |nodes|
    requires forall i :: 0 <= i < |missIdx| ==> missIdx[i] < |nodes| && |nodes[missIdx[i]].composite| > 0
    ensures |existIdx| <= |result| <= |existIdx| + |missIdx|
    ensures forall i :: 0 <= i < |existIdx| ==> result[i] == nodes[existIdx[i]].composite
    ensures forall j :: |existIdx| <= j < |result| ==> result[j] in Raised(nodes, missIdx, |missIdx|)
    ensures forall i, j :: 0 <= i < j < |result| && |existIdx| <= j ==> result[i] != result[j]
    ensures forall i :: 0 <= i < |missIdx| ==> Bump(nodes[missIdx[i]].composite) in result
  {
    result := seq(|existIdx|, i requires 0 <= i < |existIdx| => nodes[existIdx[i]].composite);
    var dedup: set<seq<int>> := {};
    for k := 0 to |result|
      invariant forall key :: key in dedup <==> key in result[..k]
    {
      dedup := dedup + {result[k]};
      assert result[..k + 1] == result[..k] + [result[k]];
    }
    assert result[..|result|] == result;
    for k := 0 to |missIdx|
      invariant forall key :: key in dedup <==> key in result
      invariant Selected(nodes, existIdx, missIdx, k, result)
    {
      result, dedup := AddMissing(nodes, existIdx, missIdx, k, result, dedup);
    }
  }

  /** One round of the second loop: the raised key of the node at `missIdx[k]`, added unless present. */
  method AddMissing(nodes: seq<WbtNode>, existIdx: seq<nat>, missIdx: seq<nat>, k: nat,
                    result: seq<seq<int>>, dedup: set<seq<int>>)
    returns (newResult: seq<seq<int>>, newDedup: set<seq<int>>)
    requires Drawn(nodes, existIdx, missIdx) && k < |missIdx|
    requires forall key :: key in dedup <==> key in result
    requires Selected(nodes, existIdx, missIdx, k, result)
    ensures forall key :: key in newDedup <==> key in newResult
    ensures Selected(nodes, existIdx, missIdx, k + 1, newResult)
  {
    var key := Bump(nodes[missIdx[k]].composite);
    newResult, newDedup := result, dedup;
    if key !in dedup {
      newDedup := dedup + {key};
      newResult := result + [key];
      SelectedAdd(nodes, existIdx, missIdx, k, result);
    } else {
      SelectedKeep(nodes, existIdx, missIdx, k, result);
    }
  }

  /** A raised key already present leaves the result as it is. */
  lemma SelectedKeep(nodes: seq<WbtNode>, existIdx: seq<nat>, missIdx: seq<nat>, k: nat, result: seq<seq<int>>)
    requires Drawn(nodes, existIdx, missIdx) && k < |missIdx|
    requires Selected(nodes, existIdx, missIdx, k, result)
    requires Bump(nodes[missIdx[k]].composite) in result
    ensures Selected(nodes, existIdx, missIdx, k + 1, result)
  {
    RaisedSucc(nodes, missIdx, k);
  }

  /** A raised key not yet present is appended. */
  lemma SelectedAdd(nodes: seq<WbtNode>, existIdx: seq<nat>, missIdx: seq<nat>, k: nat, result: seq<seq<int>>)
    requires Drawn(nodes, existIdx, missIdx) && k < |missIdx|
    requires Selected(nodes, existIdx, missIdx, k, result)
    requires Bump(nodes[missIdx[k]].composite) !in result
    ensures Selected(nodes, existIdx, missIdx, k + 1, result + [Bump(nodes[missIdx[k]].composite)])
  {
    var key := Bump(nodes[missIdx[k]].composite);
    var after := result + [key];
    RaisedSucc(nodes, missIdx, k);
    assert after[|result|] == key;
    forall i, j | 0 <= i < j < |after| && |existIdx| <= j
      ensures after[i] != after[j]
    {
      if j == |result| {
        assert after[i] == result[i];
      }
    }
    forall i | 0 <= i < k + 1
      ensures Bump(nodes[missIdx[i]].composite) in after
    {
      if i < k {
        var x :| x in result && x == Bump(nodes[missIdx[i]].composite);
      }
    }
  }
}
