# Canonical balanced trees over composite keys: a Dafny model

The cairo-db prototypes `wbt.py` and `avl.py` store records that are lists of
integers. Every element but the last is a component of the record's composite
key, and the last element is its value. Both scripts do the same four things:

- sort the records with a lexicographic comparator;
- group them into nested sibling lists, one list per key prefix;
- give every node a path label, from list lengths alone;
- list the nodes in pre-order.

`wbt.py` then computes a Merkle commitment over the nodes sorted by path and
picks keys to prove reads of. This project models that core and proves what
its comments, asserts and structure promise.

| module (file) | what it models |
|---|---|
| `Keys` (keys.dfy) | `compare` of both scripts, once, with Python's string order on paths |
| `Bits` (bits.dfy) | powers of two and binary length, the vocabulary of the pivot rules |
| `WbtPivot` (wbt_pivot.dfy) | the pivot rule of `balance_tree` in wbt.py, and its shifting loop |
| `WbtTree` (wbt_tree.dfy) | `WbtNode`, the frames of `tree_stack`, `balance_tree` and `flatten_tree` of wbt.py |
| `WbtGrouping` (wbt_grouping.dfy) | the grouping loop of `build_initial_tree` in wbt.py, step by step, and the key-prefix scopes it opens and closes |
| `WbtListing` (wbt_listing.dfy) | the listing after `flat.sort(key=path)`, and why sorting leaves one order possible |
| `WbtHash` (wbt_hash.dfy) | `hash_subtree` and `initial_hash`, with the hash primitive as a parameter `h` |
| `WbtReads` (wbt_reads.dfy) | `select_reads`, with the sampled index lists as parameters |
| `AvlTree` (avl_tree.dfy) | `AvlNode` and the grouping loop of avl.py |
| `AvlBalance` (avl_balance.dfy) | `balance_tree` (depths and paths) and `flatten_tree` of avl.py |
| `Seqs` (seqs.dfy) | generic sequence lemmas used by the proofs |

Nodes are values. Python gives a nested list two names at once: it sits on
`tree_stack` and is the `subtree` of its owner. Here the open lists live in a
stack of frames, and a frame is attached to its owner when it is closed.
`balance_tree` writes labels into node objects that the slices share with the
caller; here it returns the relabelled list. Loops that update variables stay
loops (`Compare`, `Pivot`, the grouping methods, `FlattenTree`, `SelectReads`),
each proved against a function and the lemmas about that function.

avl.py's grouping loop is the loop of wbt.py on a different node type. Its
properties are proved through that correspondence: `AvlTree.RunConverted`
shows that avl.py's fold of steps yields wbt.py's stacks converted node by
node, and the properties of wbt.py's tree carry over. Because the two scripts
have two node types, `WbtNode` and `AvlNode`, a few stack and listing helpers
exist once per type: `PushTo`, `PopTo`, `PopToStep` and `CloseList` in
`WbtGrouping` and `AvlTree`, and `FlattenTree`, `FlattenConcat` and
`FlattenSize` in `WbtTree` and `AvlBalance`.

The headline results:

- `WbtHash.CommitmentOfSortedFlat`: take the pre-order listing of the labelled
  tree and sort it by path in any way. `initial_hash` then consumes every node,
  passes both asserts, and returns the Merkle root of the tree's shape.
- `WbtGrouping.BuildInitialTree` and `AvlTree.BuildInitialTree`: the tree
  returned is the fold of the loop body's exact step over the records
  (`WbtGrouping.BuildTree`, `AvlTree.Run`), and avl.py's tree is wbt.py's
  converted node by node. It holds every record exactly once and in the order
  given, and every node satisfies the grouping predicate `Grouped`. When the
  records are in `compare` order, as the source sorts them, no two owners carry
  the same key prefix: each prefix gets exactly one nested list.
- `AvlBalance.TreeLabels`: in avl.py every path is distinct, every depth counts
  the left and right steps of its path, and every path but the root `"x"` has
  its parent among the labels. `graph_tree` relies on that parent link.

## Model

| member | source | states |
|---|---|---|
| Keys.Compare | wbt.py:78-93 | The index loop returns the comparator's verdict `Cmp`: -1, 0 or 1, decided by the first differing component, with a strict prefix sorting first. |
| Keys.CmpIsLexicographic | wbt.py:78-93 | The comparator returns 0 exactly on equal keys, and -1 exactly when the first key is a strict prefix of the second or smaller at the first difference. Both directions of both iffs are proved. |
| Keys.CmpZeroIffEqual | avl.py:73-88 | The comparator of avl.py returns 0 if and only if the two keys are equal. |
| Keys.CmpNegativeIffLexLess | avl.py:73-88 | The comparator of avl.py returns -1 if and only if the first key sorts strictly before the second in lexicographic order. |
| Keys.CmpAntisymmetric | wbt.py:78-93 | Swapping the two keys negates the result. |
| Keys.CmpTransitive | wbt.py:78-93 | "Sorts before" is transitive, so `cmp_to_key` sorts by a consistent order. |
| Keys.CmpCommonPrefix | wbt.py:78-93 | A shared leading part does not affect the comparison. |
| Keys.PrefixSortsFirst | wbt.py:81-85 | A key sorts strictly before every proper extension of it. |
| Keys.PathCmpBasics | wbt.py:218-222 | Python's comparison of two paths is 0 exactly on equal paths, and swapping them negates it. |
| Keys.PathPrefixFirst | wbt.py:218-222 | A path sorts no later than any path under it, and strictly earlier than a longer one. |
| Keys.PathBranch | wbt.py:289 | Under a common prefix, the smaller next token sorts first. So L < M < N < R orders the branches. |
| WbtPivot.Pivot | wbt.py:142-157 | The shifting loop over `reduced` and `fullsize` computes the pivot `PivotOf(n)` for every n >= 1. |
| WbtPivot.PivotOf | wbt.py:142-157 | The pivot always names a node of the list: it lies in [0, n). |
| WbtPivot.PivotRule | wbt.py:128-139 | For n >= 2 written 10… in binary, the left size is n with that 10 replaced by 01. For n written 11…, the left side has the top bit less one nodes, so the right size is n without its top bit. |
| WbtPivot.PivotSizes | wbt.py:128-139 | Written 10…, the right side has half the top bit less one nodes; written 11…, it is n without its top bit. Either way the left side is at least the right and at most twice it plus one. |
| WbtPivot.SideLengths | wbt.py:128-139 | The left size has one binary digit fewer than n. The right size has two fewer for a 10… length and one fewer for an 11… length. |
| WbtPivot.LeftHigher | wbt.py:129-130 | For a length written 10…, the left subtree is one level higher than the right. |
| WbtPivot.EqualHeights | wbt.py:135-136 | For a length written 11…, both subtrees have the same height. |
| WbtPivot.CanonicalHeight | wbt.py:125-157 | The shape the rule builds for n nodes has the least possible height, the binary length of n. |
| WbtPivot.LeftSizeExamples | wbt.py:130-133 | A single node is its own pivot. The left sizes the comment lists (2→1, 4→2, 5→3, 8→4, 9→5, 11→7, 16→8) are the ones the rule gives. |
| WbtPivot.RightSizeExamples | wbt.py:137-139 | The right sizes the comment lists (3→1, 6→2, 7→3, 12→4, 13→5, 14→6, 15→7) are the ones the rule gives. |
| WbtGrouping.BuildInitialTree | wbt.py:94-114 | For any records of at least one element, the returned tree is `BuildTree(items)`: `tree_stack[0]`, every open list attached, after the loop body's exact step `Step` for each record in turn. That tree holds every record exactly once and in the given order, and every node satisfies `Grouped`: a leaf has `tree=False`, `val=item[-1]`, `composite=item[:-1]` and `key=item[len(top prefix)]`, an owner has `tree=True` and a nonempty nested list of the records that extend its prefix. For records in `compare` order, no two owners anywhere in the tree carry the same composite. |
| WbtGrouping.AddRecord | wbt.py:97-112 | One pass of the loop body: both stacks are closed down to `Matched`, the deepest prefix that contains the record, then grown by the record's prefixes up to `Opened` frames with one owner pushed for each, and the record's leaf is appended on top. |
| WbtGrouping.CloseUnmatched | wbt.py:100-103 | The pop loop leaves the bottom part of both stacks: the new prefix stack is a prefix of the old one, and the tree stack is the old one with exactly the removed frames closed into their owners. The top prefix left contains the record, and none of the popped prefixes does. The base frame is never popped. |
| WbtGrouping.CloseList | wbt.py:102-103 | The new tree stack is the old one with its top frame attached to the owner ending the frame below it, and the prefix stack loses its last entry. |
| WbtGrouping.OpenAndAdd | wbt.py:105-112 | The push loop and the leaf step together: the prefix stack grows to `len(item)-1` entries if it was shorter, by exactly the record's prefixes of the lengths in between. The tree stack is the old one with those owners pushed and the record's leaf appended on top. The stack invariant is kept, the record is added after those held, and the new owners are exactly the pushed prefixes. |
| WbtGrouping.OpenNested | wbt.py:105-110 | The push loop grows the prefix stack to `len(item)-1` entries if it was shorter, by exactly the record's prefixes of the lengths in between, and pushes one owner and one empty list for each. After it, the top prefix still starts the record and leaves at most two of its elements. No record is added, and the new owners are exactly the pushed prefixes. |
| WbtGrouping.OpenList | wbt.py:106-110 | One push: the new tree stack is the old one with an owner keyed by the record's next component appended on top and its empty list pushed. The new prefix is the record's prefix one longer. No record is added, and the owners gain exactly that prefix. |
| WbtGrouping.AddLeaf | wbt.py:112 | The new tree stack is the old one with the record's leaf appended to the top list. The record is added after those already held, and no owner is added. |
| WbtGrouping.Matched | wbt.py:100-103 | The closing loop stops at a frame whose prefix contains the record, and no deeper frame's prefix contains it. The base frame, with the empty prefix, always qualifies. |
| WbtGrouping.MatchedUnique | wbt.py:100-103 | Only one frame has that property, so the closing loop's stopping point is determined. |
| WbtGrouping.Opened | wbt.py:105-110 | The opening loop never shrinks the stack: afterwards there are as many frames as before it, or `len(item)-1`. |
| WbtGrouping.StepShaped | wbt.py:97-112 | The fold's step keeps both stacks equally long, the k-th prefix of length k, and every frame below the top nonempty. |
| WbtGrouping.StepIs | wbt.py:97-112 | The fold's step closes frames one at a time while the top prefix lacks the record. That is closing down to `Matched`, opening up to `Opened` frames and appending the record's leaf. |
| WbtGrouping.Run | wbt.py:94-112 | The stacks after any number of records are well formed in that sense. |
| WbtGrouping.StepMatches | wbt.py:97-112 | What the loop body's methods compute for a record is the fold's `Step`. |
| WbtGrouping.RunGrouping | wbt.py:94-112 | The loop invariant `Grouping` holds of the fold's stacks after every prefix of the records. |
| WbtGrouping.StepGrouping | wbt.py:97-112 | The fold's step for record k takes `Grouping` for the first k records to `Grouping` for the first k+1. |
| WbtGrouping.GroupingStep | wbt.py:97-112 | Closing down to `Matched`, opening up to `Opened` and appending the leaf of record k keeps `Grouping`, with the records and owners one record further. |
| WbtGrouping.RunFrames | wbt.py:94-112 | Before every record, the fold's stacks meet the loop body's precondition: frames matching the prefixes, and no empty open list. |
| WbtGrouping.ItemScope | wbt.py:100-110 | After one record every open prefix contains it. For sorted records, the owner composites stay pairwise different, and each one is still open or never matched by a later record. |
| WbtGrouping.ContainsBetween | wbt.py:78-94 | A record that sorts between two records with a common key prefix has that prefix too. So in sorted order the records of one prefix are contiguous. |
| WbtGrouping.PoppedGone | wbt.py:100-103 | For sorted records, a prefix that the previous record has and the current one lacks is lacked by every later record. So a popped list is never needed again. |
| WbtGrouping.UniqueAfterClose | wbt.py:100-103 | For sorted records, everything the pop loop closes is closed for good. |
| WbtGrouping.UniqueAfterOpen | wbt.py:105-110 | The owner prefixes the push loop adds are new: different from each other and from every owner before them. |
| WbtGrouping.AlongAfterClose | wbt.py:100-103 | Every prefix the pop loop leaves open contains the current record. |
| WbtGrouping.AlongAfterOpen | wbt.py:105-110 | Every prefix the push loop pushes contains the current record. |
| WbtGrouping.GroupingClosed | wbt.py:113 | After the last record, `tree_stack[0]` with every open list attached is fully grouped, holds exactly the records, and for sorted records has pairwise different owner composites. |
| WbtGrouping.PopToAll | wbt.py:100-103 | Closing frames down to any number of bottom ones keeps the stack invariant, the records and the owner composites, in order. |
| WbtGrouping.PopToKeeps | wbt.py:100-103 | Closing frames down to the n bottom ones leaves frames that match the n bottom prefixes. |
| WbtGrouping.PopToRecords | wbt.py:100-103 | Closing frames keeps the records held and the owner composites, in order. |
| WbtGrouping.PopToStep | wbt.py:102-103 | Closing down to m-1 frames is closing down to m frames and then one more. |
| WbtGrouping.PushToKeeps | wbt.py:105-110 | Rounds of the push loop keep the stack invariant, add no record, and add exactly the pushed prefixes as owners. |
| WbtGrouping.PushStep | wbt.py:106-110 | One push keeps the stack invariant, adds no record, and adds exactly the new prefix as an owner. |
| WbtGrouping.PushOwners | wbt.py:108-109 | The pushed owner adds its composite to the owners and nothing else. |
| WbtGrouping.LeafStep | wbt.py:112 | The leaf step keeps the stack invariant, adds the record after those held, and adds no owner. |
| WbtGrouping.LeafOwners | wbt.py:112 | A leaf adds no owner composite. |
| WbtGrouping.AttachOwners | wbt.py:102-103 | Attaching a closed list to its owner keeps every owner composite, in place. |
| WbtGrouping.CloseOwners | wbt.py:113 | The owners of the closed tree are exactly the owners on the stack, bottom frame first. |
| WbtGrouping.PrefixRunSnoc | wbt.py:110 | One more round of the push loop appends the next longer prefix of the record to the pushed run. |
| WbtTree.PushKeeps | wbt.py:106-110 | The pushed owner and its new frame keep the stack invariant and add no records. |
| WbtTree.AppendLeafKeeps | wbt.py:112 | The leaf built from a record has the fields grouping requires and stands for exactly that record. |
| WbtTree.CloseKeeps | wbt.py:113 | `tree_stack[0]`, with every open list attached to its owner, is fully grouped and holds every record on the stack. |
| WbtTree.FlattenTree | wbt.py:167-171 | `flatten_tree` appends to `flat` exactly the pre-order listing of the nodes. |
| WbtTree.FlattenAt | wbt.py:167-171 | In the listing each node is immediately followed by the listing of its own nested list. |
| WbtTree.FlattenConcat | wbt.py:167-171 | The listing of two lists one after the other is their listings one after the other. |
| WbtTree.FlattenSize | wbt.py:167-171 | The listing has one entry per record plus one per owner of a nested list, at every nesting level: the total node count. |
| WbtTree.Balance | wbt.py:158-165 | Labelling keeps the list's length. The labels it gives are stated by `FlattenOfBalance`, `BalanceOnlyLabels` and the `WbtListing` lemmas. |
| WbtTree.FlattenOfBalance | wbt.py:158-165 | After labelling, the listing is the left side labelled under path+L, then the pivot, then the pivot's nested list labelled under path+N, then the right side under path+R. A leaf pivot gets `path` and an owner gets path+M. |
| WbtTree.BalanceOnlyLabels | wbt.py:158-165 | Labelling changes only `path` fields, at every nesting level. No node is lost, moved or otherwise altered. |
| WbtListing.ListingOrdered | wbt.py:158-165 | The nodes of a list labelled under `path`, taken in path order, all lie under `path` and are strictly increasing. So no two nodes of the tree share a path. |
| WbtListing.ListingPermutes | wbt.py:287-289 | That path order holds exactly the nodes `flatten_tree` lists after `balance_tree`, with multiplicities. |
| WbtListing.SortedUnique | wbt.py:289 | A path-sorted permutation of a strictly path-increasing sequence is that sequence. Python's sort therefore has only one possible result. |
| WbtHash.HashSubtree | wbt.py:212-245 | On empty input the result is (the input, 0). If the head sorts before the current path, the ordering assert fails. Otherwise the remainder is never longer than the input, and a remainder as long as the input is the input unchanged. |
| WbtHash.InitialHash | wbt.py:206-210 | The "unused tree nodes" assert fails only with a positive count no larger than the input. |
| WbtHash.HashLeavesSuffix | wbt.py:212-245 | What `hash_subtree` returns as unconsumed is always a suffix of its input. |
| WbtHash.LeafStep | wbt.py:225-240 | A node at exactly `path`, not followed by a nested root, is consumed and hashed as h(h(left, key), h(val, right)). |
| WbtHash.NestedStep | wbt.py:225-240 | When the node after the left side is the nested root at path+M, the root is h(h(left, nn.key), h(nested, right)). The nested root is computed under path+N before the right side. |
| WbtHash.HashOfListing | wbt.py:212-245 | On the path-ordered listing of a labelled list, followed by nodes after its prefix, `hash_subtree` consumes exactly the listing and returns the Merkle root `TreeHash` of the list. |
| WbtHash.CommitmentOfSortedFlat | wbt.py:206-210 | For every path-sorted permutation of the labelled tree's listing, `initial_hash` passes both asserts and returns the Merkle root of the tree. |
| WbtHash.UnconsumedHeadCountsTwice | wbt.py:217-239 | A head node below the current path is not consumed, but its key and value are still combined. A lone node at "L" passes `initial_hash` and enters the root twice. |
| WbtReads.Bump | wbt.py:266-267 | The raised key equals the original in every component but the last, which is one larger. |
| WbtReads.BumpSortsNext | wbt.py:266-267 | The raised key sorts strictly after the original, and no key of the same length that agrees with it in all but the last component sorts strictly between the two. |
| WbtReads.SelectReads | wbt.py:256-272 | The result starts with the composites at the existing indices, in order. Every later key is the raised key of a node at a missing index and repeats no earlier key. The raised key of every missing node is present. The length is at most the two sample sizes together. |
| WbtReads.AddMissing | wbt.py:264-271 | One round adds the raised key exactly when it is not yet in the result, keeping the set and the list in step. |
| WbtReads.SelectedAdd | wbt.py:269-271 | A raised key not yet in the result is appended, and the selection property for one more missing index holds of the longer list. |
| WbtReads.SelectedKeep | wbt.py:269 | A raised key already in the result leaves the result unchanged, and the selection property for one more missing index still holds. |
| AvlTree.BuildInitialTree | avl.py:89-108 | For any records of at least one element, the returned tree is the fold of the loop body's exact step, `Close(Run(items, len(items)).0)`, and equals wbt.py's `BuildTree` converted node by node. It holds every record exactly once and in order, and every node satisfies `Grouped`: a leaf keeps `key=item[:num_keys]` and `val=item[-1]`, an owner keeps the prefix one component longer than its list's and a nonempty nested list. For records in `compare` order, no two owners carry the same key. |
| AvlTree.AddRecord | avl.py:92-107 | One pass of the loop body: both stacks are closed down to `Matched`, grown by the record's prefixes up to `Opened` frames with an owner pushed for each, and the record's leaf is appended on top. That is the fold's `Step`. |
| AvlTree.OpenAndAdd | avl.py:100-107 | The push loop and the leaf step together: the prefix stack grows to `Opened` entries by exactly the record's prefixes in between, and the tree stack is the old one with those owners pushed and the record's leaf appended. |
| AvlTree.CloseUnmatched | avl.py:95-98 | The pop loop leaves the bottom part of both stacks: the new prefix stack is a prefix of the old one, and the tree stack is the old one with exactly the removed frames closed into their owners. The top prefix left contains the record and none of the popped ones does. |
| AvlTree.CloseList | avl.py:97-98 | The new tree stack is the old one with its top frame attached to its owner, and the prefix stack loses its last entry. |
| AvlTree.OpenNested | avl.py:100-105 | The push loop grows the prefix stack to `len(item)-1` entries if it was shorter, by exactly the record's prefixes in between, and pushes one owner and one empty list for each. After it the top prefix starts the record and leaves at most two of its elements. |
| AvlTree.OpenList | avl.py:101-105 | One push: an owner keyed by the record's prefix one longer than the top prefix is appended on top, its empty list is pushed, and that prefix is pushed. |
| AvlTree.AddLeaf | avl.py:107 | The new tree stack is the old one with the record's leaf, keyed by all its keys and holding its last element, appended to the top list. |
| AvlTree.Run | avl.py:89-107 | The stacks after any number of records keep their shape `Stacked`: one prefix per frame, the k-th of length k, the base prefix empty, and every frame below the top nonempty. |
| AvlTree.StepStacked | avl.py:92-107 | One step keeps that shape. |
| AvlTree.PushToStacked | avl.py:100-105 | Opening lists leaves every frame below the new top nonempty, since each ends with its owner. |
| AvlTree.ShadowStart | avl.py:90-91 | Before any record, wbt.py's stacks, converted, are avl.py's start stacks: one empty frame for the empty prefix. |
| AvlTree.ShadowPopPush | avl.py:95-105 | Closing down to m frames and opening up to n on wbt.py's stack, converted, is the same closing and opening on the `AvlNode` stack. |
| AvlTree.ShadowStep | avl.py:95-107 | With the leaf appended as well, wbt.py's close, open and leaf, converted, are avl.py's close, open and leaf. |
| AvlTree.LeafFromWbt | avl.py:107 | avl.py's leaf for a record is wbt.py's leaf for it, converted. |
| AvlTree.ShadowMatches | avl.py:92-107 | wbt.py's step for a record, converted, gives avl.py's close, open and leaf for it, and the same prefix stack. |
| AvlTree.StepConverted | avl.py:92-107 | avl.py's step on wbt.py's stacks, converted, is wbt.py's step, converted. |
| AvlTree.RunConverted | avl.py:89-107 | After all the records, avl.py's stacks are wbt.py's converted node by node, with the same prefix stack. |
| AvlTree.RunClosed | avl.py:108 | Closing those stacks gives wbt.py's tree, converted. That tree is fully grouped, holds exactly the records in order, and for sorted records has pairwise different owner keys. |
| AvlTree.GroupedFromWbt | avl.py:103-107 | The avl.py node built where wbt.py builds a grouped node has the fields avl.py's grouping assigns. |
| AvlTree.RecordsFromWbt | avl.py:107 | Those nodes hold the same records as the wbt.py nodes they correspond to. |
| AvlTree.OwnerKeysFromWbt | avl.py:103 | Those nodes carry the same owner keys as the wbt.py nodes carry composites. |
| AvlTree.PushToFromWbt | avl.py:100-105 | The push loop on the wbt.py stack converts to the push loop on the `AvlNode` stack. |
| AvlTree.PopToFromWbt | avl.py:95-98 | The pop loop on the wbt.py stack converts to the pop loop on the `AvlNode` stack. |
| AvlTree.CloseFromWbt | avl.py:108 | Closing the wbt.py stack converts to closing the `AvlNode` stack. |
| AvlBalance.SideSizes | avl.py:127 | With the len//2 pivot, both sides are smaller than the list, and the left side is the right side or one larger. |
| AvlBalance.MinimalHeight | avl.py:127 | The len//2 pivot builds a shape of the least possible height, the binary length of n. |
| AvlBalance.Balance | avl.py:123-134 | Labelling keeps the list's length. The depths and paths it gives are stated by the lemmas below. |
| AvlBalance.BalanceOnlyLabels | avl.py:128-134 | Labelling changes only `depth` and `path`, at every nesting level, and nothing else. |
| AvlBalance.FlattenTree | avl.py:136-140 | `flatten_tree` appends to `flat` exactly the pre-order listing of the nodes. |
| AvlBalance.FlattenSize | avl.py:136-140 | The listing has one entry per record plus one per owner: the total node count at all levels. |
| AvlBalance.FlattenBalance | avl.py:123-140 | The listing of a labelled list is: the left side at depth+1 under path+0, then the pivot with `depth` and `path`, then its nested list at the same depth under path+x, then the right side at depth+1 under path+1. |
| AvlBalance.ListingPlaced | avl.py:128-134 | Every node labelled under `path` starting at `depth` lies under `path`. Its depth is `depth` plus the number of 0/1 steps its path takes beyond `path`. |
| AvlBalance.ListingDistinct | avl.py:129-134 | No two nodes, at any nesting level, get the same path. |
| AvlBalance.ListingLinked | avl.py:152-153 | In a nonempty labelled list, `path` is a label, and every other label has its parent, the path less its last token, among the labels. |
| AvlBalance.TreeLabels | avl.py:111 | From the top-level call with depth 0 and path "x": all paths are distinct and start with "x", every depth is the number of 0/1 steps in its path, and every path but "x" has its parent among the labels. |

## Left out

- Reading `initial_set.txt` and the `items.sort(key=cmp_to_key(compare))` call (wbt.py:94, avl.py:89) are left out: they are file I/O and a library sort. Grouping takes the records as a parameter. Sortedness is the predicate `WbtGrouping.SortedItems`. For records in any order, the grouping proves that the tree is the fold of its exact steps, holds the records in order and satisfies `Grouped`. The one property that needs the sort, one nested list per key prefix, is stated under the hypothesis `SortedItems(items)`.
- `generate_initial_set`: random data generation written to a file.
- `pedersen_hash` is a foreign StarkWare primitive, so it is the parameter `h`. `hash_check` only prints one hash and is left out.
- The file of intermediate hashes, and all `print` and `f.write` logging, are left out as output only. So are `print_tree`, `graph_tree`, the Graphviz `subprocess.call`, the `read_from_file` stub and the module-level driver.
- `random.sample` in `select_reads` becomes the index lists `existIdx` and `missIdx`. Their length and distinctness are not required, because no proved property depends on them.
- The `dedup` dictionary keyed by `str(key)` is a set of keys: two integer lists print alike exactly when they are equal.
- `flat.sort(key=lambda n: n.path)` in the driver is not modelled as a sort. It becomes the `SortedByPath` precondition of `WbtHash.CommitmentOfSortedFlat`, together with a permutation precondition.
- The `height` field of `WbtNode` is never set to anything but 0 and is not modelled.
- Updates in place through shared references are modelled on values:
  - the nested list that is both on `tree_stack` and an owner's `subtree`;
  - `balance_tree` writing into node objects that its slices share with the caller.
  The model proves what these updates produce, not the aliasing itself.
- WbtReads.SelectReads requires every node at a missing index to have a nonempty composite key. For a key-less node, `key[-1] += 1` raises IndexError in the source, and that failure is not modelled.
- WbtGrouping.BuildInitialTree requires every record to have at least one element. For an empty record `num_keys` is -1, so the closing loop pops every frame, the base frame with the empty prefix included. Its guard then reads `prefix_stack[-1]` of an empty list and raises IndexError (wbt.py:100). That failure is not modelled. The same holds for AvlTree.BuildInitialTree (avl.py:95).
- Keys.Compare: the source's `return 0` inside the loop, taken when both keys are exhausted, cannot be reached under the loop guard, so the model has no such branch.
