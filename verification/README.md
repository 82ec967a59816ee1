# Stack distances, a hash table, and three broadcasts

A Dafny model of two exercises in C and proofs of what they promise.

**block1-lru** computes the stack distance of every access of a memory trace, twice: naively with a
move-to-front list, and fast with a last-occurrence table and an AVL tree of intervals, the tree of
holes. From the distances it counts the misses of LRU caches of every power-of-two size. The main
results are that one insertion into the tree, with its aliased upper node, its merges and its
rebalancing, keeps the tree well-formed and counts right (`ItreeInsert.InsertIndex`); that the hash
table refines a map through deletions, a recycled entry and bucket doubling, and doubles exactly when the
keys it holds demand it (`Hash.Hash.Insert`), so that its chains and its load stay bounded until it gives
up growing (`Growth.GrownBounded`); that the fast form reports what the naive one reports, exactly when the
trace has a property that every trace of up to 2^32 accesses has (`Stackdist.ProcessTrace`); and that the
counters are never less than the miss counts of directly simulated caches, and equal to them exactly under
a condition that every such trace meets too (`LruMisses.CountMisses`). The sort of the hash table, which the
program does not call, is proved to be a stable sort in place (`Sort.HashSrt`).

**block3-bcast** broadcasts a buffer over message-passing ranks along a chain, a binary tree and a
binomial tree. Each function is a method that makes the calls of one rank in the source's loops; the
calls are lowered to posts, sends and waits, and all ranks together run as a step system. A send may
wait for its receive, which is all that sections 3.4 and 3.5 of MPI 3.1 allow a caller to rely on, or be
buffered; receives are non-blocking posts and waits (section 3.7), `MPI_Sendrecv` runs both halves at
once (section 3.10), and the promised result is that of section 5.4. The main results hold for all runs:
`Linear.LinearDelivers`, `Binary.BinaryDelivers` and `Binomial.BinomialDelivers` say exactly when every
run ends with all buffers equal, and the `...Safe` lemmas what holds on the way.

## Layout

| file | content |
|---|---|
| `Itree.dfy` | tree nodes, snapshots of the heap tree, rotations, `_itree_rebalance` |
| `ItreeFacts.dfy` | counting, canonical form, height and word-size bounds |
| `ItreeInsert.dfy` | `_itree_insert` and its two descents, `itree_insert` |
| `ItreeThin.dfy` | the highest trees: the height bounds are sharp |
| `ItreeIter.dfy` | the iterator with its fixed stack |
| `Trace.dfy`, `Naive.dfy` | stack distance by definition; the move-to-front list |
| `Stackdist.dfy`, `LruMisses.dfy` | the fast algorithm; LRU miss counts |
| `Bits.dfy`, `Seqs.dfy` | shifts and masks as arithmetic; small notions about sequences |
| `Uthash.dfy`, `Hash.dfy`, `Sort.dfy` | bucket chains and application order; `hash_insert`; the merge sort |
| `Growth.dfy` | when a table doubles, as a function of its keys; how full it can get |
| `Mpi.dfy` | the step system |
| `Certificate.dfy` | why a plan with a clock neither blocks nor goes wrong |
| `Rounds.dfy` | lock-step schedules, runs that keep them, and the logarithmic lower bound |
| `Pipeline.dfy` | relaying blocks down a tree of ranks, for any tree |
| `Linear.dfy`, `Binary.dfy`, `Binomial.dfy` | the three broadcasts |

The heap structures are described by ghost values: a tree by a snapshot (`Itree.Tree`), lists and chains
by sequences of nodes. Methods tie the heap to the new snapshot, lemmas prove what snapshots mean.
`uint64_t` is modelled by integers. `ItreeFacts.FieldsFit`, `Stackdist.ReportedDistance` and
`Stackdist.ReportedIs` show that what is stored or reported stays in range. The only sums that can
leave it are those of a comparison with an interval end plus or minus one; these comparisons come out
the same with wrapping as without (`ItreeFacts.ComparisonsWrap`, `ItreeFacts.MergeWraps`).

Where code and text disagree, the model follows the code: the comment at `itree.c:19-20` infers from 64-bit
keys that the iterator's 64 stack entries cannot be exceeded, but there are well-formed trees of 64-bit
indices with every number of levels up to 90 (`ItreeThin.HeightAttained`), and none with more
(`ItreeFacts.HeightBound`). The depth is at most 64 by the precondition of `itree_iter_init`, or with fewer
than Fib(67) - 1 nodes and not in general with that many (`ItreeFacts.DepthBound`,
`ItreeThin.DepthExceeded`). Whether insertions into an empty tree reach one of these highest trees is not
claimed.

The comment at `uthash.h:877-878` has a chain exceed its threshold before the table doubles; by the test at
`uthash.h:618` it doubles when the chain reaches it, as in the model (`Growth.TenthKeyDoubles`).

Three promises are false in general, and the exact conditions are proved. The fast distances are wrong if
the address at index 2^32 - 1, the table's `HASH_NOT_FOUND`, is accessed again
(`Stackdist.ReportedIffClean`, `Stackdist.LongConstantTrace`). On traces of up to 2^63 accesses the miss
counters are then too high for some size, and otherwise right for all; on longer traces some wrong distances
do not matter, and `LruMisses.Miscounted` says which (`LruMisses.CountsIffHarmless`,
`LruMisses.HarmlessIffClean`). The pipelined broadcasts block when
receivers wait for a block that an empty buffer does not have, or when a lone root of the chain sends to
itself (`Linear.LinearDelivers`, `Binary.BinaryDelivers`).

`dafny verify dfyconfig.toml` checks the whole project. Nothing was executed.

## Model

| member | source | states |
|---|---|---|
| `Itree.Node.constructor` | block1-lru/src/itree.c:112-125 | a new node holds exactly the one index, has no children, sum 0 and height 0 |
| `Itree.Count` | block1-lru/src/itree.c:189-196 | the cached sums along the left spine add up to the number of indices in the subtree |
| `Itree.HeightExact` | block1-lru/src/itree.c:174-178 | the height read from a node is the height of its subtree, -1 for none |
| `Itree.SetHeight` | block1-lru/src/itree.c:180-184 | the stored height becomes exact and nothing else changes |
| `Itree.RaiseLeftChild` | block1-lru/src/itree.c:227-238 | the pointer, sum and height updates that raise a left child produce exactly the rotated snapshot, with the old root's interval added to the new root's sum |
| `Itree.RaiseRightChild` | block1-lru/src/itree.c:256-267 | the mirror image; the sum is recounted |
| `Itree.RaiseLeftKeeps` | block1-lru/src/itree.c:204-207 | raising a left child keeps the in-order intervals, the nodes, the index set, exact sums and ordering |
| `Itree.RaiseRightKeeps` | block1-lru/src/itree.c:204-207 | the same for raising a right child |
| `Itree.DoubleRight` | block1-lru/src/itree.c:227-249 | the right-left case restores balance and lowers the subtree by one level |
| `Itree.SingleRight` | block1-lru/src/itree.c:240-249 | the right-right case restores balance, also when the taller child is itself even, as happens after a removal |
| `Itree.RotateRightRestores` | block1-lru/src/itree.c:221-249 | both right cases together: balanced again, and no higher than before |
| `Itree.DoubleLeft` | block1-lru/src/itree.c:256-278 | the left-right case |
| `Itree.SingleLeft` | block1-lru/src/itree.c:269-278 | the left-left case, also for an even taller child |
| `Itree.RotateLeftRestores` | block1-lru/src/itree.c:250-279 | both left cases together |
| `Itree.RotateRightKeeps` | block1-lru/src/itree.c:204-207 | the right cases keep contents, order and exact sums |
| `Itree.RotateLeftKeeps` | block1-lru/src/itree.c:204-207 | the left cases keep contents, order and exact sums |
| `Itree.Rebalance` | block1-lru/src/itree.c:208-280 | with balanced children whose heights differ by at most two: in-order intervals, node set and exact sums unchanged; after a rotation, balance and exact heights; nothing touched when no rotation is due, so that the height of the root may then still be stale |
| `ItreeFacts.SumIsCount` | block1-lru/src/itree.h:21 | adding up interval widths counts the indices of the set |
| `ItreeFacts.AboveIsCount` | block1-lru/src/itree.h:26-29 | what the descent adds up is the number of stored indices larger than one not stored |
| `ItreeFacts.InOrderIsMaximalRuns` | block1-lru/src/itree.h:8-11 | the in-order intervals of a well-formed tree are exactly the maximal runs of its index set |
| `ItreeFacts.Canonical` | block1-lru/src/itree.h:8-11 | two well-formed trees with the same index set have the same in-order intervals, whatever insertions built them |
| `ItreeFacts.SizeIsRuns` | block1-lru/src/itree.h:8-11 | one node for every maximal run |
| `ItreeFacts.StartsAfterInsert` | block1-lru/src/itree.c:364-379 | adding an index changes the number of runs by +1, 0 or -1 as none, one or both neighbours are present |
| `ItreeFacts.AvlSize` | block1-lru/src/itree.c:174-184 | an AVL tree of height h has at least Fib(h + 3) - 1 nodes |
| `ItreeFacts.HeightBound` | block1-lru/src/itree.c:17-22 | 64-bit keys bound the height by 89, so the `int8_t` height never wraps |
| `ItreeThin.HeightAttained` | block1-lru/src/itree.c:17-22 | and the bound is sharp: for every height up to 89 there is a well-formed tree over 64-bit keys, with the least node count that height allows; so 64-bit keys alone do not keep the depth within 64 |
| `ItreeThin.DepthExceeded` | block1-lru/src/itree.h:6 | Fib(67) - 1 is the least node count at which a well-formed tree exceeds `ITREE_MAX_DEPTH` |
| `ItreeFacts.DepthBound` | block1-lru/src/itree.h:6 | fewer than Fib(67) - 1 nodes keep the depth within `ITREE_MAX_DEPTH` |
| `ItreeFacts.ComparisonsWrap` | block1-lru/src/itree.c:141 | adding or subtracting one in the source's comparisons with interval ends can wrap, and each comparison comes out the same as without wrapping |
| `ItreeFacts.MergeWraps` | block1-lru/src/itree.c:165 | the same for the assertion of a merge |
| `ItreeFacts.FieldsFit` | block1-lru/src/itree.h:18-24 | every interval end, sum and height of a well-formed tree over 64-bit indices fits its C type |
| `ItreeInsert.ExtendNode` | block1-lru/src/itree.c:137-148 | the interval gains exactly the adjacent index |
| `ItreeInsert.MergeNodes` | block1-lru/src/itree.c:161-172 | the upper interval takes over the lower one across the gap of one index |
| `ItreeInsert.InsertHere` | block1-lru/src/itree.c:364-379 | at the bottom of the recursion: merge, extend or new node, each as the three modes of the contract of `_itree_insert` require |
| `ItreeInsert.DescendL` | block1-lru/src/itree.c:282-309 | the count gains the larger indices; the subtree is left nearly balanced; the absorbed node is unlinked if it is the left child, and only then |
| `ItreeInsert.DescendR` | block1-lru/src/itree.c:311-349 | the same on the right; the cached sum gains one, keeps, or loses the absorbed node's size as the position relative to the two neighbours demands |
| `ItreeInsert.LeftResult` | block1-lru/src/itree.c:302-306 | every left descent, whatever neighbours have been seen above, turns the child's result into the subtree's |
| `ItreeInsert.RightResult` | block1-lru/src/itree.c:327-346 | every right descent likewise, with the exact new sum |
| `ItreeInsert.Restore` | block1-lru/src/itree.c:396-399 | rebalancing and the final height update after a descent restore balance and keep contents |
| `ItreeInsert.RestoredResult` | block1-lru/src/itree.c:396-399 | rebalancing on the way up does not disturb what the insertion still owes to the frames above, and never rotates the absorbed node before its parent unlinks it |
| `ItreeInsert.Insert` | block1-lru/src/itree.c:355-402 | the recursive contract in its three modes (no, one or both neighbours seen above): new subtree balanced, index set and sums as owed, absorbed node without a child on the index side, larger indices counted |
| `ItreeInsert.WholeResult` | block1-lru/src/itree.c:69-86 | at the root nothing is owed any more: index added, node count changed by the number of neighbours present, exactly the absorbed node gone |
| `ItreeInsert.InsertIndex` | block1-lru/src/itree.c:69-86 | `itree_insert` on any well-formed tree and any index not in it: well-formed afterwards, index set plus that index, `holes` the number of larger indices, node count changed by +1, 0 or -1, and the freed node is the one node no longer reachable |
| `ItreeIter.RestPush` | block1-lru/src/itree.c:437-441 | pushing a left spine schedules exactly the subtree, in order |
| `ItreeIter.InOrderFields` | block1-lru/src/itree.c:446-462 | the nodes in order carry the intervals in order |
| `ItreeIter.InOrderOnce` | block1-lru/src/itree.c:446-462 | in order, every node of the tree comes exactly once |
| `ItreeIter.Iter.constructor` | block1-lru/src/itree.c:426-444 | from a tree of depth at most 64 the whole in-order node sequence is scheduled |
| `ItreeIter.Iter.Push` | block1-lru/src/itree.c:455-459 | the stack of 64 entries never overflows |
| `ItreeIter.Iter.Next` | block1-lru/src/itree.c:446-462 | returns the next node in order, and null for ever once all have been returned |
| `ItreeIter.Collect` | block1-lru/test/itree.c:79-88 | asking for the next node until null yields the in-order intervals of the whole tree |
| `ItreeIter.Drain` | block1-lru/test/itree.c:79-88 | and these are exactly the maximal runs of the stored set, in increasing order |
| `Trace.RecentByRecency` | block1-lru/src/naive.c:91-104 | the move-to-front list holds the accessed addresses once each, by decreasing last access |
| `Trace.DepthIsDistance` | block1-lru/src/naive.c:91-104 | the depth of an address in that list is the number of distinct addresses accessed since its last access |
| `Trace.MoveToFront` | block1-lru/src/naive.c:91-104 | moving the accessed address to the front keeps the list ordered by recency |
| `Naive.List.Push` | block1-lru/src/naive.c:16-36 | a fresh node in front of the unchanged list, all links consistent |
| `Naive.List.Find` | block1-lru/src/naive.c:43-51 | the first node with the value and its depth, or null past the end |
| `Naive.List.Unlink` | block1-lru/src/naive.c:53-62 | the list without that node, head and both links repaired |
| `Naive.List.Remove` | block1-lru/src/naive.c:38-68 | the first occurrence is gone and its depth reported; otherwise nothing changes |
| `Naive.ProcessTrace` | block1-lru/src/naive.c:81-110 | reports, in order, the stack distance of every access, by definition: distinct addresses since the last access, or infinite |
| `Stackdist.HolesStep` | block1-lru/src/stackdist.c:36-43 | the tree holds exactly the superseded indices, and `last` is never already in it |
| `Stackdist.CurrentCount` | block1-lru/src/stackdist.c:42 | each address of a window has one index in it that is not superseded |
| `Stackdist.WindowSplit` | block1-lru/src/stackdist.c:42 | an index window splits into holes, live indices, and index `HASH_NOT_FOUND` if that one was lost |
| `Stackdist.ReportedIs` | block1-lru/src/stackdist.c:30-43 | what is reported for every access: infinity for a first access, and also if the last one was at index `HASH_NOT_FOUND`; else the number of distinct addresses accessed strictly between, or one more if that index was lost in between; never less than the distance |
| `Stackdist.ReportedDistance` | block1-lru/src/stackdist.c:42 | so `i - last - holes - 1` never underflows, and the report is right if and only if the access is the first to its address, or index `HASH_NOT_FOUND` is neither its last access nor lost in its window |
| `Stackdist.ReportedIffClean` | block1-lru/src/stackdist.c:22-44 | for every trace of 64-bit length, every reported distance is right if and only if the address at index `HASH_NOT_FOUND` (2^32 - 1), if there is one, is not accessed again |
| `Stackdist.ShortIsClean` | block1-lru/src/hash.h:6 | traces of at most 2^32 accesses meet that condition |
| `Stackdist.LongConstantTrace` | block1-lru/src/hash.h:6 | a trace of 2^32 + 1 equal addresses does not |
| `Stackdist.Round` | block1-lru/src/stackdist.c:22-44 | one round: what the last-occurrence table returns decides report and new hole |
| `Stackdist.ProcessTrace` | block1-lru/src/stackdist.c:8-55 | runs the loop on the real table and tree; its output equals that of the naive list for every trace that meets the condition, and differs otherwise |
| `LruMisses.CacheIsPrefix` | block1-lru/src/lru-misses.c:18-29 | LRU inclusion: a cache of any size holds the front of the one recency list |
| `LruMisses.MissIffDistant` | block1-lru/src/lru-misses.c:18-29 | an access misses in an LRU cache of any size exactly when its stack distance is at least that size or infinite |
| `LruMisses.MaskTest` | block1-lru/src/lru-misses.c:23-26 | the mask test is zero exactly when the distance is below 2^exp, for exponents 0 to 63 |
| `LruMisses.Callback` | block1-lru/src/lru-misses.c:18-29 | despite the early exit, every counter up to exponent 63 gains one exactly when the distance is at least 2^exp |
| `LruMisses.CountedIsMisses` | block1-lru/src/lru-misses.c:18-29 | counting reports of at least 2^e counts the misses of a cache of 2^e lines, if each report is on the same side of 2^e as the distance |
| `LruMisses.CountedAtLeast` | block1-lru/src/lru-misses.c:18-29 | reports that are never too small never undercount, and one on the wrong side of 2^e makes the count for 2^e too high |
| `LruMisses.CountsIffHarmless` | block1-lru/src/lru-misses.c:93-98 | for traces of 64-bit length the counts are right for all sizes from 1 to 2^63 if and only if no access is miscounted, and never too low |
| `LruMisses.HarmlessIffClean` | block1-lru/src/lru-misses.c:93-98 | which holds if the address at index 2^32 - 1 is not accessed again, and for up to 2^63 accesses only then |
| `LruMisses.CountMisses` | block1-lru/src/lru-misses.c:93-98 | after a run the counters are at least the miss counts of the simulated caches of 1 to 2^63 lines, equal to all of them exactly for harmless traces, and do not increase with the size |
| `Bits.AndLowMask` | block1-lru/uthash/src/uthash.h:198-201 | masking with 2^n - 1 is the remainder modulo 2^n |
| `Bits.AndHighMask` | block1-lru/src/lru-misses.c:23-26 | masking with the complement clears exactly the low bits |
| `Bits.ShrIsDiv` | block1-lru/uthash/src/uthash.h:677-679 | shifting right is division by a power of two |
| `Bits.ShiftCeil` | block1-lru/uthash/src/uthash.h:677-679 | shift plus masked test is the ceiling of items / buckets |
| `Uthash.Table.constructor` | block1-lru/uthash/src/uthash.h:141-158 | 32 empty buckets, expansion on, all counters 0 |
| `Uthash.LinkFront` | block1-lru/uthash/src/uthash.h:611-622 | the entry is at the front of its chain, all bucket links consistent |
| `Uthash.UnlinkFrom` | block1-lru/uthash/src/uthash.h:625-635 | the chain without the entry, all bucket links consistent |
| `Uthash.BucketBound` | block1-lru/uthash/src/uthash.h:198-201 | the bucket number is the hash value modulo the bucket count |
| `Uthash.MoveEntry` | block1-lru/uthash/src/uthash.h:684-699 | one entry moved to its new chain; counts, `expand_mult` and the number of non-ideal items stay exact |
| `Uthash.MoveAll` | block1-lru/uthash/src/uthash.h:681-700 | every entry of the old chains is in exactly one new chain, that of its hash value, once |
| `Uthash.Table.Redistribute` | block1-lru/uthash/src/uthash.h:672-700 | the ideal chain length is ceil(items / buckets), and `nonideal_items` the total excess over it |
| `Uthash.Table.Expand` | block1-lru/uthash/src/uthash.h:666-712 | bucket count doubled, entries preserved, ineffective expansions counted and expansion switched off after two in a row |
| `Uthash.DoubledIs` | block1-lru/uthash/src/uthash.h:666-712 | what an expansion leaves is a function of the new chain lengths |
| `Uthash.Table.AddToBucket` | block1-lru/uthash/src/uthash.h:611-622 | the entry is added to the front of its bucket; exactly when the chain has then reached ten times one more than its multiplier and expansion is on, the buckets double, with the counters and multipliers of `Growth.Doubled`; otherwise buckets, chains, counters and multipliers stay as they are |
| `Uthash.Table.DelInBucket` | block1-lru/uthash/src/uthash.h:625-635 | the entry leaves its bucket, all others stay; no multiplier and no counter that decides about growth changes |
| `Uthash.Table.UnlinkOrder` | block1-lru/uthash/src/uthash.h:226-242 | the application order without the entry; head and tail right |
| `Uthash.Table.AppendOrder` | block1-lru/uthash/src/uthash.h:184-186 | the application order with the entry at its end |
| `Uthash.Table.Remove` | block1-lru/uthash/src/uthash.h:215-248 | deletion of an entry that is not alone keeps every invariant of the table, and everything that decides when it grows |
| `Uthash.Table.AddItem` | block1-lru/uthash/src/uthash.h:188-192 | addition keeps every invariant of the table; the buckets double exactly on the test of `HASH_ADD_TO_BKT`, and otherwise nothing that decides about growth changes |
| `Hash.Hash.Find` | block1-lru/uthash/src/uthash.h:94-105 | the entry with the key, or null exactly if the key is not in the table |
| `Hash.Hash.Delete` | block1-lru/uthash/src/uthash.h:215-248 | the binding of the entry is gone, the others stay, also for the last entry, whose table goes with it; no other deletion changes what decides when the table grows |
| `Hash.Hash.Add` | block1-lru/uthash/src/uthash.h:173-196 | a new binding at the end of the application order, also into an empty table; the table grows exactly as the number of keys in the bucket of the new one demands |
| `Hash.Hash.Evict` | block1-lru/uthash/src/uthash.h:166-169 | finds and deletes the entry of a key; the others keep their order, and growth is unaffected unless the last entry and its table go |
| `Hash.Hash.Replace` | block1-lru/uthash/src/uthash.h:163-171 | the map updated at the key; the replaced entry, if any, carries the old value and is unreachable from the table; growth as by a deletion and an addition |
| `Hash.Hash.Fill` | block1-lru/src/hash.c:27-36 | the spare entry exactly if there is one, else a new one; not reachable from the table, which does not change |
| `Hash.Hash.Insert` | block1-lru/src/hash.c:22-46 | refines map update: the new map is the old one with the key bound, `out` is the old value or `HASH_NOT_FOUND`; the replaced entry becomes the spare one and leaves the application order, which ends with the old spare entry, or a new one if there was none; bucket count, multipliers and counters become those that `Growth.Inserted` computes from the old ones and the keys |
| `Hash.ChainLoads` | block1-lru/uthash/src/uthash.h:198-201 | the chain lengths are the numbers of keys whose hash belongs to each bucket |
| `Hash.AddKey` | block1-lru/uthash/src/uthash.h:188-192 | so whether an addition doubles the table, and what it then counts, is a function of the policy before and of the keys |
| `Hash.InsertAll` | block1-lru/test/hash.c:26-71 | any sequence of insertions into an empty table: every value returned, the map, and a table grown as `Growth.Grown` computes from the keys |
| `Growth.LoadsAddUp` | block1-lru/uthash/src/uthash.h:198-201 | every key is counted in one bucket |
| `Growth.DoubledBounded` | block1-lru/uthash/src/uthash.h:672-712 | with at most 20 entries a bucket before, a doubling leaves an ideal length of at most 10, multipliers that add up to no more than the number of buckets, and every chain within its limit |
| `Growth.AddedBounded` | block1-lru/uthash/src/uthash.h:611-622 | every addition keeps the multipliers and chains within these bounds |
| `Growth.LoadFactor` | block1-lru/uthash/src/uthash.h:637-646 | within these bounds a table that still expands has fewer than 20 entries a bucket |
| `Growth.GrownBounded` | block1-lru/uthash/src/uthash.h:876-886 | the bounded chain length: after any insertions, of new keys or old ones, as long as expansion is on no chain is longer than ten times its multiplier plus one, and there are fewer than 20 entries a bucket |
| `Growth.TenthKeyDoubles` | block1-lru/uthash/src/uthash.h:618-621 | up to nine keys of one bucket leave the 32 buckets of a new table, and the tenth makes them 64 |
| `Growth.OneHash` | block1-lru/uthash/src/uthash.h:912-917 | keys of one hash value, however many and however often: 32 buckets for up to 9 keys, 64 for up to 109, 128 for any more, when expansion is off after two doublings in vain |
| `Sort.MergeSorted` | block1-lru/uthash/src/uthash.h:745-773 | merging a sorted run with a sorted run of later positions gives a sorted run, equal entries in their old order |
| `Sort.PassDoubles` | block1-lru/uthash/src/uthash.h:728-785 | one pass turns sorted runs of length w into sorted runs of length 2w over the same entries |
| `Sort.Take` | block1-lru/uthash/src/uthash.h:746-773 | the four-way choice takes the first of the left run unless the right run offers a smaller one |
| `Sort.Append` | block1-lru/uthash/src/uthash.h:774-782 | linking an entry behind the result changes exactly two links |
| `Sort.MergeRuns` | block1-lru/uthash/src/uthash.h:745-783 | the inner loop links the stable merge of the two runs behind the result and leaves the rest of the list alone |
| `Sort.Skip` | block1-lru/uthash/src/uthash.h:735-743 | the counting loop finds the length of the left run and the start of the right one |
| `Sort.OnePass` | block1-lru/uthash/src/uthash.h:728-786 | a whole pass; the number of merges tells whether the list was no longer than two runs |
| `Sort.SortList` | block1-lru/uthash/src/uthash.h:724-793 | the outer loop terminates with a permutation of the list, sorted if the comparison is a total preorder; links, head and tail consistent |
| `Sort.HashSrt` | block1-lru/uthash/src/uthash.h:719-796 | a valid table stays valid, whatever the comparison returns, with the same entries in a new application order, and only that order changes; if the comparison is a total preorder, the keys and values are sorted by it and entries that compare equal keep their order; an empty table is left alone |
| `Sort.StableMeans` | block1-lru/uthash/src/uthash.h:715-718 | no entry lost or doubled, none before a smaller one, and of two that compare equal the earlier stays the earlier |
| `Sort.SortedByFields` | block1-lru/uthash/src/uthash.h:759-761 | the same read off the keys and values of the entries in the new order |
| `Mpi.StepsDecrease` | block3-bcast/src/binary.c:39-111 | every step of the message-passing system lowers a measure on program counters and messages in flight |
| `Certificate.StepKeeps` | block3-bcast/src/binary.c:58-110 | every step, buffered or not, keeps: buffers hold the root's data exactly where received, messages in flight carry the root's data, each sent message is received or in flight and not both, completed receives were posted |
| `Certificate.Progress` | block3-bcast/src/binary.c:39-111 | until every rank has returned, some rank can step without any buffering by the system |
| `Certificate.Agreement` | block3-bcast/src/binary.c:39-111 | once every rank has returned, every buffer is the root's and no message is left |
| `Certificate.SendCarries` | block3-bcast/src/binary.c:75-87 | a rank that sends a range holds the root's data there |
| `Certificate.NoOverlap` | block3-bcast/src/binary.c:69-89 | while a rank sends, no receive it has posted and not yet waited for touches the range |
| `Certificate.Broadcasts` | block3-bcast/src/binary.c:39-111 | all of this for every state of every run of a plan with a clock |
| `Certificate.Starves` | block3-bcast/src/linear.c:47-53 | when no rank has anything to send, a rank that waits for block 0 blocks for ever |
| `Certificate.SendsToItself` | block3-bcast/src/linear.c:29-37 | a lone root that sends to itself blocks under rendezvous sends |
| `Pipeline.PlanCertified` | block3-bcast/src/binary.c:39-111 | relaying blocks down any tree of ranks, with each receive posted before the previous block is forwarded, has a clock |
| `Pipeline.BlockCount` | block3-bcast/src/linear.c:30-31 | a loop from 0 to count in steps of the block size visits exactly the blocks that start before count |
| `Pipeline.PostsAhead` | block3-bcast/src/binary.c:69-89 | a rank sends a block on after its wait has returned, while the receive of the next block is posted and not yet waited for |
| `Pipeline.HoldsPrefix` | block3-bcast/src/binary.c:58-110 | in every reachable state a rank holds the root's data on exactly the blocks it has completed, which are a prefix containing every block waited for and only blocks posted, and its own data on the rest |
| `Pipeline.RelaysSafely` | block3-bcast/src/binary.c:58-110 | exactly the completed prefix, sends only what is held, no overlap of a receive not yet waited for with a send, in every state of every run |
| `Rounds.ClockRuns` | block3-bcast/src/binary.c:58-110 | a plan whose clock keeps rounds apart really runs round by round, without buffering, each message being sent, received and waited for in its round |
| `Rounds.InformedDoubles` | block3-bcast/src/binomial.c:65-76 | whatever the schedule, the ranks that have data at most double in a round |
| `Rounds.LogRounds` | block3-bcast/src/binomial.c:65-76 | so t rounds serve at most 2^t ranks |
| `Pipeline.RelaysInLockStep` | block3-bcast/src/binary.c:58-110 | the rounds of a relayed broadcast are a lock-step schedule: one send and one receive for a rank and round, program order, data received before it is sent, and every send met by a receive posted in time |
| `Pipeline.RelaysRun` | block3-bcast/src/binary.c:58-110 | and from every initial state there is a run of the step system, without buffering, that goes through these rounds |
| `Linear.Neighbours` | block3-bcast/src/linear.c:25-27 | `next` and `prev` are inverse and move one step along the chain, which ends at `last` |
| `Linear.BcastLinear` | block3-bcast/src/linear.c:13-78 | the calls each rank makes, loop by loop, are the relay program of the chain |
| `Linear.Messages` | block3-bcast/src/linear.c:29-75 | the messages are exactly these: every rank but the last sends each block to the next rank, with its offset as the tag, and nothing else |
| `Linear.Overlaps` | block3-bcast/src/linear.c:56-75 | a middle rank posts its receive of the next block, sends the current one and then waits, as `MPI_Sendrecv` allows |
| `Linear.LinearDelivers` | block3-bcast/src/linear.c:13-78 | in every run and for any buffering `bcast_linear` returns everywhere with equal buffers if and only if size >= 2 when count > 0, size <= 2 when count is 0 |
| `Linear.LinearSafe` | block3-bcast/src/linear.c:48-71 | exactly the completed blocks held, sends only of what is held, no overlap with a receive not yet waited for, in every state of every run |
| `Linear.ReachesInRound` | block3-bcast/src/linear.c:25-75 | in lock step block k reaches distance d in round k + d, and the programs run that way |
| `Linear.NoFaster` | block3-bcast/src/linear.c:25-75 | no schedule of the same programs, even one that asks nothing of the receivers, is faster for any block and rank |
| `Linear.LinearRounds` | block3-bcast/src/linear.c:25-75 | m blocks take exactly m + size - 2 rounds: the programs run in that many, and no schedule needs fewer |
| `Binary.BinaryIsTree` | block3-bcast/src/binary.c:25-37 | the rank arithmetic describes one tree over all ranks for every size and root |
| `Binary.BcastBinary` | block3-bcast/src/binary.c:13-114 | the calls each rank makes, loop by loop, are the relay program of the binary tree |
| `Binary.Messages` | block3-bcast/src/binary.c:39-110 | the messages are exactly these: every rank sends each block, with its offset as the tag, to the ranks at twice its distance plus one and plus two, as far as they exist |
| `Binary.Overlaps` | block3-bcast/src/binary.c:69-89 | a rank posts its receive of the next block, sends the current one to its children and then waits |
| `Binary.BinaryDelivers` | block3-bcast/src/binary.c:39-111 | in every run and for any buffering `bcast_binary` returns everywhere with equal buffers if and only if count > 0 or size is 1 |
| `Binary.BinarySafe` | block3-bcast/src/binary.c:58-110 | exactly the completed blocks held, sends only of what is held, no overlap of the receive of a block, until it is waited for, with the two sends of the one before |
| `Binary.NoFaster` | block3-bcast/src/binary.c:39-111 | with two children at the root, no schedule of the programs brings a block to a rank earlier than `bcast_binary` does in lock step |
| `Binary.TwoRanks` | block3-bcast/src/binary.c:39-111 | with two ranks the programs are those of the chain |
| `Binary.ExactRounds` | block3-bcast/src/binary.c:39-111 | the exact number of rounds for every size from 2 on: the programs run in that many, and no schedule needs fewer |
| `Binary.BinaryRounds` | block3-bcast/src/binary.c:39-111 | a tree of h levels below the root delivers m blocks within 2 (m - 1 + h) lock-step rounds, in which the programs run |
| `Binomial.CreateSubtree` | block3-bcast/src/binomial.c:96-127 | the heap tree: orders, indices and parent pointers, child i at index + 2^i, all nodes fresh |
| `Binomial.ListsEveryIndex` | block3-bcast/src/binomial.c:96-127 | the nodes of a subtree, each before its children, are index, index + 1, ..., index + 2^order - 1: every index exactly once |
| `Binomial.Create` | block3-bcast/src/binomial.c:85-94 | a tree whose order is the ceiling of the binary logarithm of n |
| `Binomial.Find` | block3-bcast/src/binomial.c:129-148 | finds every index of the tree and returns null for any other; the node found has the order and the parent its index asks for |
| `Binomial.FoundRank` | block3-bcast/src/binomial.c:50-56 | the parent of a 0-based rank is the rank with its lowest set bit cleared |
| `Bits.LowBitCleared` | block3-bcast/src/binomial.c:50-56 | which is `x & (x - 1)`: the form in which the model states parents |
| `Binomial.BinomialIsTree` | block3-bcast/src/binomial.c:50-74 | parents and live children describe one tree over all ranks below size |
| `Binomial.BcastBinomial` | block3-bcast/src/binomial.c:30-83 | the calls each rank makes, from the heap tree, are the one-block relay program |
| `Binomial.BinomialDelivers` | block3-bcast/src/binomial.c:30-83 | in every run and for any buffering `bcast_binomial` returns everywhere with equal buffers, for every size, root and count |
| `Binomial.OneMessage` | block3-bcast/src/binomial.c:56-76 | every rank but the root posts exactly one receive, once, for the one message that its live parent sends it, once, and nobody else sends to it |
| `Binomial.BinomialSafe` | block3-bcast/src/binomial.c:56-76 | a rank sends only the root's data, and nothing it has posted a receive for and not waited, in every state of every run |
| `Binomial.AllOrNothing` | block3-bcast/src/binomial.c:56-76 | a rank holds what it started with until it posts its receive and the root's data once the receive has returned, in every state of every run |
| `Binomial.BinomialRounds` | block3-bcast/src/binomial.c:65-76 | sending the largest child first serves a node of order i in lock-step round k - i, and the programs run that way, so ceil(log2 size) rounds suffice |
| `Binomial.NoFewerRounds` | block3-bcast/src/binomial.c:65-76 | and no schedule needs fewer |

## Left out

- Allocation failures and the error returns that follow from them, including `calloc(0, ...)` returning null for a leaf of the binomial tree.
- `free` beyond what becomes unreachable: `itree_free`, `llist_free`, `hash_free`, `_node_free` only walk and release.
- The "already in tree" branch of `_itree_insert`: excluded by the documented precondition of `itree_insert`, and shown not to occur in the trace loop.
- `itree_print`, `print_distance_sums`, the `main` functions, option parsing, memory mapping, timing, `gentrace.c`, `bench.c`, `util.c` and `native.c`: input, output and thin wrappers.
- LruMisses.Callback: says nothing of `distance_sums[64]`, whose mask needs `1ULL << 64`, undefined in C; the mask for exponent 64 is an open parameter.
- Itree.Rebalance: the four cases share two methods, one for raising a left and one for raising a right child, which the source writes out; the order of the height updates inside a case differs.
- Stackdist.ProcessTrace: the callback is modelled by collecting its arguments in order; the same holds for `Naive.ProcessTrace`.
- LruMisses.CountMisses: the trace length is not narrowed to `int` as in `main`.
- ItreeThin.HeightAttained: the highest trees are well-formed; that insertions into an empty tree reach them is not claimed.
- Uthash.Table.Expand: bucket counts and item counts are unbounded, so 32-bit overflow after 2^31 buckets is not modelled.
- Hash.Hash.Insert: the hash function is an arbitrary fixed function of the key; the byte hashes, key lengths, Bloom filter, `HASH_SELECT`, debug checks and pointer-offset arithmetic are not modelled.
- Sort.HashSrt: the comparison is a function of key and value of two entries; the doubling run length is unbounded.
- Mpi.StepMatch: error codes, the upper limit on tags, communicators and wire types are not modelled; two messages with the same source, destination and tag never coexist in the modelled programs, so their order needs no rule.
- Linear.BcastLinear: ranks, offsets and sizes are unbounded, so `int` overflow for very large sizes is not modelled; the same holds for the other two broadcasts.
- Linear.BcastLinear: a rank is the sequence of its MPI calls; the buffer they read and fill is part of the step system, not of the method. The same holds for the other two broadcasts.
