# Verified model of the data structures

This Dafny project models the hard parts of a C++ collection of data structures and proves what they
promise: persistent AVL and block trees, four lock-free queue protocols, the codec of the Redis
serialization protocol, KD-tree search and intrusive reference counting.

`dafny verify dfyconfig.toml` checks everything.

## What is modelled

**Persistent trees.** `AvlTree` holds balance, sizes, rotations and the join of trees of arbitrary
heights. `SortedMap` is the reference: a strictly sorted list under any strict weak order, proved to
behave as a finite map. `ZipList` says which entries fit into one block, as one predicate that the
generic and the packed lists instantiate, with search and greedy packing. `BlockTree` and `SingleTree`
are the two containers. Code made of recursion over immutable nodes is recursive functions; each loop
of the source is a method proved to compute the function. `Histories` compares the containers and the
reference over every bulk build followed by every sequence of operations.

**Packed blocks.** `PackedArena` is the two-ended byte arena of the packed map block as a class over
arrays, with its budget argument, and every operation that builds a block from another. Each buffer
starts at an arbitrary address and borrowed values are addresses, so a move has to re-base them.

**Reference counting.** `RefCount` is a heap of nodes with pointer variables outside it. Counts equal
pointers after every operation; live nodes are the reachable ones. An assignment re-reads its source
after the release, as the code does, and the source is proved to be still there.

**Concurrent queues.** `MichaelScott`, `Vyukov`, `ProducerQueue`, and from `moodycamel.h` the free list
(`FreeList`) and the dequeue counters (`DequeueAccounting`) are step machines: a state, one program
counter with locals per thread, and one atomic access per step. The number of threads is arbitrary, a
schedule is any sequence of steps, weak compare-exchanges may fail at will. History variables, which
no step reads, record link order, tickets, claims, owners and elements moved out. Theorems about runs
quantify over all schedules. `Calls` is a record of calls, effects and returns and what it means for a
call to take effect once between its two ends; `Linearizability`, `RingCalls` and `ProducerCalls` add
that record to the runs of three queues and tie every value to the argument it came from. From every
reachable state a call that runs alone ends and does what it is for (`LoneCalls` and the lemmas named
`Lone`), so no queue may report itself empty or full at will.

**Redis codec.** `RespNumber` prints and parses numbers, `RespTree` is the recursive-descent reading
and the writer with their round trip and stability, `RespGrammar` the accepted and the rejected inputs
as relations on bytes, `RespUnpack` is the iterative decoder over the
caller's scratch array proved to compute that reading, and `RespStream` the documented stream loop.

**KD-tree.** `KdTree` builds by in-place selection, inserts, and searches with pruning; every search is
proved against brute force over the multiset of points.

## Where code and documentation differ

- The stream loop documented in `redis/README.md` clears its buffer on a failing verdict. Feeding a
  stream in chunks is therefore not always the same as feeding it whole: `RespStream.ChunkingCanMatter`
  gives a stream. `RespStream.ChunkingIsInvisible` gives the exact condition on the stream, which the
  one failing prefix named in `RespStream.DropPointDecides` settles.
- Nearest-neighbour search starts from the greatest coordinate value and compares strictly. When no
  point is nearer than that it returns the origin, which then is a right answer exactly when the origin
  is itself a nearest point of the tree. `KdTree.FarPointIsMissed` gives coordinates for which it is not.
- The split branch of a block update is dead, because an update is possible at every valid index.

## Model

| member | source | states |
|---|---|---|
| AvlTree.NodeCountFromHeight | immutable_container/include/immutable_container/immutable_tree.h:193-256 | a balanced tree of height h has at least Fib(h+2)-1 nodes |
| AvlTree.HeightBound | immutable_container/include/immutable_container/immutable_tree.h:193-217 | with sizes limited to 32 bits no balanced tree is higher than 45 |
| AvlTree.MakeNodeLimit | immutable_container/include/immutable_container/immutable_block_tree.h:250-269 | over balanced children node construction fails exactly when the entries exceed 2^32-1; the 16-bit height error never fires, not even for the node about to be rotated |
| AvlTree.MakeNodeHolds | immutable_container/include/immutable_container/immutable_block_tree.h:250-269 | over children whose heights differ by at most one the new node is balanced, caches the exact size and holds left entries, block, right entries in order |
| AvlTree.RotateLeftHolds | immutable_container/include/immutable_container/immutable_block_tree.h:275-280 | a left rotation of a node two levels too heavy on the right restores balance without changing the in-order blocks or the size |
| AvlTree.RotateRightHolds | immutable_container/include/immutable_container/immutable_block_tree.h:282-287 | the mirror image |
| AvlTree.DoubleLeftHolds | immutable_container/include/immutable_container/immutable_block_tree.h:303-309 | the double rotation restores balance without changing the in-order blocks, and lowers the height |
| AvlTree.DoubleRightHolds | immutable_container/include/immutable_container/immutable_block_tree.h:294-301 | the mirror image |
| AvlTree.MakeBalancedHolds | immutable_container/include/immutable_container/immutable_block_tree.h:314-316 | for children whose heights differ by at most two: the size error exactly when the entries do not fit, otherwise a balanced tree with the three parts in order, of the taller height or one more |
| AvlTree.JoinNodeHolds | immutable_container/include/immutable_container/immutable_block_tree.h:318-330 | joining two balanced trees of any heights around a block gives a balanced tree of height max or max+1 with the concatenated blocks, or the size error exactly when they do not fit |
| AvlTree.SizeIsEntryCount | immutable_container/include/immutable_container/immutable_block_tree.h:265-268 | the cached size of a balanced tree is its number of entries |
| AvlTree.BuildBalancedHolds | immutable_container/include/immutable_container/immutable_tree.h:407-419 | the bulk build is balanced with logarithmic height, keeps every block in order, and fails exactly on too many entries |
| SortedMap.FindMeaning | immutable_container/include/immutable_container/zip_list.h:134-155 | lookup answers the value stored under an equivalent key wherever it stands, and nothing else |
| SortedMap.InsertIsMapInsert | immutable_container/include/immutable_container/immutable_block_tree.h:123-129 | inserting an absent key makes exactly the keys equivalent to it answer the new value and leaves every other answer |
| SortedMap.UpdateIsMapUpdate | immutable_container/include/immutable_container/immutable_block_tree.h:131-137 | updating a present key changes the answer of exactly its equivalents |
| SortedMap.EraseIsMapErase | immutable_container/include/immutable_container/immutable_block_tree.h:139-145 | erasing a present key makes exactly its equivalents absent |
| SortedMap.EquivalentKeysFindAlike | immutable_container/include/immutable_container/immutable_block_tree.h:246-248 | equivalent keys get the same answer |
| SortedMap.RouteLeft | immutable_container/include/immutable_container/immutable_block_tree.h:422-431 | a key before the block front: every reference operation on the whole list is that operation on the left part |
| SortedMap.RouteRight | immutable_container/include/immutable_container/immutable_block_tree.h:433-442 | a key after the block back: every reference operation happens in the right part |
| SortedMap.RouteHere | immutable_container/include/immutable_container/immutable_block_tree.h:444-449 | a key between front and back: every reference operation happens inside the block |
| SortedMap.ValidateSortedUniqueEntries | immutable_container/include/immutable_container/immutable_block_tree.h:234-244 | comparing neighbours accepts exactly the strictly sorted lists |
| ZipList.FitsPart | immutable_container/include/immutable_container/zip_list.h:807-829 | dropping any run of entries keeps a block fitting |
| ZipList.FitsByKeys | immutable_container/include/immutable_container/zip_list.h:477-480 | overwriting values never changes what fits, so an update never splits a block |
| ZipList.FitsAnywhere | immutable_container/include/immutable_container/zip_list.h:463-475 | testing the new key at the end decides for every insertion index |
| ZipList.FitSummary.AccumulateKey | immutable_container/include/immutable_container/zip_list.h:817-829 | the running totals accept a key exactly while the entries seen still fit in one block |
| ZipList.EntriesFit | immutable_container/include/immutable_container/zip_list.h:831-840 | the loop over the keys decides the fit predicate |
| ZipList.LowerBoundSearch | immutable_container/include/immutable_container/zip_list.h:117-132 | binary search returns the number of smaller keys |
| ZipList.FindValue | immutable_container/include/immutable_container/zip_list.h:515-526 | searching a block finds exactly what the reference lookup finds |
| ZipList.GreedyPackPartitions | immutable_container/include/immutable_container/zip_list.h:842-863 | greedy packing cuts the entries, in order, into non-empty fitting blocks no two neighbours of which could be merged |
| ZipList.GreedyPackOptimal | immutable_container/include/immutable_container/zip_list.h:842-863 | no in-order partition into fitting blocks has fewer blocks |
| ZipList.PackEntriesIntoBlocks | immutable_container/include/immutable_container/zip_list.h:842-863 | the two-level loop computes the greedy packing; its single-entry error is unreachable |
| ZipList.PackSortedEntriesIntoBlocks | immutable_container/include/immutable_container/zip_list.h:72-86 | cutting the generic list every capacity entries is the greedy packing |
| BlockTree.FindMinLoop | immutable_container/include/immutable_container/immutable_block_tree.h:332-338 | the loop reaches the leftmost node |
| BlockTree.FindMaxLoop | immutable_container/include/immutable_container/immutable_block_tree.h:340-346 | the loop reaches the rightmost node |
| BlockTree.FindMinIsFirst | immutable_container/include/immutable_container/immutable_block_tree.h:332-338 | the leftmost node holds the first block in order |
| BlockTree.FindMaxIsLast | immutable_container/include/immutable_container/immutable_block_tree.h:340-346 | the rightmost node holds the last block in order |
| BlockTree.EraseMinNodeHolds | immutable_container/include/immutable_container/immutable_block_tree.h:348-353 | removing the leftmost node leaves a balanced tree of unmergeable neighbours with exactly the remaining blocks |
| BlockTree.EraseMaxNodeHolds | immutable_container/include/immutable_container/immutable_block_tree.h:355-360 | the mirror image |
| BlockTree.NormalizeNodeHolds | immutable_container/include/immutable_container/immutable_block_tree.h:362-382 | for any two good subtrees and a fitting block: a balanced tree, no two in-order neighbours of which fit into one block, with the entries of the three parts in order, however many neighbours are absorbed; the size error exactly when the entries do not fit |
| BlockTree.NormalizeNodeLoop | immutable_container/include/immutable_container/immutable_block_tree.h:362-382 | the two absorbing loops compute the recursive normalisation, whose termination on the node count is part of its definition |
| BlockTree.BuildSplitNodesLoop | immutable_container/include/immutable_container/immutable_block_tree.h:384-392 | the descending loop computes the recursive hanging of split blocks |
| BlockTree.BuildSplitNodesHolds | immutable_container/include/immutable_container/immutable_block_tree.h:384-392 | hanging fitting blocks between two good subtrees gives a good tree with everything in order |
| BlockTree.InsertInNodeBlockHolds | immutable_container/include/immutable_container/immutable_block_tree.h:394-403 | inserting into a block, with or without a split, gives a good tree with the new entry in place |
| BlockTree.InsertNodeHolds | immutable_container/include/immutable_container/immutable_block_tree.h:416-450 | insertion refuses exactly a present key, fails exactly on a full tree, and otherwise is the reference insertion on a good tree |
| BlockTree.UpdateNodeHolds | immutable_container/include/immutable_container/immutable_block_tree.h:452-480 | update refuses exactly an absent key and otherwise is the reference update and leaves the shape of the tree unchanged |
| BlockTree.SameShapeGood | immutable_container/include/immutable_container/immutable_block_tree.h:405-414 | a tree of the same shape and keys keeps balance and the fill invariant, so rebalancing without normalising is enough for updates |
| BlockTree.EraseNodeHolds | immutable_container/include/immutable_container/immutable_block_tree.h:482-522 | erasure refuses exactly an absent key and otherwise is the reference erasure, on a tree that is good again |
| BlockTree.SetNodeHolds | immutable_container/include/immutable_container/immutable_block_tree.h:524-549 | set overwrites a present key and inserts an absent one |
| BlockTree.FindNodeHolds | immutable_container/include/immutable_container/immutable_block_tree.h:107-119 | lookup by front and back keys finds exactly what the sorted list holds |
| BlockTree.FindInTree | immutable_container/include/immutable_container/immutable_block_tree.h:107-119 | the descending loop computes that lookup |
| SingleTree.InsertNodeHolds | immutable_container/include/immutable_container/immutable_tree.h:258-281 | insertion into the one-entry tree is the reference insertion |
| SingleTree.UpdateNodeHolds | immutable_container/include/immutable_container/immutable_tree.h:283-306 | update of the one-entry tree is the reference update |
| SingleTree.SetNodeHolds | immutable_container/include/immutable_container/immutable_tree.h:308-324 | set on the one-entry tree is the reference set |
| SingleTree.EraseMinHolds | immutable_container/include/immutable_container/immutable_tree.h:334-339 | removing the smallest node leaves exactly the other entries, balanced |
| SingleTree.EraseNodeHolds | immutable_container/include/immutable_container/immutable_tree.h:341-373 | erasure from the one-entry tree is the reference erasure |
| SingleTree.FindNodeHolds | immutable_container/include/immutable_container/immutable_tree.h:82-94 | lookup in the one-entry tree finds exactly what the sorted list holds |
| SingleTree.FindInTree | immutable_container/include/immutable_container/immutable_tree.h:82-94 | the descending loop computes that lookup |
| Histories.FromSortedUniqueEntries | immutable_container/include/immutable_container/immutable_block_tree.h:93-99 | building refuses exactly unsorted input and too many entries, and otherwise yields a good tree of exactly these entries |
| Histories.BlockBuildHolds | immutable_container/include/immutable_container/immutable_block_tree.h:93-99 | packing and building keeps the entries and establishes the fill invariant |
| Histories.SingleBuildHolds | immutable_container/include/immutable_container/immutable_tree.h:69-74 | bulk building the one-entry tree keeps the entries, balanced |
| Histories.BlockRunRefines | immutable_container/include/immutable_container/immutable_block_tree.h:123-149 | in every tree reached by any sequence of Insert, Update, Set, Erase and Find no two in-order neighbouring blocks fit into one, and replies and contents are those of the sorted list |
| Histories.SingleRunRefines | immutable_container/include/immutable_container/immutable_tree.h:98-124 | the one-entry tree stays balanced over every sequence of operations and replies as the sorted list |
| Histories.TreesAgree | immutable_container/include/immutable_container/immutable_block_tree.h:107-156 | over every bulk build and every sequence of operations the two trees and the sorted list give the same replies and end with the same entries, for every key order and block form |
| Histories.FillBound | immutable_container/include/immutable_container/immutable_block_tree.h:362-392 | whatever the history, a generic block tree of N nodes holds at least floor(N/2)*(capacity+1) entries |
| PackedArena.BudgetLeavesRoom | immutable_container/include/immutable_container/zip_list.h:788-799 | with the value budget of a whole target, the next key of the target fits whatever values were stored before it |
| PackedArena.FitsIsRoom | immutable_container/include/immutable_container/zip_list.h:807-840 | entries fit in one block exactly when there are at most capacity of them and there is only one or their keys, one after the other, have room in the buffer |
| PackedArena.LayoutSnoc | immutable_container/include/immutable_container/zip_list.h:932-958 | storing one entry keeps all earlier keys and values readable, the key regions below the value regions, and the byte counts exact |
| PackedArena.StoredKeySize | immutable_container/include/immutable_container/zip_list.h:618-622 | the size kept with a key is the number of inline bytes it takes |
| PackedArena.PackedBlock.CanInsert | immutable_container/include/immutable_container/zip_list.h:463-475 | the loop over the stored keys decides whether the new key fits |
| PackedArena.PackedBlock.StoreKey | immutable_container/include/immutable_container/zip_list.h:879-902 | oversized keys go to the external list, others to the next free bytes; what was stored reads back and no other byte changes |
| PackedArena.PackedBlock.ConstructValue | immutable_container/include/immutable_container/zip_list.h:904-930 | values of 15 to 64 bytes go to the last free bytes while room and budget last, and are kept as the address where they lie; others keep their own bytes; the value reads back and no other byte changes |
| PackedArena.PackedBlock.ConstructBack | immutable_container/include/immutable_container/zip_list.h:932-958 | appends exactly the given entry, or fails exactly when the count, the keys or the remaining bytes forbid it and leaves the entries as they were |
| PackedArena.PackedBlock.Store | immutable_container/include/immutable_container/zip_list.h:544-554 | within the budget of a fitting target no store fails |
| PackedArena.PackedBlock.FromSortedEntries | immutable_container/include/immutable_container/zip_list.h:436-449 | builds exactly the given entries, and succeeds exactly when they fit |
| PackedArena.PackedBlock.WithInserted | immutable_container/include/immutable_container/zip_list.h:533-555 | a new block with the entry inserted, all others unchanged; the three errors exactly when and in the order the code raises them |
| PackedArena.PackedBlock.WithUpdated | immutable_container/include/immutable_container/zip_list.h:557-573 | a new block with one value replaced, for every value and every index in range |
| PackedArena.PackedBlock.WithErased | immutable_container/include/immutable_container/zip_list.h:613-629 | a new block without the entry, for every index in range |
| PackedArena.PackedBlock.CanMerge | immutable_container/include/immutable_container/zip_list.h:677-690 | two blocks may merge exactly when their entries together fit |
| PackedArena.PackedBlock.Merged | immutable_container/include/immutable_container/zip_list.h:692-707 | the merged block holds the entries of both in order |
| PackedArena.PackedBlock.CopyFrom | immutable_container/include/immutable_container/zip_list.h:960-971 | a copy has the same entries |
| PackedArena.Rebased | immutable_container/include/immutable_container/zip_list.h:973-992 | every borrowed value of a block passes the test whether its address lies in the buffer, so every one is re-based; at the new address the slots read the same bytes in the same layout |
| PackedArena.StalePointers | immutable_container/include/immutable_container/zip_list.h:980-992 | taken over without re-basing, into a buffer that does not overlap the old one, the slots keep the layout exactly when no value is borrowed |
| PackedArena.PackedBlock.MoveValueFrom | immutable_container/include/immutable_container/zip_list.h:980-992 | an address inside the other buffer becomes the address at the same distance from the start of this one; any other value is taken over as it is |
| PackedArena.PackedBlock.MoveFrom | immutable_container/include/immutable_container/zip_list.h:994-1011 | for buffers at any two addresses, a move takes over every entry in a valid layout and empties the source |
| RefCount.Heap.Release | immutable_container/include/immutable_container/shared_ptr.h:71-76 | the cascade terminates, drops exactly one pointer, frees each node whose count reaches zero once, and keeps every count equal to the pointers |
| RefCount.Heap.Retain | immutable_container/include/immutable_container/shared_ptr.h:65-69 | one more pointer is accounted for |
| RefCount.Heap.ReleaseCurrent | immutable_container/include/immutable_container/shared_ptr.h:71-76 | the variable becomes null and all counts stay exact |
| RefCount.Heap.CopyAssign | immutable_container/include/immutable_container/shared_ptr.h:27-35 | copy assignment, self-assignment included, copies the pointer and keeps all counts exact |
| RefCount.Heap.CopyFieldOf | immutable_container/include/immutable_container/shared_ptr.h:27-35 | copying a pointer out of any node that stays when the target gives up its own, which is any node the other variables reach: the field, read again after the release, is still there, is what the variable then holds, and all counts stay exact |
| RefCount.Heap.CopyField | immutable_container/include/immutable_container/shared_ptr.h:27-35 | the same for the node a variable holds; target and holder may be one variable when the count of its node is above one |
| RefCount.SharedIffReached | immutable_container/include/immutable_container/shared_ptr.h:8-79 | a node held by a variable has a count above one exactly when it is reached without that variable |
| RefCount.Heap.FindMin | immutable_container/include/immutable_container/immutable_block_tree.h:332-338 | the walk that overwrites one variable with the left field of the node it holds ends at the leftmost node, frees nothing and keeps all counts exact |
| RefCount.Heap.MoveAssign | immutable_container/include/immutable_container/shared_ptr.h:37-45 | move assignment, self-assignment included, moves the pointer and keeps all counts exact |
| RefCount.Heap.MakeNode | immutable_container/include/immutable_container/immutable_tree.h:209-217 | building a node from two moved pointers adopts it with count one |
| RefCount.LiveIffReachable | immutable_container/include/immutable_container/shared_ptr.h:8-79 | when every count equals its pointers, the live nodes are exactly those reachable from a variable |
| RefCount.Heap.LiveExactly | immutable_container/include/immutable_container/ref_count_policy.h:9-28 | after any operations: live means reachable, the count is the number of pointers, and every unreachable node has been freed exactly once |
| FreeList.StepKeepsInv | concurrent_queue/include/concurrent_queue/moodycamel.h:1623-1720 | every atomic step of every thread, and every hand-over of a taken node to another thread, keeps: each 32-bit word is the flag plus the list reference plus the references threads answer for, and next spells the list |
| FreeList.RunKeepsInv | concurrent_queue/include/concurrent_queue/moodycamel.h:1623-1720 | the invariant holds in every reachable state, whichever threads take, hand over and add the nodes |
| FreeList.HeadCasIsPop | concurrent_queue/include/concurrent_queue/moodycamel.h:1655-1669 | no ABA: a successful head compare-exchange removes the first node and installs exactly the rest of the list |
| FreeList.OnePlaceEach | concurrent_queue/include/concurrent_queue/moodycamel.h:1623-1720 | in every run each node is held by a client, on the list, awaiting its pending add, or being linked by one thread; no two threads handle the same node |
| FreeList.QuiescentNodes | concurrent_queue/include/concurrent_queue/moodycamel.h:1676-1679 | once all threads are idle no node is lost: each is held with count 0 or listed with count 1 |
| FreeList.WordsNeverWrap | concurrent_queue/include/concurrent_queue/moodycamel.h:1663-1668 | the word never wraps, the flag is clear when add sets it, and the assertion after a removal holds |
| FreeList.NullMeansEmpty | concurrent_queue/include/concurrent_queue/moodycamel.h:1639-1682 | in every run the next step of a try_get ends it without a node only if the head it last read was null, and from the load of head it ends exactly then |
| FreeList.LoneGet | concurrent_queue/include/concurrent_queue/moodycamel.h:1639-1682 | from every reachable state, wherever the other threads stand, a try_get that runs alone returns the first node of the list, and changes nothing exactly when the list is empty; the whole new state |
| FreeList.LoneAdd | concurrent_queue/include/concurrent_queue/moodycamel.h:1623-1720 | an add that runs alone puts the node at the front of the list when no other thread refers to it, and otherwise leaves it flagged for the last one that does; the whole new state |
| DequeueAccounting.CoveredGrant | concurrent_queue/include/concurrent_queue/moodycamel.h:2580-2582 | the second test grants only elements that exist, although the overcommit reading is old |
| DequeueAccounting.GrantsExist | concurrent_queue/include/concurrent_queue/moodycamel.h:2580-2582 | in every run: after the second test every granted claim is covered by the tail |
| DequeueAccounting.StepKeepsInv | concurrent_queue/include/concurrent_queue/moodycamel.h:2198-2264 | every step of a producer and any number of consumers, single or bulk, keeps the accounting invariant |
| DequeueAccounting.NeverPassesTail | concurrent_queue/include/concurrent_queue/moodycamel.h:2572-2592 | in every run the head index never passes the tail index and counts the takers on record, no element is promised that does not exist, and no index is being taken by two consumers |
| DequeueAccounting.TakenFromProduced | concurrent_queue/include/concurrent_queue/moodycamel.h:2572-2592 | in every run the tail is the number of elements enqueued, and that number is what has been taken and what is still there |
| DequeueAccounting.TakersGrow | concurrent_queue/include/concurrent_queue/moodycamel.h:2589-2592 | from any state on, who took which index never changes again |
| DequeueAccounting.TakesApart | concurrent_queue/include/concurrent_queue/moodycamel.h:2589-2592 | over a whole run no index is taken twice: whatever happens in between, a later take starts behind an earlier one, whose indices stay with their consumer |
| DequeueAccounting.Redeemable | concurrent_queue/include/concurrent_queue/moodycamel.h:2589-2592 | in every run a consumer about to advance the head finds all its elements below the tail |
| DequeueAccounting.EventuallyConsistent | concurrent_queue/include/concurrent_queue/moodycamel.h:2313-2320 | in every run, when no consumer is deciding, the optimistic count less the overcommit is the head again |
| DequeueAccounting.LoneDequeue | concurrent_queue/include/concurrent_queue/moodycamel.h:2572-2690 | a dequeue that runs alone takes the oldest min(max, size) elements, and nothing exactly when the queue is empty |
| DequeueAccounting.CircularTests | concurrent_queue/include/concurrent_queue/moodycamel.h:588-600 | the tests on wrapped 64-bit words agree with the tests on the unbounded counters while the available count lies within half a word |
| DequeueAccounting.CircularTestsLimit | concurrent_queue/include/concurrent_queue/moodycamel.h:588-600 | one step further on either side the test errs |
| DequeueAccounting.WordsSuffice | concurrent_queue/include/concurrent_queue/moodycamel.h:2198-2243 | in every run, while tail and optimistic count are below half a word, the step with both tests on 64-bit words is the unbounded step, for single and for bulk dequeues |
| MichaelScott.StepKeepsInv | concurrent_queue/include/concurrent_queue/lock_free_queue.h:85-149 | every allocation, load, store and compare-exchange of every thread keeps the invariant |
| MichaelScott.OnePlaceEach | concurrent_queue/include/concurrent_queue/lock_free_queue.h:90-149 | in every run each allocated node is exactly one of not yet linked, on the queue, on its way to the retired list, retired; no two threads answer for the same node |
| MichaelScott.FirstInFirstOut | concurrent_queue/include/concurrent_queue/lock_free_queue.h:98-149 | under every interleaving the dequeued values are a prefix of the values in link order, tail is neither behind head nor more than one node behind the end, and next is never null where it is dereferenced |
| MichaelScott.EmptyIsJustified | concurrent_queue/include/concurrent_queue/lock_free_queue.h:126-135 | in every run: a dequeue that reports an empty queue read next at a moment when every linked value had been taken |
| MichaelScott.QuietNodes | concurrent_queue/include/concurrent_queue/lock_free_queue.h:90-96 | after every run with no call in progress every node ever allocated is on exactly one of the active and the retired list |
| MichaelScott.FreeActive | concurrent_queue/include/concurrent_queue/lock_free_queue.h:151-157 | the walk along next frees the active nodes in order |
| MichaelScott.FreeRetired | concurrent_queue/include/concurrent_queue/lock_free_queue.h:159-164 | the walk along gc_next frees the retired nodes, newest first |
| MichaelScott.DestroyNodes | concurrent_queue/include/concurrent_queue/lock_free_queue.h:151-168 | destruction frees every allocated node exactly once |
| LoneCalls.LoneEnqueue | concurrent_queue/include/concurrent_queue/lock_free_queue.h:85-124 | wherever the other threads stand, an enqueue that runs alone ends with its value linked behind all others, after helping the tail on if that lagged |
| LoneCalls.LoneDequeue | concurrent_queue/include/concurrent_queue/lock_free_queue.h:126-149 | a dequeue that runs alone takes the oldest value and retires its predecessor, and changes nothing exactly when the queue is empty |
| Linearizability.Linearizable | concurrent_queue/include/concurrent_queue/lock_free_queue.h:98-149 | under every interleaving the link exchanges, head exchanges and null loads, in order, are a history of a sequential queue that ends with the values the queue holds, and the events of each thread follow the pattern call, effect, return |
| Linearizability.CallHasPoint | concurrent_queue/include/concurrent_queue/lock_free_queue.h:98-149 | in every run each call that returns took effect at exactly one step between its call and its return: an enqueue added its argument, a dequeue removed the value it returns, or saw the queue empty; so real-time order is kept |
| Linearizability.EffectHasCall | concurrent_queue/include/concurrent_queue/lock_free_queue.h:98-149 | in every run no value is added or removed but as the one effect of a call in progress that asks for it |
| Linearizability.NullMeansEmpty | concurrent_queue/include/concurrent_queue/lock_free_queue.h:126-135 | a null next loaded by a dequeue means that the queue is empty at that step, although the head it read may be old |
| Vyukov.StepKeepsInv | concurrent_queue/include/concurrent_queue/vyukov_bounded_queue.h:102-157 | every step of every thread keeps the invariant of cells, tickets and positions |
| Vyukov.RingSafety | concurrent_queue/include/concurrent_queue/vyukov_bounded_queue.h:84-157 | in every run the dequeue position never passes the enqueue position nor falls more than N behind, at most one thread is in the data phase of a cell, and the value taken at a ticket is the value enqueued at it |
| Vyukov.Deliveries | concurrent_queue/include/concurrent_queue/vyukov_bounded_queue.h:136-157 | over every run: only claimed tickets are delivered, each at most once and with the value enqueued at it, to each consumer in ticket order; and every claimed ticket is delivered or about to be copied out by its consumer |
| Vyukov.FailedEnqueue | concurrent_queue/include/concurrent_queue/vyukov_bounded_queue.h:104-116 | in every run: the sequence test reports full exactly when the N tickets before the next are claimed and the oldest is not yet released |
| Vyukov.FailedDequeue | concurrent_queue/include/concurrent_queue/vyukov_bounded_queue.h:136-148 | in every run: the sequence test reports empty exactly when no ticket is at the position or it is still being written |
| Vyukov.LoneEnqueue | concurrent_queue/include/concurrent_queue/vyukov_bounded_queue.h:104-127 | wherever the other threads stand, an enqueue that runs alone stores its argument at the next ticket when the cell there has been released, and changes nothing otherwise; the whole new state |
| Vyukov.LoneDequeue | concurrent_queue/include/concurrent_queue/vyukov_bounded_queue.h:136-157 | a dequeue that runs alone delivers the oldest value when its cell has been published, and changes nothing otherwise; the whole new state |
| Vyukov.QuietRing | concurrent_queue/include/concurrent_queue/vyukov_bounded_queue.h:84-157 | after every run with no call in progress there is room exactly for fewer than N values, and a value to take exactly when the queue is not empty |
| RingCalls.SuccessesAreFifo | concurrent_queue/include/concurrent_queue/vyukov_bounded_queue.h:102-157 | under every interleaving the successful calls are, in the order of their claims, a history of a sequential queue that ends with the values not yet claimed, and the tickets are the values that history adds |
| RingCalls.CallHasPoint | concurrent_queue/include/concurrent_queue/vyukov_bounded_queue.h:102-157 | in every run each call that returns success took effect at exactly one step between its call and its return: an enqueue added its argument, a dequeue removed the value it returns; each that gives up had read a busy cell during the call and changed nothing |
| RingCalls.TicketIsArgument | concurrent_queue/include/concurrent_queue/vyukov_bounded_queue.h:104-127 | in every run the value at every ticket is the argument of a call of enqueue, whose one effect it is |
| RingCalls.DeliveryIsArgument | concurrent_queue/include/concurrent_queue/vyukov_bounded_queue.h:136-157 | in every run every value delivered is the argument of a call of enqueue |
| Vyukov.InitInv | concurrent_queue/include/concurrent_queue/vyukov_bounded_queue.h:84-93 | the constructor establishes the invariant |
| ProducerQueue.LoadStored | concurrent_queue/include/concurrent_queue/simple_concurrent_queue.h:75-93 | the two-level index returns what was stored and nothing else changes |
| ProducerQueue.StepKeepsInv | concurrent_queue/include/concurrent_queue/simple_concurrent_queue.h:172-194 | every step of the producer and of every consumer keeps the invariant |
| ProducerQueue.FirstInFirstOut | concurrent_queue/include/concurrent_queue/simple_concurrent_queue.h:274-324 | in every run: claims are in order and never pass the tail, no two consumers hold the same slot, each slot is moved out at most once and yields the element constructed there, and every claimed slot is either moved out already or pending with one consumer |
| ProducerQueue.EmptyIsJustified | concurrent_queue/include/concurrent_queue/simple_concurrent_queue.h:274-281 | in every run the comparison with the tail ends a dequeue exactly when the tail is not beyond the slot it read, and then every slot has been claimed |
| ProducerQueue.LoneDequeue | concurrent_queue/include/concurrent_queue/simple_concurrent_queue.h:274-324 | wherever the others stand, a dequeue that runs alone moves out the oldest unclaimed element, and changes nothing exactly when there is none; the whole new state |
| ProducerQueue.LoneEmplace | concurrent_queue/include/concurrent_queue/simple_concurrent_queue.h:172-194 | an emplace that runs alone appends and publishes its element, or is refused exactly at the first slot beyond 2097152 |
| ProducerCalls.Linearizable | concurrent_queue/include/concurrent_queue/simple_concurrent_queue.h:172-324 | under every interleaving the publications, claims and failed comparisons are a history of a sequential queue that ends with the elements not yet claimed |
| ProducerCalls.CallHasPoint | concurrent_queue/include/concurrent_queue/simple_concurrent_queue.h:172-324 | in every run each call that returns took effect at exactly one step between its call and its return: an emplace added its argument, a dequeue removed the element it returns or saw the queue empty, a refused emplace changed nothing |
| ProducerCalls.ValueIsArgument | concurrent_queue/include/concurrent_queue/simple_concurrent_queue.h:172-194 | in every run the element at every published slot is the argument of a call of emplace |
| ProducerQueue.NothingToWaitFor | concurrent_queue/include/concurrent_queue/simple_concurrent_queue.h:289-312 | in every run: when a consumer looks, its block is indexed and has the base of its slot, the slot is committed and its element is alive; neither wait ever waits |
| ProducerQueue.QuietStorage | concurrent_queue/include/concurrent_queue/simple_concurrent_queue.h:115-134 | after every run with no call in progress exactly the unclaimed slots hold an element |
| ProducerQueue.Destruct | concurrent_queue/include/concurrent_queue/simple_concurrent_queue.h:115-143 | the destructor destroys exactly the elements still in the queue, each once, and frees every block once |
| RespNumber.ParseSignedNumber | redis/include/redis/resp.h:93-136 | accepts exactly an optional minus and at least one digit denoting a 64-bit signed integer, and returns it; the division test is exact |
| RespNumber.WriteDigits | redis/include/redis/resp.h:157-160 | the digit loop fills the end of the buffer with the decimal text and never runs out of buffer |
| RespNumber.AppendSignedInteger | redis/include/redis/resp.h:144-166 | appends the decimal text, the minimum included |
| RespNumber.AppendUnsignedInteger | redis/include/redis/resp.h:168-179 | appends the decimal text |
| RespNumber.DecimalLength | redis/include/redis/resp.h:181-188 | counts exactly the characters printing appends |
| RespNumber.PrintThenParse | redis/include/redis/resp.h:93-166 | printing then parsing is the identity exactly on the 64-bit signed integers |
| RespNumber.NumberHasText | redis/include/redis/resp.h:93-136 | the parser accepts exactly the decimal texts of the 64-bit signed integers, with any zeros in front of the digits and a minus sign unless positive |
| RespNumber.ParseForgets | redis/include/redis/resp.h:93-136 | leading zeros and a negative zero are accepted, so parsing then printing is not the identity |
| RespTree.ReadLine | redis/include/redis/resp.h:75-91 | the loop returns the line up to the first line feed, which a carriage return must precede |
| RespTree.PackSimpleString | redis/include/redis/resp.h:321-325 | appends exactly the encoding |
| RespTree.PackError | redis/include/redis/resp.h:327-331 | appends exactly the encoding |
| RespTree.PackInteger | redis/include/redis/resp.h:333-337 | appends exactly the encoding |
| RespTree.PackBulkString | redis/include/redis/resp.h:339-345 | appends exactly the encoding |
| RespTree.PackNullBulkString | redis/include/redis/resp.h:347-347 | appends exactly the encoding |
| RespTree.PackArrayHeader | redis/include/redis/resp.h:349-353 | appends the header of an array |
| RespTree.PackNullArray | redis/include/redis/resp.h:355-355 | appends exactly the encoding |
| RespTree.PackCommand | redis/include/redis/resp.h:357-369 | appends an array of bulk strings, and the size it reserves is exactly the size it appends |
| RespTree.RoundTrip | redis/include/redis/resp.h:198-421 | for every value: its packed bytes followed by anything decode to it and consume exactly its bytes if and only if it is within the limits, its lines hold no line feed, its integers have 64 bits and its cells fit |
| RespTree.PackThenParse | redis/include/redis/resp.h:198-317 | the same at any position, depth and free cell |
| RespTree.SpelledIsRead | redis/include/redis/resp.h:198-317 | every text of an acceptable value, packed or with other digits in its numbers, is read as that value, exactly its bytes and cells being used |
| RespTree.PackedIsSpelled | redis/include/redis/resp.h:321-369 | what is packed is one of the texts of the value |
| RespGrammar.Accepted | redis/include/redis/resp.h:75-421 | for every input: it decodes to a value, consuming n bytes, if and only if its first n bytes are a text of the value, the value is within the limits and its cells fit; the texts are stated on bytes |
| RespGrammar.Rejected | redis/include/redis/resp.h:75-421 | for every input and every verdict other than success: decoding gives it if and only if the first value that cannot be decoded, in reading order, has the defect it names; the defects are stated on bytes, limits and free cells |
| RespTree.ParsedIsAcceptable | redis/include/redis/resp.h:198-317 | whatever is decoded is within the limits and uses exactly its cells |
| RespTree.ParseStable | redis/include/redis/resp.h:198-317 | a verdict other than need-more is unchanged by appending bytes |
| RespTree.PrefixNeedsMore | redis/include/redis/resp.h:371-391 | every proper prefix of a packed acceptable value yields need-more |
| RespTree.NeedMoreMayBeHopeless | redis/include/redis/resp.h:219-223 | need-more does not promise that some continuation succeeds |
| RespStream.DrainSplit | redis/README.md:54-78 | bytes that arrive later continue where the loop stopped, or are never looked at |
| RespStream.ChunkedValues | redis/README.md:54-78 | feeding in chunks yields the values of the whole stream followed by whatever the chunks after a dropped buffer decode to |
| RespStream.ChunkingIsInvisible | redis/README.md:54-78 | for every stream: all ways of cutting it give the values of the whole stream if and only if, behind every prefix on which decoding fails, the rest of the stream does not start with a value |
| RespStream.DropPointDecides | redis/README.md:54-78 | with the shortest failing prefix known, cutting is invisible if and only if no rest of the stream from there on starts with a value |
| RespStream.CleanStream | redis/README.md:54-78 | a stream that decodes without a failing verdict may be cut anywhere |
| RespStream.ChunkingCanMatter | redis/README.md:69-72 | a concrete stream on which chunking is visible, because an error drops only what has arrived |
| RespStream.PackedStream | redis/README.md:54-78 | any packed acceptable values arrive complete and in order however the stream is cut |
| RespStream.Feeder.FeedBytes | redis/README.md:54-78 | the documented loop decodes exactly what draining the buffer means |
| RespUnpack.ParseValueAt | redis/include/redis/resp.h:198-317 | writes only the target cell and agrees with the header reading on verdict, cell, bytes consumed and cells taken |
| RespUnpack.ReadArray | redis/include/redis/resp.h:394-404 | an accepted non-empty array always finds room on the frame stack, so the full-stack branch is unreachable |
| RespUnpack.UnpackOne | redis/include/redis/resp.h:371-421 | the frame-stack loop terminates with the verdict, error, bytes consumed and value tree of the recursive-descent reading, laid out from cell 0 |
| RespUnpack.ChildrenCover | redis/include/redis/resp.h:301-312 | after a successful decode every cell from 1 to the last one used is the child of exactly one cell, which lies before it, and no other cell is a child |
| KdTree.SquaredDistance | computational_geometry/include/computational_geometry/kdtree.h:34-41 | the loop computes the squared distance |
| KdTree.DistanceCons | computational_geometry/include/computational_geometry/kdtree.h:34-41 | one more coordinate adds the product of its difference with itself; no coordinates are no distance |
| KdTree.BeyondPlane | computational_geometry/include/computational_geometry/kdtree.h:137-148 | a point beyond the splitting plane is at least as far as the plane, equal coordinates on either side included |
| KdTree.BuildTree | computational_geometry/include/computational_geometry/kdtree.h:89-106 | builds an ordered tree of exactly the points of the range, whose parts below every node differ by at most one point, and only rearranges the range |
| KdTree.MidwayIsLow | computational_geometry/include/computational_geometry/kdtree.h:89-106 | in a built tree the parts below every node differ by at most one point, so fewer than 2^h points are at most h high |
| KdTree.InsertKeepsOrder | computational_geometry/include/computational_geometry/kdtree.h:108-122 | insertion adds one occurrence of the point and keeps every split |
| KdTree.NearestNeighborRecursive | computational_geometry/include/computational_geometry/kdtree.h:124-149 | the pruned search ends at the best of what it was given and all points of the subtree |
| KdTree.FilterIsExact | computational_geometry/include/computational_geometry/kdtree.h:151-177 | testing every point keeps exactly the points inside the box, with multiplicity |
| KdTree.FacesAreInside | computational_geometry/include/computational_geometry/kdtree.h:151-164 | a point on either face of the box is inside, a point beyond one is not |
| KdTree.RangeQueryRecursive | computational_geometry/include/computational_geometry/kdtree.h:151-177 | the pruned search appends what testing every point would |
| KdTree.ReplaceFarthest | computational_geometry/include/computational_geometry/kdtree.h:189-192 | replacing the top by a nearer point keeps the queue the k nearest of what was seen |
| KdTree.SecondTooFar | computational_geometry/include/computational_geometry/kdtree.h:202-204 | skipping the far side loses none of the k nearest |
| KdTree.KNearestNeighborsRecursive | computational_geometry/include/computational_geometry/kdtree.h:179-205 | the queue ends as k nearest of everything seen before and all points of the subtree |
| KdTree.KdTree.Build | computational_geometry/include/computational_geometry/kdtree.h:210-219 | the tree holds exactly the given points, parted in the middle below every node |
| KdTree.KdTree.Insert | computational_geometry/include/computational_geometry/kdtree.h:221-224 | the tree holds one point more |
| KdTree.KdTree.NearestNeighbor | computational_geometry/include/computational_geometry/kdtree.h:226-234 | fails exactly on the empty tree; returns a nearest point if some point is nearer than the greatest coordinate value, and the origin otherwise; so the result is a nearest point of the tree if and only if some point is nearer than that value or the origin itself is a nearest point of the tree |
| KdTree.FarPointIsMissed | computational_geometry/include/computational_geometry/kdtree.h:226-234 | 32-bit coordinates on which the only point of a tree is exactly 0x7fffffff away and is missed |
| KdTree.MissesFarPoint | computational_geometry/include/computational_geometry/kdtree.h:210-234 | building that tree and searching it returns the origin, which is not in the tree |
| KdTree.KdTree.RangeQuery | computational_geometry/include/computational_geometry/kdtree.h:236-241 | returns exactly the points in the box, each as often as it was added |
| KdTree.KdTree.KNearestNeighbors | computational_geometry/include/computational_geometry/kdtree.h:243-264 | min(k, size) points in ascending distance, none of the others nearer than any of them; none for k up to 0 |

## Left out

- Memory orderings, fences, back-off, padding and thread-local caches: atomics are sequentially consistent.
- Counter wrap-around in the queues: positions, counters and indices are unbounded; `DequeueAccounting.WordsSuffice` says how far the 64-bit tests agree. The free list's 32-bit words are modelled modulo 2^32.
- The 64-bit positions of the bounded ring and of the per-producer queue are unbounded, and masking with a power of two less one is the remainder.
- The queue step machines are values rather than objects: reuse of freed addresses by the allocator is not modelled; nodes are numbered and never reused before destruction, as the queues guarantee themselves.
- The rest of `moodycamel.h`: implicit producers, block index growth, tokens, exceptions, allocation, element transfer between blocks.
- `two_lock_queue.h` and `sharded_vyukov_queue.h`: a lock-guarded simpler queue, and shard scanning around the ring proved here.
- Producer registration and round-robin over producers in `simple_concurrent_queue.h`: each producer's queue is modelled alone, and elements are integers.
- Linearizability of the free list and of the dequeue counters, of failed calls of the bounded ring (what they saw is `Vyukov.FailedEnqueue` and `Vyukov.FailedDequeue`), and liveness of any queue beyond calls that run alone.
- `PackedString` ownership tags: keys and values are character sequences; who owns the bytes of an oversized key or of a copied borrowed value is not claimed. The count of external values is left out.
- The packed set and unit-value blocks beyond the fit predicate of `ZipList`: they repeat the packed map's arena without values.
- Overflow of a reference count, and the atomic counter policy as a step machine.
- Exceptions thrown by user types and allocation failure.
- Iteration by callback, statistics and test helpers of the containers.
- Overflow and rounding of KD-tree coordinates: they are exact integers, and the distance as a square root is left out. Selection and the priority queue are stood in for by simple implementations of the contracts of the standard library.
- `range_tree.h`, `imt_map.h`, `imt_set.h`: thin or easy beside the trees.
- `point_circle.h` and `edge_polygon.h`: floating-point geometry.
- Sockets, pipes, benchmarks, report generation and scripts.
- RespUnpack.UnpackOne: does not say what the scratch cells hold after a verdict other than success, because the caller may not read them.
- ProducerQueue.Destruct: does not read a missing block, because every block below the tail is indexed; the early exit of the destructor's loop is therefore not written out.
