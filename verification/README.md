# Verified models of five data structures

This project models five components of a C utility library and proves, in Dafny 4.11, what they are for:

- **a dense hash table** (`src/my_dyn_hash.c`) whose records fill the slots `0..records-1` of one array, with
  chains threaded through the same array; every insert splits one bucket in place and every delete merges one;
- **a red-black tree** (`src/my_rbtree.c`) without parent pointers: a fixed array of 64 link addresses takes
  their place, one shared sentinel stands for every missing child, and nodes are known by address;
- **two read/write locks** (`src/my_pr_rwlock.c`, `src/my_rwlock.c`), as step machines over any number of threads,
  one mutex and condition queues, with spurious wake-ups and a place of its own for a thread that has been woken
  but does not have the mutex yet;
- **a priority queue** (`src/my_queue.c`): a binary heap in an array with a sentinel in slot 0, bottom-up sinking and
  linear-time repair.

`dafny verify dfyconfig.toml` checks everything.

## How it is built

**Hash table.** `Chains` says what a well-chained array is: a witness gives each slot its home, its predecessor and
its rank on the chain, every chain starts at its own home slot, at most one slot is a hole, and links held
back by a loop are allowed for. `ShapeOps`, `ChainOps` and `ChainSplit` prove the single array writes; `SplitLoop` proves
the four-flag splitting loop with its deferred writes as a simulation: the array plus the writes that are still due
is always well chained. `HashLoops`, `HashSteps`, `HashRelink`, `HashSearch` are the methods over link arrays, and
`LinearHash` is the class. Hash number and key of a record are functions of the record; the key function is a field, because callers
change keys and then call update.

**Tree.** `RbShape` is the memory of nodes and the search-tree invariant: per node its parent and the open interval
of keys below it, all local facts. `RbLinks`, `RbTransplant`, `RbRemove` prove the rewrites of links, `RbBalance` and `RbTurns`
what they do to colours and black counts, `RbPath` and `RbHeight` the stack and its bound. `RbInsertFixup` and `RbDeleteFixup`
hold the two repair loops, `RbDescend` the descents and unlinking, `RbSearch` and `RbWalk` ordered search, stepping,
walks and the balance check, `RedBlackTree` (in `RbTree.dfy`) the class. The original writes each case of a fixup twice, mirrored; the model writes it
once with the side as a boolean, found by the same comparison. A freed node leaves the memory map when it is unlinked, which is
earlier than in the original and so shows that the repair never touches it.

**Locks.** Each access to shared data is a step of its own. A mutex belongs to at most one thread; a wait gives it up and
sleeps; a signal wakes any non-empty set of sleepers if there is one, a broadcast wakes all, and any sleeper may wake for no reason.

**Queue.** `HeapOrder` and `HeapLoops` hold the order, the loops on the array and a count that every call of the comparison adds to; `PriorityQueue`
(in `Queue.dfy`) the class.

## Where the code differs from what is said about it

- `my_hash_update` in an empty table masks with `(1 >> 1) - 1`, which wraps, and looks outside the array unless the two hash
  numbers are the same (`src/my_dyn_hash.c:594-602`). `LinearHash.HashTable.Update` has an outcome of its own for that, and
  `LinearHash.UpdateInside` and `LinearHash.UpdateOutside` give the exact condition and an input.
- A record pointer may be stored several times in a table that is not unique. `my_hash_update` moves one copy only, and the others
  stay in the chain of the old key (`src/my_dyn_hash.c:600-652`): the chains fit the new keys exactly when there is at most one copy,
  or both keys have the same home. `LinearHash.UpdateIn` proves this equivalence, and `LinearHash.TwoCopies` is the smallest case.
- `my_hash_update` reports success for a record that is not stored when the old and the new key have the same home
  (`src/my_dyn_hash.c:597-598`); `LinearHash.HashTable.Update` states when exactly it fails, and `LinearHash.AbsentRecord` is an input.
- `queue_remove` of an interior place only sinks the element that takes the place; order is kept exactly when that element does
  not sort before the parent of the place (`src/my_queue.c:238-248`). `PriorityQueue.Queue.Remove` states this as an equivalence and
  `PriorityQueue.RemoveMayBreak` gives a heap that breaks. The assertion in the code lets through places beyond the last
  element; then the last element is dropped, and a left-over is returned, which the contract says too.
- `queue_remove` on an empty queue wraps the element count, and sinking then takes every slot to be in use: it ends at once or looks
  outside the array. `PriorityQueue.Queue.Remove` has outcomes of their own for that, with the exact condition.
- `rbtree_insert` charges for a node with 32 bits and `rbtree_delete` takes it off with 64 (`src/my_rbtree.c:203-204`, `:308`): the bytes in
  use are what the nodes take exactly when a node's size fits 32 bits. `RedBlackTree.RbTree.Insert` states this as an equivalence.
- In `rbtree_insert` memory is charged for before it is there, and stays charged when allocation fails (`src/my_rbtree.c:203-220`); the model does the same.

## Model

| member | source | states |
|---|---|---|
| BitMask.AndMask | src/my_dyn_hash.c:175-180 | masking with a power of two less one is the remainder |
| BitMask.MaskBelow | src/my_dyn_hash.c:175-180 | the masked slot is below the number of slots, for every hash number |
| BitMask.MaskDoubling | src/my_dyn_hash.c:459-460 | doubling the buffer bound at the boundary moves no hash number |
| BitMask.MaskGrow | src/my_dyn_hash.c:366-380 | one more slot moves exactly the hash numbers of bucket n - blength/2 that have the split bit set, and moves them to the new slot |
| BitMask.MaskEmpty | src/my_dyn_hash.c:175-180 | in an empty table nothing is masked off, because the half mask wraps: the slot is the hash number itself |
| Homes.HomeShrink | src/my_dyn_hash.c:500-501 | one slot less moves exactly the hash numbers of the vanished bucket, all into one other bucket |
| Homes.GrowSplits | src/my_dyn_hash.c:366-380 | growing splits one bucket by one bit, for all records |
| Homes.ShrinkMerges | src/my_dyn_hash.c:500-519 | shrinking merges the last bucket into one other, for all records |
| Chains.ChainExists | src/my_dyn_hash.c:248-264 | in a well-chained array the chain from a home slot ends, has no cycle, and visits exactly the slots whose records have that home |
| Chains.HeadInPlace | src/my_dyn_hash.c:258-263 | if any record has home i, slot i holds such a record |
| ChainPaths.PathTo | src/my_dyn_hash.c:299-307 | a slot that is not a chain head is reached from its record's home, so the search for the link to it ends |
| HashLoops.MoveLink | src/my_dyn_hash.c:299-307 | exactly the one link of the chain that led to `find` is redirected, everything else stays |
| SplitLoop.TurnOk | src/my_dyn_hash.c:372-426 | each turn of the splitting loop, whichever of its five cases, keeps the array with its deferred writes well chained for the new homes and loses no record |
| SplitLoop.WholeRun | src/my_dyn_hash.c:366-437 | the whole loop leaves two complete chains at their own slots, exactly one free slot, and the same records |
| HashLoops.SplitTurn | src/my_dyn_hash.c:374-425 | the flags, pending places and writes of one turn are those of the specification |
| HashLoops.SplitBucket | src/my_dyn_hash.c:366-437 | the loop with its early exit and its two final writes produces the specified array and free slot |
| HashSteps.PlaceRecord | src/my_dyn_hash.c:438-458 | the new record is in its home slot afterwards, in front of the chain there or in place of an evicted foreign record; the table is well chained and gains that record only |
| HashSteps.Unlink | src/my_dyn_hash.c:502-513 | the record leaves its chain; one slot is free, no other slot loses its record unless the second of the chain moves up to its head, and the rest is well chained and unchanged as a multiset |
| HashSteps.MergeEvict | src/my_dyn_hash.c:528-534 | last record takes its home from a foreign record, which moves to the free slot |
| HashSteps.MergeMoveLast | src/my_dyn_hash.c:536-543 | last record stays in its bucket and moves to the free slot |
| HashSteps.MergeJoin | src/my_dyn_hash.c:544-549 | the chain of the vanished bucket is joined with that of its new home, whether both records come from it or not |
| HashSteps.MergeOccupied | src/my_dyn_hash.c:525-549 | all three cases with an occupied new home leave the table of one slot less well chained, with the same records |
| HashSteps.MergeLast | src/my_dyn_hash.c:514-549 | emptying the last slot leaves the table of one slot less well chained, with the same records |
| HashSteps.MakeRoom | src/my_dyn_hash.c:641-646 | a foreign record in the wanted slot moves to the free one with its chain intact, and the wanted slot becomes the free one |
| HashRelink.HomesKept | src/my_dyn_hash.c:620-652 | links determine homes: when the free slot is filled and every link kept or led through it, every record has the home it had |
| HashRelink.StrayRecord | src/my_dyn_hash.c:620-652 | a copy of the record that stays in the chain of the old key makes the table ill chained for the new keys |
| HashRelink.RelinkRecord | src/my_dyn_hash.c:620-652 | in each of the three cases the record comes back into the table, behind the head of its new chain if that has one, and the table is well chained for the new keys exactly when no copy stayed behind |
| HashSearch.FirstFromHashValue | src/my_dyn_hash.c:239-269 | the search with its "wrong link" exit returns the first matching slot of the chain, or none |
| HashSearch.HitsExact | src/my_dyn_hash.c:239-294 | the matches along the chain are exactly the slots that hold the key, each once |
| HashSearch.NextRecord | src/my_dyn_hash.c:274-294 | the next match behind the current slot |
| LinearHash.HashTable.constructor | src/my_dyn_hash.c:79-94 | an empty table is valid |
| LinearHash.HashTable.HitsAreTheRecords | src/my_dyn_hash.c:239-294 | the hits of a key are exactly the slots whose record has it, without repetition |
| LinearHash.HashTable.First | src/my_dyn_hash.c:225-269 | returns the first hit, and misses exactly when no stored record has the key: the "wrong link" exit loses none |
| LinearHash.HashTable.Next | src/my_dyn_hash.c:274-294 | returns the hit after the current one, then none |
| LinearHash.HashTable.AllOf | src/my_dyn_hash.c:225-294 | first, and then next until nothing is found, give every slot whose record has the key, each once |
| LinearHash.HashTable.Insert | src/my_dyn_hash.c:341-462 | adds exactly the record and keeps the invariant; a search of its key finds it first; fails exactly without memory or, in a unique table, for a key that is there, and then changes nothing |
| LinearHash.HashTable.Delete | src/my_dyn_hash.c:471-556 | removes exactly one occurrence of the record and keeps the invariant; fails exactly when it is not stored |
| LinearHash.UpdateIn | src/my_dyn_hash.c:591-652 | for any number of copies of the pointer the records stay the same, and the table is well chained for the new keys exactly when there is at most one copy or both keys have the same home; the new chain keeps its head, if it had one |
| LinearHash.HashTable.Update | src/my_dyn_hash.c:563-653 | the same for the whole call; says exactly when it refuses and when it looks outside the array; a table that a duplicate makes it refuse is as before; a unique table stays unique |
| LinearHash.UpdateInside | src/my_dyn_hash.c:594-602 | the first look of update stays inside the array exactly when the table is not empty or both hash numbers are the same |
| LinearHash.UpdateOutside | src/my_dyn_hash.c:594-602 | hash numbers 5 and 3 in an empty table: slot 5 is looked at |
| LinearHash.TwoCopies | src/my_dyn_hash.c:600-652 | update of a table with two copies of a record whose hash number changes from 0 to 1 succeeds, keeps both copies, and leaves chains that do not fit the keys |
| LinearHash.AbsentRecord | src/my_dyn_hash.c:597-598 | in a table of one slot update succeeds for a record that is not there, and changes nothing |
| LinearHash.OtherHolder | src/my_dyn_hash.c:577-590 | the check of update finds another holder of the new key exactly when there is one, though the chains still follow the old keys |
| LinearHash.HashTable.Reset | src/my_dyn_hash.c:150-156 | the table is empty and valid |
| LinearHash.HashTable.Element | src/my_dyn_hash.c:656-661 | something is found exactly below `records`, it is a stored record, and every stored record is found at some slot |
| LinearHash.HashTable.Elements | src/my_dyn_hash.c:656-661 | asking for one slot after the other until nothing is found gives exactly the stored records |
| LinearHash.HashTable.Replace | src/my_dyn_hash.c:669-674 | exchanges one stored record for another of the same key in its slot, touches no other slot, and keeps the invariant |
| RbShape.FindAll | src/my_rbtree.c:315-332 | from the root every stored key is found at its own node: no node is lost, no key is stored twice |
| RbShape.Gap | src/my_rbtree.c:188-201 | between the bounds of an empty slot there is no stored key |
| RbLinks.RotateOk | src/my_rbtree.c:551-569 | a rotation keeps the search tree, the sentinel, all keys, counts and colours |
| RbLinks.RemoveOk | src/my_rbtree.c:278-287 | a node with a missing child can give its slot to the other child |
| RbTransplant.TransplantOk | src/my_rbtree.c:288-303 | the successor takes the place of a node with two children; the search tree is kept and no other node goes |
| RbRemove.TransplantPath | src/my_rbtree.c:298-299 | with the patched entry the stack leads again to the slot that lost a node, even when the successor was the child of the deleted node |
| RbBalance.SiblingLive | src/my_rbtree.c:637-640 | the sibling of a slot that lacks a black node is a real node, and differs from the child there |
| RbBalance.FlipAt | src/my_rbtree.c:580-588 | repainting parent, uncle and grandparent moves the only possible red-red edge two levels up |
| RbBalance.InnerAt | src/my_rbtree.c:591-595 | the inner rotation turns an inner into an outer case |
| RbBalance.OuterAt | src/my_rbtree.c:596-599 | the outer rotation with its colours restores the balance of every node |
| RbBalance.SiblingRedAt | src/my_rbtree.c:639-648 | turning up a red sibling leaves the lack where it is, one level further down |
| RbBalance.NephewsBlackAt | src/my_rbtree.c:649-654 | a black sibling with black children turns red, and the lack moves to the parent |
| RbBalance.NearRedAt | src/my_rbtree.c:657-663 | turning the sibling makes the far nephew red and keeps the lack |
| RbBalance.FarRedAt | src/my_rbtree.c:664-667 | turning the parent ends the lack, whatever its colour |
| RbPath.PathDistinct | src/my_rbtree.c:170-175 | a node occurs on a path of the stack only once |
| RbHeight.BlackWeight | include/my_rbtree.h:21-22 | below a node with b black nodes on each way there are at least 2^b - 1 nodes |
| RbHeight.PathWeight | include/my_rbtree.h:21-22 | a path of p nodes needs a tree of at least S(p) nodes, S(p) = S(p-1) + 2^((p-1)/2) |
| RbHeight.PathFits | include/my_rbtree.h:74-74 | in a balanced tree whose size fits 32 bits no path has more than 62 nodes, so the stack of 64 slots has room |
| RbInsertFixup.InsertFixup | src/my_rbtree.c:571-628 | from a red leaf in place the loop ends in a balanced search tree with the same nodes, keys and counts |
| RbDeleteFixup.TrueSide | src/my_rbtree.c:634-637 | comparing x with par->left finds the side that x is on, even when x is the sentinel |
| RbDeleteFixup.SiblingRedOk | src/my_rbtree.c:639-648 | after the case of the red sibling the stack with its extra entry leads to x again, and the new sibling is black |
| RbDeleteFixup.DeleteFixup | src/my_rbtree.c:630-709 | from a tree that lacks one black node at the top of the stack the loop ends in a balanced search tree with the same nodes, keys and counts and an untouched sentinel; the stack is never overrun |
| RbDescend.Descend | src/my_rbtree.c:184-201 | ends at the node with the key or at the empty slot where it belongs, with the stack leading there in at most 62 steps |
| RbDescend.Unlink | src/my_rbtree.c:278-309 | takes exactly the node out and rebalances, in all three cases |
| RbContents.ContentsSize | src/my_rbtree.c:237-237 | there are as many keys as nodes |
| RedBlackTree.AddLeaf | src/my_rbtree.c:221-238 | hanging in a leaf and rebalancing adds exactly the key |
| RedBlackTree.RbTree.constructor | src/my_rbtree.c:74-118 | an empty tree is valid |
| RedBlackTree.RbTree.Insert | src/my_rbtree.c:178-251 | adds the key with count one, or counts it up to 2^31 - 1 without changing the shape, or refuses it; every stored key and node stays unless a limit is set and the bytes in use with the new node exceed it, and then the tree is emptied first; with a limit at most one key is left or the bytes in use are within it; with keys of one size, and memory for each, what is in use is exactly what the nodes take as long as a node's size fits 32 bits, and only then; always ends valid, which includes that `elements` is the number of keys |
| RedBlackTree.RbTree.Delete | src/my_rbtree.c:253-312 | removes exactly the key, every other key staying at its node, and fails exactly when it is not there or deletion is not allowed; with keys of one size exactly what the nodes take stays in use; always ends valid |
| RedBlackTree.RbTree.Search | src/my_rbtree.c:315-332 | returns NULL exactly when the key is not stored |
| RedBlackTree.RbTree.Reset | src/my_rbtree.c:149-153 | the tree is empty and valid |
| RedBlackTree.RbTree.Check | src/my_rbtree.c:249-249 | on a valid tree the balance check never returns -1, but the number of black nodes that every way down passes, and no way passes two red ones in a row |
| RbWalk.TestMeans | src/my_rbtree.c:715-736 | the check returns n >= 0 exactly when every way down passes n black nodes and never two red ones in a row |
| RbWalk.TestPasses | src/my_rbtree.c:715-736 | on a balanced tree it returns the black count |
| RbWalk.WalkVisits | src/my_rbtree.c:516-546 | a walk in either direction calls the action in order on every node, or up to and including the first failure, and returns its error |
| RbSearch.TrailFits | src/my_rbtree.c:347-350 | the caller's trail of nodes has at most 62 entries above the sentinel |
| RbSearch.SearchKey | src/my_rbtree.c:334-405 | flag by flag: the smallest key that compares equal, not less, or greater, or the largest that compares equal, not greater, or less; NULL when there is none; the trail leads to the node |
| RbSearch.SearchEdge | src/my_rbtree.c:410-424 | returns the first or the last node, or the sentinel when the tree is empty |
| RbSearch.SearchNext | src/my_rbtree.c:426-452 | returns the node with the next key in the direction of the offsets, or NULL after the last one, and keeps the trail |
| RbWalk.RunIsTheRest | src/my_rbtree.c:426-452 | any run of steps that ends at NULL consists of all nodes from the first one on, each once and in order |
| RbWalk.StepToEnd | src/my_rbtree.c:426-452 | steps from a node come to an end, with the trail back at its start, and give all nodes from there on in order |
| RbWalk.StepThrough | src/my_rbtree.c:410-452 | from either end, steps to the other end give every node in order |
| RbWalk.StepFromKey | src/my_rbtree.c:334-452 | from the answer of a search, steps in either direction give every node from there on in order |
| PrRwLock.StepOk | src/my_pr_rwlock.c:40-124 | every step of any thread keeps the invariant of the lock |
| PrRwLock.Exclusion | src/my_pr_rwlock.c:68-82 | in every reachable state a thread with the write lock excludes all readers and other writers |
| PrRwLock.CountsAreTrue | include/my_pr_rwlock.h:61-67 | the two counters are the numbers of threads they stand for, and the unlock's read of active_writer without the mutex selects the caller's own branch |
| PrRwLock.OwnBranch | src/my_pr_rwlock.c:89-93 | active_writer is set exactly when the unlocking thread has the write lock |
| PrRwLock.WakeupsAreKept | src/my_pr_rwlock.c:93-121 | while no reader is active a writer sleeps only if another one is woken or the holder of the mutex is to signal; a signal is sent only when writers wait and no reader is active |
| PrRwLock.SignalComes | src/my_pr_rwlock.c:93-121 | such a holder comes to its signal, which wakes a sleeper, before it lets go of the mutex |
| PrRwLock.ReadersFirst | src/my_pr_rwlock.c:60-66 | while readers are active the holder of the mutex is at most four own steps from releasing it, each of them brings that nearer, and no step of any other thread sets it back |
| PrRwLock.MutexComesFree | src/my_pr_rwlock.c:60-66 | in every run in which that holder takes four steps the mutex has been free |
| PrRwLock.ReadGranted | include/my_pr_rwlock.h:24-27 | a read request waits for nothing but the mutex, and in every run it is granted by the thread's third own step, whatever writers wait |
| PrRwLock.ReadSchedule | include/my_pr_rwlock.h:24-27 | while readers are active seven steps of the thread and of the holder of the mutex are always enough |
| PrRwLock.LastAccess | include/my_pr_rwlock.h:38-46 | a thread inside unlock either still counts as a reader or holds the mutex, and no other thread has the write lock: after the release nothing is accessed |
| PrRwLock.NoDeadlock | src/my_pr_rwlock.c:40-124 | in every reachable state with a thread on its way in or out, some thread has the lock and does its own work, or some thread can take its next step |
| PrRwLock.Answered | src/my_pr_rwlock.c:40-84 | in every run a thread that has asked for a lock is next at rest with the kind of lock it asked for |
| PrRwLock.HeldAsAsked | src/my_pr_rwlock.c:40-124 | in every run each thread with a lock has the kind it asked for last, and one that asked to write is alone with its lock |
| PrRwLock.Uncontended | src/my_pr_rwlock.c:40-84 | with the mutex free a request to read, and without readers one to write, is granted by four steps of the thread alone |
| RwLock.StepOk | src/my_rwlock.c:164-265 | every step of any thread keeps the invariant of the lock |
| RwLock.StateIsTrue | src/my_rwlock.c:164-265 | state is -1 exactly when one thread has the write lock and none a read lock, and else the number of readers; waiters is the number of queued writers |
| RwLock.UnlockFits | src/my_rwlock.c:245-258 | unlock never meets a free lock and takes the branch of the caller's lock |
| RwLock.ReadersKeptOut | src/my_rwlock.c:164-194 | while a writer is queued no step adds a reader |
| RwLock.NobodyStranded | src/my_rwlock.c:234-265 | readers sleep only while a writer has the lock or is queued or a broadcast is due; writers sleep on a free lock only while one is woken or a signal is due, with trywrlock barging in; a signal is sent only when the lock is free and writers are queued |
| RwLock.SignalComes | src/my_rwlock.c:248-260 | the holder relied on wakes a writer or takes the lock itself before it lets go of the mutex |
| RwLock.BroadcastComes | src/my_rwlock.c:252-255 | without queued writers a releasing writer wakes all sleeping readers |
| RwLock.NoDeadlock | src/my_rwlock.c:164-265 | the same for the writer-preferring lock |
| RwLock.Answered | src/my_rwlock.c:164-231 | in every run a thread that has asked for a lock is next at rest with the kind of lock it asked for; only a try may come back without one, and then in some state of the run a writer had the lock, or a writer was queued (try to read) or a reader had it (try to write) |
| RwLock.RefusedFor | src/my_rwlock.c:177-231 | a try is refused only against another holder, or, to read, against a queued writer |
| RwLock.HeldAsAsked | src/my_rwlock.c:164-265 | in every run each thread with a lock has the kind it asked for last, and one that asked to write is alone with its lock |
| RwLock.Uncontended | src/my_rwlock.c:164-231 | where nobody is in its way every request is granted, a try as well, by at most seven steps of the thread alone |
| HeapOrder.TopLeast | include/my_queue.h:39-39 | nothing in a heap sorts before its top |
| HeapOrder.SumOfHeights | src/my_queue.c:302-308 | the heights of all slots add up to no more than their number |
| HeapLoops.SinkStep | src/my_queue.c:262-281 | moving the first child up keeps the subtree in order around the hole |
| HeapLoops.RiseStep | src/my_queue.c:284-293 | moving the parent down keeps everything but the rising element in order |
| HeapLoops.ClimbBack | src/my_queue.c:283-295 | the climb ends below the start slot and still everything is in order |
| HeapLoops.DownHeap | src/my_queue.c:252-296 | from two child heaps the subtree becomes a heap with the same elements, nothing outside changes, with at most two calls of the comparison for each level |
| HeapLoops.RemoveOrder | src/my_queue.c:238-248 | after removal the heap is in order exactly when the moved element does not sort before the parent of the place |
| PriorityQueue.RemoveMayBreak | src/my_queue.c:238-248 | a heap of seven elements that is out of order after such a removal |
| PriorityQueue.Queue.constructor | src/my_queue.c:46-98 | an empty queue is valid and in order; with max_at_top the element that compares larger stands above, without it the smaller |
| PriorityQueue.Queue.Insert | src/my_queue.c:192-209 | adds exactly the element and keeps the order; the sentinel stops the loop, after at most one call of the comparison for each level and one more |
| PriorityQueue.Queue.InsertSafe | src/my_queue.c:220-232 | adds the element unless the queue is full and may not or cannot be extended, with the return code for each case |
| PriorityQueue.Queue.Resize | src/my_queue.c:153-166 | keeps the first elements and the order; changes nothing on failure |
| PriorityQueue.Queue.Remove | src/my_queue.c:238-248 | removes exactly the element at the place, in order or not; in an ordered queue the top is least, and order is kept exactly under the stated condition; from an empty queue the count wraps, and the call ends at once or looks outside the array, with the exact condition |
| PriorityQueue.SinkWrapped | src/my_queue.c:252-282 | with a wrapped count sinking stays inside the array exactly when both slots below are in it and neither holds anything that sorts before the element; else it goes on until it looks outside |
| PriorityQueue.Queue.ReplaceTop | include/my_queue.h:42-42 | the top is exchanged, and order is kept |
| PriorityQueue.Queue.Fix | src/my_queue.c:302-308 | any array becomes a heap of the same elements with at most two calls of the comparison per element |
| PriorityQueue.Queue.SetMaxAtTop | include/my_queue.h:44-44 | says which order holds from then on: with max_at_top the element that compares larger stands above, without it the smaller; a change turns the order round, and the contents stay |
| PriorityQueue.Drain | src/my_queue.c:235-248 | removing the top until nothing is left gives all elements in order, falling with max_at_top and rising without it |

## Left out

- LinearHash.HashTable.Update: what happens outside the array, when it looks there, is not modelled.
- LinearHash.HashTable.constructor: hash numbers are taken to have 32 bits, as their type says.
- LinearHash.HashTable.Insert: asks for fewer than 2^32 - 1 records, the number that slot numbers of 32 bits can name.
- RedBlackTree.RbTree.Insert: a new key asks for fewer than 2^32 - 1 elements, because the 32-bit count would wrap.
- RbSearch.SearchKey: for a flag that is not supported the original leaves the caller's position as it was; the model returns 0 for it.
- PriorityQueue.Queue.Remove: from an empty queue of more than 2^31 - 1 places it is not modelled, nor is what happens outside the array.
- PriorityQueue.Queue.InsertSafe: max_elements + auto_extent is not wrapped to 32 bits.
- PrRwLock.CountsAreTrue: the counters are unbounded, so fewer than 2^32 threads are assumed.
- RwLock.StateIsTrue: the counters are unbounded, so fewer than 2^31 threads are assumed.
- The link array of the hash table and the node memory of the tree are values that the classes' methods reassign; what is not
  captured is how the array is reallocated. Aliasing between links is captured, since slots and nodes are numbers.
- Wrong includes, stray type names and missing macros in the sources: the model follows what the function bodies evidently do.
- The int with four flags of the splitting loop is a pair of records with a `find` and a `used` flag each.
- Memory is an input: whether there is some, and for a tree node its address.
- Callbacks that free records or keys, character sets, keys of length 0, and keys reached by an offset: keys are compared as values
  (hash table), integers (tree) or by a given preorder (queue).
- rbtree_record_pos, an estimate in floating point; allocation sizes in rbtree_init; freeing of all elements in rbtree_uninit.
- queue_init without memory, queue_reinit and queue_delete: they only set fields.
- Initialisation and destruction of the locks, the native Windows lock, and the assertions on the owner of a write lock.
- src/my_hash.c, src/my_list.c, src/my_array.c and src/my_zk.c: simpler than what is modelled, or stubs.
