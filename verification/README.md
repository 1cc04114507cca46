# Threading Building Blocks: what its algorithms promise

A Dafny 4.11 verification project beside the TBB 4.1 headers in
`tbb41_20130613oss/include/tbb`.  It models the concurrent containers and parallel algorithms of
those headers and proves what they are for.  `dafny verify dfyconfig.toml` checks all of it.
Nothing here runs the library.

## The parts

- **Concurrent hash map.**  `HashMapProtocol` is a transition system: threads in `find`, `insert`
  and `erase`, bucket locks, buckets split on first touch, growth.  `HashMapSafety` has its
  invariant, `HashMapLinearizability` shows that it is a finite map, `HashMapProgress` that it has
  no deadlock, `HashMapGrowth` how it grows.  `SerialHashMap` is the same table as a class used by one thread, with `reserve` and
  `rehash()` (tables and splitting in `BucketTable`, `BucketSplitting`, `SerialRehash`; the
  ancestry of buckets in `BucketChain`).  `HashMapTraversal` has iterators and ranges, and
  `BucketMemory` the layout of buckets in memory.
- **Per-thread table** (`ThreadTable`, `ThreadTableSafety`, `ThreadTableCalls`): the lock-free lookup of
  `enumerable_thread_specific`.
- **Parallel scan** (`ScanInterleaving` as a transition system, `ParallelScan` with body objects),
  **reduce** (`ParallelReduce`, `DeterministicReduce`), **for**
  (`ParallelFor`), **sort** (`ParallelSort`), and the division of work under them (`RangePool`,
  `Partitioner`, `AffinityMap`).
- **Priority queues**: the batched `ConcurrentPriorityQueue` with the history it must be
  equivalent to in `PriorityQueueHistory`, and the flow graph's `PriorityNode`, both over
  `BinaryHeap`.
- **Aggregator** (`Aggregator`), **LRU cache** (`LruCache`), **segmented vector**
  (`SegmentedVector`).
- `Bits`, `Segments`, `Orders`, `Monoids`, `Options`, `FreshIds` are shared.

## How it is modelled

- Shared memory is sequentially consistent.  In the transition systems each step is one access to
  it, or a scan under a lock that covers it.  A property of a run holds for every interleaving of
  any number of threads.
- Reader/writer locks are taken as given: `try_acquire` fails only while the lock is held, and an
  upgrade waits for the other readers or gives up the lock and takes it again
  (`spin_rw_mutex.h:116-123`).
- In the hash map a key carries its hash code, so any pure hash function is covered.  In the
  protocol a bucket's chain is a set of nodes, because chains change only under the write lock;
  whether the load factor is exceeded is an arbitrary choice there, and computed in
  `SerialHashMap`.  A bucket that is being filled is told apart from a complete one for the proof
  only.  `erase` reloads its mask after a contended upgrade and goes on searching its old bucket;
  that is modelled as it is, and is right because it then holds the write lock.
- A mask of `k` one bits is represented by `k`.
- In the scan and reduction models a body holds the sequence of the elements it has been given,
  which is the most general body with an associative join; `ParallelScan.MonoidFold` relates it to
  any other.  A split of a range, a theft, and the answer to a demand are arbitrary choices; the
  answers of the successors of a priority node are given with the operation.
- The steps of a reduction task, running its body on the leftmost part of its work and giving away
  the rightmost, are what `Partitioner.Execute` is proved to do.
- In a scan, a right child that is not stolen begins after its left sibling has finished, which is
  what `parallel_scan.h:263-265` rests on.  `ScanInterleaving` lets the tasks of each pass take
  their steps in any order, one element at a time; `ParallelScan` is sequential recursion over an
  arbitrary tree, in which the children of the second pass run in either order.  Ranges are split
  by a function of their ends, so that the second pass divides a range where the first did.
- The operations of a batch overlap each other at the moment the handler takes the batch, so that
  any order of them is an order of the calls.  A batch of the priority node consumes or releases at
  most once, and only if a reservation is held when it begins, since whoever does so has waited for
  the reservation.
- `std::sort` is a function parameter that sorts; `std::map`, `std::list` and `std::vector` are
  maps and sequences.  Each class method of the LRU cache is one atomic step of one client, so that
  all interleavings are sequences of calls.  Its history bound is at least 1: with 0 the eviction
  loop would take the back of an empty list.
- An affinity partition starts with 16 cells of the array for each worker it divides for; the
  array is made by `resize`, which is not part of this model.  The partition of a spawned task is
  kept as its fields until the task runs.  The branch of the splitting constructor without
  `__TBB_INITIAL_TASK_IMBALANCE` is modelled.

## What does not hold

- `rehash()` says that only the last segment has to be scanned.  That leaves unsplit buckets after
  `reserve` on a table that grew and was emptied, which opens new buckets above unsplit ones:
  `SerialHashMap.HashMap.RehashMayLeaveUnsplit` is such a run, and `SerialHashMap.HashMap.Rehash`
  says exactly when all buckets are open.  The nodes are in the right buckets in any case.
- The comment on `my_root` in `enumerable_thread_specific.h:104-106` says that each array is half
  the size of its predecessor.  Sizes only decrease strictly: `ThreadTableSafety.SizesMaySkip` is a
  run of five threads that ends with arrays of 4 and 16 slots.  `ThreadTableSafety.SizeDoublesIff`
  says for any array of any run when the sizes do halve.

## Model

| member | source | states |
|---|---|---|
| `HashMapSafety.NextKeepsInv` | tbb41_20130613oss/include/tbb/concurrent_hash_map.h:205-295 | Every step of any thread (bucket locks, flag stores, splitting of buckets, links, unlinks, growth) keeps: nodes at or below the last complete bucket of their chain, keys unique, complete buckets with complete parents, every lock and mark owned by the thread that claims it. |
| `HashMapSafety.InitHasInv` | tbb41_20130613oss/include/tbb/concurrent_hash_map.h:144-157 | The empty table satisfies that invariant. |
| `HashMapSafety.NoDeeperStable` | tbb41_20130613oss/include/tbb/concurrent_hash_map.h:251-279 | While a thread holds a bucket as writer, nobody completes a deeper bucket of the chain: the nodes stay with it. |
| `HashMapSafety.ChildHasItsNodes` | tbb41_20130613oss/include/tbb/concurrent_hash_map.h:641-671 | When a splitting thread has scanned the parent, all nodes that belong to the new bucket are in it. |
| `HashMapSafety.NoRaceAtHome` | tbb41_20130613oss/include/tbb/concurrent_hash_map.h:251-279 | If the reloaded mask selects the same bucket, or the next applicable child is still marked, the bucket held is the home of the key. |
| `HashMapSafety.MoveKeepsInv` | tbb41_20130613oss/include/tbb/concurrent_hash_map.h:654-670 | Moving one node from the parent to the new bucket keeps the invariant. |
| `HashMapSafety.LinkKeepsInv` | tbb41_20130613oss/include/tbb/concurrent_hash_map.h:282-295 | Inserting a node keeps keys unique and every node at home. |
| `HashMapSafety.GrowKeepsInv` | tbb41_20130613oss/include/tbb/concurrent_hash_map.h:205-228 | Publishing a new mask with unsplit buckets keeps every node at home. |
| `HashMapLinearizability.StepRefines` | tbb41_20130613oss/include/tbb/concurrent_hash_map.h:958-1035 | Each step of the table is one operation of a finite map, or leaves the map alone. |
| `HashMapLinearizability.RunIsMapHistory` | tbb41_20130613oss/include/tbb/concurrent_hash_map.h:958-1035 | The labels of any run are, in order, a history of a map that starts empty. |
| `HashMapLinearizability.Linearizable` | tbb41_20130613oss/include/tbb/concurrent_hash_map.h:958-1035 | Every call that returns took effect in exactly one step between its beginning and its end, with the result it returns. |
| `HashMapLinearizability.NotFoundWasRight` | tbb41_20130613oss/include/tbb/concurrent_hash_map.h:251-279 | A lookup that reports "not found" was right at some moment of the call. |
| `HashMapLinearizability.UnlinkRefines` | tbb41_20130613oss/include/tbb/concurrent_hash_map.h:1087-1121 | The step in which `erase` takes a node out removes exactly its key from the map. |
| `HashMapProgress.NeverStuck` | tbb41_20130613oss/include/tbb/concurrent_hash_map.h:618-671 | Unless all threads are idle, one that is not can take a step: threads never all wait for one another's locks, since one that holds a bucket it is filling waits only for buckets further up the chain. |
| `HashMapProgress.ProceedsUnlessWaiting` | tbb41_20130613oss/include/tbb/concurrent_hash_map.h:618-671 | In every reachable state a thread in a call can take a step unless it waits for a lock; so no internal assertion on flags, parents or segments fails. |
| `HashMapProgress.AtRestNodesAreHome` | tbb41_20130613oss/include/tbb/concurrent_hash_map.h:1039-1055 | Without calls in progress every node is in the bucket where the parent walk of `internal_equal_range` ends. |
| `HashMapGrowth.GrowsBySegments` | tbb41_20130613oss/include/tbb/concurrent_hash_map.h:205-228 | In any run a step keeps the number of buckets, or raises it from 2 to 256, or doubles it from 256 on. |
| `HashMapGrowth.LoadedTableGrows` | tbb41_20130613oss/include/tbb/concurrent_hash_map.h:282-295 | An insertion that finds the load factor reached returns when the table is larger than its mask, unless it found that more buckets were being added. |
| `BucketChain.ParentAdjacent` | tbb41_20130613oss/include/tbb/concurrent_hash_map.h:645-651 | Clearing the top bit gives the next bucket up the chain of a hash code, with none in between. |
| `BucketChain.NextChildIsChild` | tbb41_20130613oss/include/tbb/concurrent_hash_map.h:260-279 | The loop over mask bits finds the first child of the bucket on the chain of the hash code. |
| `BucketChain.NothingBetween` | tbb41_20130613oss/include/tbb/concurrent_hash_map.h:260-264 | If two masks select the same bucket, the chain has no bucket between them. |
| `BucketTable.FoundAtHome` | tbb41_20130613oss/include/tbb/concurrent_hash_map.h:609-616 | A node whose chain has no deeper bucket is found in that bucket and nowhere else. |
| `BucketTable.RelinkKeeps` | tbb41_20130613oss/include/tbb/concurrent_hash_map.h:664-667 | Unlinking a node from one chain and linking it into another keeps the contents and the uniqueness of keys. |
| `BucketSplitting.FilledIsPlaced` | tbb41_20130613oss/include/tbb/concurrent_hash_map.h:641-671 | Once the parent has been scanned, the new bucket can take part: every node is at home again. |
| `BucketSplitting.GrowKeeps` | tbb41_20130613oss/include/tbb/concurrent_hash_map.h:205-228 | New buckets leave all nodes where they are found. |
| `SerialHashMap.HashMap.RehashBucket` | tbb41_20130613oss/include/tbb/concurrent_hash_map.h:641-671 | A bucket is split from its parent, recursively; contents stay, every node is at home, and every bucket opened has an open parent. |
| `SerialHashMap.HashMap.Acquire` | tbb41_20130613oss/include/tbb/concurrent_hash_map.h:618-639 | The bucket for a masked hash code, split first if need be. |
| `SerialHashMap.HashMap.Find` | tbb41_20130613oss/include/tbb/concurrent_hash_map.h:958-1035 | The value under the key, or none if no node has it, whatever has been split so far. |
| `SerialHashMap.HashMap.Insert` | tbb41_20130613oss/include/tbb/concurrent_hash_map.h:975-995 | A node is added exactly if its key is absent; the table grows exactly if the new size reaches the mask, to 256 buckets or to twice as many; parent closure is kept. |
| `SerialHashMap.HashMap.Erase` | tbb41_20130613oss/include/tbb/concurrent_hash_map.h:1087-1121 | Exactly the node with the key goes; parent closure is kept. |
| `SerialHashMap.HashMap.EqualRange` | tbb41_20130613oss/include/tbb/concurrent_hash_map.h:1039-1055 | The same answer as `find` without splitting anything. |
| `SerialHashMap.HashMap.EnableSegment` | tbb41_20130613oss/include/tbb/concurrent_hash_map.h:205-228 | Growth to the next mask: from 2 to 256 buckets, and then to twice as many; contents stay. |
| `SerialHashMap.HashMap.Reserve` | tbb41_20130613oss/include/tbb/concurrent_hash_map.h:298-304 | At least the buckets asked for and no segment more than that takes; old ones unchanged, new ones open only if the table was empty. |
| `SerialHashMap.HashMap.MarkRehashedLevels` | tbb41_20130613oss/include/tbb/concurrent_hash_map.h:240-247 | Exactly the unsplit buckets reached from `h` through unsplit children are opened, and all children of what is opened are open. |
| `SerialHashMap.HashMap.OpenLast` | tbb41_20130613oss/include/tbb/concurrent_hash_map.h:1138-1158 | A bucket of the last segment is opened from its nearest open ancestor; the nodes go to the buckets the mask selects. |
| `SerialHashMap.HashMap.Rehash` | tbb41_20130613oss/include/tbb/concurrent_hash_map.h:1131-1160 | The number of buckets asked for is reached with no segment too many; items stay, every node ends in bucket `hash & mask`, and all buckets are open if and only if the table did not come from a `reserve` that opened new buckets of an emptied table above unsplit ones. |
| `SerialHashMap.HashMap.RehashMayLeaveUnsplit` | tbb41_20130613oss/include/tbb/concurrent_hash_map.h:298-304 | A run (insert, erase, rehash with more buckets) after which `rehash()` has left unsplit buckets, although only the last segment is said to need scanning. |
| `SerialRehash.MarkedStayHome` | tbb41_20130613oss/include/tbb/concurrent_hash_map.h:240-247 | Opening all levels below a bucket leaves the nodes of all other buckets at home. |
| `SerialRehash.OpenBelow` | tbb41_20130613oss/include/tbb/concurrent_hash_map.h:240-247 | Every bucket of a chain below the marked root is open afterwards. |
| `SerialRehash.SpreadTarget` | tbb41_20130613oss/include/tbb/concurrent_hash_map.h:1148-1157 | The bucket that the mask selects is open for each node of the root. |
| `SerialRehash.ReservedClosed` | tbb41_20130613oss/include/tbb/concurrent_hash_map.h:298-304 | When `reserve` leaves the last segment closed under parents: an exact condition. |
| `SerialRehash.RehashOutcome` | tbb41_20130613oss/include/tbb/concurrent_hash_map.h:1131-1160 | Scanning the last segment opens everything exactly if that segment was closed under parents; nodes are in place in any case. |
| `Segments.FollowingBucket` | tbb41_20130613oss/include/tbb/concurrent_hash_map.h:345-359 | As a pair of segment and offset, the bucket is the one after its predecessor if and only if it does not start a segment. |
| `BucketMemory.FollowsInMemory` | tbb41_20130613oss/include/tbb/concurrent_hash_map.h:205-228 | In memory, where segments 1 to 7 are one allocation, the bucket follows its predecessor if and only if it is not the first of an allocation. |
| `BucketMemory.DifferentBuckets` | tbb41_20130613oss/include/tbb/concurrent_hash_map.h:205-228 | Every bucket lies within its allocation, and no two at the same place. |
| `Segments.SegmentStartTest` | tbb41_20130613oss/include/tbb/concurrent_hash_map.h:345-359 | `k & (k-2)` is zero exactly at the start of a segment, for every word size. |
| `HashMapTraversal.AllNodesOnce` | tbb41_20130613oss/include/tbb/concurrent_hash_map.h:416-420 | The chains from the first bucket on list each node of the table once and nothing else. |
| `HashMapTraversal.NextBucket` | tbb41_20130613oss/include/tbb/concurrent_hash_map.h:348-352 | The incremented or reloaded pointer equals `get_bucket( k )`. |
| `HashMapTraversal.Iterator.AdvanceToNextBucket` | tbb41_20130613oss/include/tbb/concurrent_hash_map.h:345-359 | The iterator stands at the first later bucket that has nodes, with the right pointer, or at the end. |
| `HashMapTraversal.Iterator.Advance` | tbb41_20130613oss/include/tbb/concurrent_hash_map.h:416-420 | The nodes still to come lose exactly their first. |
| `HashMapTraversal.Traverse` | tbb41_20130613oss/include/tbb/concurrent_hash_map.h:403-420 | A loop from begin to end passes every node of the table exactly once. |
| `HashMapTraversal.Range.Split` | tbb41_20130613oss/include/tbb/concurrent_hash_map.h:460-469 | Splitting a divisible range at its midpoint gives two nonempty ranges of the same grain size whose nodes, in order, are those of the range. |
| `HashMapTraversal.Range.SetMidpoint` | tbb41_20130613oss/include/tbb/concurrent_hash_map.h:507-523 | A range is divisible exactly if it has more buckets than the grain size and nodes in its second half; the midpoint is the first bucket there that has any. |
| `HashMapTraversal.Range.DivisibleWhen` | tbb41_20130613oss/include/tbb/concurrent_hash_map.h:507-523 | The same of every range that is made or left by a split. |
| `HashMapTraversal.Range.EmptyMeansNone` | tbb41_20130613oss/include/tbb/concurrent_hash_map.h:452-457 | A range whose ends are equal has no nodes, and no other has none. |
| `ThreadTableSafety.NextKeepsInv` | tbb41_20130613oss/include/tbb/enumerable_thread_specific.h:172-242 | Every step of `table_lookup` by any thread keeps the invariant of the table: counts, array sizes, probe paths and pointers. |
| `ThreadTableSafety.AtMostHalfFull` | tbb41_20130613oss/include/tbb/enumerable_thread_specific.h:198-225 | No array is ever more than half full. |
| `ThreadTableSafety.ProbeBounded` | tbb41_20130613oss/include/tbb/enumerable_thread_specific.h:178-197 | A probe meets an empty slot or its key within half the array, so every probe loop ends under concurrent claims. |
| `ThreadTableSafety.CreatedOnce` | tbb41_20130613oss/include/tbb/enumerable_thread_specific.h:201-202 | `create_local` runs at most once for each thread. |
| `ThreadTableSafety.SamePointer` | tbb41_20130613oss/include/tbb/enumerable_thread_specific.h:184-194 | Every lookup of a thread returns the same pointer across root replacements and migrations. |
| `ThreadTableSafety.ElementForever` | tbb41_20130613oss/include/tbb/enumerable_thread_specific.h:229-240 | The element of a thread, once created, stays the one its later lookups find, whatever other threads do. |
| `ThreadTableCalls.ExistsAfterFirst` | tbb41_20130613oss/include/tbb/enumerable_thread_specific.h:184-202 | `exists` is false for the first lookup of each thread that returns, and for no other. |
| `ThreadTableCalls.ExistsIfAtBegin` | tbb41_20130613oss/include/tbb/enumerable_thread_specific.h:184-202 | `exists` holds exactly if the thread had its element when the call began. |
| `ThreadTableCalls.KeyMovesUp` | tbb41_20130613oss/include/tbb/enumerable_thread_specific.h:184-197 | When a call ends, a probe for the key finds it in an array no older than the root that the call began with: a key found further down has been inserted again. |
| `ThreadTableCalls.ElementsApart` | tbb41_20130613oss/include/tbb/enumerable_thread_specific.h:201-202 | No two threads are ever given the same element. |
| `ThreadTableCalls.CountsAre` | tbb41_20130613oss/include/tbb/enumerable_thread_specific.h:201-208 | `my_count` is the number of threads that have counted themselves, and there are as many elements as threads that were given one. |
| `ThreadTableSafety.CallAdvances` | tbb41_20130613oss/include/tbb/enumerable_thread_specific.h:172-242 | Each step of a call brings it nearer to its end, by a measure that is well founded. |
| `ThreadTableSafety.OthersDoNotDelay` | tbb41_20130613oss/include/tbb/enumerable_thread_specific.h:172-242 | No step of another thread sets a call back: the lookup is wait-free. |
| `ThreadTableSafety.NeverStuck` | tbb41_20130613oss/include/tbb/enumerable_thread_specific.h:172-242 | A call can always take its next step. |
| `ThreadTableSafety.PublishedSize` | tbb41_20130613oss/include/tbb/enumerable_thread_specific.h:207-223 | An array that is linked in doubles the one it is linked to exactly when the count drawn is at most the size of that one, also after failed exchanges. |
| `ThreadTableSafety.SizeDoublesIff` | tbb41_20130613oss/include/tbb/enumerable_thread_specific.h:207-223 | In the list of any run, an array doubles its predecessor exactly when the count drawn by the thread that linked it is at most the predecessor's size. |
| `ThreadTableSafety.SkippingRun` | tbb41_20130613oss/include/tbb/enumerable_thread_specific.h:198-223 | With three threads or more there is a run in which all draw their counts before the second array is chosen, for the count of all threads. |
| `ThreadTableSafety.SizesMaySkip` | tbb41_20130613oss/include/tbb/enumerable_thread_specific.h:104-106 | A run of five threads whose list has arrays of 4 and 16 slots: an array need not be half its predecessor. |
| `ScanInterleaving.ScanIsOrdered` | tbb41_20130613oss/include/tbb/parallel_scan.h:233-256 | At the end of any interleaved run, for every division of the range and every theft, each element has had exactly one final scan, by a body that held exactly the elements before it, and the user's body holds all of them. |
| `ScanInterleaving.StepKeepsGood` | tbb41_20130613oss/include/tbb/parallel_scan.h:124-177 | Each step of any task of either pass keeps what all tasks owe, and scans only an element that has had no final scan. |
| `ScanInterleaving.StepKeepsGood1` | tbb41_20130613oss/include/tbb/parallel_scan.h:160-177 | The same for the first pass, below any task; a step changes bodies of its own task only. |
| `ScanInterleaving.FinishApart` | tbb41_20130613oss/include/tbb/parallel_scan.h:160-177 | `finish_scan` above a right child with a body of its own: the sum of the whole range, and a node that records both halves. |
| `ScanInterleaving.UnstolenKeepsGood` | tbb41_20130613oss/include/tbb/parallel_scan.h:267-271 | A right child that finds its body to be its sibling's sum may go on with it, and with its final scan. |
| `ScanInterleaving.StepKeepsGood2` | tbb41_20130613oss/include/tbb/parallel_scan.h:78-83 | The same for the second pass. |
| `ScanInterleaving.DescendKeepsGood` | tbb41_20130613oss/include/tbb/parallel_scan.h:124-140 | A node hands what came in to its left child and its left sum to its right child, which share no body; on the left spine what has been scanned is not scanned again. |
| `ScanInterleaving.OnePassIsEnough` | tbb41_20130613oss/include/tbb/parallel_scan.h:267-305 | Without theft there is no second pass: every call of the body is a final scan, and no body is made besides that of `run`. |
| `ScanInterleaving.NextOnePass` | tbb41_20130613oss/include/tbb/parallel_scan.h:267-271 | A first pass without theft can always go on without theft. |
| `ScanInterleaving.StepDecreases` | tbb41_20130613oss/include/tbb/parallel_scan.h:233-256 | Every run ends. |
| `ScanInterleaving.NeverStuck` | tbb41_20130613oss/include/tbb/parallel_scan.h:233-256 | A run can only stop when both passes are complete. |
| `ParallelScan.Run` | tbb41_20130613oss/include/tbb/parallel_scan.h:233-256 | The same with body objects updated in place, for tasks that run as whole calls: each element gets its final scan exactly once, from a body that holds exactly the elements before it, and the user's body ends with all of them. |
| `ParallelScan.Start` | tbb41_20130613oss/include/tbb/parallel_scan.h:260-305 | What the first pass leaves: sums of the left parts, no body shared by two nodes, a first part with its final scan exactly if the task is final. |
| `ParallelScan.StolenRight` | tbb41_20130613oss/include/tbb/parallel_scan.h:263-271 | A right child that is stolen, or treated so, works on a new body and gives nothing its final scan. |
| `ParallelScan.FinishScan` | tbb41_20130613oss/include/tbb/parallel_scan.h:160-177 | The sum of a divided range is the left sum followed by the right one, and the node records it. |
| `ParallelScan.Finish` | tbb41_20130613oss/include/tbb/parallel_scan.h:124-140 | A node of the second pass gives each element of its range its final scan once, in either order of its children. |
| `ParallelScan.FinishSpine` | tbb41_20130613oss/include/tbb/parallel_scan.h:124-140 | On the left edge only the part that had no final scan gets one. |
| `ParallelScan.FinishPart` | tbb41_20130613oss/include/tbb/parallel_scan.h:78-83 | A final scan of one part, whose last body is handed to the caller. |
| `ParallelScan.MonoidFold` | tbb41_20130613oss/include/tbb/parallel_scan.h:313-325 | Joining bodies that keep a combined value combines all elements in order, for any associative operation with a unit. |
| `ConcurrentPriorityQueue.PriorityQueue.HandleOperations` | tbb41_20130613oss/include/tbb/concurrent_priority_queue.h:263-341 | There is an order of the batch in which every pop returns a maximal element or fails on an empty queue, with the outcomes recorded; a pop only fails if the batch leaves nothing, and the heap is whole afterwards. |
| `ConcurrentPriorityQueue.PriorityQueue.FirstPass` | tbb41_20130613oss/include/tbb/concurrent_priority_queue.h:269-307 | One operation of the first pass keeps the order found so far, and no pop fails. |
| `ConcurrentPriorityQueue.PriorityQueue.PopOrPutOff` | tbb41_20130613oss/include/tbb/concurrent_priority_queue.h:286-304 | A pop of the first pass takes the last element if that waits behind the heap and is above the top, or is put off. |
| `ConcurrentPriorityQueue.PriorityQueue.SecondPass` | tbb41_20130613oss/include/tbb/concurrent_priority_queue.h:309-336 | The last pop put off gets its outcome: it fails exactly on an empty queue, takes the last element if that is above the top, and the top otherwise. |
| `ConcurrentPriorityQueue.PopLastKept` | tbb41_20130613oss/include/tbb/concurrent_priority_queue.h:292-301 | Taking the last element is a push and a pop of it next to each other, even with a larger one in the tail. |
| `ConcurrentPriorityQueue.ExtractTopKept` | tbb41_20130613oss/include/tbb/concurrent_priority_queue.h:328-334 | Taking the top is a pop, followed by the push of the last element if that was waiting; with an empty heap the first element is pushed and popped. |
| `ConcurrentPriorityQueue.HeapifyKept` | tbb41_20130613oss/include/tbb/concurrent_priority_queue.h:338-340 | The pushes left over come last in the order. |
| `ConcurrentPriorityQueue.PriorityQueue.Heapify` | tbb41_20130613oss/include/tbb/concurrent_priority_queue.h:344-358 | All elements are in the heap, none lost. |
| `ConcurrentPriorityQueue.PriorityQueue.Reheap` | tbb41_20130613oss/include/tbb/concurrent_priority_queue.h:362-378 | The first element is gone, the last in the heap, and the mark within the size. |
| `PriorityQueueHistory.NothingLost` | tbb41_20130613oss/include/tbb/concurrent_priority_queue.h:255-262 | In any legal history what was there and was pushed is what was popped and is there. |
| `BinaryHeap.PushUp` | tbb41_20130613oss/include/tbb/concurrent_priority_queue.h:344-358 | One element joins the heap before it, for any strict weak order. |
| `BinaryHeap.PushDown` | tbb41_20130613oss/include/tbb/concurrent_priority_queue.h:362-378 | The last element goes down from the root: heap order, contents and the elements behind the heap. |
| `BinaryHeap.TopIsMaximal` | tbb41_20130613oss/include/tbb/concurrent_priority_queue.h:255-262 | No element of the heap is above its first. |
| `PriorityNode.Node.HandleOperations` | tbb41_20130613oss/include/tbb/flow_graph.h:1583-1612 | Every operation of a batch has the outcome that the ones before it leave it, and the events could have happened one after the other in some order; all items are in the heap afterwards. |
| `PriorityNode.Node.InternalPop` | tbb41_20130613oss/include/tbb/flow_graph.h:1656-1680 | An item is handed out exactly if nothing is reserved and there is one: the last one if it waits and is above the first, or the first. |
| `PriorityNode.Node.InternalReserve` | tbb41_20130613oss/include/tbb/flow_graph.h:1681-1695 | The same for a reservation, which then holds the item. |
| `PriorityNode.Node.InternalRelease` | tbb41_20130613oss/include/tbb/flow_graph.h:1700-1709 | The reserved item comes back and the heap is whole. |
| `PriorityNode.Node.InternalConsume` | tbb41_20130613oss/include/tbb/flow_graph.h:1696-1699 | The reservation ends and its item is gone. |
| `PriorityNode.Node.InternalForwardTask` | tbb41_20130613oss/include/tbb/flow_graph.h:1615-1646 | Every successor that takes an item is given one, as long as there are any and none is reserved; success is reported if all were asked and one has taken an item. |
| `PriorityNode.Node.TakeFirst` | tbb41_20130613oss/include/tbb/flow_graph.h:1668-1678 | Removing the first item, with its own order of mark, tail and sifting, has the effect of `reheap` on the whole array. |
| `PriorityNode.NothingLost` | tbb41_20130613oss/include/tbb/flow_graph.h:1583-1712 | In any legal history, stored and reserved items plus what was got, forwarded or consumed equal what was there plus the puts. |
| `PriorityNode.Node.HandleBatches` | tbb41_20130613oss/include/tbb/flow_graph.h:1583-1612 | Any number of batches one after the other, each one handled with such an order. |
| `PriorityNode.BatchesAreHistory` | tbb41_20130613oss/include/tbb/flow_graph.h:1583-1712 | The orders of all batches, one after the other, are one legal history of the node. |
| `PriorityNode.NothingLostOverBatches` | tbb41_20130613oss/include/tbb/flow_graph.h:1583-1712 | Over any sequence of batches nothing is lost or duplicated. |
| `PriorityNode.ReleaseKept` | tbb41_20130613oss/include/tbb/flow_graph.h:1700-1709 | Release is legal after the waiting puts. |
| `ParallelReduce.ReduceIsOrdered` | tbb41_20130613oss/include/tbb/parallel_reduce.h:108-175 | For every division of the range, every interleaving and every answer to whether the left child has finished, the user's body ends with its elements followed by all of the input in order. |
| `ParallelReduce.StepKeepsGood` | tbb41_20130613oss/include/tbb/parallel_reduce.h:57-82 | Each step keeps what every task owes its body, and touches no body of another task. |
| `ParallelReduce.BeginKeepsGood` | tbb41_20130613oss/include/tbb/parallel_reduce.h:159-168 | A right child begins with a body of its own unless its left sibling has finished. |
| `ParallelReduce.JoinKeepsGood` | tbb41_20130613oss/include/tbb/parallel_reduce.h:69-79 | Joining the zombie body completes the range of the continuation. |
| `ParallelReduce.OneBodyInTurn` | tbb41_20130613oss/include/tbb/parallel_reduce.h:159-168 | If no right child begins before its left sibling has finished, the user's body is the only one. |
| `ParallelReduce.NextInTurn` | tbb41_20130613oss/include/tbb/parallel_reduce.h:159-168 | A run without such overlap can always go on without it. |
| `ParallelReduce.StepDecreases` | tbb41_20130613oss/include/tbb/parallel_reduce.h:159-175 | Every run ends. |
| `ParallelReduce.NeverStuck` | tbb41_20130613oss/include/tbb/parallel_reduce.h:159-175 | A run can only stop when the reduction is complete. |
| `DeterministicReduce.Deterministic` | tbb41_20130613oss/include/tbb/parallel_reduce.h:180-254 | Any two runs give the same value, whatever the body does, how it splits, and without associativity. |
| `DeterministicReduce.ChunksInOrder` | tbb41_20130613oss/include/tbb/parallel_reduce.h:180-254 | In any run the body is given the whole range from left to right, in chunks of at most the grain size and, if the range was divided, at least half of it. |
| `DeterministicReduce.FoldsLeftToRight` | tbb41_20130613oss/include/tbb/parallel_reduce.h:186-192 | For an associative operation with a unit any run gives what a loop from left to right gives. |
| `DeterministicReduce.StepKeepsGood` | tbb41_20130613oss/include/tbb/parallel_reduce.h:242-254 | Each step keeps the value that every task owes, which its range alone determines. |
| `DeterministicReduce.StepDecreases` | tbb41_20130613oss/include/tbb/parallel_reduce.h:242-254 | Every run ends. |
| `DeterministicReduce.NeverStuck` | tbb41_20130613oss/include/tbb/parallel_reduce.h:242-254 | A run can only stop when the reduction is complete. |
| `RangePool.RangeVector.SplitBack` | tbb41_20130613oss/include/tbb/partitioner.h:172-183 | Halving the back of the circular pool: the left half is the new back, the right half follows it. |
| `RangePool.RangeVector.SplitToFill` | tbb41_20130613oss/include/tbb/partitioner.h:172-183 | The pool read from back to front is the same work in the same order; it ends full, deep enough, or with an indivisible back. |
| `RangePool.RangeVector.PopBack` | tbb41_20130613oss/include/tbb/partitioner.h:184-189 | The leftmost range goes. |
| `RangePool.RangeVector.PopFront` | tbb41_20130613oss/include/tbb/partitioner.h:190-195 | The rightmost range goes. |
| `RangePool.TilesButLast` | tbb41_20130613oss/include/tbb/partitioner.h:164-209 | Work without its rightmost range still follows on from left to right. |
| `Partitioner.Execute` | tbb41_20130613oss/include/tbb/partitioner.h:235-281 | The task runs its body on a left part of its range from left to right, and the tasks it has spawned tile the rest; whatever the demand it terminates, and every chunk is indivisible or has been halved as often as divisor and depth ask for. |
| `Partitioner.PoolTurn` | tbb41_20130613oss/include/tbb/partitioner.h:262-279 | Without demand a turn runs the leftmost range; on demand it gives away the rightmost, or makes the next turn do so, or runs the last one if that is indivisible. |
| `Partitioner.RunPool` | tbb41_20130613oss/include/tbb/partitioner.h:258-281 | The pool loop terminates for the automatic and the affinity partitioner. |
| `Partitioner.GiveFront` | tbb41_20130613oss/include/tbb/partitioner.h:266-272 | The range given away is the rightmost, and the depth that its task is aligned by is within its partition's. |
| `Partitioner.SpreadWork` | tbb41_20130613oss/include/tbb/partitioner.h:244-247 | As many initial divisions as bring the divisor down, and one more for an automatic partition with depth; an affinity partition is left with one worker's share. |
| `Partitioner.DepthExceedsMap` | tbb41_20130613oss/include/tbb/partitioner.h:389-394 | What `check_for_demand` asserts of the depth holds whenever the map makes it ask for work. |
| `Partitioner.AskForDemand` | tbb41_20130613oss/include/tbb/partitioner.h:334-345 | An answer to the demand leaves enough depth for all cells of the map. |
| `Partitioner.Partition.Split` | tbb41_20130613oss/include/tbb/partitioner.h:293-303 | Divisors add up, the depth grows only for a divisor of 3, and the map is divided between the two partitions. |
| `AffinityMap.MapsPartition` | tbb41_20130613oss/include/tbb/partitioner.h:354-379 | Whatever is split, each cell of the affinity array is in the map of exactly one task, and every map has less than 16 cells or a multiple of 16. |
| `ParallelFor.RunTask` | tbb41_20130613oss/include/tbb/parallel_for.h:63-79 | A task and all that are spawned from it run the body on each index of its range exactly once, in chunks as small as the partition promises. |
| `ParallelFor.RunSimple` | tbb41_20130613oss/include/tbb/partitioner.h:425-429 | The same for the simple partitioner; chunks have at most the grain size, and at least half of it if the range was divided. |
| `ParallelFor.ForRange` | tbb41_20130613oss/include/tbb/parallel_for.h:84-97 | `parallel_for` covers its range exactly once under each partitioner; chunks have at least half the grain size if the range was divided, and at most the grain size, or under the automatic and affinity partitioners a part of the range that shrinks with the number of workers. |
| `ParallelFor.ForStepped` | tbb41_20130613oss/include/tbb/parallel_for.h:225-236 | A step that is not positive is an error; otherwise the function is called exactly once for each of first, first + step, ... below last. |
| `ParallelFor.RunStepped` | tbb41_20130613oss/include/tbb/parallel_for.h:137-143 | The body's incremented argument is the index times the step from the first, once per index. |
| `ParallelSort.Sort` | tbb41_20130613oss/include/tbb/parallel_sort.h:201-210 | The array ends sorted and permuted, for every strict weak order and any correct `std::sort`. |
| `ParallelSort.ParallelQuickSort` | tbb41_20130613oss/include/tbb/parallel_sort.h:156-180 | The same, and sorted input is left as it is: skipping the sort after the test is sound. |
| `ParallelSort.Split` | tbb41_20130613oss/include/tbb/parallel_sort.h:77-111 | The splitting constructor terminates in bounds, permutes its range, and leaves nothing above the pivot before it and nothing below behind it; the pivot is the pseudo median, and elements that are all alike are split in the middle. |
| `ParallelSort.PseudoMedianSplits` | tbb41_20130613oss/include/tbb/parallel_sort.h:50-62 | Three of the other samples are not above the pseudo median of nine, and three are not below. |
| `ParallelSort.PartitionLoop` | tbb41_20130613oss/include/tbb/parallel_sort.h:84-101 | The two scans meet at a place that separates the elements; what the loop asserts holds. |
| `ParallelSort.ScanDown` | tbb41_20130613oss/include/tbb/parallel_sort.h:87-90 | The downward scan passes exactly the elements above the pivot, and stops at or above `i`. |
| `ParallelSort.ScanUp` | tbb41_20130613oss/include/tbb/parallel_sort.h:91-95 | The upward scan passes exactly the elements below the pivot, and stops at the next one or at `j`. |
| `ParallelSort.SortRange` | tbb41_20130613oss/include/tbb/parallel_sort.h:77-111 | Any division of the range into tasks, in any order, sorts it. |
| `ParallelSort.Pretest` | tbb41_20130613oss/include/tbb/parallel_sort.h:156-172 | The serial prefix and the parallel test together report an inversion if and only if there is one. |
| `ParallelSort.PretestBody` | tbb41_20130613oss/include/tbb/parallel_sort.h:124-138 | A chunk that does not cancel has no inversion; one that cancels has found one, unless it was cancelled before or, at any moment, because of an inversion elsewhere. |
| `Aggregator.StepKeepsInv` | tbb41_20130613oss/include/tbb/aggregator.h:116-185 | Every step of any thread keeps the invariant of mailbox, handlers and operations. |
| `Aggregator.OneHandler` | tbb41_20130613oss/include/tbb/aggregator.h:157-185 | At most one thread waits to handle the mailbox and at most one handles operations. |
| `Aggregator.AppliedOnce` | tbb41_20130613oss/include/tbb/aggregator.h:116-143 | Every operation is applied exactly once before its submitter returns. |
| `Aggregator.HandlerUsesLiveOperations` | tbb41_20130613oss/include/tbb/aggregator.h:81-96 | The handler only uses operations that it has not marked finished and whose submitters have not returned. |
| `Aggregator.MailboxHasHandler` | tbb41_20130613oss/include/tbb/aggregator.h:124-137 | The mailbox is nonempty exactly when one thread is to handle it; the status asserted after handling is set. |
| `Aggregator.NeverStuck` | tbb41_20130613oss/include/tbb/aggregator.h:116-185 | Unless all threads are idle, one that is not can take a step. |
| `LruCache.Cache.Retrieve` | tbb41_20130613oss/include/tbb/concurrent_lru_cache.h:196-213 | A record that is found leaves the history and gains a user; one that is not found is made, and its first user is to compute the value. |
| `LruCache.Cache.Release` | tbb41_20130613oss/include/tbb/concurrent_lru_cache.h:215-236 | The last release puts the record in front of the history; exactly the least recently released one is evicted if it was full. |
| `LruCache.Cache.MakeSpace` | tbb41_20130613oss/include/tbb/concurrent_lru_cache.h:222-232 | The eviction loop runs at most once, on a nonempty list, and not on the record being released. |
| `LruCache.Cache.Value` | tbb41_20130613oss/include/tbb/concurrent_lru_cache.h:110-118 | A handle's value is the function's value for its key. |
| `LruCache.Cache.LookReady` | tbb41_20130613oss/include/tbb/concurrent_lru_cache.h:92-102 | A waiting client proceeds exactly when the value is ready. |
| `LruCache.Cache.MarkReady` | tbb41_20130613oss/include/tbb/concurrent_lru_cache.h:92-102 | A value is marked ready after it has been stored, and is right. |
| `LruCache.EvictKeeps` | tbb41_20130613oss/include/tbb/concurrent_lru_cache.h:224-231 | The record at the back has no users, all others of the history were released later, and without it everything still holds. |
| `LruCache.LastReleaseKeeps` | tbb41_20130613oss/include/tbb/concurrent_lru_cache.h:220-235 | A record enters the history exactly when its last user goes. |
| `LruCache.RetrieveOldKeeps` | tbb41_20130613oss/include/tbb/concurrent_lru_cache.h:196-213 | A record in use is not in the history. |
| `SegmentedVector.AssignIterators` | tbb41_20130613oss/include/tbb/concurrent_vector.h:1031-1048 | Element `i` of the input is where `internal_subscript( i )` reads, for every first-block size. |
| `SegmentedVector.DifferentPlaces` | tbb41_20130613oss/include/tbb/concurrent_vector.h:1004-1014 | No two elements share a place. |
| `SegmentedVector.SubscriptIs` | tbb41_20130613oss/include/tbb/concurrent_vector.h:149-166 | Where an element lies, in the first block or in its segment. |
| `SegmentedVector.NextPlace` | tbb41_20130613oss/include/tbb/concurrent_vector.h:168-175 | An element that does not start a segment follows its predecessor in memory. |
| `SegmentedVector.VectorIterator.Increment` | tbb41_20130613oss/include/tbb/concurrent_vector.h:305-318 | A cached pointer stays right along `++`, and is dropped at segment starts. |
| `SegmentedVector.VectorIterator.Decrement` | tbb41_20130613oss/include/tbb/concurrent_vector.h:321-334 | The same along `--`. |
| `SegmentedVector.VectorIterator.Dereference` | tbb41_20130613oss/include/tbb/concurrent_vector.h:291-298 | Dereferencing gives the element's place and caches it. |

## Left out

- Weak memory, fences, false sharing, and the reuse of freed memory.
- Item locks and accessors of the hash map, and `exclude`: they do not touch where nodes are.
- Copying, swapping and clearing of the hash map, and its constructors from ranges.
- `enumerable_thread_specific` beyond the lookup: copying, clearing, iteration, native thread-local keys.
- Exceptions, allocation failure, and cancellation except in the sort's test.
- Machine widths: depths, sizes and counters are natural numbers; only the segment-start test has a word size.
- The task scheduler: reference counts, affinity hints, and the signal tasks, which carry no work.
- `parallel_for` and `parallel_reduce` over ranges other than `blocked_range`, and `lambda_reduce_body`.
- The old automatic partitioner that `parallel_scan` uses; whether it executes a range is arbitrary here.
- The task that the priority node spawns to forward items (`forwarder_busy`), and its successor cache.
- Insertion order among equal priorities, which the queues do not promise.
- `concurrent_vector` growth, compaction and destruction.
- Pipelines, locks, arenas, and the rest of the flow graph.
- ParallelScan.Run: tasks run as whole calls, over an arbitrary tree with arbitrary theft; their steps interleave in `ScanInterleaving`.
- LruCache.Cache.LookReady: that a waiting client's value is supplied at last rests on the client that computes it going on.
- HashMapProgress.NeverStuck: it does not say that every waiting thread gets on under an unfair scheduler.
- Aggregator.NeverStuck: neither does this.
