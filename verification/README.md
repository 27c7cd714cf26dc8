# Verified model of the MyOS kernel core

A Dafny model of the parts of the MyOS kernel whose correctness rests on invariants rather
than on hardware: the allocators and address maps, the caches and the indexes under them,
scheduling and time, the reader-writer lock, the network protocol core, and the HXE1 and path
codecs. `dafny verify dfyconfig.toml` checks the whole project.

Each component has two modules. The one ending in `Spec` (or, for small ones, the same module)
defines the operations as functions on values, branch by branch as the code has them, and
proves the properties over single steps and over whole runs. The other holds a class with the
kernel's own fields, whose methods contain the kernel's loops and pointer updates and are
proved equal to those functions, so that every property of a run is a property of the code
that works in place.

| file | component |
|---|---|
| `PageCache.dfy` | write-back LRU page cache with read-ahead, against one flat byte array |
| `Scheduler.dfy` | round-robin scheduler, sleep list, wait queues, exit, timer interrupt |
| `Heap.dfy` | first-fit coalescing heap over a tiled arena |
| `Radix.dfy`, `RadixMemory.dfy` | 64-ary radix tree, as a tree and as nodes in memory |
| `VmRegion.dfy` | sorted region map with split, trim and hole punching |
| `Tcp.dfy` | TCP connection state machine of two endpoints and two channels |
| `HashTable.dfy`, `Dcache.dfy` | chained hash table and the path cache over it |
| `Checksum.dfy`, `Netbuf.dfy`, `Udp.dfy` | Internet checksum, packet buffer, UDP over IPv4 |
| `Callout.dfy` | timers in a sorted list and a wheel |
| `Slab.dfy` | slab caches and the size-class allocator |
| `KernelMemory.dfy` | the size-class allocator on top of the page allocator |
| `Bcache.dfy` | pinned buffer cache, against one block store |
| `RwLock.dfy` | reader-writer lock under every interleaving |
| `Pmm.dfy` | page bitmap allocator |
| `Hxe.dfy` | HXE1 writer and loader |
| `Path.dfy` | path normalization and mount choice |
| `Lists.dfy`, `Arithmetic.dfy`, `Options.dfy` | intrusive lists as sequences, division and powers of two, optional results |

What the code asks of the world is an input: allocation results, device reads and writes, page
runs, initial sequence numbers, the hash functions, the schedule. A result therefore holds for
every answer. Integer widths are written out wherever a wrap-around changes a result; those
cases are theorems with the exact condition on the input (`NeedCoversRequest`, `WrapBreaksHeap`,
`SleepDeadline`, `FindFreeExact`, `ShotsFormula`, `TerminatesIff`, `CoversExactly`, `GuardExact`,
`ReadAheadEnds`, `TableInside`, `DatagramRoundTrip`).

Properties that the code does not have in general are stated with the input that shows it and
the condition under which they hold:

- a page just returned by the page cache can be gone when read-ahead reaches the capacity
  (`FreshGetResident`);
- a backing write that fails is not noticed: a sync is exact if and only if no write that
  matters fails, in the page cache and in the buffer cache (`PageCacheSpec.SyncExact`,
  `BcacheSpec.SyncExact`, `BcacheSpec.RunRefines`);
- punching a hole in a region without memory for its upper part loses exactly that part
  (`RemoveIsSubtraction`, `CutAllAt`, `HoleEndIs`);
- the free-range search of the region map can answer wrongly when its sums wrap or the least
  fit is address zero (`FindFreeExact`, `FindFreeWraps`);
- an insertion into the radix tree leaves empty nodes behind exactly when it has some memory
  but less than its path is missing (`EnoughMemory`, `TightKept`, `RunTight`);
- a simultaneous TCP open counts the SYN twice, and nothing else breaks the stream
  (`SimultaneousOpenSkips`, `LinkedIff`);
- a path longer than a dentry can store may answer for its prefix (`RightIffFits`);
- a dentry that leaves the cache takes every path of the same hash out of the index
  (`ReleaseHides`), and one changed word of a packet goes unseen exactly when it swaps 0x0000 and
  0xFFFF or clears the UDP checksum (`IpWordChanged`, `UdpWordChanged`, `CorruptedDropped`);
- slab objects are aligned only as far as the slab header allows (`AlignedIff`);
- the double-free guards of both allocators read a word that somebody else may have written: a
  stale pointer is accepted exactly when the last write there is a store of the magic number,
  and in a size class never (`Heap.HeapObject.Kfree`, `Heap.StaleFree`, `FreeExact`,
  `DoubleFreeExact`, `StaleLargeFree`);
- a callout whose period wraps 64 bits fires out of order and can keep the advance loop going
  for ever, in exactly the cases of a closed formula (`AdvanceOrder`, `SettlesIff`,
  `TerminatesIff`);
- a failed device read shows as a block of zeros in the buffer cache (`BreadView`);
- a wake-up between a failed try and the wait is lost by the reader-writer lock: somebody is
  left stranded exactly when a thread goes to sleep late, and never if the try and the wait are
  not disturbed (`LostWakeup`, `NobodyStrandedIff`, `UndisturbedSafe`);
- an HXE1 image written from a truncated ELF file, or with a segment of size zero on a page
  boundary, is written but not loaded (`LoadsIff`);
- a resolved path need not resolve to itself when directory and path are relative
  (`ResultFixed`, `LongResult`), and a mount given with a trailing slash is never found
  (`MatchesIffReaches`, `UnreachableMount`).

## Model

| member | source | states |
|---|---|---|
| `PageCacheSpec.DropView` | myos/kernel/fs/pagecache.c:20-27 | Releasing a page leaves the logical contents alone if and only if its bytes are on the backing object afterwards: written back with success, or there already |
| `PageCacheSpec.EvictLruKeeps` | myos/kernel/fs/pagecache.c:41-51 | Evicting the least recent page keeps index and LRU list in agreement and shrinks both by one |
| `PageCacheSpec.AllocAndFillKeeps` | myos/kernel/fs/pagecache.c:53-84 | A fill keeps index and list in agreement and within capacity, and a page it reports is resident and most recent |
| `PageCacheSpec.InsertView` | myos/kernel/fs/pagecache.c:66-83 | Putting a page in changes what readers see unless its bytes are the backing object's: if and only if |
| `PageCacheSpec.GetKeeps` | myos/kernel/fs/pagecache.c:86-106 | A successful get leaves the cache within capacity and, when read-ahead is smaller than the capacity, its page still resident |
| `PageCacheSpec.GetView` | myos/kernel/fs/pagecache.c:86-106 | Fetching, with evictions and read-ahead, never changes the logical contents and keeps clean pages equal to the backing object |
| `PageCacheSpec.GetSucceeds` | myos/kernel/fs/pagecache.c:86-106 | With memory available a get succeeds exactly for page numbers the index can hold |
| `PageCacheSpec.GetFails` | myos/kernel/fs/pagecache.c:53-106 | A fetch fails if and only if the page is not there and its number does not fit the index or one of its three allocations fails |
| `PageCacheSpec.GetOrder` | myos/kernel/fs/pagecache.c:86-106 | A hit makes its page the most recent and leaves the others in their order; a page fetched has at most the prefetched ones before it |
| `PageCacheSpec.FilledWith` | myos/kernel/fs/pagecache.c:62-71 | A page fetched without a read callback, or when reads fail, holds zeros; when they succeed it holds the backing page; it is clean either way |
| `PageCacheSpec.TurnoverPages` | myos/kernel/fs/pagecache.c:115-156 | A transfer brings in one page and the prefetched ones for each page between its first and its last byte |
| `PageCacheSpec.Retained` | myos/kernel/fs/pagecache.c:41-106 | Over every run a page among the n most recent is still resident after operations that do not evict it by name and bring in, prefetching included, at most capacity - n pages |
| `PageCacheSpec.ReadRefinesFlat` | myos/kernel/fs/pagecache.c:115-134 | A read delivers exactly the bytes of the flat array, up to the first page that cannot be had, and changes nothing |
| `PageCacheSpec.ReadSucceeds` | myos/kernel/fs/pagecache.c:115-134 | With memory available a read succeeds exactly when it is empty or ends at or below the last page of the index |
| `PageCacheSpec.WriteRefinesFlat` | myos/kernel/fs/pagecache.c:136-156 | A write replaces exactly the bytes it reports taken in the flat array and no others |
| `PageCacheSpec.WriteSucceeds` | myos/kernel/fs/pagecache.c:136-156 | With memory available a write succeeds exactly when it is empty or ends at or below the last page of the index |
| `PageCacheSpec.MarkDirtyView` | myos/kernel/fs/pagecache.c:108-113 | Marking dirty makes exactly that page dirty and changes no contents |
| `PageCacheSpec.SyncUpToFacts` | myos/kernel/fs/pagecache.c:158-170 | Part-way through a sync exactly the visited dirty pages have been handed to the write callback and counted, and those whose write succeeded are on the backing object |
| `PageCacheSpec.SyncExact` | myos/kernel/fs/pagecache.c:158-170 | After a sync every page is clean, nothing reads differently and the result counts the dirty pages, whatever the writes answered; the backing object equals the logical contents, and clean pages agree with it, if and only if no write of a differing page failed |
| `PageCacheSpec.EvictView` | myos/kernel/fs/pagecache.c:172-180 | Explicit eviction keeps the logical contents |
| `PageCacheSpec.StepRefines` | myos/kernel/fs/pagecache.c:86-180 | Every operation is an operation of a flat byte array with the observed output |
| `PageCacheSpec.RunRefinesFlat` | myos/kernel/fs/pagecache.c:20-180 | Over every run of gets, reads, writes, syncs and evictions whose backing reads and writes succeed the cache behaves as one flat byte array and stays within capacity |
| `PageCacheSpec.FreshGetResident` | myos/kernel/fs/pagecache.c:86-106 | From a fresh cache the page just returned is resident if and only if read-ahead is smaller than the capacity (for every read-ahead for which the get returns, see `ReadAheadEnds`) |
| `PageCacheSpec.ReadAheadEnds` | myos/kernel/fs/pagecache.c:97 | The read-ahead loop with its 32-bit counter ends if and only if the window is not 2^32 - 1 |
| `PageCache.PageCacheObject.ReleasePage` | myos/kernel/fs/pagecache.c:20-27 | Write back if dirty, unlink and free, in place; outcome is that of `Drop` |
| `PageCache.PageCacheObject.StoreBack` | myos/kernel/fs/pagecache.c:21-24 | Hands a dirty page to the write callback and ignores the answer; outcome is that of `WriteBack` |
| `PageCache.PageCacheObject.EvictOne` | myos/kernel/fs/pagecache.c:41-51 | Evicts the tail of the list, in place; outcome is that of `EvictLru` |
| `PageCache.PageCacheObject.MakeSpace` | myos/kernel/fs/pagecache.c:54-56 | The eviction loop; outcome is that of `MakeRoom` |
| `PageCache.PageCacheObject.Populate` | myos/kernel/fs/pagecache.c:53-84 | The eviction loop, the fill and the insertion, in place, with every failure path; outcome is that of `AllocAndFill` |
| `PageCache.PageCacheObject.Touch` | myos/kernel/fs/pagecache.c:86-93 | Moves a page to the front, in place |
| `PageCache.PageCacheObject.GetPage` | myos/kernel/fs/pagecache.c:86-106 | Hit path and miss path with the read-ahead loop, in place; outcome is that of `Get` |
| `PageCache.PageCacheObject.ReadAt` | myos/kernel/fs/pagecache.c:115-134 | The page-by-page read loop delivers what the specification reads; outcome is that of `Read` |
| `PageCache.PageCacheObject.StorePage` | myos/kernel/fs/pagecache.c:149-150 | Stores into a resident page and marks it dirty; outcome is that of `Store` |
| `PageCache.PageCacheObject.WriteAt` | myos/kernel/fs/pagecache.c:136-156 | The page-by-page write loop does what the specification writes; outcome is that of `Write` |
| `PageCache.PageCacheObject.SetDirty` | myos/kernel/fs/pagecache.c:108-113 | Marks a resident page dirty; outcome is that of `MarkDirty` |
| `PageCache.PageCacheObject.WriteBackOne` | myos/kernel/fs/pagecache.c:161-167 | Writes one dirty page back and counts it; outcome is that of `SyncPage` |
| `PageCache.PageCacheObject.WriteBackAll` | myos/kernel/fs/pagecache.c:158-170 | The sync loop over the LRU list; outcome is that of `Sync` |
| `PageCache.PageCacheObject.EvictPage` | myos/kernel/fs/pagecache.c:172-180 | Drops one page; outcome is that of `Evict` |
| `SchedulerSpec.SchedulePlaced` | myos/kernel/sched/scheduler.c:70-118 | A scheduling decision keeps every admitted thread in exactly one place and idle out of every list |
| `SchedulerSpec.WakeExpiredPlaced` | myos/kernel/sched/sleep.c:38-51 | Waking expired sleepers keeps every thread in exactly one place |
| `SchedulerSpec.SleepPlaced` | myos/kernel/sched/sleep.c:15-28 | Going to sleep moves the current thread onto the sleep list only |
| `SchedulerSpec.WaitPlaced` | myos/kernel/sync/waitqueue.c:48-67 | Waiting moves the current thread onto that wait queue only |
| `SchedulerSpec.WakeOnePlaced` | myos/kernel/sync/waitqueue.c:79-85 | Waking one moves the first waiter to the ready queue only |
| `SchedulerSpec.WakeAllPlaced` | myos/kernel/sync/waitqueue.c:87-94 | Waking all moves every waiter, in order, to the ready queue only |
| `SchedulerSpec.ExitPlaced` | myos/kernel/sched/thread.c:119-125 | Exit takes the thread out of every list for good |
| `SchedulerSpec.TimerInv` | myos/kernel/sched/scheduler.c:162-184 | A timer interrupt, from tick to interrupt exit, keeps the invariant and the quantum bound |
| `SchedulerSpec.StepInv` | myos/kernel/sched/scheduler.c:44-184 | Every step of every kind keeps the invariant |
| `SchedulerSpec.ExactlyOnePlace` | myos/kernel/sched/scheduler.c:44-118 | In every state reachable from boot each admitted thread is in exactly one place: current, the ready queue, the sleep list, one wait queue, or dead; no list repeats a thread and idle is in none |
| `SchedulerSpec.StepMoves` | myos/kernel/sched/scheduler.c:44-184 | Where every operation puts every thread: a switch takes the head of the line and puts the thread that was running, if it still can run, last; sleeping, waiting and exiting take out exactly the current thread; wake-ups append in queue order, one the longest waiting, all of them in order; nothing else moves |
| `SchedulerSpec.NobodyDropped` | myos/kernel/sched/scheduler.c:70-118 | In every step a thread that is running or ready stays so, unless it is the current one and sleeps, waits or exits; one that is preempted is last in the ready queue |
| `SchedulerSpec.DeadIffExited` | myos/kernel/sched/thread.c:119-125 | Over every run a thread is dead at the end if and only if it was at the start or exited on the way |
| `SchedulerSpec.WakeOrder` | myos/kernel/sync/waitqueue.c:48-94 | Of two threads on a wait queue the one that came first is never woken after the other |
| `SchedulerSpec.UniquePlace` | myos/kernel/sched/scheduler.c:44-118 | In any state satisfying the invariant a thread's place is unique, so its shared link is in at most one list |
| `SchedulerSpec.IdleUnlinked` | myos/kernel/sched/scheduler.c:70-118 | Idle is never in the ready queue, the sleep list or a wait queue |
| `SchedulerSpec.TimerWakesDue` | myos/kernel/sched/sleep.c:38-51 | At the first tick at or past its wake tick a sleeper is ready or running, and at an earlier one still asleep |
| `SchedulerSpec.SleepContinues` | myos/kernel/sched/sleep.c:15-51 | No other step takes a sleeper whose wake tick lies ahead off the sleep list |
| `SchedulerSpec.NeverWokenEarly` | myos/kernel/sched/sleep.c:15-51 | Over any run that ends before its wake tick a sleeper is still asleep |
| `SchedulerSpec.SleepDeadline` | myos/kernel/sched/sleep.c:15-28 | The wake tick lies in the future if and only if the 64-bit addition does not wrap |
| `SchedulerSpec.ScheduleAdvances` | myos/kernel/sched/scheduler.c:70-118 | A scheduling decision runs the head of the queue and brings every other waiting thread one place forward |
| `SchedulerSpec.StepProgress` | myos/kernel/sched/scheduler.c:56-184 | Five times the position plus the remaining slice never rises and drops on each timer tick |
| `SchedulerSpec.RunsWithinBound` | myos/kernel/sched/scheduler.c:56-184 | A run with that many timer ticks has run the thread |
| `SchedulerSpec.BoundedWaiting` | myos/kernel/sched/scheduler.c:56-184 | A thread at ready position k runs within 5(k+1) timer ticks, for every interleaving of yields, sleeps, wake-ups, waits and exits |
| `Scheduler.SchedulerObject.Enqueue` | myos/kernel/sched/scheduler.c:56-68 | Appends to the linked ready queue by head and tail |
| `Scheduler.SchedulerObject.MakeThreadReady` | myos/kernel/sched/scheduler.c:56-68 | Marks ready and enqueues; outcome is that of `MakeReady` |
| `Scheduler.SchedulerObject.Dequeue` | myos/kernel/sched/scheduler.c:44-54 | Unlinks the head of the ready queue |
| `Scheduler.SchedulerObject.Switch` | myos/kernel/sched/scheduler.c:70-118 | The scheduling decision on linked queues; outcome is that of `Schedule` |
| `Scheduler.SchedulerObject.UnlinkSleeper` | myos/kernel/sched/sleep.c:38-51 | Unlinks one sleeper through the pointer to its link |
| `Scheduler.SchedulerObject.WakeExpiredSleepers` | myos/kernel/sched/sleep.c:38-51 | The pointer-to-pointer sweep wakes exactly the expired sleepers, in list order; outcome is that of `WakeExpired` |
| `Scheduler.SchedulerObject.CreateThread` | myos/kernel/sched/thread.c:84-90 | Admits a new ready thread; outcome is that of `Step` with `Create` |
| `Scheduler.SchedulerObject.YieldCpu` | myos/kernel/sched/scheduler.c:152-156 | Yield; outcome is that of `Step` with `Yield` |
| `Scheduler.SchedulerObject.LinkSleeper` | myos/kernel/sched/sleep.c:22-26 | Pushes the current thread on the sleep list |
| `Scheduler.SchedulerObject.SleepFor` | myos/kernel/sched/sleep.c:15-28 | Sleep; outcome is that of `Step` with `Sleep` |
| `Scheduler.SchedulerObject.WaitOnQueue` | myos/kernel/sync/waitqueue.c:48-67 | Wait; outcome is that of `Step` with `WaitOn` |
| `Scheduler.SchedulerObject.WakeOneWaiter` | myos/kernel/sync/waitqueue.c:79-85 | Wake one; outcome is that of `Step` with `WakeOneOf` |
| `Scheduler.SchedulerObject.WakeAllWaiters` | myos/kernel/sync/waitqueue.c:87-94 | The dequeue loop wakes every waiter in order; outcome is that of `Step` with `WakeAllOf` |
| `Scheduler.SchedulerObject.ExitCurrent` | myos/kernel/sched/thread.c:119-125 | Exit; outcome is that of `Step` with `ExitThread` |
| `Scheduler.SchedulerObject.TimerTick` | myos/kernel/sched/scheduler.c:162-173 | Quantum accounting and sleeper wake-up on a tick; outcome is that of `OnTimerTick` |
| `Scheduler.SchedulerObject.LeaveIrq` | myos/kernel/sched/scheduler.c:175-184 | Reschedules on interrupt exit when asked to; outcome is that of `IrqExit` |
| `Scheduler.SchedulerObject.TimerInterrupt` | myos/kernel/arch/x86_64/irq.c:56-79 | Tick, scheduler hook and interrupt exit in sequence; outcome is that of `Step` with `Timer` |
| `HeapSpec.LiveDisjoint` | myos/kernel/memory/heap.c:83-115 | Any two live payloads are disjoint |
| `HeapSpec.MergeFacts` | myos/kernel/memory/heap.c:69-81 | Coalescing keeps sizes, totals and live blocks and leaves no two adjacent free blocks |
| `HeapSpec.MergeFreeBytes` | myos/kernel/memory/heap.c:69-81 | Coalescing keeps the set of free bytes exactly |
| `HeapSpec.NeedCoversRequest` | myos/kernel/memory/heap.c:87 | The rounded size covers header and request if and only if the 64-bit addition does not wrap |
| `HeapSpec.AllocFacts` | myos/kernel/memory/heap.c:83-115 | An allocation adds exactly one live block where there was none, at most 31 bytes larger than needed, and keeps the tiling |
| `HeapSpec.FailMeansNoRun` | myos/kernel/memory/heap.c:89-114 | First fit fails only when no contiguous run of that many free bytes exists anywhere |
| `HeapSpec.WrapBreaksHeap` | myos/kernel/memory/heap.c:83-115 | In any heap an allocation leaves a well-formed heap if and only if its size computation does not wrap or the wrapped request takes a minimal block whole |
| `HeapSpec.ReleaseFacts` | myos/kernel/memory/heap.c:133-156 | A free removes exactly that live block and its bytes from the count |
| `HeapSpec.AllFreed` | myos/kernel/memory/heap.c:69-81 | With nothing live the heap is one free block of the whole arena |
| `HeapSpec.MergeNothing` | myos/kernel/memory/heap.c:69-81 | Coalescing a heap without adjacent free blocks changes nothing |
| `HeapSpec.StepFacts` | myos/kernel/memory/heap.c:47-156 | In a run an allocation adds one fresh live block with room for the request, or no run of free bytes fits; a free of a live block removes exactly it (which pointers the code takes for live is `Heap.HeapObject.Kfree`) |
| `HeapSpec.FreedInAnyOrder` | myos/kernel/memory/heap.c:47-156 | Any run that leaves nothing allocated, in any order of frees, restores the initial heap |
| `Heap.HeapObject.constructor` | myos/kernel/memory/heap.c:47-58 | One free block over the arena |
| `Heap.HeapObject.MergeAt` | myos/kernel/memory/heap.c:69-81 | Absorbs following free blocks into one header: the blocks from here on merge to the same list as before and the first two are not both free |
| `Heap.HeapObject.Coalesce` | myos/kernel/memory/heap.c:69-81 | The walk that merges every free run; outcome is that of `Merge` |
| `Heap.HeapObject.SplitHeaders` | myos/kernel/memory/heap.c:94-102 | Writes the two headers of a split; outcome is that of `Carved` |
| `Heap.HeapObject.Take` | myos/kernel/memory/heap.c:92-110 | Hands out the block as `Alloc` does; the heap stays valid exactly when the size is at least minimal or the block is taken whole |
| `Heap.HeapObject.FindFit` | myos/kernel/memory/heap.c:89-114 | The first-fit walk finds the lowest fitting free block; outcome is that of `FirstFit` |
| `Heap.HeapObject.Kmalloc` | myos/kernel/memory/heap.c:83-115 | Serves the lowest fitting block, at its address behind the header; fails exactly when nothing is asked or nothing fits; the heap stays valid exactly when the request does not wrap or takes a minimal block whole |
| `Heap.HeapObject.Kfree` | myos/kernel/memory/heap.c:133-156 | The guard accepts exactly the live pointers and those whose header granule a payload owner last wrote with the magic; a live one is freed as `Step` says, a rejected one changes nothing, a forged one changes that granule and falsifies the statistics |
| `Heap.HeapObject.StorePayload` | myos/kernel/memory/heap.c:30-37 | Writing a live payload disturbs no header, and is remembered as the last write of that granule |
| `Heap.StaleFree` | myos/kernel/memory/heap.c:133-156 | The input that passes the double-free guard: two blocks are returned, a larger one is placed over them, its owner stores the magic where the second header was, and the second pointer is freed again |
| `RadixSpec.DigitsDecide` | myos/kernel/lib/radix.c:40-42 | Two keys agree below a level if and only if their digit there and what is below it agree |
| `RadixSpec.InsertLookup` | myos/kernel/lib/radix.c:44-90 | After an insertion lookup finds the new value at its key and the old ones elsewhere; a failed one changes no lookup |
| `RadixSpec.RemoveLookup` | myos/kernel/lib/radix.c:77-135 | After a removal lookup finds nothing at its key and the old values elsewhere |
| `RadixSpec.InsertPruned` | myos/kernel/lib/radix.c:44-75 | No node is left without entries after an insertion if and only if memory covers every node missing on the key's path, or there is none at all |
| `RadixSpec.InsertSucceeds` | myos/kernel/lib/radix.c:44-75 | Below any node the insertion succeeds if and only if memory covers the nodes missing on the rest of the path |
| `RadixSpec.RemovePruned` | myos/kernel/lib/radix.c:91-135 | Removal leaves no node without entries, except an emptied root for its caller to drop |
| `RadixSpec.PrunedHasEntry` | myos/kernel/lib/radix.c:91-135 | In a pruned tree every node leads to an entry |
| `RadixSpec.InsertRefines` | myos/kernel/lib/radix.c:44-75 | Insertion is insertion into the finite map and keeps the count its size; it succeeds if and only if the key is in range, the value is not null and memory covers the nodes missing on the path |
| `RadixSpec.EnoughMemory` | myos/kernel/lib/radix.c:44-75 | Insertion succeeds if and only if the key is in range, the value is not null and as many nodes can be allocated as are missing on the key's path, at most six |
| `RadixSpec.RemoveRefines` | myos/kernel/lib/radix.c:91-135 | Removal is removal from the finite map, returns what was there and keeps the count |
| `RadixSpec.RootNullIffEmpty` | myos/kernel/lib/radix.c:91-135 | The root pointer is null exactly when the map is empty |
| `RadixSpec.TightKept` | myos/kernel/lib/radix.c:44-135 | A step keeps the tree free of empty nodes if and only if it is not an insertion with some memory but less than its path is missing |
| `RadixSpec.RunRefinesMap` | myos/kernel/lib/radix.c:44-135 | Over every run, whatever memory there is, lookup agrees with the map of the inserts that reported success, every used count is exact and the entry count is its size |
| `RadixSpec.RunTight` | myos/kernel/lib/radix.c:44-135 | Over every run no node is ever empty if and only if no insertion has some memory but less than its path is missing; then the root is null exactly when the map is empty |
| `RadixSpec.ForeachVisitsAll` | myos/kernel/lib/radix.c:137-160 | Traversal visits each entry once, in ascending key order |
| `Radix.RadixTree.NewNode` | myos/kernel/lib/radix.c:15-18 | An address apart from every node in use |
| `Radix.RadixTree.Insert` | myos/kernel/lib/radix.c:44-75 | The descent that links missing nodes; outcome is that of `InsertKey` |
| `Radix.RadixTree.ClearLeaf` | myos/kernel/lib/radix.c:108-117 | Clears the leaf slot: what is left to prune is the rest of the recursive removal of the key |
| `Radix.RadixTree.Prune` | myos/kernel/lib/radix.c:119-133 | The bottom-up loop that unlinks and frees emptied nodes ends with the recursively pruned tree, or no root if it is empty |
| `Radix.RadixTree.Remove` | myos/kernel/lib/radix.c:91-135 | Removal with path recording and pruning; no node leaks; outcome is that of `RemoveKey` |
| `Radix.RadixTree.LookupKey` | myos/kernel/lib/radix.c:77-89 | The read-only descent; outcome is that of `Find` |
| `RadixPath.RemoveIsTrim` | myos/kernel/lib/radix.c:91-135 | Clearing a leaf and pruning upwards along the path is the recursive removal |
| `RadixPath.LinkThenInsert` | myos/kernel/lib/radix.c:54-67 | Linking an empty child first does not change what the insertion makes |
| `RadixMemory.Frame` | myos/kernel/lib/radix.c:15-135 | A tree in memory depends only on its own nodes |
| `RadixMemory.Deep` | myos/kernel/lib/radix.c:44-135 | A write inside one subtree changes the whole tree exactly there |
| `VmRegionSpec.CoveredAreAddresses` | myos/kernel/memory/vmregion.c:147-187 | Byte counts computed region by region are numbers of mapped addresses |
| `VmRegionSpec.CoveredWhole` | myos/kernel/memory/vmregion.c:147-187 | Over the whole map that count is the total mapped |
| `VmRegionSpec.PlaceOwner` | myos/kernel/memory/vmregion.c:80-105 | Insertion puts exactly the new addresses in the new region and leaves all others in theirs |
| `VmRegionSpec.PlaceOrdered` | myos/kernel/memory/vmregion.c:88-102 | Insertion keeps the list sorted and disjoint |
| `VmRegionSpec.CutAllOwner` | myos/kernel/memory/vmregion.c:147-187 | Removal, address by address: what it makes of the region that holds each, a hole without memory included |
| `VmRegionSpec.HoleEndIs` | myos/kernel/memory/vmregion.c:168-175 | The pages a hole without memory loses end where the region it is punched in ends |
| `VmRegionSpec.CutAllAt` | myos/kernel/memory/vmregion.c:147-187 | Removal unmaps exactly the range, or without memory for the upper part of a hole exactly up to the end of the region it is in, and keeps protection and flags of every other address |
| `VmRegionSpec.RemoveIsSubtraction` | myos/kernel/memory/vmregion.c:147-187 | Removal is set difference on addresses if and only if no hole is punched or there is memory for it |
| `VmRegionSpec.CutAllOrdered` | myos/kernel/memory/vmregion.c:147-187 | Removal keeps the list sorted and disjoint |
| `VmRegionSpec.CutAllBytes` | myos/kernel/memory/vmregion.c:147-187 | Total mapped drops by exactly the bytes reported removed, plus the lost upper part of a hole without memory |
| `VmRegionSpec.SearchExact` | myos/kernel/memory/vmregion.c:121-145 | The gap search returns the least fitting address at or above its start, or zero if there is none, if and only if one exists or the end it last looks at does not wrap into the limit, and the least fit is not address zero itself |
| `VmRegionSpec.FindFreeExact` | myos/kernel/memory/vmregion.c:121-145 | For every hint, size, base and limit: the free-range search returns the least fitting page-aligned address at or above hint and base, or zero if none fits, if and only if no sum it forms wraps into the limit, the start does not round past 2^64 onto a non-zero answer, and the answer is not address zero; an insert there is then valid |
| `VmRegionSpec.FindFreeWraps` | myos/kernel/memory/vmregion.c:121-145 | The inputs that fall outside it: a size whose end wraps is reported free where it does not fit, and a hint next to 2^64 is searched from zero |
| `VmRegionSpec.StepRefines` | myos/kernel/memory/vmregion.c:51-187 | Insertion and removal, with memory or without, are the pointwise operations on a table from address to region |
| `VmRegionSpec.RunRefinesTable` | myos/kernel/memory/vmregion.c:51-187 | Over every run, whatever each allocation answers, the region list and its total agree with a table from address to region |
| `VmRegion.VmMap.OverlapsRange` | myos/kernel/memory/vmregion.c:51-59 | The overlap scan |
| `VmRegion.VmMap.Insert` | myos/kernel/memory/vmregion.c:65-106 | Succeeds exactly when aligned, in bounds, free and with memory, and then the list is that of `Place`, else unchanged |
| `VmRegion.VmMap.FindPlace` | myos/kernel/memory/vmregion.c:88-96 | The scan finds the position at which insertion gives the list of `Place` |
| `VmRegion.VmMap.Find` | myos/kernel/memory/vmregion.c:108-119 | The lookup scan finds the region holding an address, with the attributes `At` gives, or none exactly when it is unmapped |
| `VmRegion.VmMap.FindFreeGap` | myos/kernel/memory/vmregion.c:121-145 | The gap search loop; outcome is that of `FindFree` |
| `VmRegion.VmMap.Punch` | myos/kernel/memory/vmregion.c:168-175 | Splits a region around a hole; outcome is that of `Cut` |
| `VmRegion.VmMap.CutOne` | myos/kernel/memory/vmregion.c:153-185 | Cuts one region: drop, trim left, trim right or punch; outcome is that of `Cut` |
| `VmRegion.VmMap.Remove` | myos/kernel/memory/vmregion.c:147-187 | The removal loop leaves the list of `CutAll` and returns the bytes of `Covered`; an unaligned range changes nothing |
| `TcpSpec.CloseKeeps` | myos/kernel/net/tcp.c:183-202 | Closing in any state keeps what holds of both directions |
| `TcpSpec.DataKeeps` | myos/kernel/net/tcp.c:142-164 | Sending data keeps what holds of both directions |
| `TcpSpec.ListenKeeps` | myos/kernel/net/tcp.c:210-224 | The passive side's answer to a SYN keeps both directions |
| `TcpSpec.SynSentKeeps` | myos/kernel/net/tcp.c:226-240 | The active side's answer to a SYN+ACK keeps both directions |
| `TcpSpec.EstablishedKeeps` | myos/kernel/net/tcp.c:249-259 | A segment arriving in ESTABLISHED is the next in sequence, so the receive point moves exactly past it, and a FIN is the last |
| `TcpSpec.FinWaitKeeps` | myos/kernel/net/tcp.c:261-280 | A segment arriving after our FIN keeps both directions, simultaneous close included |
| `TcpSpec.ReceiveKeeps` | myos/kernel/net/tcp.c:206-299 | Every inbound segment in every state keeps both directions |
| `TcpSpec.StepInv` | myos/kernel/net/tcp.c:142-340 | Every step of either endpoint keeps the connection invariant |
| `TcpSpec.InFlightIsChain` | myos/kernel/net/tcp.c:142-340 | In every reachable state the segments in flight to an ESTABLISHED endpoint form a contiguous chain modulo 2^32 from its rcv_nxt to the peer's snd_nxt |
| `TcpSpec.ClosedOnlyAfterTimeWait` | myos/kernel/net/tcp.c:288-293 | LAST_ACK becomes CLOSED only with the peer in TIME_WAIT and its rcv_nxt equal to the closer's snd_nxt |
| `TcpSpec.NeverClosing` | myos/kernel/net/tcp.c:261-270 | CLOSING is unreachable from an active and a passive open: every FIN carries an ACK |
| `TcpSpec.FollowsDiagram` | myos/kernel/net/tcp.c:183-299 | For every TCB and every segment the state after an arrival or a close is that of the diagram of section 3.2 of RFC 793; a close sends a FIN exactly where data could still be sent |
| `TcpSpec.HandshakeCompletes` | myos/kernel/net/tcp.c:166-247 | In every run without a close, as soon as nothing is in flight both ends are ESTABLISHED and agree on every sequence number |
| `TcpSpec.BothEnd` | myos/kernel/net/tcp.c:183-299 | In every run, once both ends have sent a FIN and nothing is in flight, one is in TIME_WAIT and the other too or released |
| `TcpSpec.LatestAckCurrent` | myos/kernel/net/tcp.c:142-164 | In every run the last segment in flight on either side, if it carries ACK, acknowledges all its sender has received |
| `TcpSpec.ArrivalAnswered` | myos/kernel/net/tcp.c:249-259 | Data or a FIN that arrives in ESTABLISHED is answered by an acknowledgement of the number after its last, modulo 2^32 |
| `TcpSpec.HandshakeAcked` | myos/kernel/net/tcp.c:226-247 | In every run a step that completes a handshake leaves snd_una at snd_nxt: the SYN, and nothing but the SYN, was unacknowledged |
| `TcpSpec.SimultaneousOpenSkips` | myos/kernel/net/tcp.c:232-238 | For all initial numbers a simultaneous open leaves both sides ESTABLISHED with nothing in flight and each one short of the other's snd_nxt |
| `TcpSpec.LinkedIff` | myos/kernel/net/tcp.c:142-340 | For any two openings, in every run what is in flight to an ESTABLISHED endpoint continues at its rcv_nxt, if and only if not both sides open actively |
| `TcpSpec.InOrder` | myos/kernel/net/tcp.c:249-259 | An ESTABLISHED endpoint accepts exactly the segment at its rcv_nxt, which then moves past it |
| `Tcp.TcbObject.SendSegment` | myos/kernel/net/tcp.c:142-164 | The segment carries the old snd_nxt and the current rcv_nxt, and snd_nxt moves past SYN, data and FIN modulo 2^32; outcome is that of `Send`; outcome is that of `Send` |
| `Tcp.Connection.constructor` | myos/kernel/net/tcp.c:166-181 | One side connects, the other listens: the invariants of numbers and acknowledgements hold |
| `Tcp.Connection.CloseSide` | myos/kernel/net/tcp.c:183-202 | A close of either side keeps the connection invariant, and a side that could send has its FIN last in its channel, numbered by its old snd_nxt |
| `Tcp.Connection.Transmit` | myos/kernel/net/tcp.c:142-164 | Data sent by either side keeps the invariant and follows all that side sent before |
| `Tcp.Connection.Deliver` | myos/kernel/net/tcp.c:206-299 | An arrival at either side keeps the invariant; ESTABLISHED accepts exactly the segment at rcv_nxt and answers data or a FIN with an acknowledgement of the number after it; LAST_ACK becomes CLOSED only with the peer in TIME_WAIT and all received |
| `Tcp.Connection.Perform` | myos/kernel/net/tcp.c:142-299 | Any sequence of closes, sends and arrivals on the two TCBs ends as `Run` does, the invariant kept throughout |
| `HashTable.AssocUpdate` | myos/kernel/lib/hashtable.c:77-84 | Overwriting a node's value changes what its key finds and nothing else |
| `HashTable.AssocUnlink` | myos/kernel/lib/hashtable.c:104-119 | Unlinking a node forgets its key and nothing else |
| `HashTable.AssocPrepend` | myos/kernel/lib/hashtable.c:85-93 | A node in front adds its key and nothing else |
| `HashTable.Hashtable.FindNode` | myos/kernel/lib/hashtable.c:61-75 | The chain walk finds a key exactly when the map has it |
| `HashTable.Hashtable.Get` | myos/kernel/lib/hashtable.c:96-102 | Lookup is lookup in the map |
| `HashTable.Hashtable.Put` | myos/kernel/lib/hashtable.c:77-94 | Insert or replace; fails only for a new key without memory; count is the map's size |
| `HashTable.Hashtable.Remove` | myos/kernel/lib/hashtable.c:104-119 | Removal is removal from the map and returns the old value |
| `DcacheSpec.ReleaseKeeps` | myos/kernel/fs/dcache.c:41-51 | Freeing a dentry leaves the index with live dentries only, under their own hashes, even after collisions |
| `DcacheSpec.MakeRoomKeeps` | myos/kernel/fs/dcache.c:92-94 | Room is made by evicting the least recent dentry, only when full |
| `DcacheSpec.InsertKeeps` | myos/kernel/fs/dcache.c:79-112 | Insertion keeps the structure and the capacity bound on every failure path |
| `DcacheSpec.FlushEmpties` | myos/kernel/fs/dcache.c:137-150 | A flush leaves an empty list and an empty index |
| `DcacheSpec.InsertSound` | myos/kernel/fs/dcache.c:79-112 | Insertion keeps every findable dentry equal to the last value told for its path |
| `DcacheSpec.StepSound` | myos/kernel/fs/dcache.c:58-150 | So does every operation |
| `DcacheSpec.RunSound` | myos/kernel/fs/dcache.c:31-150 | Over every run, under any collisions and allocation failures, a hit is the value last inserted for exactly that path with no later invalidate or flush |
| `DcacheSpec.RightIffFits` | myos/kernel/fs/dcache.c:79-112 | Hits are right in every run if and only if the hash tells every over-long path from its stored 255-character prefix |
| `DcacheSpec.WrongHit` | myos/kernel/fs/dcache.c:96-100 | The run that shows it: one insertion of such a path makes its never-inserted prefix hit |
| `DcacheSpec.InsertThenLookup` | myos/kernel/fs/dcache.c:58-112 | Given memory an inserted path hits exactly when it fits the 255 characters a dentry stores |
| `DcacheSpec.StepComplete` | myos/kernel/fs/dcache.c:31-150 | While the hash separates the paths in use no live dentry is lost from the index |
| `DcacheSpec.StepRecent` | myos/kernel/fs/dcache.c:53-112 | One operation moves a dentry back at most one place in the list |
| `DcacheSpec.Retained` | myos/kernel/fs/dcache.c:53-112 | While the hash separates the paths in use a dentry among the n most recent still hits after capacity - n further operations that do not drop it |
| `DcacheSpec.LookupOrder` | myos/kernel/fs/dcache.c:53-77 | A hit makes its dentry the most recent and leaves the others in their order; a miss changes nothing |
| `DcacheSpec.ReleaseHides` | myos/kernel/fs/dcache.c:41-51 | Releasing a dentry takes every path of its hash out of the index, its own or not, and leaves all others as they were |
| `DcacheSpec.InsertTakes` | myos/kernel/fs/dcache.c:79-112 | An insert takes effect, its dentry then most recent, if and only if the path hits already or there is memory for a dentry and for a hash node, which a hash that stays indexed does not need |
| `Dcache.DcacheObject.FindEntry` | myos/kernel/fs/dcache.c:31-39 | Index lookup with path comparison; outcome is that of `Find` |
| `Dcache.DcacheObject.ReleaseEntry` | myos/kernel/fs/dcache.c:45-49 | Unlink, unindex and free; outcome is that of `Release` |
| `Dcache.DcacheObject.EvictLast` | myos/kernel/fs/dcache.c:41-51 | Evicts the tail; outcome is that of `EvictOne` |
| `Dcache.DcacheObject.TouchEntry` | myos/kernel/fs/dcache.c:53-56 | Moves to the front; outcome is that of `Touch` |
| `Dcache.DcacheObject.LookupPath` | myos/kernel/fs/dcache.c:58-77 | Lookup; outcome is that of `Lookup` |
| `Dcache.DcacheObject.UpdateEntry` | myos/kernel/fs/dcache.c:84-90 | Overwrites an existing entry with the new value and moves it to the front, and changes nothing else |
| `Dcache.DcacheObject.MakeSpace` | myos/kernel/fs/dcache.c:92-94 | The eviction loop; outcome is that of `MakeRoom` |
| `Dcache.DcacheObject.AddEntry` | myos/kernel/fs/dcache.c:95-112 | Outcome is that of `Add` if there is a node or the hash is indexed already, else nothing changes |
| `Dcache.DcacheObject.InsertPath` | myos/kernel/fs/dcache.c:79-112 | Insertion with all its failure paths; outcome is that of `Insert` |
| `Dcache.DcacheObject.InvalidatePath` | myos/kernel/fs/dcache.c:122-135 | Invalidation; outcome is that of `Invalidate` |
| `Dcache.DcacheObject.FlushAll` | myos/kernel/fs/dcache.c:137-150 | The flush loop; outcome is that of `Flush` |
| `Checksum.FoldedFacts` | myos/kernel/net/checksum.c:26-35 | Folding keeps the value modulo 65535 and gives 0xFFFF exactly to the non-zero multiples |
| `Checksum.WordsConcat` | myos/kernel/net/checksum.c:11-24 | Word sums add up over strings joined at an even offset |
| `Checksum.CheckPasses` | myos/kernel/net/checksum.c:26-35 | A stored complement, or 0xFFFF for a computed zero, makes the receiver's check come out zero |
| `Checksum.OneWordChanged` | myos/kernel/net/checksum.c:26-57 | For sums: exchanging one summand of an accepted sum is missed exactly when it swaps 0x0000 and 0xFFFF |
| `Checksum.MessageWordChanged` | myos/kernel/net/checksum.c:11-57 | Two messages that differ in the 16-bit word at one even offset, an odd last byte included, the first accepted: the second is accepted exactly when the words are equal or are 0x0000 and 0xFFFF |
| `Checksum.Partial` | myos/kernel/net/checksum.c:11-24 | The accumulator loop adds the word sum modulo 2^32, exactly when it fits; outcome is that of `Kept` |
| `Checksum.Fold` | myos/kernel/net/checksum.c:26-35 | The folding loop computes the complement of the folded sum |
| `Checksum.Transport` | myos/kernel/net/checksum.c:41-57 | For every 16-bit length the 32-bit accumulator never overflows and the result is the complement of the pseudo-header and message sum |
| `Netbuf.NetBuf.Reserve` | myos/kernel/net/netbuf.c:41-52 | Moves an empty window forward when the region reaches that far |
| `Netbuf.NetBuf.Push` | myos/kernel/net/netbuf.c:54-60 | Extends the window to the front when there is headroom |
| `Netbuf.NetBuf.Pull` | myos/kernel/net/netbuf.c:62-68 | Consumes from the front when there is that much |
| `Netbuf.NetBuf.Put` | myos/kernel/net/netbuf.c:70-77 | Extends the window to the back when there is tailroom |
| `Netbuf.NetBuf.Trim` | myos/kernel/net/netbuf.c:79-83 | Cuts the window to a length, never longer |
| `Netbuf.NetBuf.PutData` | myos/kernel/net/netbuf.c:96-102 | Appends the bytes to the packet exactly when there is tailroom, else changes nothing |
| `UdpSpec.Best` | myos/kernel/net/ipv4.c:54-74 | The chosen route covers the destination, none covering it has a longer prefix, none earlier an equal one |
| `UdpSpec.SubnetBits` | myos/kernel/net/net_addr.h:48-52 | Two addresses are on one subnet if and only if they agree on every bit set in the mask |
| `UdpSpec.EgressChoice` | myos/kernel/net/ipv4.c:104-124 | A datagram leaves by the interface of the longest route; without a route by the first interface attached to the destination's subnet; else by the first that is up and no loopback, else by the last loopback up; by none only if every interface is down |
| `UdpSpec.WordsPut` | myos/kernel/net/checksum.c:11-24 | Storing a checksum over a zero field adds it to the word sum |
| `UdpSpec.IpHeaderChecks` | myos/kernel/net/ipv4.c:80-102 | Every built header passes the header check |
| `UdpSpec.IpFields` | myos/kernel/net/ipv4.c:80-102 | A built header carries version 4 without options, the total length, the identification, don't fragment, the time to live, the protocol and both addresses in their places |
| `UdpSpec.IpAccepts` | myos/kernel/net/ipv4.c:150-170 | For every byte string: the IP layer goes on if and only if it is long enough, version 4, holds its header, and the words of the header add up to a multiple of 65535 |
| `UdpSpec.UdpAccepts` | myos/kernel/net/udp.c:152-178 | For every byte string: a segment is delivered if and only if its length field is possible and its checksum is zero or pseudo header and words add up to a multiple of 65535; ports and payload are those of its bytes |
| `UdpSpec.InputAccepts` | myos/kernel/net/ipv4.c:150-203 | A packet is delivered if and only if both layers find it sound and its protocol is UDP, with the addresses in its header |
| `UdpSpec.IpWordChanged` | myos/kernel/net/ipv4.c:166-170 | An accepted packet with one header word changed, the header length as it was, is accepted if and only if it is version 4 and the words are equal or are 0x0000 and 0xFFFF |
| `UdpSpec.UdpWordChanged` | myos/kernel/net/udp.c:164-171 | An accepted segment with one word other than the length changed is delivered if and only if the words are equal or are 0x0000 and 0xFFFF, or the checksum became zero |
| `UdpSpec.IpRoundTrip` | myos/kernel/net/ipv4.c:80-203 | A built packet is accepted with its addresses, protocol and payload, whatever the link appends, including lengths that do not fit the length field |
| `UdpSpec.UdpRoundTrip` | myos/kernel/net/udp.c:94-184 | A built datagram whose length fits is accepted with its ports and payload for every payload, also when its checksum came out zero |
| `UdpSpec.DatagramRoundTrip` | myos/kernel/net/udp.c:94-184 | A sent datagram is delivered intact if and only if its payload is at most 65527 bytes, whatever padding the link appends; an unspecified source arrives as the address of the interface it left by |
| `UdpSpec.CorruptedDropped` | myos/kernel/net/udp.c:152-171 | A sent datagram one 16-bit word of which arrives changed, other than the UDP length and with the header length as it was, is dropped unless the words are 0x0000 and 0xFFFF or the UDP checksum became zero; behind the IP header it is delivered in exactly those cases |
| `Udp.RouteLookup` | myos/kernel/net/ipv4.c:54-74 | The route loop picks the longest prefix, first among equals; outcome is that of `Best` |
| `Udp.NetifForDest` | myos/kernel/net/net_if.c:73-84 | The first interface that is up, has an address and is on the destination's subnet, or none if there is none; outcome is that of `OnLink`; outcome is that of `OnLink` |
| `Udp.NetifDefault` | myos/kernel/net/net_if.c:57-71 | The first interface that is up and no loopback, else the last loopback that is up, else none; outcome is that of `DefaultNif`; outcome is that of `DefaultNif` |
| `Udp.FindEgress` | myos/kernel/net/ipv4.c:104-124 | Route, subnet, default, in that order; outcome is that of `Egress` |
| `Udp.BuildIp` | myos/kernel/net/ipv4.c:80-102 | Pushes and fills the IPv4 header in place; outcome is that of `IpBuild` |
| `Udp.BuildUdp` | myos/kernel/net/udp.c:94-148 | Builds header, payload and checksum in a fresh buffer; outcome is that of `UdpBuild` |
| `Udp.SendDatagram` | myos/kernel/net/udp.c:94-150 | The whole send path yields the specified packet with headroom left for the link header; outcome is that of `Output` |
| `Udp.InputIp` | myos/kernel/net/ipv4.c:150-190 | Validation, trimming and stripping in place: a packet goes on if and only if it is version 4, holds its header and the header adds up to a multiple of 65535; outcome is that of `IpParse`; outcome is that of `IpParse` |
| `Udp.InputUdp` | myos/kernel/net/udp.c:152-178 | Length and checksum validation: a segment is delivered if and only if its length field is possible and it carries no checksum or adds up with its pseudo header to a multiple of 65535; outcome is that of `UdpParse`; outcome is that of `UdpParse` |
| `Udp.FindBinding` | myos/kernel/net/udp.c:22-37 | The exact binding if there is one, else the last wildcard of the port, else none |
| `CalloutSpec.InsertedSorted` | myos/kernel/time/callout.c:25-39 | Insertion keeps the list ordered by expiry and, among equals, by arming |
| `CalloutSpec.ArmKeeps` | myos/kernel/time/callout.c:58-71 | Arming and re-arming keep list, wheel and armed timers in agreement |
| `CalloutSpec.CancelExact` | myos/kernel/time/callout.c:73-83 | A cancelled timer is in neither the list nor any bucket of the wheel, and the others stay as they were |
| `CalloutSpec.UnlinkKeeps` | myos/kernel/time/callout.c:45-52 | Unlinking keeps them in agreement |
| `CalloutSpec.FireKeeps` | myos/kernel/time/callout.c:98-116 | One turn of the advance loop keeps them in agreement |
| `CalloutSpec.ShotsFormula` | myos/kernel/time/callout.c:110-116 | A due periodic timer fires (now - e) / period + 1 times if and only if its first expiry past the clock fits 64 bits |
| `CalloutSpec.AdvanceFacts` | myos/kernel/time/callout.c:85-119 | Each timer fires exactly as often as it alone would, one-shots once, and ends past the clock; both structures agree afterwards |
| `CalloutSpec.CancelledSilent` | myos/kernel/time/callout.c:73-119 | A cancelled timer does not fire when the clock is advanced, however far, and is not armed afterwards; every other timer fires as often as it would have |
| `CalloutSpec.AdvanceOrder` | myos/kernel/time/callout.c:85-119 | Firings are in order of expiry, first armed first among equals, if and only if no due periodic timer's expiry wraps |
| `CalloutSpec.SettlesIff` | myos/kernel/time/callout.c:110-116 | A periodic timer gets past the clock after finitely many re-armings if and only if it is past it already or the greatest 64-bit number congruent to its expiry modulo the largest power of two in its period is |
| `CalloutSpec.TerminatesIff` | myos/kernel/time/callout.c:85-119 | The advance loop ends if and only if every armed timer is not due, is one-shot, or 2^64 - g + (expiry mod g) lies past the clock, g being the largest power of two in its period |
| `CalloutSpec.LastTick` | myos/kernel/time/callout.c:110-116 | At the last 64-bit tick no due periodic timer ever does |
| `Callouts.CalloutBase.FindPlace` | myos/kernel/time/callout.c:25-34 | The list walk for the insertion point; outcome is that of `Place` |
| `Callouts.CalloutBase.LinkTimer` | myos/kernel/time/callout.c:25-43 | Enters list and wheel; outcome is that of `Link` |
| `Callouts.CalloutBase.UnlinkTimer` | myos/kernel/time/callout.c:45-52 | Leaves list and wheel; outcome is that of `Unlink` |
| `Callouts.CalloutBase.ArmPeriodic` | myos/kernel/time/callout.c:58-71 | Arming; outcome is that of `Arm` |
| `Callouts.CalloutBase.CancelTimer` | myos/kernel/time/callout.c:73-83 | Reports whether the timer was armed and leaves it in neither structure; outcome is that of `Cancel`; outcome is that of `Cancel` |
| `Callouts.CalloutBase.FireHead` | myos/kernel/time/callout.c:93-116 | One firing with re-arming; outcome is that of `Fire` |
| `Callouts.CalloutBase.AdvanceTo` | myos/kernel/time/callout.c:85-119 | The advance loop, for every clock at which it ends (`AllPass`): final state, number fired and every fire count; outcome is that of `Advance` |
| `SlabSpec.ShapeGood` | myos/kernel/memory/slab.c:34-76 | Whatever the object size, a slab has room for its slots and at least eight of them |
| `SlabSpec.ShapeTight` | myos/kernel/memory/slab.c:34-76 | A slab has as few pages as hold its header and eight slots, and as many slots as those pages hold |
| `SlabSpec.SlotLeast` | myos/kernel/memory/slab.c:34-42 | A slot is the least multiple of the alignment that holds the object, its redzone and a link |
| `SlabSpec.AlignedIff` | myos/kernel/memory/slab.c:84-98 | Objects have the alignment asked for if and only if it divides the 48-byte slab header |
| `SlabSpec.Conservation` | myos/kernel/memory/slab.c:78-150 | In a cache the free and live slots together are all slots of all slabs |
| `SlabSpec.GrowKeeps` | myos/kernel/memory/slab.c:78-102 | Growing keeps free and live slots a partition |
| `SlabSpec.LinkIsNoHeader` | myos/kernel/memory/slab.c:289-306 | No free-list link can be taken for a header: links are 16-aligned and the magic number is not |
| `SlabSpec.SlotsApart` | myos/kernel/memory/slab.c:78-102 | Classes share no slot and no slot is the start of a page run |
| `SlabSpec.GrowClassKeeps` | myos/kernel/memory/slab.c:78-102 | Growing a class keeps the whole allocator's invariant and what is live |
| `SlabSpec.TakeSlotKeeps` | myos/kernel/memory/slab.c:119-136 | Taking a slot keeps the invariant and makes exactly one dead slot live |
| `SlabSpec.GiveSlotKeeps` | myos/kernel/memory/slab.c:298-307 | Giving a slot back keeps the invariant |
| `SlabSpec.AllocKeeps` | myos/kernel/memory/slab.c:220-259 | An allocation returns memory that was not live, now is, and has room for the request, large ones included |
| `SlabSpec.AllocSucceedsIff` | myos/kernel/memory/slab.c:220-259 | An allocation succeeds if and only if the size is not zero and a slot of the smallest class with room is free or the offered run is fresh for a slab, or, above 4096 bytes, the pages do not wrap and the run is fresh for them; it comes from that class or is a run of its own; failing changes nothing |
| `SlabSpec.AllocKeepsLive` | myos/kernel/memory/slab.c:220-259 | An allocation leaves every live allocation live with the same owner and room |
| `SlabSpec.AllocKeepsWords` | myos/kernel/memory/slab.c:220-259 | An allocation writes no word of a live payload |
| `SlabSpec.FreeKeepsLive` | myos/kernel/memory/slab.c:283-308 | So does a free of any other pointer |
| `SlabSpec.ReallocExact` | myos/kernel/memory/slab.c:310-329 | Resizing a live allocation returns the same pointer if and only if it has room, and otherwise another one if and only if a slot of the class is free or the offered run is fresh for the pages needed; the new one was not live, has room for the new size and holds every word of the old payload, and the old one is retired; failing changes nothing |
| `SlabSpec.ReallocZero` | myos/kernel/memory/slab.c:310-316 | Resizing a live allocation to zero returns nothing and the allocation is no longer live |
| `SlabSpec.ReallocOthers` | myos/kernel/memory/slab.c:310-329 | Whatever the size and the outcome, every other live allocation stays live with the same room |
| `SlabSpec.FreeExact` | myos/kernel/memory/slab.c:283-308 | A pointer is accepted if and only if it is live, and then no longer is, or its header word was last written by somebody else with the magic number; a rejected one changes nothing |
| `SlabSpec.ForgedBreaks` | myos/kernel/memory/slab.c:283-308 | Accepting a forged header of a size class destroys the allocator's invariant |
| `SlabSpec.PutKeeps` | myos/kernel/memory/slab.c:220-259 | Stores into live payloads and outside the allocator's runs keep the whole invariant |
| `SlabSpec.ForgedStep` | myos/kernel/memory/slab.c:220-308 | A header word is forged after a step if and only if the step stores the magic number there, or it was forged and the step does not overwrite it |
| `SlabSpec.DoubleFreeExact` | myos/kernel/memory/slab.c:283-308 | Over every run a freed pointer not handed out again is accepted by a later free if and only if the last write to its header word is a store of the magic number; a pointer into a size class never is |
| `SlabSpec.StaleLargeFree` | myos/kernel/memory/slab.c:283-308 | The input: a large pointer is freed, a larger run is placed over it, its owner stores the magic number, and the pointer is accepted again, which breaks the allocator |
| `SlabSpec.LiveDisjoint` | myos/kernel/memory/slab.c:211-259 | Any two live allocations, of any classes or large, are disjoint from header to end |
| `SlabSpec.ClassConserved` | myos/kernel/memory/slab.c:78-150 | In every class free plus live is slabs times slots per slab, at least eight per slab |
| `Slab.KmemObject.SizeToClass` | myos/kernel/memory/slab.c:211-218 | The smallest class with room; outcome is that of `ClassFor` |
| `Slab.KmemObject.CacheGrow` | myos/kernel/memory/slab.c:78-102 | The loop that threads a new slab's slots onto the free list; outcome is that of `GrowClass` |
| `Slab.KmemObject.TakeHead` | myos/kernel/memory/slab.c:119-136 | Pops the free list and writes the header; outcome is that of `TakeSlot` |
| `Slab.KmemObject.KmemAlloc` | myos/kernel/memory/slab.c:220-259 | Allocation by class or by pages, which succeeds if and only if the request can be met; outcome is that of `Step` with `DoAlloc`; outcome is that of `Step` with `DoAlloc` |
| `Slab.KmemObject.KmemFree` | myos/kernel/memory/slab.c:283-308 | Free with the magic-number check; the invariant stays unless the header was forged; outcome is that of `Free` |
| `Slab.KmemObject.KmemSize` | myos/kernel/memory/slab.c:269-281 | Usable size of a pointer; outcome is that of `AllocSize` |
| `Slab.KmemObject.CopyPayload` | myos/kernel/memory/slab.c:326 | The copy loop of a resize; outcome is that of `CopyTo` |
| `Slab.KmemObject.StoreWord` | myos/kernel/memory/slab.c:184-189 | A store by a payload's owner, or by anybody outside the allocator's runs, keeps the invariant |
| `Slab.KmemObject.KmemRealloc` | myos/kernel/memory/slab.c:310-329 | Resize in place or by moving, with the copy loop: succeeds if and only if the size is not zero and either the old allocation has room or the request can be met; outcome is that of `Realloc`; outcome is that of `Realloc` |
| `KernelMemory.OfferFresh` | myos/kernel/memory/slab.c:79-82 | What the page allocator hands out overlaps nothing the slab allocator holds |
| `KernelMemory.AllocKeeps` | myos/kernel/memory/slab.c:220-259 | An allocation that asks the page allocator keeps both allocators' accounts in agreement |
| `KernelMemory.FreeKeeps` | myos/kernel/memory/slab.c:293-301 | Freeing a large allocation gives exactly its pages back, and the page allocator accepts them |
| `KernelMemory.PagesBalance` | myos/kernel/memory/slab.c:78-308 | In every run of the two allocators a page is in use if and only if it was at the start or lies in a run held; with nothing held the page allocator is as it was |
| `BcacheSpec.ReclaimKeeps` | myos/kernel/fs/bcache.c:45-59 | Reclaiming frees an unpinned buffer, or everything resident is pinned |
| `BcacheSpec.VictimOldest` | myos/kernel/fs/bcache.c:45-59 | The buffer reclaimed is the least recently used of the unpinned ones |
| `BcacheSpec.BreadKeeps` | myos/kernel/fs/bcache.c:61-100 | A read keeps residency within the larger of capacity and peak pinned |
| `BcacheSpec.BreadOrder` | myos/kernel/fs/bcache.c:61-100 | A buffer returned is the most recent, resident and pinned once more; on a hit its contents stay and the others keep their order |
| `BcacheSpec.StepKeeps` | myos/kernel/fs/bcache.c:45-124 | So does every operation |
| `BcacheSpec.StepPins` | myos/kernel/fs/bcache.c:61-112 | Pin counts are the outstanding reads, so a buffer with one is never reclaimed |
| `BcacheSpec.DropView` | myos/kernel/fs/bcache.c:18-30 | Dropping a buffer keeps every block's contents if and only if they are on the device afterwards: written with success, or there already |
| `BcacheSpec.SyncExact` | myos/kernel/fs/bcache.c:114-124 | After a sync nothing is dirty and no block reads differently, whatever the writes answered; the device holds every block, and clean buffers agree with it, if and only if no write of a changed buffer failed |
| `BcacheSpec.SyncCounts` | myos/kernel/fs/bcache.c:114-124 | The result of a sync is the number of dirty buffers |
| `BcacheSpec.BreadView` | myos/kernel/fs/bcache.c:61-100 | A read changes what users see, or leaves a clean buffer that differs from the device, if and only if it misses and the write of a changed buffer it reclaims fails, or it has its memory and the device fails on a block that is not zeros |
| `BcacheSpec.StepRefines` | myos/kernel/fs/bcache.c:45-124 | Every operation the device serves is one of a plain block store |
| `BcacheSpec.RunRefines` | myos/kernel/fs/bcache.c:18-124 | Over every run, blocks read as last modified, pins are the outstanding reads, residency is bounded and clean buffers equal the device after every operation if and only if the device fails on nothing that matters |
| `Bcache.BcacheObject.FlushBuf` | myos/kernel/fs/bcache.c:18-24 | Write-back of one buffer; outcome is that of `Flush` |
| `Bcache.BcacheObject.DropBlock` | myos/kernel/fs/bcache.c:51-56 | Unlink, write back and free; outcome is that of `Drop` |
| `Bcache.BcacheObject.ReclaimOne` | myos/kernel/fs/bcache.c:45-59 | The backward walk to the first unpinned buffer; outcome is that of `Reclaim` |
| `Bcache.BcacheObject.PinBlock` | myos/kernel/fs/bcache.c:62-69 | A hit: pin count up by one, buffer to the front, peak brought up to date |
| `Bcache.BcacheObject.LoadBlock` | myos/kernel/fs/bcache.c:85-99 | A miss once its memory is there: a clean buffer pinned once at the front, peak brought up to date |
| `Bcache.BcacheObject.BreadBlock` | myos/kernel/fs/bcache.c:61-100 | Read with all its failure paths; outcome is that of `Bread` |
| `Bcache.BcacheObject.BrelseBlock` | myos/kernel/fs/bcache.c:107-112 | Release; outcome is that of `Brelse` |
| `Bcache.BcacheObject.ModifyBlock` | myos/kernel/fs/bcache.c:102-105 | Store into a resident buffer and mark dirty; outcome is that of `Modify` |
| `Bcache.BcacheObject.SyncAll` | myos/kernel/fs/bcache.c:114-124 | The sync loop and its count; outcome is that of `Sync` |
| `RwLockSpec.ContinueKeeps` | myos/kernel/sync/rwlock.c:13-81 | Every spinlocked section, wait and wake-up of every thread keeps the invariant |
| `RwLockSpec.NextKeeps` | myos/kernel/sync/rwlock.c:13-81 | Every action keeps it: state is -1 with exactly one writer inside, else the number of readers; waiting_writers counts the writers between announce and retract; queues hold their waiters once |
| `RwLockSpec.RunKeeps` | myos/kernel/sync/rwlock.c:13-81 | So does every interleaving |
| `RwLockSpec.WriterAlone` | myos/kernel/sync/rwlock.c:13-81 | In every reachable state a writer inside is alone |
| `RwLockSpec.ReaderDeferred` | myos/kernel/sync/rwlock.c:13-23 | No step lets a reader in while any writer is between announce and retract |
| `RwLockSpec.StrandsIff` | myos/kernel/sync/rwlock.c:25-81 | From a state with nobody stranded (a writer queued on a free lock with nobody about to take it or wake it, or a reader queued that could enter with nobody waking readers), a step strands somebody if and only if it puts a thread to sleep after the wake-up it needed |
| `RwLockSpec.NobodyStrandedIff` | myos/kernel/sync/rwlock.c:25-81 | Over every run nobody is ever stranded if and only if no thread goes to sleep late |
| `RwLockSpec.UndisturbedSafe` | myos/kernel/sync/rwlock.c:25-68 | If only the thread between its failed try and its wait acts meanwhile, no run ever strands a reader or a writer |
| `RwLockSpec.LostWakeup` | myos/kernel/sync/rwlock.c:54-68 | The input that shows a lost wake-up: a run after which the lock is free, a writer waits unwoken, and its announcement keeps readers out |
| `RwLock.RwLockObject.ReaderCount` | myos/kernel/sync/rwlock.c:83-85 | The count is the number of threads inside as readers |
| `RwLock.RwLockObject.WriteHeld` | myos/kernel/sync/rwlock.c:87-89 | True exactly when a thread is inside as a writer |
| `RwLock.RwLockObject.TryReadLock` | myos/kernel/sync/rwlock.c:13-23 | A reader gets in exactly when no writer is inside and none is announced; the set of readers inside grows by exactly it; invariant kept |
| `RwLock.RwLockObject.UnlockRead` | myos/kernel/sync/rwlock.c:31-41 | The reader is out; a writer is to be woken exactly when no reader is left and a writer is announced; invariant kept |
| `RwLock.RwLockObject.TryWriteLock` | myos/kernel/sync/rwlock.c:43-52 | A writer gets in exactly when nobody is inside, and is then the only one; invariant kept |
| `RwLock.RwLockObject.AnnounceWriter` | myos/kernel/sync/rwlock.c:54-57 | The set of announced writers grows by exactly it; invariant kept |
| `RwLock.RwLockObject.RetractWriter` | myos/kernel/sync/rwlock.c:63-67 | The count drops by one, never hidden by its guard, the set of announced writers by exactly it, and it stays the one writer inside; invariant kept |
| `RwLock.RwLockObject.UnlockWrite` | myos/kernel/sync/rwlock.c:70-81 | Nobody is inside; a writer is preferred exactly when one is announced; invariant kept |
| `RwLock.RwLockObject.Wait` | myos/kernel/sync/rwlock.c:25-61 | Last in its queue; strands somebody exactly when the wait is late; invariant kept |
| `RwLock.RwLockObject.WakeOneWriter` | myos/kernel/sync/rwlock.c:38-40 | The writer that has waited longest tries again; invariant kept |
| `RwLock.RwLockObject.WakeAllReaders` | myos/kernel/sync/rwlock.c:76-80 | The loop makes every queued reader try again and moves nobody else; invariant kept |
| `RwLock.RwLockObject.Perform` | myos/kernel/sync/rwlock.c:13-81 | Any interleaving of the threads' sections ends as `Run` does, the invariant kept throughout |
| `Bits.SetBit` | myos/kernel/memory/pmm.c:25-27 | Setting a bit of a byte sets that page and no other |
| `Bits.ClearBit` | myos/kernel/memory/pmm.c:28-30 | Clearing a bit frees that page and no other |
| `PmmSpec.CoversExactly` | myos/kernel/memory/pmm.c:47-61 | The pages reserved are exactly those the range touches if and only if its rounded end stays below 2^64 |
| `PmmSpec.HighestExact` | myos/kernel/memory/pmm.c:66-79 | No RAM descriptor ends above the highest address and one ends there, or there is none |
| `PmmSpec.BitmapFits` | myos/kernel/memory/pmm.c:80-82 | The bitmap's pages hold one bit for each page, and no page less would |
| `PmmSpec.HomeExact` | myos/kernel/memory/pmm.c:84-97 | The home of the bitmap is the start of the first conventional region at or above 1 MiB with room for it; there is none exactly when no region qualifies |
| `PmmSpec.InitPanics` | myos/kernel/memory/pmm.c:66-101 | Start-up panics if and only if no region can hold the bitmap of all RAM |
| `PmmSpec.InitExact` | myos/kernel/memory/pmm.c:63-147 | After start-up a page is free exactly when conventional and in no reserved range, and the counter is exact |
| `PmmSpec.FindRun` | myos/kernel/memory/pmm.c:161-184 | The run found is free and the lowest; none is found only if there is none |
| `PmmSpec.Skip` | myos/kernel/memory/pmm.c:168-181 | Every start up to the used page that broke a run can be skipped |
| `PmmSpec.AllocFacts` | myos/kernel/memory/pmm.c:149-184 | An allocation takes the lowest free run above 1 MiB and nothing else, drops the counter by its length, and fails only if there is none |
| `PmmSpec.FreePageKeeps` | myos/kernel/memory/pmm.c:192-208 | Freeing a page keeps the counter exact |
| `PmmSpec.FreeExact` | myos/kernel/memory/pmm.c:186-208 | Freeing a run goes through if and only if the address is a page boundary at or above 1 MiB and all its pages exist and are in use; it then frees and counts exactly those; else it panics |
| `PmmSpec.AllocFreeRoundTrip` | myos/kernel/memory/pmm.c:161-208 | Allocating and freeing a run restores the state |
| `PmmSpec.RunConserves` | myos/kernel/memory/pmm.c:149-208 | In every run the runs handed out never overlap, come from pages that were free and are what the bitmap has gained; once all are returned, in any order, bitmap and counter are what they were |
| `PmmSpec.GuardExact` | myos/kernel/memory/pmm.c:169-170 | The 64-bit loop guard is right at the first page if and only if the sum there does not wrap into the total, and then at every page the search reaches |
| `PageAllocator.CountPages` | myos/kernel/memory/pmm.c:66-79 | The scan for the highest RAM address, than which no RAM descriptor ends higher; outcome is that of `TotalPages`; outcome is that of `TotalPages` |
| `PageAllocator.FindHome` | myos/kernel/memory/pmm.c:84-97 | The scan for the bitmap's home finds the first conventional region at or above 1 MiB with room, or none if there is none; outcome is that of `BitmapHome`; outcome is that of `BitmapHome` |
| `PageAllocator.PmmObject.BitSet` | myos/kernel/memory/pmm.c:25-27 | Marks a page used in the bitmap |
| `PageAllocator.PmmObject.BitClear` | myos/kernel/memory/pmm.c:28-30 | Marks a page free in the bitmap |
| `PageAllocator.PmmObject.BitTest` | myos/kernel/memory/pmm.c:31-33 | Reads a page's bit |
| `PageAllocator.PmmObject.ReserveRange` | myos/kernel/memory/pmm.c:47-61 | The loop marks used exactly the existing pages from `FirstPage` to `LastPage` of the range and keeps the counter exact |
| `PageAllocator.PmmObject.FreeDesc` | myos/kernel/memory/pmm.c:110-123 | The loop marks free exactly the existing pages of a conventional descriptor and keeps the counter exact |
| `PageAllocator.PmmObject.Start` | myos/kernel/memory/pmm.c:109-134 | Frees conventional memory, then reserves; outcome is that of `Init` |
| `PageAllocator.PmmObject.AllocPage` | myos/kernel/memory/pmm.c:149-159 | The search for one page; outcome is that of `AllocContig` |
| `PageAllocator.PmmObject.AllocPages` | myos/kernel/memory/pmm.c:161-184 | The search with skip-ahead, for every count whose first guard is right; outcome is that of `AllocContig` |
| `PageAllocator.PmmObject.Extent` | myos/kernel/memory/pmm.c:169-173 | Counts free pages from a start |
| `PageAllocator.PmmObject.Take` | myos/kernel/memory/pmm.c:174-179 | Marks exactly the run used and drops the counter by its length |
| `PageAllocator.PmmObject.ReleasePage` | myos/kernel/memory/pmm.c:192-208 | Frees a page or panics; outcome is that of `FreePage` |
| `HxeSpec.LeRoundTrip` | myos/tools/mkhxe.py:135-142 | Little-endian words read back |
| `HxeSpec.ImageReadsBack` | myos/tools/mkhxe.py:124-147 | The loader reads back the header and exactly the records written |
| `HxeSpec.NeighboursSuffice` | myos/tools/mkhxe.py:118-122 | Checking neighbours of the sorted segments implies the loader's pairwise check |
| `HxeSpec.WriterAccepts` | myos/tools/mkhxe.py:110-127 | The writer accepts segments, in whatever order they are given, if and only if each has no more file bytes than memory and lies between image base and user top, of every two the pages of the lower, or first given, end before those of the other begin, and the entry is inside an executable one |
| `HxeSpec.SortFacts` | myos/tools/mkhxe.py:111 | The order of checking and writing is a permutation of the segments by address |
| `HxeSpec.FlagsKept` | myos/tools/mkhxe.py:88-96 | Readable, writable and executable mean the same before and after, and no other flag is set |
| `HxeSpec.BlobsLength` | myos/tools/mkhxe.py:135-142 | The blobs are as long as the table says if and only if every non-empty segment lies in the ELF file |
| `HxeSpec.WrittenChecks` | myos/kernel/user/user_loader.c:35-78 | The loader's checks accept a written image exactly when every non-empty segment lies in the ELF file and no segment starts at the very top of user space |
| `HxeSpec.LoadRecFacts` | myos/kernel/user/user_loader.c:80-96 | Loading one segment succeeds exactly when it has a page and frames for all; its pages then hold its bytes and zeros |
| `HxeSpec.LoadAllIff` | myos/kernel/user/user_loader.c:80-96 | Loading all succeeds exactly when none is without a page and there are frames for all |
| `HxeSpec.LoadsIff` | myos/kernel/user/user_loader.c:14-102 | The loader accepts what mkhxe writes if and only if every non-empty segment lies in the ELF file, every segment has a page and there are frames for all; it reports the entry point |
| `HxeSpec.LoadedBytes` | myos/kernel/user/user_loader.c:80-96 | Every byte of every segment is its file byte, or zero past the file bytes |
| `HxeSpec.LoadedPages` | myos/kernel/user/user_loader.c:80-96 | The segments' pages are mapped, each writable if and only if its segment is, and every other page keeps its permission |
| `HxeSpec.TableInside` | myos/kernel/user/user_loader.c:28-33 | The header check keeps the whole segment table inside the image if and only if header size plus table size does not wrap 64 bits |
| `HxeSpec.WrappedTable` | myos/kernel/user/user_loader.c:28-33 | The input that wraps: a table outside the image passes the check |
| `HxeSpec.AcceptedSafe` | myos/kernel/user/user_loader.c:35-96 | For every table that passes the checks, wherever it was read from: only bytes of the image are copied, no two segments share a page, their pages hold their bytes and zeros, and nothing outside the user image range changes |
| `HxeSpec.LoadSafe` | myos/kernel/user/user_loader.c:14-102 | The same for the loader as a whole on every image it accepts, which begins with the magic and version 1, and the entry lies in an executable segment |
| `HxeSpec.HeaderIff` | myos/kernel/user/user_loader.c:16-33 | The header check passes if and only if the image has 32 bytes, begins with HXE1 and the version 1, gives a header size of at least 32 and some segments, and the table ends inside it in 64-bit arithmetic |
| `HxeSpec.MapRangeIff` | myos/kernel/user/user_address_space.c:133-152 | Mapping a range succeeds if and only if it is not empty, ends inside user space and there are frames for all its pages |
| `Hxe.Validate` | myos/tools/mkhxe.py:110-126 | The writer's checks, of neighbours in the sorted list, accept if and only if every segment is in bounds, all pairs are apart and the entry is in an executable one; outcome is that of `Validated` |
| `Hxe.Layout` | myos/tools/mkhxe.py:128-145 | The loop yields exactly the table of `Records` and the bytes of `Blobs` |
| `Hxe.WriteImage` | myos/tools/mkhxe.py:99-147 | The writer as a whole; outcome is that of `Mkhxe` |
| `Hxe.CheckTable` | myos/kernel/user/user_loader.c:35-78 | The loader's nested checks; outcome is that of `TableOk` |
| `Hxe.UserSpace.MapRegion` | myos/kernel/user/user_address_space.c:133-153 | The mapping loop, out of frames included, in place; outcome is that of `MapRange` |
| `Hxe.UserSpace.CopyIn` | myos/kernel/user/user_address_space.c:173-197 | The page-by-page copy loop succeeds exactly when every page is mapped, and then memory is that of `Copy` |
| `Hxe.UserSpace.LoadSegment` | myos/kernel/user/user_loader.c:80-96 | Maps, zeroes and copies one segment: succeeds exactly when `LoadRec` does, and then with its space |
| `Hxe.UserSpace.LoadImage` | myos/kernel/user/user_loader.c:14-102 | The loader as a whole: succeeds exactly when `Load` does, and then with its space and entry |
| `PathSpec.CompsSlash` | myos/kernel/fs/path.c:44-56 | Splitting distributes over a slash |
| `PathSpec.CompsGlue` | myos/kernel/fs/path.c:44-90 | Splitting a joined path gives its components back |
| `PathSpec.WalkConcat` | myos/kernel/fs/path.c:57-75 | Walking a path in a directory is walking the directory and then the path |
| `PathSpec.WalkFailsIff` | myos/kernel/fs/path.c:57-75 | The component stack overflows if and only if some prefix of the components is more than 32 levels deep; else it ends at the height |
| `PathSpec.WalkIsRemaining` | myos/kernel/fs/path.c:57-75 | The component stack equals what remains when the components are read from the end |
| `PathSpec.UpCancels` | myos/kernel/fs/path.c:60-65 | An entry followed by ".." anywhere is as if neither were there, unless the stack could not hold the entry |
| `PathSpec.UpAtRoot` | myos/kernel/fs/path.c:60-65 | At the root ".." changes nothing |
| `PathSpec.DotIsNothing` | myos/kernel/fs/path.c:57-59 | "." changes nothing anywhere |
| `PathSpec.ResolveMeaning` | myos/kernel/fs/path.c:9-91 | A result is canonical and its components are those of the base and the path that remain when they are read from the end, each ".." dropping the nearest entry before it that no other drops |
| `PathSpec.ResolveFails` | myos/kernel/fs/path.c:9-91 | The exact condition of each failure, all of them sizes: output, working copy, more than 32 levels after some prefix of the components, or the result not fitting |
| `PathSpec.FixedPoint` | myos/kernel/fs/path.c:9-91 | A canonical path that fits resolves to itself in every directory |
| `PathSpec.ResultFixed` | myos/kernel/fs/path.c:9-91 | A result resolves to itself in every directory if and only if it is shorter than the working copy, as it is whenever the path or the directory is absolute or the directory empty |
| `PathSpec.LongResult` | myos/kernel/fs/path.c:9-91 | The input that is not a fixed point: a relative directory of 509 letters |
| `PathSpec.ResolveTwice` | myos/kernel/fs/path.c:9-91 | A relative path means the same in a directory and in its normal form if and only if that form leaves room for it in the working copy, as an absolute directory's always does |
| `PathSpec.ParentBasename` | myos/kernel/fs/path.c:93-120 | Parent and last component of a canonical path are its front and its last, and recompose it |
| `PathSpec.UpIsParent` | myos/kernel/fs/path.c:9-120 | "/.." after a path resolves to the parent of what the path resolves to, if and only if three more characters fit the working copy |
| `PathSpec.UpInTheMiddle` | myos/kernel/fs/path.c:9-91 | "x/../" in the middle of a path can be left out, as long as the path with it fits the working copy and the stack can hold x |
| `PathSpec.MatchesIffReaches` | myos/kernel/fs/vfs.c:56-64 | Whatever string a mount was given, it matches a canonical path if and only if it is empty or canonical and its components begin the path's |
| `PathSpec.UnreachableMount` | myos/kernel/fs/vfs.c:56-64 | A mount given with a trailing slash is never found, although its components begin the path's |
| `PathSpec.DeepestMount` | myos/kernel/fs/vfs.c:46-76 | The mount chosen reaches the path, none that does is deeper, the remainder is the rest; it fails only if none does, whatever strings the mounts were given |
| `Path.ResolvePath` | myos/kernel/fs/path.c:9-91 | Resolution as a whole: the components of a result are those of the base and the path that remain after every ".."; outcome is that of `Resolve`; outcome is that of `Resolve` |
| `Path.Tokenize` | myos/kernel/fs/path.c:44-75 | The character loops leave exactly the stack of `Walk` over `Comps`, or fail with it |
| `Path.Rebuild` | myos/kernel/fs/path.c:77-90 | The output loop writes `Join` of the stack, or fails exactly when that does not fit |
| `Path.ParentOf` | myos/kernel/fs/path.c:98-120 | The two stripping loops; outcome is that of `Parent` |
| `Path.FindMount` | myos/kernel/fs/vfs.c:46-68 | The mount table loop; outcome is that of `Best` |
| `Lists.WithoutFacts` | myos/kernel/lib/list.h:55-58 | Unlinking takes out that node and keeps the rest, each once |
| `Lists.WithoutAt` | myos/kernel/lib/list.h:50-53 | Unlinking closes the gap and moves nothing else |
| `Lists.NoDupLength` | myos/kernel/lib/list.h:10-13 | A list without repeated nodes is as long as its set of nodes |

## Left out

- Statistics counters (hits, misses, evictions, wake-ups, high-water marks): they decide nothing.
- Buffers, pages and dentries are named by number or by an address the environment picks; that two C pointers to one object stay valid is not part of this model.
- Linked lists are sequences except in the scheduler, where the shared next link is explicit, the radix tree, where nodes lie in memory, and the slab free lists, which are threaded through memory.
- Boot loader, APIC, descriptor tables, PCI, e1000 and the context switch: hardware access.
- Page tables: an address space is a map from page to permission and from address to byte.
- Interrupt and multiprocessor interleavings inside one operation: each kernel section that runs with interrupts off or under its spinlock is one step.
- Heap: `kcalloc`, the statistics dump, and unaligned pointers passed to `kfree`; a payload is stored to in units of sixteen bytes.
- Slab: redzones, cache destruction and the byte statistics; memory is seen in 64-bit words, and a word that nobody has written holds no magic number. What a forged large header gives back to the page allocator is not followed further.
- Slab.KmemObject.KmemRealloc: takes no pointer with a forged header; what the code does with one is stated for `kmem_free` only (`FreeExact`, `ForgedBreaks`).
- Slab.KmemObject.KmemFree: for a forged header that names neither a class nor a large run the code reads past its tables; the state after that is not modelled.
- Region map: `vm_map_protect` and `vm_map_mark_cow`, which act on whole overlapped regions by design, and fault accounting.
- TCP: retransmission, windows, delivery of data after a close, table lookup by four-tuple and the segment codec; the channels lose and reorder nothing.
- Network: Ethernet, ARP, ICMP, binding and unbinding of ports, `mask_prefix_len` (a route carries its prefix length).
- Hash table sizing; the bucket count is any positive number.
- Hash functions: `hash_u64` and `hash_bytes` are parameters, so every result holds for them.
- Locks: that a thread which can go on eventually does; mutex, semaphore and completion.
- Bcache.BcacheObject.ModifyBlock: storing into a buffer and marking it dirty are one step; a store that is never marked is not modelled, and the 32-bit pin count does not wrap.
- Page cache and buffer cache: a failed backing write leaves the backing page as it was; one that leaves it half written is not modelled.
- PageAllocator.PmmObject.AllocPages: takes only counts for which the first evaluation of the 64-bit loop guard is right (`GuardExact`); for the others, all within 256 of 2^64, the code scans past its bitmap.
- Callouts.CalloutBase.AdvanceTo: takes only clocks for which the loop ends, by the closed formula of `TerminatesIff`; a method that does not return has no result to state.
- PageCache.PageCacheObject.constructor: takes every read-ahead but 2^32 - 1, for which `pagecache_get` never returns (`ReadAheadEnds`).
- Hxe.UserSpace.LoadImage: a segment table that wraps outside the image (`TableInside` says when) reads as zeros; `AcceptedSafe` holds whatever is read there.
- Hxe.WriteImage: starts after the ELF program headers are parsed and sorted by address; the parser is not part of this model, and the library sort is the function `SortSegs`.
- Path.ResolvePath: a path is a sequence of characters, so a null pointer for the path or the output is not modelled.
- Ring buffers, string builders, input queues, descriptor tables and system call wrappers: they would only add easy members.
