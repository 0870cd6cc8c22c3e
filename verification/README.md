# A model of the allocator, the leak checker and the profilers

This project models the memory allocator of the repository (page heap, central free lists
with their transfer caches, thread caches, malloc, free and memalign), the system
allocation below it, the page maps and the address map it relies on, and three tools beside
it: the heap profiler, the mark phase of the leak checker, and the CPU profiler. It proves
properties of the model with Dafny 4.11; `dafny verify dfyconfig.toml` checks everything.

## How it is built

**Page heap.** `SpanLists` has the circular doubly linked lists on real `Span` objects.
`PageLayout` is the heap as a value, a map from the first page of a block to its length,
state and size class, with one function and one lemma per operation. `BoundaryTags` says
what the page map must hold: the first and last page of a block, and every page of a block
with a size class; interior entries may be stale. `HeapBooks` ties layout, descriptors, tags
and lists together, step by step, and `PageHeap` is the class whose methods do what the
program does on pointers and fields, each proved to take the layout to the value that
`PageLayout` gives. `Memalign` adds page-level memalign and `PageHeapCycles` whole cycles.

**Central free lists.** `CentralState` and `CentralSteps` are a state machine: each thread
has a position between two lock operations, and one step is what it does under one lock, or
a single pass of a loop. Spans are returned and obtained, and capacity moves between
classes, while locks are dropped. `CentralSafety` states the invariant; `CentralTransfer`,
`CentralSpans` and `CentralThreads` prove that steps keep it; `CentralRuns` lifts that to all
runs; `CentralTheorems` and `CentralAccounts` draw the consequences: capacity is conserved
and no index is out of range, every object is in one place, live blocks are disjoint, a span
leaves exactly with its last object, no deadlock, calls end, and the statistics add up.
`CentralEffects` says what each step changes and what it leaves alone, and `CentralCalls` what
follows for whole calls: what RemoveRange comes back with, and where InsertRange leaves what
it was given, whatever other threads do in between.
`FreeObjects` and `ThreadCache` are the thread caches on linked words, `SizeClasses` the
page-count loop and the carving of spans, `ClassTable` the tables that start-up fills in.

**Both layers together.** `Leases` says what it means that the blocks in use of the page heap
are exactly what the central lists have taken. `Allocator` is a page heap and a state of the
central lists that agree in this sense; its methods are the steps in which the two meet, and
its lemmas what only both together can say: the page map leads do_free to the right
descriptor, and the bytes add up. The list of sampled spans is part of it. `FrontEnd` has
do_malloc and do_memalign from size to block. `CacheLink` ties the linked words of a thread
cache to the lists the central model has of it, and `MapGrowth` the page heap to a page map.

**Leak checker and heap profiler.** `LeakMark` proves the worklist traversal against the
least closed set and against reachability; `LeakRoots` adds where roots come from.
`HeapCounts` and `HeapProfile` are buckets and accounts, `Arena` the memory they live in;
`LeakReport` runs both ends.

**CPU profiler.** `CpuStream` has records, bytes and a reader; `CpuProfile` the table in
front of the buffer. `StackHash` is shared with the heap profiler.

**Index structures and system memory.** `PageMaps`, `AddressStore`, `AddressMap`,
`SystemAlloc`. `Basics` and `Arith` are helpers.

What the program gets from outside is a parameter: the answers of the system and of the
metadata allocator to the page heap (`first`, `second`, `leaves`), the memory there is for
nodes of page maps, the pages the page heap
gives to a central list, the stack of a sample, what RemoveRange hands to a thread cache,
the contents of memory during marking, and where the system puts memory (`Os.offers`). A
`File` takes as much of a write as it likes.

## What does not hold

- `New` can return NULL although an adequate free span is there: after the smaller second
  request of `GrowHeap` only the large list is searched. `PageHeaps.PageHeap.New` states the
  exact condition, `PageHeapCycles.SecondRequestFails` is a run.
- do_memalign keeps numbers of pages in ints. On 64-bit machines the number for size + align
  can lose its high bits, as for one byte at a multiple of 2^44. `Memalign.Counts` is the exact
  condition: if it holds, the block is right in every heap (`Memalign.MemalignPages`), and if
  not, `Memalign.UncountedRequestBreaks` is a run that goes wrong. With 32-bit words it holds
  (`Memalign.NarrowCounts`).
- Carve and Split keep the number of pages left over in an int too. It is exact up to 2^31 - 1
  pages; `PageHeapCycles.LongSpanIsHandedOutWhole` is a run with a longer span.
- GrowHeap ensures one page more than it was granted on either side. Where the block ends with
  the last page of the address space this leaves the page map: `MapGrowth.AddPages` says so
  exactly.
- A block from `TCMalloc_SystemAlloc` need not hold the size asked for: after the overflow
  test the alignment is raised, so the sum can still wrap around, and `sbrk(0)` succeeds.
  `SystemAlloc.SystemAlloc.Alloc` states the exact condition, `SystemAlloc.HugeSizeGetsNothing`
  is a run. The page heap asks with page alignment, where the test suffices; metadata is asked
  for with alignment 0, where no size fails it.
- Memory from /dev/mem can lie above its limit: what is left below it is compared as an
  unsigned number, which is huge when the limit is below the start.
  `SystemAlloc.SystemAlloc.BelowLimit` states the exact condition, `SystemAlloc.LimitBelowStart`
  is a run.
- A bucket's net count is not the number of its live allocations when a pointer is recorded
  twice without a free in between: the first record's counts stay. `HeapCounts.NetIsLive`
  states exactly when it is, `HeapProfile.RecordedTwice` is a run. For a single call the guard
  is whether the pointer is tracked already: `HeapProfile.HeapProfile.RecordAlloc`.
- The heap profiler's memory is never given back: its blocks are recorded but not counted, so
  `Clear` unmaps none (`Arena.HeapProfilerMemory.ClearKeepsAll`).
- `generic.current_allocated_bytes` counts objects in transfer caches as allocated, unlike the
  statistics dump (`Allocators.Allocator.CurrentAllocatedBytes`).

## Model

| member | source | states |
|---|---|---|
| `SpanLists.DllRemove` | src/tcmalloc.cpp:368-373 | The span leaves its list: its neighbours are linked to each other, every other link stays, and its own links are cleared |
| `SpanLists.DllInsertAfter` | src/tcmalloc.cpp:397-417 | The four pointer writes of both insertions: the span stands between x and x's old successor, every other link stays |
| `SpanLists.Chains.RemovedIsValid` | src/tcmalloc.cpp:368-373 | Removal keeps every list a ring in which next and prev are inverse, order is kept and no list leads into another |
| `SpanLists.Chains.InsertedIsValid` | src/tcmalloc.cpp:397-417 | Insertion keeps the same for all lists at once, whatever list and place it is made in |
| `SpanLists.Chains.WalkStep` | src/tcmalloc.cpp:406-417 | Walking a list by next meets its spans in order and skips none |
| `SpanLists.FreeLists.Remove` | src/tcmalloc.cpp:368-373 | On the real pointers: exactly this span leaves its list; of all other spans the list, the place on it and every other link stay |
| `SpanLists.FreeLists.Prepend` | src/tcmalloc.cpp:397-404 | The span becomes the first of its list |
| `SpanLists.FreeLists.InsertOrdered` | src/tcmalloc.cpp:406-417 | The large list stays sorted by start address |
| `SpanLists.FreeLists.Place` | src/tcmalloc.cpp:598-603 | Whichever list it is, the span is on it, first if the list is one of equal lengths, and all others are as they were |
| `SpanLists.FreeLists.First` | src/tcmalloc.cpp:491-497 | NULL exactly if the list is empty, else its first span |
| `SpanLists.FreeLists.BestOfLast` | src/tcmalloc.cpp:502-508 | The least adequate length on the large list and, among equals, the lowest address; NULL exactly if no span there is long enough |
| `PageLayout.JoinKeeps` | src/tcmalloc.cpp:575-598 | Joining two adjacent blocks keeps the blocks a partition of the same pages |
| `PageLayout.CutKeeps` | src/tcmalloc.cpp:540-561 | Cutting a block keeps the partition, the pages and the page totals |
| `PageLayout.CarvedKeeps` | src/tcmalloc.cpp:540-561 | Carving a free block keeps the partition and coalescing, gives the caller exactly n pages, and takes exactly n pages from the free total |
| `PageLayout.SplitKeeps` | src/tcmalloc.cpp:523-538 | Splitting a block in use gives two blocks in use over the same pages and changes nothing else |
| `PageLayout.FreedKeeps` | src/tcmalloc.cpp:563-604 | Freeing joins with both neighbours if they are free: no two adjacent blocks stay free, and the free total grows by the block's length |
| `PageLayout.DeletedKeeps` | src/tcmalloc.cpp:563-604 | The same for Delete, which also clears the size class: exactly the deleted block leaves the blocks in use |
| `PageLayout.RegisteredKeeps` | src/tcmalloc.cpp:606-615 | Registering a size class changes no page's owner and no total |
| `PageLayout.GrownUse` | src/tcmalloc.cpp:661-693 | Growth changes nothing for holders of blocks and loses no page |
| `PageLayout.GrownBlock` | src/tcmalloc.cpp:661-693 | After growth one free block holds the fresh pages and their free neighbours; all others are as before |
| `PageLayout.LayoutIsCanonical` | src/tcmalloc.cpp:563-604 | Two coalesced layouts of the same pages with the same blocks in use are equal: the heap does not depend on the order of past operations |
| `PageLayout.GrowthSuffices` | src/tcmalloc.cpp:499-521 | After a growth that was needed, an adequate block is on the large list if and only if the fresh pages end up in a block of kMaxPages, and it is then the best fit of the whole heap |
| `BoundaryTags.TagBefore` | src/tcmalloc.cpp:572-583 | Reading the map at p-1 finds the span that ends there or NULL, with no claim about interior entries |
| `BoundaryTags.TagAfter` | src/tcmalloc.cpp:584-595 | Reading the map at p+n finds the span that starts there or NULL |
| `BoundaryTags.JoinLeftTagged` | src/tcmalloc.cpp:575-583 | Coalescing to the left keeps the first and last page of every block tagged, stale interior entries and all |
| `BoundaryTags.JoinRightTagged` | src/tcmalloc.cpp:586-594 | Coalescing to the right does too |
| `BoundaryTags.CutTagged` | src/tcmalloc.cpp:540-561 | Two writes of tags suffice after a cut |
| `BoundaryTags.RegisteredTagged` | src/tcmalloc.cpp:606-615 | Tagging every page of a span keeps the tags of all others |
| `BoundaryTags.GrownTagged` | src/tcmalloc.cpp:684-688 | A fresh run is tagged, and has leaves for one page on either side |
| `BoundaryTags.WidenedTagged` | src/tcmalloc.cpp:684 | More leaves disturb no tag |
| `HeapBooks.Books.UnlinkedBalanced` | src/tcmalloc.cpp:575-597 | A span off its list: every other free span is on exactly the list of its length |
| `HeapBooks.Books.TookLeftBalanced` | src/tcmalloc.cpp:575-583 | After absorbing the span before, descriptors, tags and lists agree again |
| `HeapBooks.Books.TookRightBalanced` | src/tcmalloc.cpp:586-594 | After absorbing the span behind, they do |
| `HeapBooks.Books.CutOffBalanced` | src/tcmalloc.cpp:540-561 | After cutting off a new descriptor, they do |
| `HeapBooks.Books.LinkedBalanced` | src/tcmalloc.cpp:598-604 | A free span goes to the list its length dictates, and then every free span is listed |
| `HeapBooks.Books.ClassPageResolves` | src/tcmalloc.cpp:606-615 | Every page of a span with a size class resolves to that span |
| `HeapBooks.Books.ShortestIsBest` | src/tcmalloc.cpp:490-498 | The first span of the first nonempty list from n on is a best fit of the whole heap |
| `HeapBooks.Books.LargeIsBest` | src/tcmalloc.cpp:499-515 | When the short lists have nothing, the best of the large list is a best fit of the whole heap |
| `HeapBooks.Books.NothingAdequate` | src/tcmalloc.cpp:490-515 | When both searches fail there is no adequate free span |
| `PageHeaps.PageHeap.constructor` | src/tcmalloc.cpp:438-467 | The empty heap satisfies the invariant |
| `PageHeaps.PageHeap.Unlink` | src/tcmalloc.cpp:575-597 | The span's list loses it, the invariant holds but for that span |
| `PageHeaps.PageHeap.Link` | src/tcmalloc.cpp:598-604 | The inverse: the span is on the list of its length and the invariant holds in full |
| `PageHeaps.PageHeap.JoinPrev` | src/tcmalloc.cpp:574-583 | The span absorbs its predecessor exactly if that is free; its descriptor goes back to the pool, and no other does |
| `PageHeaps.PageHeap.JoinNext` | src/tcmalloc.cpp:585-595 | The same for its successor |
| `PageHeaps.PageHeap.Delete` | src/tcmalloc.cpp:563-604 | The invariant holds; exactly this block leaves those in use; no page is lost; no other holder's span is touched |
| `PageHeaps.PageHeap.Carve` | src/tcmalloc.cpp:540-561 | The caller's span has exactly n pages and the rest is a listed free span, unless the number of pages left reads as 0 in an int: then the caller gets them all |
| `PageHeaps.PageHeap.Split` | src/tcmalloc.cpp:523-538 | Two spans in use of n and the remaining pages, nothing else changes |
| `PageHeaps.PageHeap.RegisterSizeClass` | src/tcmalloc.cpp:606-615 | The class is recorded, every page of the span resolves to it, nothing else changes |
| `PageHeaps.PageHeap.Ensure` | src/tcmalloc.cpp:684 | True exactly if every key of the range had a leaf or gets one; no entry changes |
| `PageHeaps.PageHeap.AddPages` | src/tcmalloc.cpp:673-692 | System bytes grow either way; the pages join the heap if all leaves could be made, else they are leaked |
| `PageHeaps.PageHeap.GrowHeap` | src/tcmalloc.cpp:661-693 | max(n, 256) pages are asked for first; only for n below 256, and only if those are refused, n pages; system bytes grow by exactly what is granted; success exactly if something is and has its leaves, else the pages are leaked |
| `PageHeaps.PageHeap.FindSmall` | src/tcmalloc.cpp:490-498 | A best fit of the whole heap, or no list below kMaxPages has an adequate span |
| `PageHeaps.PageHeap.FindLarge` | src/tcmalloc.cpp:499-508 | A best fit among the large spans, or there is no adequate one |
| `PageHeaps.PageHeap.New` | src/tcmalloc.cpp:486-521 | NULL exactly if n is 0, or no span is long enough and growth is not granted, gets no leaves or stays below kMaxPages; else exactly n pages that no one held, carved from a best fit; holders undisturbed, no page lost; the heap grows only if no span is long enough, by max(n, 256) pages or, n being less, by n |
| `PageHeapCycles.FullGrowthIsEnough` | src/tcmalloc.cpp:661-668 | A first request that is granted always makes a block long enough for the large list |
| `PageHeapCycles.FirstRequestSuffices` | src/tcmalloc.cpp:486-521 | So New never fails after the first request is granted and ensured |
| `PageHeapCycles.SecondRequestFails` | src/tcmalloc.cpp:665-668 | But after the smaller second request, for any n below 256, New fails in an empty heap although an adequate free block is there: a run |
| `PageHeapCycles.LongSpanIsHandedOutWhole` | src/tcmalloc.cpp:546-559 | A run in which one page is asked for and 2^32 + 1 pages are handed out |
| `PageHeapCycles.NewThenDelete` | src/tcmalloc.cpp:486-604 | New from free pages and then Delete restores the layout and the free page count exactly |
| `Memalign.SkipToAligned` | src/tcmalloc.cpp:1702-1706 | The skip loop ends at the first aligned page, which is less than the alignment away |
| `Memalign.TrimFront` | src/tcmalloc.cpp:1707-1711 | The skipped pages go back and only they |
| `Memalign.TrimBack` | src/tcmalloc.cpp:1713-1718 | The pages behind the needed ones go back and only they |
| `Memalign.AlignAndTrim` | src/tcmalloc.cpp:1702-1720 | An aligned run of the needed pages stays in use, or an assertion fails: exactly if the pages from the first aligned one on are too few |
| `Memalign.CountedReaches` | src/tcmalloc.cpp:1698-1714 | If the number of pages survives as an int, they are enough wherever New's pages start |
| `Memalign.NarrowCounts` | src/tcmalloc.cpp:1698-1699 | With 32-bit words it always survives |
| `Memalign.MemalignLarge` | src/tcmalloc.cpp:1698-1720 | For alignments above a page, with the conversions to int: NULL exactly if New gives none; if the number of pages survives, else aligned and exactly pages(size) pages gained; nobody else's span is touched |
| `Memalign.MemalignPages` | src/tcmalloc.cpp:1688-1720 | The same for every power-of-two alignment and every size beyond the small classes |
| `Memalign.UncountedRequestBreaks` | src/tcmalloc.cpp:1698-1714 | For every request whose number of pages does not survive there is a run that goes wrong: an assertion fails, or the block is too short |
| `Memalign.WideRequestUncounted` | src/tcmalloc.cpp:1698-1699 | One byte at a multiple of 2^44 in 64-bit words is such a request |
| `SizeClasses.ClassPages` | src/tcmalloc.cpp:201-208 | The loop ends for any object size, with the fewest pages that waste at most an eighth, and room for at least one object |
| `SizeClasses.Carve` | src/tcmalloc.cpp:1072-1084 | The objects are as many as fit, disjoint, inside the span, and linked in address order with NULL at the end |
| `SizeClasses.AlignedClass` | src/tcmalloc.cpp:1679-1683 | The first class from the size's own whose objects are a multiple of the alignment long: there always is one, it is used, and it holds the size |
| `SizeClasses.ObjectsAligned` | src/tcmalloc.cpp:1679-1687 | Every object of such a class is aligned wherever its span starts |
| `FreeObjects.PathJoin` | src/tcmalloc.cpp:133-137 | Linking the end of one list to the head of another joins them, given that they share no object |
| `FreeObjects.PathCut` | src/tcmalloc.cpp:115-131 | Ending a list after n objects makes a list of exactly those |
| `FreeObjects.SllPopRange` | src/tcmalloc.cpp:115-131 | The first n objects become a list of their own, the rest stays one |
| `FreeObjects.FreeList.Push` | src/tcmalloc.cpp:739-742 | The object is first, length and history follow |
| `FreeObjects.FreeList.Pop` | src/tcmalloc.cpp:744-749 | The first object leaves; lowater_ stays the minimum of all lengths since it was cleared |
| `FreeObjects.FreeList.PushRange` | src/tcmalloc.cpp:751-754 | The chain goes in front, in order |
| `FreeObjects.FreeList.PopRange` | src/tcmalloc.cpp:756-761 | The first n objects leave as a chain that ends with NULL; lowater_ stays the minimum |
| `FreeObjects.FreeList.ClearLowWater` | src/tcmalloc.cpp:737 | The mark starts anew at the present length |
| `ThreadCache.ThreadCache.ReleaseToCentralCache` | src/tcmalloc.cpp:1153-1171 | Exactly min(N, length) objects leave from the front, in batches of which only the last may be short, each a proper chain of its stated length |
| `ThreadCache.ThreadCache.FetchFromCentralCache` | src/tcmalloc.cpp:1145-1151 | The fetched chain goes in front and size_ grows by its weight |
| `ThreadCache.ThreadCache.Allocate` | src/tcmalloc.cpp:1126-1135 | The first object of the list, or of what was fetched; NULL exactly if neither has one |
| `ThreadCache.ThreadCache.Deallocate` | src/tcmalloc.cpp:1137-1143 | Exactly what each list holds afterwards: min(batch, length) objects given up if there are more than 256, and in every list half the low-water mark if the cache is too heavy then; no object is lost or doubled |
| `ThreadCache.ThreadCache.Scavenge` | src/tcmalloc.cpp:1173-1184 | A list with low-water mark 2 or more gives up exactly half of that from its front, with mark 1 one object, else none; nothing is lost, and marks start anew at the present length |
| `ThreadCache.ThreadCache.Cleanup` | src/tcmalloc.cpp:1116-1123 | All lists are emptied, each object handed over once, and size_ is 0 |
| `ThreadCache.WeighUpdate` | src/tcmalloc.cpp:715-762 | How size_ follows a change of one list |
| `ThreadCache.ThreadCache.IdleListsDrain` | src/tcmalloc.cpp:1173-1184 | In a cache nobody uses, k + 2 scavenges empty all lists of up to 2^k objects, and each object goes to the central lists once, in order |
| `CentralTransfer.StoreKeeps` | src/tcmalloc.cpp:984-991 | Storing a chain keeps the invariant, with room of its own or just granted |
| `CentralTransfer.ShrinkKeeps` | src/tcmalloc.cpp:961-978 | Shrinking another class keeps it, forced or not |
| `CentralTransfer.BackKeeps` | src/tcmalloc.cpp:939-948 | Coming back to the inserting class keeps it, though its lock was dropped in between |
| `CentralTransfer.EvictKeeps` | src/tcmalloc.cpp:923-937 | Dropping the lock for another class keeps it |
| `CentralTransfer.AcquireKeeps` | src/tcmalloc.cpp:950-959 | So does taking any lock |
| `CentralSpans.Counted` | src/tcmalloc.cpp:903-910 | Different objects of one span are at most as many as it has, and if as many then all of them |
| `CentralSpans.OutOfSpan` | src/tcmalloc.cpp:882-886 | The object that is being released has a descriptor with refcount > 0, and if that is 1 all its other objects are on the free chain: the two assertions hold |
| `CentralSpans.ReleaseKeeps` | src/tcmalloc.cpp:882-921 | Returning an object keeps the invariant, last one or not |
| `CentralSpans.GoneKeeps` | src/tcmalloc.cpp:905-912 | So does giving the span back to the page heap without the lock |
| `CentralSpans.TakeKeeps` | src/tcmalloc.cpp:1039-1054 | So does fetching an object |
| `CentralSpans.PopNewKeeps` | src/tcmalloc.cpp:1056-1071 | So does taking a run of pages without the lock |
| `CentralSpans.PopLinkKeeps` | src/tcmalloc.cpp:1085-1089 | So does linking the new span |
| `CentralThreads.MallocKeeps` | src/tcmalloc.cpp:1126-1135 | So does handing an object to the application |
| `CentralThreads.FreeKeeps` | src/tcmalloc.cpp:1138-1141 | So does pushing one on a thread's list of its class |
| `CentralRuns.StepKeeps` | src/tcmalloc.cpp:862-1090 | Every step of every thread, in any state that satisfies the invariant, keeps it |
| `CentralRuns.RunsAreSafe` | src/tcmalloc.cpp:862-1090 | Every state of every run satisfies the invariant |
| `CentralRuns.InitialExists` | src/tcmalloc.cpp:862-872 | There is an initial state for any size classes and any number of threads, each class with one slot |
| `CentralTheorems.CapacityInRuns` | src/tcmalloc.cpp:923-1007 | In every interleaving: no assertion fails and no slot index is out of range; the capacities of all classes and the slots on their way add up to kNumClasses; 0 <= used_slots_ <= cache_size_ <= kNumTransferEntries |
| `CentralTheorems.OnePlace` | src/tcmalloc.cpp:874-1090 | Every object of every listed span is in exactly one place, once |
| `CentralTheorems.LiveDisjoint` | src/tcmalloc.cpp:1616-1672 | Blocks that malloc has returned never overlap, small or large |
| `CentralTheorems.MallocIsFresh` | src/tcmalloc.cpp:1126-1135 | malloc returns a block that was not live, of the size of its class, and changes no other block's status |
| `CentralTheorems.FreeFindsItsSpan` | src/tcmalloc.cpp:1056-1084 | Every byte of a live object lies in the pages taken for its own span and in no others, taken for its own class |
| `CentralTheorems.RefcountCounts` | src/tcmalloc.cpp:892-902 | refcount is the number of objects that are out, and with the chain length makes the capacity of the span |
| `CentralTheorems.ListedSpansAreUsed` | src/tcmalloc.cpp:903-915 | While its lock is free, a listed span has an object out |
| `CentralTheorems.SpanLeavesWithLastObject` | src/tcmalloc.cpp:903-915 | A span leaves if and only if the step returns its last outstanding object |
| `CentralTheorems.NoDeadlock` | src/tcmalloc.cpp:950-959 | If any thread is inside a call, some thread inside a call can take a step |
| `CentralTheorems.CallsEnd` | src/tcmalloc.cpp:874-1090 | Every call ends after a bounded number of its own steps, which steps of others do not raise |
| `CentralEffects.IdleSteps` | src/tcmalloc.cpp:1126-1171 | How a pop, a push, a batch given up and a fetch change the state, and what else stays |
| `CentralEffects.OthersLeaveClass` | src/tcmalloc.cpp:862-1090 | While a thread holds the lock of a class no other thread changes its central list or its spans |
| `CentralEffects.BatchStored` | src/tcmalloc.cpp:980-991 | A full batch goes into the slot behind those in use if there is room, and the call ends |
| `CentralEffects.NotStored` | src/tcmalloc.cpp:940-991 | Anything else goes to the spans, as does a full batch when the class has all slots; without room another class is evicted first |
| `CentralEffects.Evicted` | src/tcmalloc.cpp:923-949 | The lock is dropped for the victim's, or the eviction fails: the first failure leads to a forced one, the second to the spans |
| `CentralEffects.Shrunk` | src/tcmalloc.cpp:961-978 | The victim gives a slot that is not in use, or, only if forced, its last one, whose batch is then released |
| `CentralEffects.BackWithSlot` | src/tcmalloc.cpp:940-948 | With the slot the batch is stored, whatever happened in between |
| `CentralEffects.ObjectReturned` | src/tcmalloc.cpp:882-921 | The object is first on its span's chain; a span that had none is first on the list; counter and refcount follow |
| `CentralEffects.LastReturned` | src/tcmalloc.cpp:903-912 | The last object takes its span, and no other, off the list |
| `CentralEffects.AllReturned` | src/tcmalloc.cpp:874-880 | Then the call ends, or the evicted slot goes to the class that asked for it |
| `CentralEffects.Unlocked` | src/tcmalloc.cpp:905-912 | Without a lock only leases change |
| `CentralEffects.Acquired` | src/tcmalloc.cpp:950-959 | With its lock a thread goes on where it stopped |
| `CentralEffects.BatchReturned` | src/tcmalloc.cpp:1000-1007 | A batch that serves RemoveRange leaves its slot for the front of the thread's list, and the call ends |
| `CentralEffects.NoBatch` | src/tcmalloc.cpp:1000-1009 | Only without one does it turn to the spans |
| `CentralEffects.FirstFetched` | src/tcmalloc.cpp:1039-1054 | The first free object of the class is taken, the others stay in order |
| `CentralEffects.FetchOver` | src/tcmalloc.cpp:1009-1036 | It goes on until there are enough or none left; with nothing at all a span is asked for, once |
| `CentralEffects.SpanJoins` | src/tcmalloc.cpp:1072-1089 | All objects of the new span are free, in address order, in front of all others |
| `CentralCalls.SettledStays` | src/tcmalloc.cpp:993-1054 | Once settled, what a call of RemoveRange comes back with is changed by no step of any thread |
| `CentralCalls.RemoveRangeReturns` | src/tcmalloc.cpp:993-1054 | In every run a call comes back with the last batch of the transfer cache if it serves, else with the first free objects of its class, as many as there are up to the number wanted |
| `CentralCalls.ShortOnlyIfNone` | src/tcmalloc.cpp:1009-1032 | It comes back with fewer only if the class has no free object left |
| `CentralCalls.SpanOnlyIfNone` | src/tcmalloc.cpp:1000-1047 | In every run a span is asked for only if the class has neither a batch that serves nor a free object |
| `CentralCalls.BatchStaysWhole` | src/tcmalloc.cpp:940-991 | In every interleaving what InsertRange was given goes into one slot, or all of it to the spans, and that only if it is short, the class has all slots, or a forced eviction failed |
| `CentralCalls.StoredIsNext` | src/tcmalloc.cpp:980-1007 | The batch stored last is the one removed next |
| `CentralAccounts.ClassAdds` | src/tcmalloc.cpp:811-819 | When no call is in progress the objects of a class are those in its transfer cache, thread caches, central list and in use: counter_ and tc_length are exact |
| `CentralAccounts.ThreadBytesByClass` | src/tcmalloc.cpp:1353-1362 | Adding sizes thread by thread or class by class is the same |
| `CentralAccounts.BytesOut` | src/tcmalloc.cpp:1397-1401 | What the central lists have from the page heap, less all that is in caches, is live objects, live page runs and tails of spans |
| `Leases.PagesSplit` | src/tcmalloc.cpp:1391-1395 | Every page of the heap is free or in use, and not both |
| `Leases.VacantRun` | src/tcmalloc.cpp:486-521 | A run of pages that the page heap hands out overlaps nothing that the central lists have |
| `Leases.TiedMore` | src/tcmalloc.cpp:1056-1071 | If the blocks in use are exactly the leases, they still are when a block becomes a lease |
| `Leases.TiedLess` | src/tcmalloc.cpp:905-912 | And when a lease ends |
| `Leases.HeapBytes` | src/tcmalloc.cpp:1391-1395 | Bytes of the heap are those of its free blocks and of the leases |
| `Allocators.Allocator.constructor` | src/tcmalloc.cpp:862-872 | An empty page heap and an initial state of the central lists agree, for any configuration and number of threads |
| `Allocators.Allocator.Move` | src/tcmalloc.cpp:862-1090 | Every step in which no pages change hands keeps both layers in order and in agreement |
| `Allocators.Allocator.NewRun` | src/tcmalloc.cpp:1628-1633 | 0 exactly if New gives NULL, and then nothing changes; else the step of the central model with these pages |
| `Allocators.Allocator.DeleteRun` | src/tcmalloc.cpp:1658-1670 | A block of whole pages, found through the page map, leaves the list of sampled ones if it is on it, and its lease ends |
| `Allocators.Allocator.MarkSampled` | src/tcmalloc.cpp:1604-1612 | The block is marked, and the first of the sampled ones; both layers and all lists stay in order |
| `Allocators.Allocator.Unmark` | src/tcmalloc.cpp:1662-1666 | DLL_Remove of a sampled span takes it off that list alone, and clears its links |
| `Allocators.Allocator.Populate` | src/tcmalloc.cpp:1056-1071 | New and RegisterSizeClass take the step that gives the thread a span, or, exactly if New gives NULL, the one in which it failed |
| `Allocators.Allocator.ReturnSpan` | src/tcmalloc.cpp:905-912 | Delete of the span that the page map has for any page of it takes the step that gives it back |
| `Allocators.Allocator.FreeFindsDescriptor` | src/tcmalloc.cpp:1637-1644 | From the page of any byte of a live small object the page map leads to a descriptor in use that starts where the object's span does and has the class of its central list |
| `Allocators.Allocator.FreeFindsRun` | src/tcmalloc.cpp:1657-1660 | From the first page of a live large block it leads to a descriptor of no class that starts there: the assertions of do_free hold |
| `Allocators.Allocator.FreeSmall` | src/tcmalloc.cpp:1637-1656 | Given only the address of a live object, do_free puts exactly that object on the list of the class that the descriptor has |
| `Allocators.Allocator.SystemBytes` | src/tcmalloc.cpp:1391-1395 | system_bytes_ is free pages, leaked pages and leases, in every state of both layers |
| `Allocators.Allocator.BytesInUse` | src/tcmalloc.cpp:1397-1401 | When no call is in progress the bytes in use that DumpStats prints are live objects, live page runs, tails of spans and leaked pages, and never negative |
| `Allocators.Allocator.CurrentAllocatedBytes` | src/tcmalloc.cpp:1540-1547 | generic.current_allocated_bytes is that and the transfer caches |
| `ClassTable.LgFloor` | src/tcmalloc.cpp:81-93 | The position of the highest bit |
| `ClassTable.ClassIsLeast` | src/tcmalloc.cpp:148-153 | The class computed for a size is the first that is long enough, for every size up to kMaxSize |
| `ClassTable.NumMoveSize` | src/tcmalloc.cpp:160-170 | As many objects as 64 kilobytes hold, but at least 2 and at most 32; none for no size |
| `ClassTable.SizeTables.FillSizes` | src/tcmalloc.cpp:174-200 | The loop over sizes fills in exactly 168 classes, and base and shift for every highest bit |
| `ClassTable.SizeTables.SizeClass` | src/tcmalloc.cpp:148-153 | Read from the tables: a class that holds the size, and no smaller one does; its objects are at most 7 bytes longer up to 128 bytes, and less than an eighth beyond |
| `ClassTable.SizeTables.InitSizeClasses` | src/tcmalloc.cpp:172-239 | It ends with all tables filled in, and none of its aborts is ever taken |
| `ClassTable.SizeTables.IsTable` | src/tcmalloc.cpp:172-233 | The sizes grow, are multiples of kAlignment, end with kMaxSize, and no other class is used |
| `ClassTable.SizeTables.IsConfig` | src/tcmalloc.cpp:172-239 | The program's own classes, class 0 and the unused one included, are a configuration to which everything about the central lists applies |
| `ClassTable.SizeTables.UsedClassesMove` | src/tcmalloc.cpp:236-238 | Objects of every class that is used move in batches; class 0 and the unused one have none |
| `ClassTable.SizeTables.FieldsHold` | src/tcmalloc.cpp:320-323 | In every state, refcount fits its eleven bits and the class its eight |
| `FrontEnd.ObjectServes` | src/tcmalloc.cpp:1679-1687 | Any object of a class whose size is a multiple of the alignment is aligned and as long as the class says |
| `FrontEnd.PopHead` | src/tcmalloc.cpp:1126-1136 | The head of the thread's list becomes live, is aligned and long enough, and no other block's status changes; NULL exactly if the list is empty |
| `FrontEnd.FromClass` | src/tcmalloc.cpp:1126-1136 | The first object on the list of that class, or exactly if the list is empty the start of RemoveRange for that class |
| `FrontEnd.AlignedClassFor` | src/tcmalloc.cpp:1680-1686 | The class search and the SizeClass of Allocate agree: the first class whose objects hold the size and are a multiple of the alignment long |
| `FrontEnd.HeapMemalign` | src/tcmalloc.cpp:1688-1720 | NULL exactly if the page heap has no pages; else, if their number survives, an aligned block, with descriptors, lists and the list of sampled spans in order |
| `FrontEnd.AlignedRun` | src/tcmalloc.cpp:1688-1720 | As a step of both layers: the run of pages was nobody's and is the caller's |
| `FrontEnd.DoMemalign` | src/tcmalloc.cpp:1673-1720 | In words of 32 or 64 bits: NULL exactly if size + align wraps around or the page heap has no pages, and then nothing changes; else the block is aligned, has the bytes asked for (one if none), was not live and is, if the number of pages survives; it is the first object on the list of the first class that is long enough and aligned, or a run of no more pages than needed |
| `FrontEnd.DoMalloc` | src/tcmalloc.cpp:1616-1636 | The same for malloc, sampled or not, with the alignment of all classes and no exception: small requests are served from the list of the first class that is long enough, which is fetched for exactly if it is empty |
| `CacheLink.ReleaseRefines` | src/tcmalloc.cpp:1153-1184 | What is handed to InsertRange on linked words is, batch by batch and address by address, what the central model has in hand, and the lists agree afterwards |
| `CentralEffects.ListsStay` | src/tcmalloc.cpp:862-1090 | No step but the thread's own pop, push, batch and fetch touches its lists |
| `CacheLink.NewCache` | src/tcmalloc.cpp:1101-1110 | A thread's cache with the classes of start-up, class 0 and the unused one included, is one to which everything about thread caches applies |
| `CacheLink.Cache.SizeIsThreadSize` | src/tcmalloc.cpp:1353-1362 | size_ is what the statistics take for the cache |
| `CacheLink.Cache.Malloc` | src/tcmalloc.cpp:1134-1135 | A pop on linked words is the step of the model, and gives the address of its object |
| `CacheLink.Cache.Free` | src/tcmalloc.cpp:1138-1141 | A push is, and the object was on no list |
| `CacheLink.Cache.Fetch` | src/tcmalloc.cpp:1145-1151 | What RemoveRange returns goes in front, in memory as in the model |
| `LeakMark.Heap.ResolveFinds` | src/heap-profiler.cpp:524-552 | A pointer resolves exactly if it points to the start of a tracked allocation, or inside one at offset 4 or 12, and to the nearest such |
| `LeakMark.MarkingComposes` | src/heapcheck.cpp:577-620 | Marking in several calls marks what marking from all roots at once would |
| `LeakMark.MarkingIsUnique` | src/heapcheck.cpp:577-620 | The order of roots does not matter |
| `LeakMark.MarkedIsReachable` | src/heapcheck.cpp:686-751 | Marked is exactly reachable by a chain of pointers from a root |
| `LeakMark.Marker.Visit` | src/heapcheck.cpp:718-741 | A word that resolves is marked, counted and pushed once; nothing that need not be is |
| `LeakMark.Marker.Scan` | src/heapcheck.cpp:706-742 | Exactly the aligned words of a range are looked at |
| `LeakMark.Marker.IgnoreLiveObjects` | src/heapcheck.cpp:686-751 | It ends; what is marked is the least closed set with the old one and the pending roots; objects and bytes are counted once each |
| `LeakRoots.LowerBound` | src/heapcheck.cpp:188-192 | The first key not below |
| `LeakRoots.FindDisabled` | src/heapcheck.cpp:178-200 | True exactly if some frame is a disabled address or caught by the range the look-up finds |
| `LeakRoots.CaughtIsInside` | src/heapcheck.cpp:188-198 | If disabled ranges do not overlap, caught means strictly inside some range that is deep enough |
| `LeakRoots.StackInsideIsAny` | src/heapcheck.cpp:201-216 | If stacks that start later end later, one look-up tells whether any stack lies inside the allocation |
| `LeakRoots.Leaks.RegisterStackRange` | src/heapcheck.cpp:164-176 | The range from the lower of the two ends to the higher is pushed, and recorded under the lower unless that is already |
| `LeakRoots.Leaks.IgnoreThreads` | src/heapcheck.cpp:525-562 | Stacks and then registers are marked from, and the stack ranges are those of the threads |
| `LeakRoots.RegisteredKeys` | src/heapcheck.cpp:164-176 | Which starts have a stack range after any registrations; what was there stays |
| `LeakRoots.FirstRegistered` | src/heapcheck.cpp:164-176 | Of several ranges with one start the first counts |
| `LeakRoots.RootsAre` | src/heapcheck.cpp:525-620 | Where the check starts, in addresses: words between the ends of stacks whichever comes first, words of registers, ignored objects, allocations of disabled code that hold no stack, and global data |
| `LeakRoots.ReachableIs` | src/heapcheck.cpp:577-620 | Reachable from the items pushed is led to from there |
| `LeakRoots.Leaks.PushIgnored` | src/heapcheck.cpp:589-605 | All ignored objects are pushed, or the program aborts exactly if one disappeared |
| `LeakRoots.Leaks.PushDisabled` | src/heapcheck.cpp:178-226 | Exactly the allocations of disabled code that hold no stack are pushed, whole |
| `LeakRoots.Leaks.IgnoreNonThread` | src/heapcheck.cpp:577-620 | The order of the calls, their roots, and the stack range that is added |
| `LeakRoots.Leaks.IgnoreAll` | src/heapcheck.cpp:622-684 | After all calls exactly those allocations are marked to which a chain of pointers leads from where the check starts; so every aligned word between the ends of any thread's stack, or of its own, keeps alive what it points to |
| `HeapCounts.NetIsLive` | src/heap-profiler.cpp:440-484 | A bucket's net count is that of its live allocations if and only if none of its pointers was recorded again before it was freed |
| `HeapCounts.Allocated` | src/heap-profiler.cpp:444-456 | Recording keeps all accounts, an overwritten entry being lost |
| `HeapCounts.Freed` | src/heap-profiler.cpp:509-516 | Freeing keeps all accounts |
| `HeapCounts.AdjustedBack` | src/heap-profiler.cpp:304-322 | The -1/+1 pair restores every bucket |
| `HeapProfile.HeapProfile.FindBucket` | src/heap-profiler.cpp:617-624 | The bucket of this stack, or there is none in the whole table |
| `HeapProfile.HeapProfile.GetBucket` | src/heap-profiler.cpp:603-637 | The one bucket of the stack; a new one exactly if there was none; stacks stay distinct and num_buckets the total chain length |
| `HeapProfile.HeapProfile.RecordAlloc` | src/heap-profiler.cpp:444-456 | The pointer is tracked in the bucket of its stack, whose allocs_ and alloc_size_ rise, as do the totals, and no other counter changes; an entry is lost exactly if the pointer was tracked |
| `HeapProfile.HeapProfile.RecordFree` | src/heap-profiler.cpp:506-521 | The pointer is no longer tracked; frees_ and free_size_ of its bucket and the totals rise, and no other counter changes; unknown pointers are passed over |
| `HeapProfile.HeapProfile.Adjust` | src/heap-profiler.cpp:256-273 | allocs_ and alloc_size_ of every bucket move by its ignored entries, its other counters stay; the program aborts exactly if an ignored pointer is not tracked; no counter goes below zero |
| `HeapProfile.HeapProfile.Collect` | src/heap-profiler.cpp:295-302 | Every bucket once, as many as num_buckets says |
| `HeapProfile.HeapProfile.DumpForLeaks` | src/heap-profiler.cpp:303-322 | profile_ has the totals less the allocations that are ignored, so its net count is that of the others; and every bucket is as before |
| `LeakReport.CheckForLeaks` | src/heapcheck.cpp:866-883 | Marking from all roots and dumping together: the dump never aborts, and the net count is that of exactly the allocations to which no chain of pointers leads, and of the entries that were overwritten |
| `HeapProfile.RecordedTwice` | src/heap-profiler.cpp:444-456 | A pointer recorded twice: a run after which a net count is not that of the live allocations |
| `CpuStream.WordsOfBytes` | src/profiler.cpp:417-432 | Words read back from their bytes |
| `CpuStream.RecordsRoundTrip` | src/profiler.cpp:148-160 | Records decode to themselves, up to the trailer and no further |
| `CpuStream.StreamRoundTrip` | src/profiler.cpp:238-242 | Header, records and trailer decode from the bytes of a file to the period, exactly the records in order, and what comes after the stream |
| `CpuStream.StreamLayout` | src/profiler.cpp:238-281 | Which word is where: 0, 3, 0, period, 0 in front, 0, 1, 0 at the end, and count, depth and stack of each record behind those of the records before it |
| `StackHash.HashNext` | src/profiler.cpp:369-375 | One more frame moves the bytes of the hash up by a place, the highest coming round, and adds 41 times the address in 32 bits |
| `CpuProfile.WriteAll` | src/profiler.cpp:422-430 | All bytes reach the file in order however writes are split; the program exits exactly if a write fails |
| `CpuProfile.ProfileData.Start` | src/profiler.cpp:213-250 | Starts exactly if it was off and the file opens; the buffer has the five words of the header, and nothing is counted |
| `CpuProfile.ProfileData.FlushEvicted` | src/profiler.cpp:417-433 | The file has the header and all records so far, and the buffer is empty |
| `CpuProfile.ProfileData.Evict` | src/profiler.cpp:148-160 | One more record in the buffer, which is written out first exactly if the record does not fit |
| `CpuProfile.ProfileData.Least` | src/profiler.cpp:397-402 | The entry with the fewest samples in the bucket |
| `CpuProfile.ProfileData.Add` | src/profiler.cpp:363-415 | For every stack, table and records together hold all its samples and this one; the stack's own entry counts it, or else the entry of its bucket with the fewest samples makes room and becomes a record if it had any; count_ and evictions_ follow; the program exits only if a write fails |
| `CpuProfile.ProfileData.FlushTable` | src/profiler.cpp:339-361 | For every stack, the records alone hold all its samples, all are in the file, and no entry counts anything |
| `CpuProfile.ProfileData.Stop` | src/profiler.cpp:256-304 | The file is the stream, then the maps text; for every stack the records hold exactly its samples |
| `CpuProfile.ReaderSeesSamples` | src/profiler.cpp:256-304 | So a reader of the file gets the period, exactly the samples added and the text behind them, if no stack was sampled 2^32 times |
| `Arena.HeapProfilerMemory.AllocBlock` | src/heap-profiler.cpp:89-124 | Mapped pages that nobody had, enough for the bytes, aligned, and recorded; it aborts exactly if there are too many blocks or mmap fails |
| `Arena.HeapProfilerMemory.Alloc` | src/heap-profiler.cpp:153-166 | An aligned piece of mapped memory that shares no byte with any earlier piece; it is the next of the current block, and nothing is mapped, unless it is large or does not fit; it aborts exactly if mmap is asked and fails |
| `Arena.HeapProfilerMemory.Clear` | src/heap-profiler.cpp:134-151 | Exactly the blocks that were counted are unmapped |
| `Arena.HeapProfilerMemory.ClearKeepsAll` | src/heap-profiler.cpp:122-151 | As none is ever counted, nothing is unmapped |
| `PageMaps.SplitUnique` | src/pagemap.hpp:65-77 | The parts of an index tell keys apart |
| `PageMaps.DivideTwice` | src/pagemap.hpp:134-148 | The three-way split is two two-way splits |
| `PageMaps.PageMap1.Set` | src/pagemap.hpp:36-41 | The simple form: one element of a sequence changes |
| `PageMaps.PageMap2.Get` | src/pagemap.hpp:65-70 | The element of the flat sequence |
| `PageMaps.PageMap2.Set` | src/pagemap.hpp:72-77 | Exactly one element of the flat sequence changes, as in the simple form |
| `PageMaps.PageMap2.Ensure` | src/pagemap.hpp:79-92 | It ends; no value changes and no leaf is lost whatever happens; when done every key of the range is ensured; it fails only when all memory is used up for leaves, never if all keys had one; it leaves the root exactly if the range reaches past the last key |
| `PageMaps.PageMap3.Get` | src/pagemap.hpp:134-140 | The element of the flat sequence |
| `PageMaps.PageMap3.Set` | src/pagemap.hpp:142-148 | Exactly one element of the flat sequence changes |
| `PageMaps.PageMap3.Ensure` | src/pagemap.hpp:150-171 | As for two levels; without a root node it faults as soon as there is a key to ensure |
| `MapGrowth.AddPages` | src/tcmalloc.cpp:675-692 | Ensure of the page map answers what the page heap calls leaves, and the two stay in agreement; it leaves the root exactly if the block ends with the last page there is, unless memory runs out |
| `AddressStore.Added` | src/addressmap.hpp:149-168 | A recycled entry takes the key: the map gains one binding, chains and recycled entries stay disjoint |
| `AddressStore.Replaced` | src/addressmap.hpp:143-148 | A present key gets the new value |
| `AddressStore.Removed` | src/addressmap.hpp:170-187 | The entry goes from its chain to the recycled ones: the map loses one binding |
| `AddressStore.Refilled` | src/addressmap.hpp:151-159 | New entries leave the map as it is |
| `AddressStore.BlocksMade` | src/addressmap.hpp:75-82 | A new cluster leaves the map as it is |
| `AddressMap.AddressMap.FindCluster` | src/addressmap.hpp:66-86 | The cluster of the id, or there is none |
| `AddressMap.AddressMap.FindEntry` | src/addressmap.hpp:128-134 | The entry of the key with its place in the chain, or the key is not bound |
| `AddressMap.AddressMap.Find` | src/addressmap.hpp:125-138 | The value the map has for the key |
| `AddressMap.AddressMap.Insert` | src/addressmap.hpp:140-168 | The map with this binding |
| `AddressMap.AddressMap.FindAndRemove` | src/addressmap.hpp:170-187 | The value and the map without this binding |
| `AddressMap.AddressMap.Iterate` | src/addressmap.hpp:189-200 | Every binding exactly once |
| `SystemAlloc.RoundedUp` | src/systemalloc.cpp:44 | The least multiple that is not below, with room for alignment; 0 exactly if the sum wraps around |
| `SystemAlloc.AdjustFits` | src/systemalloc.cpp:98-107 | The adjustment is at most the extra memory asked for |
| `SystemAlloc.SystemAlloc.TrySbrk` | src/systemalloc.cpp:41-69 | An aligned block inside fresh memory, on all three ways out; the break itself if that is aligned and can grow; nothing is asked for if the sum is negative, and else NULL, with the failure recorded, only after the last call was refused |
| `SystemAlloc.SystemAlloc.Trim` | src/systemalloc.cpp:98-110 | Of the mapping exactly the aligned block stays mapped |
| `SystemAlloc.SystemAlloc.TryMmap` | src/systemalloc.cpp:75-110 | One call of mmap, and success exactly if it is granted; of the mapping the first aligned block of the rounded size stays mapped, of fresh memory, at least the size asked for |
| `SystemAlloc.SystemAlloc.TryDevMem` | src/systemalloc.cpp:114-173 | The same, with the exact condition of success; each block has the next stretch of physical memory, disjoint from all others |
| `SystemAlloc.SystemAlloc.BelowLimit` | src/systemalloc.cpp:145-149 | A stretch lies below the limit if and only if the limit is not below the start: the comparison is unsigned |
| `SystemAlloc.LimitBelowStart` | src/systemalloc.cpp:145-149 | A run that maps memory above the limit, from 100 MB with a limit of 50 MB |
| `SystemAlloc.SystemAlloc.Alloc` | src/systemalloc.cpp:175-209 | A block aligned to at least the word size, still mapped and disjoint from all earlier ones; it holds the size if and only if rounding does not wrap around; alignment 0 is allowed. NULL only after every source in use was asked and refused, mmap last and twice unless it had failed before; all failure flags are clear then |
| `SystemAlloc.HugeSizeGetsNothing` | src/systemalloc.cpp:176-183 | A run in which a huge request without alignment passes every test and gets a block of no bytes |

## Left out

- CentralTransfer.EvictKeeps: the test that ShrinkCache makes before it has the victim's lock may come out either way, because it is a data race.
- CpuProfile.ProfileData.Add: counts are unbounded; the program's wrap around at 2^32, which only `CpuProfile.ReaderSeesSamples` excludes.
- PageHeaps.PageHeap.New: the system grants no more than 2^31 - 1 pages in all, 8 terabytes; 32-bit words cannot say more, and beyond it Carve and Split are wrong, as said above.
- Words have 32 bits, except in do_malloc, do_memalign and the three-level page map, where they may have 64: the system allocator, the address map, the leak checker and both profilers are modelled for machines with 32 bits only.
- The links of spans of size classes: in the program such a span is linked on a list of its central cache while it is in use, and DLL_Remove clears the links before it goes back; here those lists are sequences, and of the spans in use only sampled ones are linked.
- FrontEnd.DoMemalign: where the thread's list is empty it ends in the first step of RemoveRange; the steps from there are those of the central model, and `FrontEnd.PopHead` is what follows them.
- SystemAlloc.SystemAlloc.TryDevMem: sizes and file offsets have 32 bits, start and limit are below 2 GB, and the offset of the next stretch does not wrap around.
- ThreadCache.ThreadCache.Deallocate: length_ is unbounded; by the stated bound a list of at most 256 objects never exceeds 257, so 16 bits suffice.
- HeapProfile.HeapProfile.RecordAlloc: only while profiling is on and outside self-disable; the dump that a threshold can trigger is not part of it.
- CpuProfile.File.Write: a write that returns 0 for a nonempty buffer would make the program loop; it takes at least one byte or fails.
- SystemAlloc.Os.Sbrk: nobody moves the break down, and nobody else maps memory that was handed out.
- The central free lists are a state machine on values, not a class: their methods drop locks midway, which a method contract cannot say. The order of `empty_` is not kept, and the carving of a new span is in `SizeClasses.Carve`.
- The order in which pooled span descriptors are reused, and the order of independent assignments inside Carve and Split.
- Which allocations are sampled, and the stack traces kept for them.
- realloc and calloc, which only combine malloc, free and a copy.
- Growth stack traces, statistics printing, malloc hooks, the malloc extension interface.
- `PreallocateMoreMemory`, which only ensures more keys.
- How roots are found: listing threads, reading registers, /proc/self/maps and global data.
- Sorting of buckets and the text of profiles; the flags and file names of the leak checker.
- Signal handling, timers and start-up of the CPU profiler.
- Spin lock internals: a lock is taken in one step.
