# A verified model of the RT-Thread kernel core and of the finsh expression compiler

This project models the parts of the RT-Thread 2.1 image in which several views of one state have to agree, and
proves that they do, over every call and every run:

* **mem.c**, the small-memory heap: headers inside one byte range, first fit from `lfree`, coalescing
  (`HeapLayout`, `HeapImage`, `HeapRuns`, `HeapReallocs`, `HeapCalls`, `HeapExamples`, and `SmallHeap`, which runs on an
  array with a cell for each byte address; a header field is kept whole in the cell at its address).
* **memheap.c**, a pool with an address ring and a free ring (`LinkedRings`, `MemPool`, `MemPoolRuns`,
  `MemPoolCalls`, `MemHeap`).
* **slab.c**, the page list, zones of equal chunks and the table of pages (`SlabPages`, `PageAllocator`,
  `SlabZones`, `Slabs`, `SlabRuns`, `SlabCalls`, `SlabAlignment`, `SlabAllocator`).
* **timer.c and clock.c**, rows of timers sorted by distance on a 32-bit tick that wraps (`TimerRows`, `Timers`,
  `TimerRuns`, `TimerCalls`, `TimerHangs`, `TimerFiring`, `TimerPeriods`, `TimerOrder`, `TimerExamples`, `TimerSystem`).
* **scheduler.c, thread.c and `__rt_ffs`**, the ready queues and the ready group (`ReadyBits`, `Schedulers`,
  `SchedulerCalls`, and their lists and masks as they are stored, `ReadyRings` and `Scheduler`).
* **ipc.c**, message queues, mailboxes, events and mutexes, as transition systems whose steps are the
  interrupt-disabled sections (`MessageQueues`, `MessageQueueCalls`, `Mailboxes`, `MailboxCalls`, `EventFlags`,
  `EventBits`, `Mutexes`, `MutexCalls`, and the classes `MessageQueue`, `Mailbox`, `EventObject`, `MutexObject`).
* **finsh**, from tokens to linked nodes, from these to byte code, and its execution (`FinshGrammar`, `FinshPrecedence`,
  `FinshLines`, `FinshTrees`, `FinshParser`, `FinshExpr`, `FinshMeaning`, `FinshSays`, `FinshNodes`, `FinshCode`,
  `FinshCompiler`, `FinshVm`, `FinshCosts`, `FinshSteps`, and `FinshShell` and `FinshStepLines`, which put them
  together).

Each part has the same shape. A datatype holds the state as plain sequences, sets and numbers; functions say what an
operation makes of it; lemmas say what every operation keeps, what holds of every run, what undoes what, and when a
call fails. The modules whose names end in `Calls`, and `EventBits`, `FinshMeaning`, `FinshSays` and `FinshPrecedence`,
say what each call does without naming those functions' cases: in blocks, queues, single bits and arithmetic. A class then carries the fields the source updates in place; its methods follow the source statement by
statement and are proved to leave exactly the state the functions say, so that the lemmas hold of the code in place.

`Cells` is the copying the three heaps share. Memory is shared between the parts only where the source shares it:
`SlabAllocator` takes its pages from `PageAllocator`, and the finsh machine runs the text segment the compiler wrote.

## What was found

* A shrinking `rt_realloc` does not lower `lfree`, so later requests can fail although a free block would hold them
  (a run: `HeapExamples.ShrinkCanLoseLowest`; the exact condition: `HeapRuns.ShrinkKeepsLowestIff`).
* `rt_malloc` and `rt_realloc` of nearly 4 GB wrap in the alignment. The first returns a small block
  (`HeapExamples.WrappedRequestGetsTwelve`, `HeapRuns.MallocHonoursSizeIff`), the second cuts the block to none
  (`HeapExamples.WrappedReallocEmpties`, `HeapReallocs.WrappedRealloc`, `HeapReallocs.ReallocHonoursSizeIff`).
* On a heap without room for one smallest payload, which initialisation accepts, the search of `rt_malloc` never ends
  (`HeapExamples.EmptyHeapHangs`; exactly when: `HeapImage.ScanEndsIff`).
* `rt_memheap_realloc` to one of twelve sizes near 4 GB, of a block with a free one behind it, puts a header into the
  block's own header (`MemPoolRuns.ReallocCanOverrun`, `MemPoolRuns.ReallocKeepsIff`).
* The comment at slab.c:163 promises alignment for every power of two. It holds up to a page; beyond that it holds if
  and only if the first page handed out is aligned (`SlabAlignment.PowerAlignedIff`). The first 8 KB request on a heap
  of 4 MB already fails it (`SlabAlignment.FirstLargeMisaligned`), and so does the first on one of just over 64 MB,
  where 8 KB come from a zone (`SlabAlignment.FirstZoneMisaligned`).
* A periodic timer of zero ticks keeps `rt_timer_check` busy for ever (`TimerHangs.FirstCheckHangs`; exactly when:
  `TimerHangs.EndsIff`), and so does a one-shot of zero ticks that restarts itself (`TimerHangs.OneShotRestartHangs`).
* A one-shot timer that restarts itself is left pending but flagged as stopped, and `rt_timer_stop` refuses it while it
  still fires (`TimerExamples.StopRefusesPending`; exactly when: `TimerOrder.TurnFlagsIff`).
* Handing a FIFO mutex on does not lift the new owner (`Mutexes.HandOffKeepsIff`, `Mutexes.HandOffCanInvert`).
* `++*p;` is accepted, but nothing is compiled for the operator (`FinshStepLines.PointerNotStepped`; exactly when:
  `FinshStepLines.StepLineRightIff`).
* An empty finsh statement takes the token after it along, and one at the start of a line the whole line: `1;;-2;` is
  read as `1; 2;` (`FinshLines.EmptyStatementTakesMinus`; exactly when: `FinshLines.ParseUndoesPrintIff`).
* The 16-node table does not bound the code by the 128 bytes of the text segment, which the compiler does not check:
  the line `x++;` six times over is accepted and has 143 bytes (`FinshShell.TwelveNodesNeedNot`; exactly when:
  `FinshShell.FitsIff`).

Concurrency is modelled by interleaving: an interrupt-disabled section is one step, a call that blocks is several. A
timeout is an event that may happen at any time to a suspended thread. I/O, hooks, debug output and assertions are not
part of the model; what an assertion checks is a precondition.

## Model

| member | source | states |
|---|---|---|
| HeapLayout.MallocKeepsInv | RT-Thread-STM32/Kernel/src/mem.c:246-375 | rt_malloc keeps the blocks tiling the heap up to heap_end, no two neighbours free, lfree a free block or heap_end, and used_mem the summed length of the used blocks |
| HeapLayout.FreeAtKeepsInv | RT-Thread-STM32/Kernel/src/mem.c:505-559 | so does rt_free with both merges of plug_holes |
| HeapLayout.ShrinkKeepsInv | RT-Thread-STM32/Kernel/src/mem.c:431-455 | so does the shrinking path of rt_realloc, which may leave a used block below MIN_SIZE |
| HeapLayout.MoveKeepsInv | RT-Thread-STM32/Kernel/src/mem.c:458-466 | so does the moving path of rt_realloc (allocate, copy, free), whether or not the allocation succeeds |
| HeapLayout.ReallocKeepsInv | RT-Thread-STM32/Kernel/src/mem.c:386-467 | so does every path of rt_realloc, including a pointer outside the heap |
| HeapLayout.FuseInSteps | RT-Thread-STM32/Kernel/src/mem.c:136-174 | plug_holes forward and then backward is one fusion of the block with its free neighbours |
| HeapRuns.After | RT-Thread-STM32/Kernel/src/mem.c:136-559 | over every run of malloc, realloc and free all of this holds |
| HeapRuns.FreeKeepsLowest | RT-Thread-STM32/Kernel/src/mem.c:546-557 | rt_free leaves lfree at the lowest free block if it was there |
| HeapRuns.RunKeepsLowest | RT-Thread-STM32/Kernel/src/mem.c:246-559 | over every run of malloc and free alone lfree is the lowest free block or heap_end |
| HeapRuns.RunEarly | RT-Thread-STM32/Kernel/src/mem.c:246-467 | over every run each used block begins more than 24 bytes before heap_end |
| HeapRuns.ShrinkKeepsLowestIff | RT-Thread-STM32/Kernel/src/mem.c:431-455 | a shrinking realloc keeps lfree lowest if and only if lfree was below the block, or was the free block right behind it |
| HeapExamples.ShrinkCanLoseLowest | RT-Thread-STM32/Kernel/src/mem.c:431-455 | a run of rt_malloc and rt_realloc from a fresh 128-byte heap after which lfree is not the lowest free block, and a request that a free block could hold fails |
| HeapRuns.MallocFailsIff | RT-Thread-STM32/Kernel/src/mem.c:246-375 | rt_malloc returns NULL if and only if the size is 0 or above the heap, or no free block from lfree on that starts below mem_size_aligned - size fits |
| HeapRuns.MallocFailsIffNothingFits | RT-Thread-STM32/Kernel/src/mem.c:279-352 | while lfree is lowest that means no free block anywhere that the strict bound admits |
| HeapRuns.ExactFitOfLastBlockRefused | RT-Thread-STM32/Kernel/src/mem.c:279-284 | the bound is strict: asking a fresh heap for exactly all it has fails |
| HeapRuns.MallocGives | RT-Thread-STM32/Kernel/src/mem.c:279-352 | what is handed out was not live, is live and 4-aligned, and covers the aligned request |
| HeapRuns.MallocHonoursSizeIff | RT-Thread-STM32/Kernel/src/mem.c:246-275 | it covers the size asked for if and only if aligning that size does not wrap at 32 bits |
| HeapExamples.WrappedRequestGetsTwelve | RT-Thread-STM32/Kernel/src/mem.c:246-275 | a fresh 64-byte heap asked for 0xFFFFFFFD bytes hands out 12 |
| HeapRuns.MallocKeepsOthers | RT-Thread-STM32/Kernel/src/mem.c:246-375 | every live block is still there, with the same bounds, and is not the new one |
| HeapRuns.LiveDisjoint | RT-Thread-STM32/Kernel/src/mem.c:246-559 | live blocks are aligned, inside the heap, and share no byte, headers included |
| HeapRuns.FreeUndoesMalloc | RT-Thread-STM32/Kernel/src/mem.c:246-559 | freeing what was just allocated restores the blocks, lfree and used_mem exactly |
| HeapReallocs.FreeKeepsOthers | RT-Thread-STM32/Kernel/src/mem.c:505-559 | rt_free leaves every other live block in place with its bounds |
| HeapReallocs.ReallocGives | RT-Thread-STM32/Kernel/src/mem.c:386-467 | what rt_realloc returns is live, aligned and covers the aligned size; a failed call changes nothing |
| HeapReallocs.ReallocHonoursSizeIff | RT-Thread-STM32/Kernel/src/mem.c:386-467 | it covers the size asked for if and only if aligning that size does not wrap at 32 bits |
| HeapReallocs.WrappedRealloc | RT-Thread-STM32/Kernel/src/mem.c:394-455 | a size that wraps cuts a live block of more than 24 bytes to none and returns it; a smaller one fails, an empty one stays |
| HeapExamples.WrappedReallocEmpties | RT-Thread-STM32/Kernel/src/mem.c:394-455 | a run: of 40 bytes on a heap of 128, reallocated to 0xFFFFFFFD, none are left, and a free header stands where the contents began |
| HeapReallocs.ReallocKeepsOthers | RT-Thread-STM32/Kernel/src/mem.c:386-467 | rt_realloc leaves every other live block in place with its bounds |
| HeapReallocs.RunKeepsLive | RT-Thread-STM32/Kernel/src/mem.c:246-559 | over any run a live block keeps its place and bounds until it is itself freed or reallocated |
| HeapCalls.MallocTakesFirst | RT-Thread-STM32/Kernel/src/mem.c:246-352 | an rt_malloc that succeeds takes the first block from lfree on that is free, large enough and below the strict bound; that block is used exactly as long as asked, or whole if no block would be left over; no other becomes used; max_mem is the larger of itself and used_mem |
| HeapCalls.FreeReleases | RT-Thread-STM32/Kernel/src/mem.c:505-559 | rt_free makes exactly that block unused, and leaves max_mem |
| HeapCalls.ReallocFits | RT-Thread-STM32/Kernel/src/mem.c:386-467 | rt_realloc of a live block, for every size: above the heap, NULL; as long as asked, it stays; more than 24 bytes too long, it is cut in place to exactly the aligned size; otherwise it moves to the first fit, or stays, with NULL, if and only if the size is 0 or nothing fits |
| HeapImage.SpliceImage | RT-Thread-STM32/Kernel/src/mem.c:303-319 | writing the headers of the replacement blocks and the one prev field behind them (none behind heap_end) keeps next and prev mutually inverse for the whole heap |
| HeapImage.CutImage | RT-Thread-STM32/Kernel/src/mem.c:431-455 | the headers written by a shrinking realloc describe the cut block, and no cell of another payload or of the kept part changes |
| HeapImage.FreeRunKeepsPayloads | RT-Thread-STM32/Kernel/src/mem.c:136-174 | what plug_holes writes leaves every live payload as it was |
| HeapImage.ScanEndsIff | RT-Thread-STM32/Kernel/src/mem.c:262-284 | in every state of a heap initialisation accepts, the search of a request that passes the size check ends if and only if mem_size_aligned is at least MIN_SIZE; below that the bound wraps |
| HeapExamples.EmptyHeapHangs | RT-Thread-STM32/Kernel/src/mem.c:262-284 | a heap of no bytes asked for 0xFFFFFFFD, which aligns to 0 and passes, searches for ever |
| SmallHeap.Allocator.constructor | RT-Thread-STM32/Kernel/src/mem.c:184-231 | the aligned part of the range: one free block and the end marker, and the invariant of the allocator holds if and only if one smallest payload fits |
| SmallHeap.Allocator.Search | RT-Thread-STM32/Kernel/src/mem.c:279-284 | the scan along next fields from lfree finds the first block that fits, or none |
| SmallHeap.Allocator.Take | RT-Thread-STM32/Kernel/src/mem.c:285-352 | splitting or taking whole, counters, and the loop that moves lfree on |
| SmallHeap.Allocator.Malloc | RT-Thread-STM32/Kernel/src/mem.c:246-375 | on the cells themselves: the new blocks, lfree and counters are those of first fit, the images of all headers stay right, and no cell of a live payload changes |
| SmallHeap.Allocator.PlugHoles | RT-Thread-STM32/Kernel/src/mem.c:136-174 | on the cells: the block is one with its free neighbours, lfree follows if it pointed at a swallowed header, and no cell of a live payload changes |
| SmallHeap.Allocator.Free | RT-Thread-STM32/Kernel/src/mem.c:505-559 | on the cells: the block is free and fused, and no cell of another live payload changes |
| SmallHeap.Allocator.Shrink | RT-Thread-STM32/Kernel/src/mem.c:431-455 | on the cells: the block is cut and its tail fused, the cells it keeps and all other payloads are as they were |
| SmallHeap.Allocator.Realloc | RT-Thread-STM32/Kernel/src/mem.c:386-467 | on the cells: unless aligning the size wraps, what is returned has room for what was asked and starts with the first min(old, new) cells of the old block; a failed call changes no payload; other blocks keep theirs |
| SmallHeap.Allocator.Store | RT-Thread-STM32/Kernel/src/mem.c:246-559 | a client writing inside its block disturbs no header |
| LinkedRings.RingInverse | RT-Thread-STM32/Kernel/src/memheap.c:146-596 | next and prev of a ring undo each other |
| MemPool.TakeKeeps | RT-Thread-STM32/Kernel/src/memheap.c:146-288 | handing out a free block, split or whole, keeps both lists in agreement: the free list is exactly the unused blocks, no two free blocks are adjacent, available_size is the sum of free payloads |
| MemPool.FreeKeeps | RT-Thread-STM32/Kernel/src/memheap.c:499-596 | so does releasing with left and right merge |
| MemPool.GrowKeeps | RT-Thread-STM32/Kernel/src/memheap.c:337-407 | so does growing in place into the free block behind |
| MemPool.ShrinkKeeps | RT-Thread-STM32/Kernel/src/memheap.c:423-496 | so does giving up the tail, merged with a free block behind it |
| MemPoolRuns.AfterRun | RT-Thread-STM32/Kernel/src/memheap.c:146-596 | over every run of alloc, realloc and free |
| MemPoolRuns.AllocGives | RT-Thread-STM32/Kernel/src/memheap.c:146-288 | what is returned was free, is live, is aligned relative to start_addr, and has room for the aligned request, which is what was asked for if and only if aligning does not wrap |
| MemPoolRuns.AllocFailsIff | RT-Thread-STM32/Kernel/src/memheap.c:146-288 | alloc fails if and only if no free block is large enough or the request equals available_size |
| MemPoolRuns.FreeUndoesAlloc | RT-Thread-STM32/Kernel/src/memheap.c:146-596 | releasing the block just handed out restores blocks, marks and count, and puts it at the head of the free list |
| MemPoolRuns.FreeKeepsOthers | RT-Thread-STM32/Kernel/src/memheap.c:499-596 | releasing leaves every other live block in place with its length |
| MemPoolRuns.ReallocKeepsIff | RT-Thread-STM32/Kernel/src/memheap.c:291-496 | realloc of any 32-bit size keeps both lists and the count right if and only if it is not one of twelve sizes near 4 GB on a block with a free block behind it, where the sum in the test for growing in place wraps |
| MemPoolRuns.ReallocCanOverrun | RT-Thread-STM32/Kernel/src/memheap.c:298-345 | a run from a new pool of 256 bytes that meets one: the new header lies in the header of the block itself |
| MemPoolRuns.ReallocKeeps | RT-Thread-STM32/Kernel/src/memheap.c:291-496 | in every other case both lists and the count are kept, on every path |
| MemPoolRuns.ReallocGives | RT-Thread-STM32/Kernel/src/memheap.c:291-496 | it returns a block with room for the aligned size, which is what was asked for if and only if aligning does not wrap, or leaves the pool as it was |
| MemPoolRuns.ReallocKeepsOthers | RT-Thread-STM32/Kernel/src/memheap.c:291-496 | it leaves every other live block in place with its length |
| MemPoolRuns.RunKeepsLive | RT-Thread-STM32/Kernel/src/memheap.c:146-596 | over any run a block keeps its place and length until it is itself freed or reallocated |
| MemPoolRuns.LiveApart | RT-Thread-STM32/Kernel/src/memheap.c:146-596 | live blocks do not overlap, headers included |
| MemPoolCalls.AllocTakes | RT-Thread-STM32/Kernel/src/memheap.c:146-288 | an alloc that succeeds takes the first block of the free list that is large enough, exactly as long as asked, or whole if no block would be left over; that block alone becomes live; max_used_size follows |
| MemPoolCalls.FreeGivesBack | RT-Thread-STM32/Kernel/src/memheap.c:499-596 | free makes that block alone not live, and available_size grows by its bytes and by the header of each neighbour it joins |
| MemPoolCalls.ReallocFits | RT-Thread-STM32/Kernel/src/memheap.c:291-496 | realloc of a live block, for every size but those twelve: to nothing, the block is not live any more; more than a block too long, it stays and has exactly the aligned size, and available_size grows by what is cut off less a header where none was behind it; at most that much too long, nothing changes; too short, it grows in place if the free block behind it leaves a block over, else it moves to the first block of the free list that is large enough, shorter than the request by no byte and longer by less than a header and MIN_SIZE; else NULL and nothing changes |
| MemHeap.MemHeap.constructor | RT-Thread-STM32/Kernel/src/memheap.c:60-131 | rt_memheap_init: the free block, the tailer and the two rings |
| MemHeap.MemHeap.Search | RT-Thread-STM32/Kernel/src/memheap.c:176-187 | the walk along the free ring stops at the first block large enough |
| MemHeap.MemHeap.Take | RT-Thread-STM32/Kernel/src/memheap.c:189-268 | split or whole, by relinking the two rings |
| MemHeap.MemHeap.Alloc | RT-Thread-STM32/Kernel/src/memheap.c:146-288 | on next, prev, next_free and prev_free: both rings, marks and counters afterwards are those of first fit on the free list |
| MemHeap.MemHeap.MergeLeft | RT-Thread-STM32/Kernel/src/memheap.c:541-558 | joining a free block before |
| MemHeap.MemHeap.MergeRight | RT-Thread-STM32/Kernel/src/memheap.c:560-579 | joining a free block behind |
| MemHeap.MemHeap.Free | RT-Thread-STM32/Kernel/src/memheap.c:499-596 | on the four link fields: both rings, marks and counters afterwards are those of release with merging on both sides |
| MemHeap.MemHeap.Grow | RT-Thread-STM32/Kernel/src/memheap.c:337-407 | on the four link fields: the boundary to the free block behind moves, or that block disappears from both rings |
| MemHeap.MemHeap.Shrink | RT-Thread-STM32/Kernel/src/memheap.c:423-496 | on the four link fields: the block has exactly the size asked for, and its tail is a new free block, or becomes part of the free block behind |
| MemHeap.MemHeap.Realloc | RT-Thread-STM32/Kernel/src/memheap.c:291-496 | release, fresh allocation, growing, shrinking, moving or staying put, chosen as the source does, with the pool of the corresponding block-level step; what is returned begins with the first min(old, new) bytes of the old block, every other block keeps its contents, it is as long as asked but for less than a header and MIN_SIZE more, and asked for nothing the block is not live any more |
| SlabPages.AllocTakes | RT-Thread-STM32/Kernel/src/slab.c:246-280 | rt_page_alloc: what is handed out was free and is exactly what leaves the list, which stays sorted with a gap between runs |
| SlabPages.AllocFailsIff | RT-Thread-STM32/Kernel/src/slab.c:246-280 | it fails if and only if there are not that many consecutive free pages |
| SlabPages.FreeAdds | RT-Thread-STM32/Kernel/src/slab.c:282-332 | rt_page_free adds exactly the pages released and keeps the list sorted and maximally merged |
| SlabPages.OneList | RT-Thread-STM32/Kernel/src/slab.c:282-332 | a set of free pages has only one such list |
| SlabPages.FreeUndoesAlloc | RT-Thread-STM32/Kernel/src/slab.c:246-332 | releasing what was handed out restores the list |
| SlabPages.FreesCommute | RT-Thread-STM32/Kernel/src/slab.c:282-332 | the order of two releases makes no difference |
| SlabPages.RunKeeps | RT-Thread-STM32/Kernel/src/slab.c:246-332 | over every run free pages and handed-out blocks partition all pages |
| SlabPages.AllReleased | RT-Thread-STM32/Kernel/src/slab.c:246-344 | once everything is released the list is the one run it began as |
| PageAllocator.PageAllocator.constructor | RT-Thread-STM32/Kernel/src/slab.c:337-344 | rt_page_init |
| PageAllocator.PageAllocator.Alloc | RT-Thread-STM32/Kernel/src/slab.c:246-280 | one walk finds the first run that is large enough and changes the list there; the result and the new list are those of first fit |
| PageAllocator.PageAllocator.PutBack | RT-Thread-STM32/Kernel/src/slab.c:299-332 | one walk stops where the pages belong and joins them with the run before, the run behind, or both |
| SlabZones.ZoneIndexFits | RT-Thread-STM32/Kernel/src/slab.c:411-469 | zoneindex gives an index in 0..71 whose chunk size is a function of the index, is at least the request, and is the smallest such |
| SlabZones.ZoneIndexMonotone | RT-Thread-STM32/Kernel/src/slab.c:411-469 | larger requests go to no lower zone |
| SlabZones.CapacityFits | RT-Thread-STM32/Kernel/src/slab.c:640-660 | every zone has room for at least three chunks, and they end within it |
| SlabZones.ChunksApart | RT-Thread-STM32/Kernel/src/slab.c:640-660 | chunks of a zone do not overlap |
| SlabZones.ChunksWithin | RT-Thread-STM32/Kernel/src/slab.c:640-660 | they lie behind the zone header and within the zone |
| SlabZones.ChunkAlignedIff | RT-Thread-STM32/Kernel/src/slab.c:643-650 | a power-of-two chunk is aligned to its size if and only if the zone is; always up to the page size |
| SlabAlignment.PowerAlignedIff | RT-Thread-STM32/Kernel/src/slab.c:488-684 | in every reachable slab a power of two of bytes gets an address that is a multiple of it, if it is at most a page; beyond that it does if and only if the number of the first page is a multiple of its pages, that page being the first of the open zone, of the zone set aside, or of the first free run with enough pages |
| SlabAlignment.FirstLargeMisaligned | RT-Thread-STM32/Kernel/src/slab.c:513-546 | the first 8 KB request on a heap of 4 MB is misaligned, although the comment at line 163 promises alignment for every power of two |
| SlabAlignment.FirstZoneMisaligned | RT-Thread-STM32/Kernel/src/slab.c:596-660 | so is the first on a heap of 64 MB and a page, where it is a chunk of a zone |
| Slabs.ZoneCounts | RT-Thread-STM32/Kernel/src/slab.c:554-590 | z_nfree and the chunks callers have add up to z_nmax |
| Slabs.TakeKeeps | RT-Thread-STM32/Kernel/src/slab.c:554-590 | a zone with z_nfree > 0 yields a chunk nobody has, fresh memory before released chunks |
| Slabs.GiveKeeps | RT-Thread-STM32/Kernel/src/slab.c:861-877 | a released chunk goes on the free list and the counts stay right |
| Slabs.RetireKeeps | RT-Thread-STM32/Kernel/src/slab.c:885-905 | taking a zone off its list and setting it aside |
| Slabs.ReleaseKeeps | RT-Thread-STM32/Kernel/src/slab.c:907-931 | giving the zone set aside last back to the page allocator |
| SlabRuns.MallocKeeps | RT-Thread-STM32/Kernel/src/slab.c:488-684 | rt_malloc: every view stays consistent, the block is new and large enough, no other block changes, and a failure changes nothing |
| SlabRuns.MallocFailsIff | RT-Thread-STM32/Kernel/src/slab.c:488-684 | it fails if and only if the request is 0, or large without that many pages in a row, or small with no open zone, none set aside, and no pages for one |
| SlabRuns.FreeKeeps | RT-Thread-STM32/Kernel/src/slab.c:793-935 | rt_free takes back exactly the block it is given, found through the page table, and keeps every view, among them: at most two zones set aside, and no size with two zones wholly free |
| SlabRuns.ReallocKeeps | RT-Thread-STM32/Kernel/src/slab.c:695-757 | rt_realloc leaves a block of at least the new size and every other as it was, or the old block if it cannot |
| SlabRuns.LiveInZone | RT-Thread-STM32/Kernel/src/slab.c:827-859 | an address in a zone belongs to a block if and only if the zone has it out: the page table leads to the right zone |
| SlabRuns.LiveApart | RT-Thread-STM32/Kernel/src/slab.c:488-935 | blocks of callers never overlap, whether chunks or large |
| SlabRuns.RunKeeps | RT-Thread-STM32/Kernel/src/slab.c:488-935 | over every run: z_nfree right, a zone on its list iff z_nfree > 0, lists and pages in agreement, page table right |
| SlabRuns.InitialHolds | RT-Thread-STM32/Kernel/src/slab.c:354-405 | rt_system_heap_init establishes this with no block out |
| SlabCalls.MallocSizes | RT-Thread-STM32/Kernel/src/slab.c:488-684 | the block rt_malloc hands out is no larger than it must be: below the limit a chunk of the least size that holds the request, from there on whole pages, less than a page too many |
| SlabCalls.SmallSlack | RT-Thread-STM32/Kernel/src/slab.c:411-469 | such a chunk is less than 8 bytes longer than the request, or less than an eighth of it |
| SlabCalls.AllocLowest | RT-Thread-STM32/Kernel/src/slab.c:246-280 | rt_page_alloc hands out the lowest run: none with as many free pages begins before it |
| SlabCalls.SmallDoes | RT-Thread-STM32/Kernel/src/slab.c:554-664 | a small block is from the first open zone of its size: the next chunk never used, or else the one released last, and no page changes hands; with none open it is the first chunk of the zone set aside last; with none set aside, of a zone in the lowest pages that will do |
| SlabCalls.LargeDoes | RT-Thread-STM32/Kernel/src/slab.c:513-546 | a large block takes the lowest pages that will do, and no zone changes |
| SlabCalls.FreeDoes | RT-Thread-STM32/Kernel/src/slab.c:793-935 | a chunk released is the next its zone hands out again; the zone stays in use while callers have a chunk of it or no other zone of its size is open, and otherwise is set aside, or, if two are already, its pages are free again; of a large block exactly its pages are free again |
| SlabCalls.ReallocFits | RT-Thread-STM32/Kernel/src/slab.c:695-757 | rt_realloc to n > 0 bytes leaves a block in place if and only if it is a chunk of the least size that holds n; else it moves to an address no caller had, or nothing changes; what is returned is no larger than it must be |
| SlabAllocator.ZoneSizeFor | RT-Thread-STM32/Kernel/src/slab.c:384-387 | the loop ends at 32, 64 or 128 KB as the heap size decides |
| SlabAllocator.SlabAllocator.constructor | RT-Thread-STM32/Kernel/src/slab.c:354-405 | the whole pages between the two addresses; page list, zone size and page table at the start: nothing handed out but the table itself |
| SlabAllocator.SlabAllocator.TakeFrom | RT-Thread-STM32/Kernel/src/slab.c:554-590 | the first zone on the list hands out a chunk from its header fields and leaves the list when it was the last |
| SlabAllocator.SlabAllocator.Begin | RT-Thread-STM32/Kernel/src/slab.c:637-664 | a fresh header for the size, its first chunk handed out, the zone at the head of its list |
| SlabAllocator.SlabAllocator.MarkSmall | RT-Thread-STM32/Kernel/src/slab.c:627-634 | every page of a new zone is marked with its distance from the first, no other mark changes |
| SlabAllocator.SlabAllocator.Malloc | RT-Thread-STM32/Kernel/src/slab.c:488-684 | lists, headers, page table and page list afterwards, and the address, are those of the model, which keeps all of them consistent |
| SlabAllocator.SlabAllocator.GiveTo | RT-Thread-STM32/Kernel/src/slab.c:861-877 | the chunk heads the free list of its zone, which returns to the head of its list if it was full |
| SlabAllocator.SlabAllocator.Unlink | RT-Thread-STM32/Kernel/src/slab.c:893-896 | the loop takes exactly that zone off its list, keeping the order of the others |
| SlabAllocator.SlabAllocator.SetAside | RT-Thread-STM32/Kernel/src/slab.c:885-932 | a zone wholly free leaves its list unless it is alone there, and the third one set aside goes back to the pages |
| SlabAllocator.SlabAllocator.Free | RT-Thread-STM32/Kernel/src/slab.c:793-935 | from the address alone: the page table leads to the zone or the large block, and exactly that block is released |
| SlabAllocator.SlabAllocator.Realloc | RT-Thread-STM32/Kernel/src/slab.c:695-757 | the block stays if its chunks have the size the request is raised to, and otherwise moves; what is returned begins with the first min(old, new) bytes of the old block, and every other block keeps its contents |
| Timers.StartKeeps | RT-Thread-STM32/Kernel/src/timer.c:294-409 | rt_timer_start keeps the last row sorted by signed distance from now, each row a sub-row of the one below, every active timer once on the last row |
| Timers.StopKeeps | RT-Thread-STM32/Kernel/src/timer.c:419-442 | so does rt_timer_stop, which takes off exactly an activated timer |
| Timers.AllRowsSorted | RT-Thread-STM32/Kernel/src/timer.c:339-388 | then every row is sorted, for any number of rows |
| TimerRuns.TurnKeeps | RT-Thread-STM32/Kernel/src/timer.c:501-540 | one turn of the check loop, with any start, stop and control calls by the timeout function, keeps this and leaves fewer timers due |
| TimerRuns.CheckEnds | RT-Thread-STM32/Kernel/src/timer.c:488-546 | so the loop ends, after at most as many turns as timers were due, with none due |
| TimerHangs.EndsIff | RT-Thread-STM32/Kernel/src/timer.c:488-546 | a check without timeout functions that call ends if and only if no due timer is periodic, activated and of zero ticks |
| TimerHangs.ZeroPeriodHangs | RT-Thread-STM32/Kernel/src/timer.c:488-546 | a periodic timer of zero ticks started by a thread, in any reachable state with periods below 2^31, keeps the check of the next tick going for ever |
| TimerHangs.FirstCheckHangs | RT-Thread-STM32/Kernel/src/timer.c:488-546 | so does the first timer ever started, if it is one |
| TimerHangs.RestartHangs | RT-Thread-STM32/Kernel/src/timer.c:488-546 | any due timer of zero ticks whose timeout function restarts it does so too |
| TimerHangs.OneShotRestartHangs | RT-Thread-STM32/Kernel/src/timer.c:488-546 | among them a one-shot started by a thread |
| TimerFiring.After | RT-Thread-STM32/Kernel/src/timer.c:294-546 | between events everything stays sound, whatever threads and timeout functions do |
| TimerFiring.DueFiresOnce | RT-Thread-STM32/Kernel/src/timer.c:488-546 | a due timer fires exactly once in a check |
| TimerFiring.NotDueNotFired | RT-Thread-STM32/Kernel/src/timer.c:488-546 | one that is not due does not fire and still waits for the same tick |
| TimerFiring.WaitsUntil | RT-Thread-STM32/Kernel/src/timer.c:294-546 | until its tick a timer left alone stays pending and does not fire |
| TimerFiring.FiresExactlyOnTime | RT-Thread-STM32/Kernel/src/timer.c:294-546 | a timer of n < 2^31 ticks left alone fires at the n-th tick after its start (the first for n = 0), once, and at no earlier one, across any wrap of the counter |
| TimerPeriods.OneShotFiresOnce | RT-Thread-STM32/Kernel/src/timer.c:294-546 | a one-shot timer left alone has fired once after any run of at least that many ticks, however long, and not at all before |
| TimerPeriods.PeriodicFiresEvery | RT-Thread-STM32/Kernel/src/timer.c:294-546 | a periodic timer of n ticks left alone has fired, after any run of k ticks, exactly k / n times |
| TimerFiring.NowAfter | RT-Thread-STM32/Kernel/src/clock.c:83-105 | the tick after k increments is the old one plus k modulo 2^32 |
| TimerOrder.EqualTimeoutsFireInStartOrder | RT-Thread-STM32/Kernel/src/timer.c:346-376 | of two timers with the same deadline the one started first fires first |
| TimerOrder.DueFireInOrder | RT-Thread-STM32/Kernel/src/timer.c:488-546 | due timers fire in the order of the row |
| TimerOrder.TurnFlagsIff | RT-Thread-STM32/Kernel/src/timer.c:514-536 | a turn leaves the activated flags right if and only if the timeout function did not restart its own one-shot timer |
| TimerExamples.StopRefusesPending | RT-Thread-STM32/Kernel/src/timer.c:419-536 | a run of one start and one tick after which a one-shot timer that restarted itself is pending, not activated, refused by rt_timer_stop, and fires at the next check |
| TimerOrder.CallKeepsFlags | RT-Thread-STM32/Kernel/src/timer.c:294-479 | calls by threads keep the flags right |
| TimerCalls.StartDoes | RT-Thread-STM32/Kernel/src/timer.c:294-409 | a timer started is activated, times out at now plus its period modulo 2^32, stands on the last row behind every timer due no later and before every one due later, the others as they stood, and is on the k-th row above if and only if the k lowest pairs of bits of the start counter are zero; no other timer changes |
| TimerCalls.StopDoes | RT-Thread-STM32/Kernel/src/timer.c:419-442 | an activated timer is on no row and not activated afterwards, the others stand as they stood; one that is not activated stays as it is |
| TimerCalls.ControlDoes | RT-Thread-STM32/Kernel/src/timer.c:454-479 | setting the period or the kind changes that field of that timer alone |
| TimerCalls.PeriodSetIsUsed | RT-Thread-STM32/Kernel/src/timer.c:294-479 | a period set is the one the next start uses: over any run until it is set again, with other calls, ticks and checks, a start then times out that many ticks later |
| TimerSystem.TimerSystem.Remove | RT-Thread-STM32/Kernel/src/timer.c:123-131 | the timer is off every row, the others keep their order |
| TimerSystem.TimerSystem.FindPlaces | RT-Thread-STM32/Kernel/src/timer.c:339-367 | the descending walk: the place in each row, each walk starting where the one above ended |
| TimerSystem.TimerSystem.Link | RT-Thread-STM32/Kernel/src/timer.c:373-388 | into the last row and one row up for every pair of zero bits |
| TimerSystem.TimerSystem.Start | RT-Thread-STM32/Kernel/src/timer.c:294-409 | removal, new deadline, insertion and flag, in this order, leave the rows of an ordered insertion |
| TimerSystem.TimerSystem.Stop | RT-Thread-STM32/Kernel/src/timer.c:419-442 | an activated timer leaves every row; one that is not is left alone and reported |
| TimerSystem.TimerSystem.Control | RT-Thread-STM32/Kernel/src/timer.c:454-479 | a change of period or of kind leaves rows, deadlines and flags alone |
| TimerSystem.TimerSystem.Fire | RT-Thread-STM32/Kernel/src/timer.c:501-540 | one turn: the head leaves the rows, its function runs, and it is restarted or stopped by its flags |
| TimerSystem.TimerSystem.Check | RT-Thread-STM32/Kernel/src/timer.c:488-546 | the loop ends with the state and the firing order of the turns taken one by one |
| TimerSystem.TimerSystem.TickIncrease | RT-Thread-STM32/Kernel/src/clock.c:83-105 | one tick and one check: the rows are in order again |
| ReadyBits.FfsIsLowest | RT-Thread-STM32/Kernel/src/kservice.c:1194-1238 | __rt_ffs gives one more than the place of the lowest set bit |
| Schedulers.InsertKeeps | RT-Thread-STM32/Kernel/src/scheduler.c:267-304 | inserting a thread keeps the group, the queues and the states in step |
| Schedulers.StoppedKeeps | RT-Thread-STM32/Kernel/src/scheduler.c:313-353 | so does removing one |
| Schedulers.Step | RT-Thread-STM32/Kernel/src/thread.c:203-657 | every scheduler event, rt_thread_detach and rt_thread_delete of started threads among them, keeps: bit p of the group set iff queue p is not empty, every thread in the queue of its priority iff READY and in no other, idle ready; what each does besides is SchedulerCalls.StepDoes |
| Schedulers.AfterRun | RT-Thread-STM32/Kernel/src/thread.c:203-657 | over every run |
| Schedulers.IdleReady | RT-Thread-STM32/Kernel/src/scheduler.c:191-215 | so the search always finds a thread |
| Schedulers.ScheduledRuns | RT-Thread-STM32/Kernel/src/scheduler.c:191-258 | unlocked, rt_schedule runs the head of the most urgent queue that is not empty; locked, it changes nothing |
| Schedulers.YieldRotates | RT-Thread-STM32/Kernel/src/thread.c:377-411 | a yield moves the running thread to the end of its queue and runs the next |
| Schedulers.RoundRobin | RT-Thread-STM32/Kernel/src/thread.c:377-411 | after k yields the queue has turned by k places, and the thread k places on runs |
| SchedulerCalls.StepDoes | RT-Thread-STM32/Kernel/src/thread.c:47-657 | for every call, from queues and states alone: after startup, a timeout, an exit, rt_schedule, a yield that rotates and the last unlock, with the scheduler unlocked, the running thread is the head of the most urgent queue that is not empty, and after any other call it is the one that ran; the state and priority of the thread a call is about; which calls send it to the end of its queue; every other thread, and the order of the others in every queue, unchanged; and the lock count |
| ReadyRings.InsertLinked | RT-Thread-STM32/include/rtservice.h:77-84 | the four writes of rt_list_insert_before before the head of a ready list, on all rings at once, leave the rings of the queues with the thread at the end of its own |
| ReadyRings.RemoveLinked | RT-Thread-STM32/include/rtservice.h:90-96 | the writes of rt_list_remove leave the rings of the queues without the thread, which points to itself |
| ReadyRings.RotateLinked | RT-Thread-STM32/Kernel/src/thread.c:389-396 | both after each other are the turn of a queue by one |
| ReadyRings.AloneIff | RT-Thread-STM32/Kernel/src/thread.c:388-392 | of a thread in a ring next and prev differ if and only if others are in it: the test of rt_thread_yield |
| ReadyRings.OrIsSet | RT-Thread-STM32/Kernel/src/scheduler.c:295-303 | or with number_mask sets bit current_priority of the group |
| ReadyRings.AndNotIsClear | RT-Thread-STM32/Kernel/src/scheduler.c:337-350 | and with its complement clears that bit and no other |
| Scheduler.Scheduler.InsertThread | RT-Thread-STM32/Kernel/src/scheduler.c:267-304 | on the links and masks: four link writes and one or with number_mask leave the rings of all queues, the thread last in its own and READY, and the group with exactly the bits of the queues that are not empty |
| Scheduler.Scheduler.RemoveThread | RT-Thread-STM32/Kernel/src/scheduler.c:313-353 | on the links and masks: the thread is out of its ring, the other rings are as they were, and its mask leaves the group exactly if its list head then points to itself, that is, if the queue is empty |
| Scheduler.Scheduler.Schedule | RT-Thread-STM32/Kernel/src/scheduler.c:191-258 | unlocked, the current thread is the first of the most urgent queue that is not empty |
| Scheduler.Scheduler.Startup | RT-Thread-STM32/Kernel/src/thread.c:203-234 | a thread not yet started gets its initial priority and is READY in its queue |
| Scheduler.Scheduler.Suspend | RT-Thread-STM32/Kernel/src/thread.c:554-585 | a READY thread leaves its queue; any other is reported and left alone |
| Scheduler.Scheduler.Resume | RT-Thread-STM32/Kernel/src/thread.c:595-627 | a SUSPENDED thread joins the end of its queue; any other is reported and left alone |
| Scheduler.Scheduler.Timeout | RT-Thread-STM32/Kernel/src/thread.c:636-657 | a suspended thread joins its queue, and the processor is given out anew |
| Scheduler.Scheduler.Yield | RT-Thread-STM32/Kernel/src/thread.c:377-411 | the running thread goes to the end of its queue if others wait there, and the processor is given out anew |
| Scheduler.Scheduler.SetPriority | RT-Thread-STM32/Kernel/src/thread.c:476-515 | a READY thread leaves one ring for the end of another and number_mask is 1 << priority again; any other changes priority and mask only; the invariant of rings, masks and queues is kept |
| Scheduler.Scheduler.Exit | RT-Thread-STM32/Kernel/src/thread.c:47-82 | the running thread is CLOSED and off its queue for good, and unlocked the head of the most urgent queue runs |
| Scheduler.Scheduler.Detach | RT-Thread-STM32/Kernel/src/thread.c:245-366 | a started thread is off its ring for good, its mask out of the group if it was the last there; any thread goes on as the queues say |
| Schedulers.LockedNoSwitch | RT-Thread-STM32/Kernel/src/scheduler.c:358-401 | while rt_enter_critical outnumbers rt_exit_critical nothing, whatever is readied, suspended or yielded, changes the running thread |
| Scheduler.Scheduler.ExitCritical | RT-Thread-STM32/Kernel/src/scheduler.c:379-401 | at the outermost level the processor is given out anew |
| MessageQueues.StepKeeps | RT-Thread-STM32/Kernel/src/ipc.c:1924-2278 | every section of send, urgent, recv and reset keeps free, queued and in-flight slots a partition of all slots, buffers in flight undisturbed, and no wake-up lost |
| MessageQueues.After | RT-Thread-STM32/Kernel/src/ipc.c:1924-2278 | under every interleaving |
| MessageQueues.SlotsAddUp | RT-Thread-STM32/Kernel/src/ipc.c:1924-2278 | free, queued and in-flight slots number max_msgs |
| MessageQueues.StepIsDeque | RT-Thread-STM32/Kernel/src/ipc.c:1924-2278 | the queue is a deque of messages: sends link at the back, urgent ones at the front, receives unlink at the front, and nothing else changes it |
| MessageQueues.RunIsFifo | RT-Thread-STM32/Kernel/src/ipc.c:1924-2220 | over every run without reset, whatever urgent messages overtake them, the ordinary messages that were there and were sent are, in this order, those received and those left |
| MessageQueues.RecvTakesFront | RT-Thread-STM32/Kernel/src/ipc.c:2192-2205 | a receiver gets the front of the deque |
| MessageQueues.DeliversWhatItTook | RT-Thread-STM32/Kernel/src/ipc.c:2204-2220 | and returns that message whatever happens in between |
| MessageQueues.OthersKeepHeld | RT-Thread-STM32/Kernel/src/ipc.c:1924-2278 | what a thread has in flight is not touched by others, nor by a reset |
| MessageQueues.FullMeansInUse | RT-Thread-STM32/Kernel/src/ipc.c:1942-1951 | a send finds the queue full if and only if every slot is queued or in flight |
| MessageQueueCalls.SendTakeDoes | RT-Thread-STM32/Kernel/src/ipc.c:1924-1956 | the first section of a send takes the first free slot into flight, or finds none and changes nothing |
| MessageQueueCalls.SendCopyDoes | RT-Thread-STM32/Kernel/src/ipc.c:1958-1961 | the copying fills the buffer of that slot and no other |
| MessageQueueCalls.SendLinkDoes | RT-Thread-STM32/Kernel/src/ipc.c:1963-2081 | the last section puts the slot at the back, or for an urgent message at the front, and resumes the first receiver, if there is one |
| MessageQueueCalls.RecvDoes | RT-Thread-STM32/Kernel/src/ipc.c:2095-2205 | a receive takes the first queued slot and its message into flight; with none, a receiver ready to wait is on the suspend list, at its place, and one that is not changes nothing |
| MessageQueueCalls.RecvDoneDoes | RT-Thread-STM32/Kernel/src/ipc.c:2207-2220 | the slot is then the first free one |
| MessageQueueCalls.ExpireDoes | RT-Thread-STM32/Kernel/src/ipc.c:2095-2190 | a timeout takes its receiver off the list, and changes nothing else |
| MessageQueueCalls.ResetDoes | RT-Thread-STM32/Kernel/src/ipc.c:2234-2278 | a reset resumes every receiver and moves every queued slot to the front of the free list, the last of the queue foremost; what is in flight stays so |
| MessageQueueCalls.WaitsItsTurn | RT-Thread-STM32/Kernel/src/ipc.c:1924-2220 | under RT_IPC_FLAG_FIFO, over any run, a receiver that waits throughout moves up by exactly one for every message linked and every timeout ahead of it, so it waits for no more messages than it had receivers ahead |
| MessageQueue.MessageQueue.constructor | RT-Thread-STM32/Kernel/src/ipc.c:1738-1785 | rt_mq_init |
| MessageQueue.MessageQueue.TakeSlot | RT-Thread-STM32/Kernel/src/ipc.c:1939-1956 | the slot leaves the free chain and is in flight; a full queue is left alone |
| MessageQueue.MessageQueue.LinkBack | RT-Thread-STM32/Kernel/src/ipc.c:1963-1997 | the slot ends the queued chain, head and tail included, and the first receiver is resumed |
| MessageQueue.MessageQueue.LinkFront | RT-Thread-STM32/Kernel/src/ipc.c:2049-2079 | the slot heads the queued chain, and is the tail if it was empty; the first receiver is resumed |
| MessageQueue.MessageQueue.Unlink | RT-Thread-STM32/Kernel/src/ipc.c:2192-2205 | the head leaves the queued chain, and the tail is cleared with the last message |
| MessageQueue.MessageQueue.PutSlot | RT-Thread-STM32/Kernel/src/ipc.c:2207-2216 | the message is copied out of its slot and the slot heads the free chain |
| MessageQueue.MessageQueue.Reset | RT-Thread-STM32/Kernel/src/ipc.c:2234-2278 | every receiver is resumed with an error and every queued slot joins the free chain, in the order of the loop |
| Mailboxes.StepKeeps | RT-Thread-STM32/Kernel/src/ipc.c:1404-1715 | every section keeps in_offset = (out_offset + entry) mod size and loses no wake-up, on either list |
| Mailboxes.After | RT-Thread-STM32/Kernel/src/ipc.c:1404-1715 | over every interleaving of senders, receivers, timeouts and resets |
| Mailboxes.StepIsQueue | RT-Thread-STM32/Kernel/src/ipc.c:1404-1715 | the ring is a bounded queue: send appends if there is room, receive takes the first, reset empties, nothing else changes it |
| Mailboxes.RunIsFifo | RT-Thread-STM32/Kernel/src/ipc.c:1404-1674 | what was there and what was sent is, in order, what was received and what is left |
| MailboxCalls.SendDoes | RT-Thread-STM32/Kernel/src/ipc.c:1404-1522 | with room the mail goes to the back and the first receiver, if there is one, is resumed; without, a sender ready to wait is on the suspend list, at its place, and one that is not changes nothing |
| MailboxCalls.RecvDoes | RT-Thread-STM32/Kernel/src/ipc.c:1551-1674 | the same for receivers: the first mail comes out and the first sender is resumed, or the receiver waits at its place |
| MailboxCalls.OthersDo | RT-Thread-STM32/Kernel/src/ipc.c:1404-1715 | a timeout takes its thread off its list and changes nothing else; a reset leaves no mail and nobody on either list |
| MailboxCalls.WaitsItsTurn | RT-Thread-STM32/Kernel/src/ipc.c:1404-1674 | under RT_IPC_FLAG_FIFO, over any run, a receiver (a sender) that waits throughout moves up by exactly one for every mail put in (taken out) and every timeout ahead of it |
| Mailbox.Mailbox.constructor | RT-Thread-STM32/Kernel/src/ipc.c:1253-1281 | rt_mb_init |
| Mailbox.Mailbox.Send | RT-Thread-STM32/Kernel/src/ipc.c:1404-1522 | with room the mail is stored at in_offset, which wraps, and the first receiver is resumed; without, the thread is suspended at its place or refused |
| Mailbox.Mailbox.Recv | RT-Thread-STM32/Kernel/src/ipc.c:1551-1674 | with mail the one at out_offset is taken, the offset wraps, and the first sender is resumed; without, the thread is suspended at its place or refused |
| Mailbox.Mailbox.Reset | RT-Thread-STM32/Kernel/src/ipc.c:1686-1715 | both suspend lists are emptied with errors and the offsets start anew |
| Mailbox.Mailbox.Expire | RT-Thread-STM32/Kernel/src/ipc.c:1404-1674 | a timeout takes a suspended thread off its list |
| EventFlags.SendIsRecv | RT-Thread-STM32/Kernel/src/ipc.c:1030-1065 | a thread resumed by rt_event_send gets and leaves what an immediate rt_event_recv would |
| EventFlags.WalkIsInTurn | RT-Thread-STM32/Kernel/src/ipc.c:1020-1067 | one walk has the effect of all suspended threads receiving in turn |
| EventFlags.WalkLeavesNoneMet | RT-Thread-STM32/Kernel/src/ipc.c:1020-1067 | after it nobody is suspended whose condition holds, although earlier threads clear flags on the way |
| EventFlags.WalkKeepsThreads | RT-Thread-STM32/Kernel/src/ipc.c:1020-1067 | every suspended thread is afterwards still suspended or resumed, once |
| EventFlags.NextKeeps | RT-Thread-STM32/Kernel/src/ipc.c:998-1236 | send, receive, timeout and reset each keep this |
| EventFlags.After | RT-Thread-STM32/Kernel/src/ipc.c:998-1236 | in every reachable state no suspended thread has its condition met |
| EventBits.MetIff | RT-Thread-STM32/Kernel/src/ipc.c:1030-1045 | the condition bit by bit: with AND it holds if and only if every flag asked for is set, with OR if and only if at least one is |
| EventBits.RecvDoes | RT-Thread-STM32/Kernel/src/ipc.c:1093-1199 | a receive is granted if and only if its condition holds, and what is left are exactly the flags that were set and, under CLEAR, not asked for; otherwise a thread ready to wait is on the list, at its place |
| EventBits.WalkGrants | RT-Thread-STM32/Kernel/src/ipc.c:1020-1067 | the threads one walk resumes, in turn: the condition of each holds of the flags set that nobody before it has cleared, it gets exactly those of them it asks for, what is left in the end are the flags nobody cleared, and the condition of nobody still on the list holds of them |
| EventBits.SendDoes | RT-Thread-STM32/Kernel/src/ipc.c:998-1077 | a send sets exactly its flags besides those set and then walks the list so; a send of no flags changes nothing |
| EventBits.OthersDo | RT-Thread-STM32/Kernel/src/ipc.c:1093-1236 | a timeout takes its thread off the list and leaves the flags; a reset clears every flag and the list |
| EventBits.NobodyForgotten | RT-Thread-STM32/Kernel/src/ipc.c:998-1236 | in every reachable state nobody is suspended with OR one of whose flags is set, or with AND all of whose flags are |
| EventObject.EventObject.Send | RT-Thread-STM32/Kernel/src/ipc.c:998-1077 | the loop over the suspend list: the threads resumed are resumed in turn, each when with OR a flag, with AND every flag it asks for was still set, each with exactly those it asked for; what is left are the flags nobody cleared, and nobody is left on the list whose condition holds |
| EventObject.EventObject.Recv | RT-Thread-STM32/Kernel/src/ipc.c:1093-1199 | with OR granted if and only if some flag asked for is set, with AND if and only if all are, and what is left has exactly the flags set before and not cleared; otherwise the thread is suspended at its place or refused |
| EventObject.EventObject.Reset | RT-Thread-STM32/Kernel/src/ipc.c:1211-1236 | no flags, and everyone resumed with an error |
| Mutexes.InsertSorted | RT-Thread-STM32/Kernel/src/ipc.c:92-135 | a waiter goes behind all at least as urgent and before all less urgent |
| Mutexes.StepSound | RT-Thread-STM32/Kernel/src/ipc.c:642-859 | for either flag: value is 1 iff nobody owns it iff hold is 0, and there are waiters only while it is owned |
| Mutexes.StepKeeps | RT-Thread-STM32/Kernel/src/ipc.c:642-859 | with waiters by priority: the list stays sorted and the owner is at least as urgent as every waiter |
| Mutexes.After | RT-Thread-STM32/Kernel/src/ipc.c:642-859 | in every run |
| Mutexes.OriginalIsBefore | RT-Thread-STM32/Kernel/src/ipc.c:642-849 | whoever becomes the owner, by taking or by hand-off, has the priority it had before saved |
| Mutexes.PriorityComesBack | RT-Thread-STM32/Kernel/src/ipc.c:642-859 | a thread that came to own the mutex in any way has, after its last release, the priority it had before, however it was lifted in between |
| Mutexes.HandedPriority | RT-Thread-STM32/Kernel/src/ipc.c:806-849 | a last release with waiters hands the mutex to the first of them and saves the priority it waited with |
| Mutexes.EqualsInTurn | RT-Thread-STM32/Kernel/src/ipc.c:642-859 | over every run in which both go on waiting, a thread that begins to wait behind another of its priority is not handed the mutex before it |
| Mutexes.ServedInOrder | RT-Thread-STM32/Kernel/src/ipc.c:642-859 | and over every run two waiters keep their order |
| Mutexes.HandOffKeepsIff | RT-Thread-STM32/Kernel/src/ipc.c:806-849 | with waiters in arrival order a hand-off keeps the owner at least as urgent as the waiters if and only if the first waiter was |
| Mutexes.HandOffCanInvert | RT-Thread-STM32/Kernel/src/ipc.c:806-849 | a state in which it does not |
| Mutexes.TwoComeToWait | RT-Thread-STM32/Kernel/src/ipc.c:642-761 | three takes of a free mutex reach it |
| MutexCalls.StepDoes | RT-Thread-STM32/Kernel/src/ipc.c:642-859 | for either flag: who owns the mutex after any call, where a thread that blocks stands among the waiters, who leaves them, and the priority of every thread: the owner lifted to that of a more urgent waiter, and back with the last release |
| MutexCalls.HoldIsTakesLessReleases | RT-Thread-STM32/Kernel/src/ipc.c:642-859 | from the step that made a thread the owner, over any run in which it stays the owner, hold is 1 and its further takes less its releases |
| MutexCalls.GivenUpIffBalanced | RT-Thread-STM32/Kernel/src/ipc.c:642-859 | and a release gives the mutex up if and only if its releases then equal its takes |
| MutexObject.MutexObject.Suspend | RT-Thread-STM32/Kernel/src/ipc.c:92-135 | the loop finds the place before the first less urgent waiter, or the end of the list |
| MutexObject.MutexObject.Take | RT-Thread-STM32/Kernel/src/ipc.c:642-761 | taken again by its owner and counted, taken while free, or waited for with the owner lifted; counted over runs by MutexCalls.HoldIsTakesLessReleases |
| MutexObject.MutexObject.Release | RT-Thread-STM32/Kernel/src/ipc.c:772-859 | one hold less; with the last the priority is restored and the mutex handed to the first waiter, or left free |
| FinshExpr.DivisionLaw | RT-Thread-STM32/components/finsh/finsh_ops.c:99-140 | division truncates toward zero and the remainder has the sign of the dividend, as in C |
| FinshMeaning.ApplyComputes | RT-Thread-STM32/components/finsh/finsh_ops.c:55-296 | every operator has a result exactly where C defines one, and it is the right number: sums, differences and products of signed numbers modulo 2^32; the quotient q and the remainder r with x = q * y + r, |r| < |y| and r of the sign of x; and, or, exclusive or bit by bit; left shifts by powers of two modulo 2^32, right shifts rounding down |
| FinshMeaning.ApplyIff | RT-Thread-STM32/components/finsh/finsh_ops.c:55-296 | and no other number is |
| FinshMeaning.EvalIff | RT-Thread-STM32/components/finsh/finsh_compiler.c:43-757 | evaluating an expression finds a value and a memory if and only if the expression gives them, as a relation on arithmetic and memory |
| FinshSays.MeaningIff | RT-Thread-STM32/components/finsh/finsh_parser.c:438-857 | a parse tree says a value and a memory, in arithmetic alone, exactly if the expression it stands for gives them: a minus negates modulo 2^32, ~ turns every bit, * reads where its operand points, & is an address, ++ and -- step a variable by one and give the new value before it and the old one behind it, = stores what is on its right |
| FinshCode.Get32OfSet32 | RT-Thread-STM32/components/finsh/finsh.h:38-55 | reading back the 4 bytes of an operand gives the operand |
| FinshCode.DecodeBytes | RT-Thread-STM32/components/finsh/finsh_ops.c:571-622 | decoding an instruction from its bytes inverts encoding, whatever follows |
| FinshCode.CodeIsEval | RT-Thread-STM32/components/finsh/finsh_compiler.c:43-757 | the code of an expression pushes exactly its value and changes memory exactly as evaluating it does (or faults iff it has none), never below its starting height nor above it by more than its nodes + 3 |
| FinshCode.AddressIsLocate | RT-Thread-STM32/components/finsh/finsh_compiler.c:43-757 | in an address context it pushes the address |
| FinshNodes.TypedValue | RT-Thread-STM32/components/finsh/finsh_compiler.c:759-901 | the type check marks a tree for its value, with addresses where the operators need them |
| FinshNodes.TypedAll | RT-Thread-STM32/components/finsh/finsh_compiler.c:759-901 | and every statement of a list |
| FinshNodes.EmittedIsCode | RT-Thread-STM32/components/finsh/finsh_compiler.c:43-757 | on a marked tree the compiler emits the code of the expression the tree stands for |
| FinshCompiler.Compiler.TypeCheck | RT-Thread-STM32/components/finsh/finsh_compiler.c:759-901 | the recursion over child and sibling leaves exactly the marks of the tree, elsewhere in the table nothing changes |
| FinshCompiler.Compiler.CompileNode | RT-Thread-STM32/components/finsh/finsh_compiler.c:60-747 | the switch over the node type, writing bytes at the pc |
| FinshCompiler.Compiler.Compile | RT-Thread-STM32/components/finsh/finsh_compiler.c:43-757 | child, node, sibling: the bytes at the pc are those of the code of the chain, and nothing before the pc changes |
| FinshCompiler.Compiler.CompileStatement | RT-Thread-STM32/components/finsh/finsh_compiler.c:918-934 | cuts a statement off its list and compiles it |
| FinshCompiler.Compiler.Run | RT-Thread-STM32/components/finsh/finsh_compiler.c:903-937 | the text segment is the statements, each but the last followed by a pop, padded with zeros |
| FinshVm.Vm.Dispatch | RT-Thread-STM32/components/finsh/finsh_ops.c:571-622 | each opcode of the modelled part does what its instruction does; the binary and bitwise ones compute the number C defines, or fault where it defines none |
| FinshVm.Vm.Run | RT-Thread-STM32/components/finsh/finsh_vm.c:47-72 | the fetch loop to the end of the text segment |
| FinshVm.RunIsExec | RT-Thread-STM32/components/finsh/finsh_vm.c:47-72 | running bytes is running the instructions they stand for |
| FinshVm.ProgramIsEval | RT-Thread-STM32/components/finsh/finsh_compiler.c:903-937 | a statement list leaves the value of the last statement alone on the stack |
| FinshVm.TextIsEval | RT-Thread-STM32/components/finsh/finsh_compiler.c:903-937 | so does running its padded text segment |
| FinshVm.TableBoundsStack | RT-Thread-STM32/components/finsh/finsh.h:26-33 | what fits the 16-node table fits the 64-entry stack |
| FinshVm.RunLine | RT-Thread-STM32/components/finsh/finsh_compiler.c:903-937 | compiling and running a line, end to end: it ends well iff its statements give values, as arithmetic and memory, then stack[0] is what the last one gives and memory is as it leaves it |
| FinshSteps.StepOfVariable | RT-Thread-STM32/components/finsh/finsh_compiler.c:373-712 | ++ and -- on a variable compile to the right code |
| FinshSteps.StepOfPointer | RT-Thread-STM32/components/finsh/finsh_compiler.c:373-712 | on `*p` no code is emitted for the operator |
| FinshSteps.StepRightIffVariable | RT-Thread-STM32/components/finsh/finsh_compiler.c:373-712 | so ++ and -- are compiled right if and only if the operand is a variable |
| FinshStepLines.PlantedStep | RT-Thread-STM32/components/finsh/finsh_parser.c:702-735 | the nodes the parser makes for ++ or -- before or behind a place are a step tree over that place |
| FinshStepLines.StepLineRightIff | RT-Thread-STM32/components/finsh/shell.c:199-239 | so of an accepted line that steps a place the code does what it should if and only if the place is a name |
| FinshStepLines.PointerAccepted | RT-Thread-STM32/components/finsh/finsh_parser.c:702-735 | the tokens of ++*p; are accepted |
| FinshStepLines.PointerNotStepped | RT-Thread-STM32/components/finsh/finsh_compiler.c:373-712 | their code leaves the pointer on the stack and what it points to as it was |
| FinshLines.ParseUndoesPrintIff | RT-Thread-STM32/components/finsh/finsh_parser.c:416-430 | a line of statements, printed, is parsed to its expressions if and only if no empty statement comes before the first and between each and the next their number is even |
| FinshLines.EmptyStatementTakesMinus | RT-Thread-STM32/components/finsh/finsh_parser.c:916-998 | the line 1;;-2; is parsed as 1; 2; |
| FinshLines.ParseUndoesPrint | RT-Thread-STM32/components/finsh/finsh_parser.c:438-857 | so every list of canonical trees, printed, parses back to itself, all tokens consumed |
| FinshLines.PrintIsInjective | RT-Thread-STM32/components/finsh/finsh_parser.c:438-857 | so no two print alike |
| FinshGrammar.AssignCanonical | RT-Thread-STM32/components/finsh/finsh_parser.c:438-857 | and the parser makes canonical trees only: left-associated operators, right-associated assignment |
| FinshPrecedence.TighterFirst | RT-Thread-STM32/components/finsh/finsh_parser.c:467-668 | of two binary operators in a row the right one takes the operand between them if and only if it binds tighter: * / % before + - before << >> before & before ^ before | |
| FinshPrecedence.AssignLoosest | RT-Thread-STM32/components/finsh/finsh_parser.c:442-461 | = binds less than any of them and groups to the right |
| FinshPrecedence.PrefixNext | RT-Thread-STM32/components/finsh/finsh_parser.c:675-857 | a prefix operator takes the operand with its ++ or -- behind it, and only that operand |
| FinshPrecedence.PlusIsNothing | RT-Thread-STM32/components/finsh/finsh_parser.c:675-750 | a plus before an expression is as if it were not there |
| FinshTrees.PlantedIff | RT-Thread-STM32/components/finsh/finsh_node.c:43-123 | a tree is given nodes if and only if its names are known and the table has as many free entries as the tree has nodes |
| FinshTrees.PlantLinked | RT-Thread-STM32/components/finsh/finsh_parser.c:887-911 | the nodes make_sys_node links for a tree are, in the table, the first-child next-sibling chain of the tree, whatever is linked behind it |
| FinshTrees.PlantEncodes | RT-Thread-STM32/components/finsh/finsh_parser.c:442-857 | and that chain is the parse tree of the expression the tree means |
| FinshTrees.LineIsReady | RT-Thread-STM32/components/finsh/finsh_parser.c:916-998 | the statements of a line are linked as siblings, no entry is used twice and none is marked: just what the compiler asks for |
| FinshParser.FinshParser.Allocate | RT-Thread-STM32/components/finsh/finsh_node.c:43-61 | the loop finds the first entry not allocated, which is the next one, or the table is full |
| FinshParser.FinshParser.MakeSysNode | RT-Thread-STM32/components/finsh/finsh_parser.c:887-911 | the node over one tree, or over two as siblings, or an error and nothing changed |
| FinshParser.FinshParser.NextToken | RT-Thread-STM32/components/finsh/finsh_token.c:80-86 | the token, or the one replayed |
| FinshParser.FinshParser.ProcAssign | RT-Thread-STM32/components/finsh/finsh_parser.c:442-461 | reads the tokens of the tree the grammar reads, stops at the same token, and leaves in the table the nodes of that tree; fails exactly when there is none or its nodes are refused |
| FinshParser.FinshParser.ProcLevel | RT-Thread-STM32/components/finsh/finsh_parser.c:467-668 | so do the six procedures of the binary levels, with their loops, on tokens and nodes |
| FinshParser.FinshParser.ProcStatement | RT-Thread-STM32/components/finsh/finsh_parser.c:416-430 | an expression and its semicolon, or a semicolon alone |
| FinshParser.FinshParser.ProcUnary | RT-Thread-STM32/components/finsh/finsh_parser.c:675-750 | so does the procedure for prefix operators, with the zero a minus is taken from |
| FinshParser.FinshParser.ProcPostfix | RT-Thread-STM32/components/finsh/finsh_parser.c:758-857 | so does the procedure for postfix operators and primaries |
| FinshParser.FinshParser.Run | RT-Thread-STM32/components/finsh/finsh_parser.c:916-998 | the loop over the statements, with the token an empty one takes along: the table holds the nodes of the line, or an error is noted exactly when the line is not in the grammar, a name is unknown or the table is too small |
| FinshShell.RunTokens | RT-Thread-STM32/components/finsh/shell.c:199-239 | finsh_run_line from tokens to value, of a line whose sum is at most 128: it runs exactly when the parser notes no error, and then ends well iff its statements say a value, and the value on the stack and the memory are those they say, in arithmetic, one after the other |
| FinshShell.ShortIsCompilable | RT-Thread-STM32/components/finsh/shell.c:199-239 | by the nodes alone: a line with a meaning, of at most 11 nodes, is accepted and fits |
| FinshCosts.ProgramCost | RT-Thread-STM32/components/finsh/finsh_compiler.c:43-937 | the bytes of the code of a line are a sum over its expressions: 5 for a name or a constant, 1 for an operator or a value-taking *, 2 for an assignment, 18 for a step before and 23 for one behind a variable, 1 between statements |
| FinshCosts.CostOfLine | RT-Thread-STM32/components/finsh/finsh_compiler.c:43-937 | the same sum taken from the parse trees |
| FinshShell.FitsIff | RT-Thread-STM32/components/finsh/finsh_compiler.c:37-41 | an accepted line with a meaning fits the 128-byte text segment if and only if that sum is at most 128 |
| FinshCosts.ElevenNodesFit | RT-Thread-STM32/components/finsh/finsh.h:26-34 | up to 11 nodes always do |
| FinshShell.TwelveNodesNeedNot | RT-Thread-STM32/components/finsh/finsh.h:26-34 | the tokens of x++; six times over are accepted, have 12 nodes, fewer than the table holds, and a sum of 143 |

## Left out

- SmallHeap.Allocator.constructor: the range must hold the two headers and not begin in the last three bytes of memory; in the first case the source reports an error, in the second its rounding wraps. Calls on a heap without room for one smallest payload are covered by HeapImage.ScanEndsIff alone. Memory is cells, not bytes: a field of a header is one cell, so how its bytes are laid out is not modelled.
- MemPoolRuns.ReallocKeeps: excludes the calls of MemPoolRuns.ReallocKeepsIff that break the pool, and so do MemPoolRuns.ReallocGives, MemPoolRuns.ReallocKeepsOthers and the runs of MemPoolRuns.AfterRun and MemPoolRuns.RunKeepsLive.
- MemPoolCalls.ReallocFits: excludes them too.
- MemPoolRuns.AllocGives: addresses are relative to start_addr, which rt_memheap_init does not align, so the alignment is relative to it too.
- MemHeap.MemHeap.Realloc: excludes the same calls, after which a header lies in another and the fields are no longer apart. Payload bytes are kept apart from headers, which LiveApart says they are.
- SlabRuns.ReallocKeeps: says which blocks there are; SlabAllocator.SlabAllocator.Realloc says what they hold.
- SlabAllocator.SlabAllocator.Realloc: what callers store is kept apart from zone headers and from the links of free chunks, which lie in chunks nobody has.
- Slabs.ZoneCounts: the statistics used_mem and max_mem of slab.c are not part of this model.
- SlabRuns.MallocFailsIff: the heap semaphore is not modelled, so the failing path that releases it twice is not visible.
- SlabAllocator.SlabAllocator.constructor: the range must hold a whole page and not begin in the last page of memory; in the first case the source reports an error, in the second its rounding wraps.
- TimerFiring.FiresExactlyOnTime: timeout functions that restart this very timer, and rt_tick_set, are excluded; both change when it is due. The same holds of TimerPeriods.OneShotFiresOnce and TimerPeriods.PeriodicFiresEvery, which also leave its kind and period alone.
- TimerSystem.TimerSystem.TickIncrease: the time slice of the running thread and the yield at its end are not modelled here; a yield is an event of the scheduler.
- TimerRuns.CheckEnds: periodic timers have at least one tick, and a timeout function starts no timer of zero ticks; otherwise the claim is false, and without calls by timeout functions TimerHangs.EndsIff says exactly when.
- Schedulers.AfterRun: the idle thread stays ready, and the switch of context is an assignment to the current thread; time slices appear as yields.
- Scheduler.Scheduler.Resume: a suspended thread is taken to be on no list; in the source it may be on the suspend list of an IPC object, from which rt_thread_resume and rt_thread_timeout take it. The IPC parts model those lists as sequences.
- Schedulers.Step: threads are at most 32 priorities; the 256-priority variant with two levels of groups is not modelled.
- MessageQueues.After: message contents are values and buffer sizes are not modelled; timeouts are events, so the remaining time handed to a retry is not modelled either.
- Mailboxes.After: 16-bit counters are taken not to overflow, as the size is at most 65535; the remaining time of a retry is not modelled.
- MailboxCalls.WaitsItsTurn: waiting threads in arrival order only, and likewise MessageQueueCalls.WaitsItsTurn; by priority the place of a thread depends on who else comes, and a reset resumes everyone.
- Mutexes.PriorityComesBack: one mutex at a time; with several nested mutexes, or priorities changed from outside while a thread owns or waits, it does not hold.
- Mutexes.StepSound: the hold counter, 8 bits wide, is taken not to overflow.
- FinshCompiler.Compiler.Run: the code is taken to fit the 128-byte text segment, which the source does not check; the same holds of FinshVm.RunLine and FinshShell.RunTokens. FinshShell.FitsIff says exactly which lines do.
- FinshShell.RunTokens: an accepted line is taken to have a meaning: = and & before places, ++ and -- at variables only. For ++ and -- at other places see FinshStepLines.StepLineRightIff; 1 = 2 and &1 are accepted by the source and not modelled.
- FinshVm.Vm.Dispatch: the opcodes of long operands only.
- FinshCode.CodeIsEval: int and long variables and constants only; byte and word operations, system calls and variables, casts, and calls are not modelled. A fault (division by zero, a bad address, a shift by 32 or more) is a run without result.
- FinshParser.FinshParser.Run: parenthesised expressions (always read as casts), declarations, calls, and string, char and null literals are not modelled, in FinshParser.FinshParser.ProcUnary and FinshParser.FinshParser.ProcPostfix either; lexing is a sequence of tokens, names are looked up in one table of variables, and after an error the parser stops instead of reading on.
- finsh_heap.c, prio_queue.c, mempool.c, the semaphore, soft timers: further lists and counters of the same kinds.
- Objects, names, devices, modules, drivers and line editing: plumbing.
