# SanjhaOS kernel: a verified model

This project models four parts of the SanjhaOS kernel in Dafny and proves what they are for.

* **The kernel heap** (dlmalloc 2.8.6). Memory is a store of 64-bit words, as the C code sees it: head words with the
  two in-use bits, feet, `fd`/`bk` rings, tree links, bin arrays and bin maps. `Dlmalloc.Heap` performs the same
  stores in the same branches. Ghost fields name the chunks, and the invariant `HeapState.Inv` says what the debug
  checks of the source say: the chunks tile the segment up to `top`, tags and feet agree with their neighbours, no two
  free chunks touch, every free chunk but `dv` is in exactly the bin of its size, and a map bit is set just when its
  bin is not empty. Every operation keeps the invariant, says exactly when it succeeds, and leaves the payload of all
  other blocks alone. `malloc` follows the policy its comment promises. Over every run of a client the heap refines a
  table of independent blocks.
* **Virtual memory.** The four-level page table lives in the same kind of word store. Mapping a page changes one entry
  of a flat map from pages to frames, even when tables are created on the way; heap growth, fork and teardown are
  built on that.
* **Tasks.** Fork, exit and the reaper are a state machine whose steps may interleave in any way. A step covers the
  code between two accesses to shared state, except that three stretches are one step each: the last part of fork
  (file table, parent link, and the child becoming ready), the helper's walk over the children, and its unlinking of
  the task. The invariant holds over all interleavings. The list and reference-count code of fork, exit and the reaper
  is proved against the steps, and the scheduler against a cyclic order.
* **Formatting and layout.** Integer, string and character conversions of `printf` against section 7.21.6.1 of C11,
  truncating `vsnprintf`, the initial process stack of section 3.4.1 of the System V AMD64 ABI, and calendar time
  against section 4.16 of POSIX.1-2017.

Files follow this order. `Words`, `BinMap`, `BinIndex` and `Chunk` hold the arithmetic. `Trie`, `TrieEdit`,
`TrieLinks`, `TrieSurgery`, `Rings`, `TreeBins`, `TreeUnlink`, `TreeSearch`, `SmallBins`, `BinOrder` and `BinLines`
hold the bins. `Tags`, `HeapState`, `HeapMoves`, `TagEdits`, `FreeSteps`, `MallocSteps`, `ReallocSteps` and `Policy`
hold the invariant and what single stores do to it. `Dlmalloc`, `Align`, `Allocator`, `Client` and `Walk` hold the
operations. Then come `PageTable`, `Paging`, `HeapGrowth`, `Fork`, `Teardown` and `Generations`; `TaskProtocol`,
`TaskSafety`, `TaskEffects`, `Tasks` and `Scheduler`; and `IntegerText`, `Printf`, `FormatSpec`, `TextReading`,
`UserStack` and `Calendar`.

Some words used below. *Live* is the map from the chunks in use to their sizes. A state *keeps* another but for a set
of chunks if every other chunk in use is still in use with the same size and the same payload words. *Served* means: a
chunk that was not in use now is, it holds the request with less than a minimum chunk to spare, it is the only change
to Live, and everything is kept. *Dropped* means: one chunk has left Live and everything else is kept. A *line* is the
binned chunks of one size in the order in which malloc uses them.

Some properties one might expect do not hold of the code, and the exact condition is proved instead, with a witness:

* `compute_tree_index` truncates to 32 bits (`TreeIndexExact`, `TreeIndexTruncates`);
* the loop that rounds an alignment up does not end beyond 2^63 (`RoundingEnds`, `RoundingStuck`);
* the teardown of a page directory releases a frame once for every page that maps it (`FreedOnceIff`, `FreedTwice`),
  and after a fork the two teardowns release every shared frame twice (`BothFreedIff`, `FreedByBoth`). The one mapping
  that sets `PF_SHARED` (src/kernel/syscalls/linux/syscalls_mem.c:56-58) is commented out behind a panic, so the input
  is real at the function and no live path reaches it today;
* a page that parent and child share is shared with no grandchild, since the copy of its entry drops `PF_SHARED`
  (`ChildUnshared`, `Grandchild`);
* a user page that is read-only becomes writable in a fork's copy (`CopiesUsable`, `BecomesWritable`);
* the scan for the least address of an executable passes over a segment at 0 (`ScannedIff`, `ZeroPassedOver`);
* the initial `rsp` of a process is a multiple of 16, as the ABI asks, just if the number of arguments and environment
  strings is odd (`AlignedIff`, `Misaligned`);
* the 32-character buffer of integer `printf` cuts long fields (`TextIsStandardIff`, `LosesDigit`), a negative
  precision given by `*` counts as zero where C11 takes it as omitted (`OmittedIff`, `LosesZero`; for strings
  `StringIff`, `LosesString`), widths are taken modulo 2^32 (`ConversionIff`, `CharacterIff`), and `ll` conversions
  print nothing (`ConversionIff`, `LongLongSilent`).

## Model

| member | source | states |
|---|---|---|
| `BinIndex.TreeIndexInBin` | src/kernel/memory/malloc.c:2845-2857 | for all sizes from 256 up to 2^40, compute_tree_index names the bin whose range [minsize(i), minsize(i+1)) holds the size |
| `BinIndex.TreeIndexExact` | src/kernel/memory/malloc.c:2845-2857 | for every size from 256 up, the index is right if and only if the size is below 2^40 or the truncated S >> 8 is at least 0xC000 |
| `BinIndex.TreeIndexTruncates` | src/kernel/memory/malloc.c:2848-2848 | the size 2^40 is filed in a bin whose range does not hold it |
| `BinIndex.BinsOrdered` | src/kernel/memory/malloc.c:2917-2920 | every size of a lower bin is smaller than every size of a higher bin |
| `BinIndex.SteerStart` | src/kernel/memory/malloc.c:2912-2915 | the left shift brings the first undecided size bit of the bin to the sign position, with all decided bits shifted out |
| `BinIndex.SteerStep` | src/kernel/memory/malloc.c:3672-3677 | the sign bit says in which half of the range the size lies, and doubling steers within that half |
| `BinMap.LeftBitsOf` | src/kernel/memory/malloc.c:2940-2941 | left_bits(idx2bit(i)) and m has exactly the digits of m above i |
| `BinMap.LeastIndex` | src/kernel/memory/malloc.c:2937-2954 | least_bit followed by the count of trailing zeros gives the lowest index set in the map |
| `BinMap.MarkedIff` | src/kernel/memory/malloc.c:2925-2935 | the test of a map with idx2bit(i) says whether digit i is set |
| `SmallBins.InsertSmall` | src/kernel/memory/malloc.c:3577-3594 | insert_small_chunk adds exactly the given chunk to the bin of its size, keeps every bin a proper ring and the map exact, and writes only link words; the chunk is the first of its bin |
| `SmallBins.UnlinkSmall` | src/kernel/memory/malloc.c:3596-3620 | unlink_small_chunk removes exactly the given chunk; header links of an unmarked bin may be stale; the others keep their order |
| `SmallBins.UnlinkFirstSmall` | src/kernel/memory/malloc.c:3622-3638 | unlink_first_small_chunk removes the first chunk of the bin, and that chunk is of the bin's size |
| `TrieEdit.InsertOk` | src/kernel/memory/malloc.c:3656-3705 | on trees as values: insertion keeps the bitwise-trie order, one node per size and no chunk twice, and adds exactly the given chunk |
| `TrieEdit.RemoveOk` | src/kernel/memory/malloc.c:3707-3722 | on trees as values: removal, with promotion of a ring member or of the last leaf, keeps the trie order and removes exactly the given chunk |
| `BinOrder.InsertQueue` | src/kernel/memory/malloc.c:2365-2373 | on trees as values: a chunk joins the end of the queue of its size, and no other queue changes |
| `BinOrder.RemoveQueue` | src/kernel/memory/malloc.c:2365-2373 | a chunk leaves the queue of its size, in which the others keep their order, and no other queue changes, whichever chunk or leaf takes its place |
| `TreeBins.Descend` | src/kernel/memory/malloc.c:3672-3702 | the loop of insert_large_chunk ends at the node of the size, or at the node that lacks the child for it |
| `TreeBins.InsertLarge` | src/kernel/memory/malloc.c:3656-3705 | insert_large_chunk keeps all tree bins well linked tries with an exact map, adds exactly the given chunk, and writes only link words |
| `TreeUnlink.LastBelow` | src/kernel/memory/malloc.c:3738-3747 | the search for the replacement finds the rightmost-descended leaf and the word that points to it, or none just for a leaf |
| `TreeUnlink.UnlinkLarge` | src/kernel/memory/malloc.c:3724-3793 | unlink_large_chunk keeps all tree bins well linked tries with an exact map, removes exactly the given chunk, and writes only link words |
| `TreeSearch.SearchBin` | src/kernel/memory/malloc.c:4447-4470 | the first loop of tmalloc_large loses no candidate: every fitting chunk is no better than the one kept, or in the subtree returned, or in a higher bin |
| `TreeSearch.Leftmost` | src/kernel/memory/malloc.c:4481-4488 | walking the leftmost path keeps the best fit of the whole subtree |
| `TreeSearch.BestFit` | src/kernel/memory/malloc.c:4443-4488 | the search of tmalloc_large finds a smallest chunk of all tree bins that is big enough, and none only if none is; it is the one of its size that stands in the tree |
| `TreeSearch.SmallestTree` | src/kernel/memory/malloc.c:4514-4528 | the search of tmalloc_small finds a smallest chunk of all tree bins; it is the one of its size that stands in the tree |
| `BinLines.StandingFirst` | src/kernel/memory/malloc.c:2366-2369 | the chunk of a size that stands in the tree is the oldest of that size |
| `MallocSteps.RequestSize` | src/kernel/memory/malloc.c:2235-2244 | request2size is the least multiple of 16 that is at least a minimum chunk and leaves room for the request and the head word |
| `HeapMoves.MoveOne` | src/kernel/memory/malloc.c:2082-2150 | turning the chunks of a stretch into one chunk keeps the whole invariant, given only what was stored in its head and at its end |
| `HeapMoves.MoveTwo` | src/kernel/memory/malloc.c:2082-2150 | turning the chunks of a stretch into a chunk in use and another chunk keeps the whole invariant |
| `FreeSteps.IntoTop` | src/kernel/memory/malloc.c:4742-4753 | after the store that merges a freed chunk into top the invariant holds, and the freed chunk is the only change to Live |
| `FreeSteps.IntoDv` | src/kernel/memory/malloc.c:4754-4759 | the same when the freed chunk merges with dv |
| `FreeSteps.PastFree` | src/kernel/memory/malloc.c:4760-4769 | the same when the free chunk after the freed one is absorbed |
| `FreeSteps.UpToUsed` | src/kernel/memory/malloc.c:4771-4772 | the same when the chunk after the freed one is in use |
| `MallocSteps.UseFront` | src/kernel/memory/malloc.c:4619-4624 | splitting a free chunk keeps the invariant, brings exactly its front into use and leaves the rest a free chunk |
| `MallocSteps.UseTop` | src/kernel/memory/malloc.c:4666-4676 | splitting top keeps the invariant and brings exactly the front of top into use |
| `Dlmalloc.UsageCheck` | src/kernel/memory/malloc.c:2270-2273 | is_inuse and chunksize, read from the head word alone, tell for every chunk whether it is in use and how large it is |
| `Dlmalloc.Heap.constructor` | src/kernel/memory/malloc.c:3903-3926 | init_bins and init_top on a segment establish the invariant with no chunk |
| `Dlmalloc.Heap.UnlinkChunk` | src/kernel/memory/malloc.c:3801-3803 | unlink_chunk takes one chunk out of its bin and changes no tag and no word of a chunk in use; of the lines of chunks of each size just its own loses it, the others keep their order |
| `Dlmalloc.Heap.InsertChunk` | src/kernel/memory/malloc.c:3797-3799 | insert_chunk puts one chunk into the bin of its size and changes no tag and no word of a chunk in use; it joins the line of its size, a small chunk at the front, a large one at the end, and no other line changes |
| `Dlmalloc.Heap.DisposeChunk` | src/kernel/memory/malloc.c:4368-4437 | dispose_chunk restores the invariant, merged with both neighbours, and drops exactly the given chunk; dv grows by a chunk that borders it, is lost to top with it, and else stays |
| `Dlmalloc.Heap.ReplaceDv` | src/kernel/memory/malloc.c:3640-3651 | replace_dv restores the invariant with the new dv and disturbs nothing else |
| `Dlmalloc.Heap.TMallocLarge` | src/kernel/memory/malloc.c:4441-4510 | serves the request by a best fit among all free chunks, or leaves it to dv just when dv fits no worse or nothing is big enough, and then changes nothing; a chunk served is the oldest binned of its size |
| `Dlmalloc.Heap.TMallocSmall` | src/kernel/memory/malloc.c:4512-4548 | serves the request from the oldest of the smallest tree chunks; what is left of it, if it can be a chunk, becomes dv, and else dv stays |
| `Dlmalloc.Heap.MallocSmall` | src/kernel/memory/malloc.c:4583-4635 | the small-request branches serve by the policy, or leave the request to dv, top or the system and change nothing; what is left of a chunk that is split becomes dv, and else dv stays; the chunk served is first in the line of its size |
| `Dlmalloc.Heap.MallocRest` | src/kernel/memory/malloc.c:4646-4682 | dv, then top, then the system: succeeds if and only if some free chunk, or top with the grant, is big enough; dv shrinks or is used up just if it serves the request |
| `Dlmalloc.Heap.SysAlloc` | src/kernel/memory/malloc.c:4045-4251 | with memory that borders top: succeeds if and only if the request is possible and top and the grant together exceed it |
| `Dlmalloc.Wraparound` | src/kernel/memory/malloc.c:4060-4062 | the wrap-around test refuses the impossible request and no request the heap could meet |
| `Policy.ExactBin` | src/kernel/memory/malloc.c:4588-4592 | the digit test on the shifted map finds the bin of the request, or the next if that is empty |
| `Policy.NextSmallBin` | src/kernel/memory/malloc.c:4604-4610 | otherwise the shifts and masks find the first marked bin above |
| `Policy.TreeOrDv` | src/kernel/memory/malloc.c:4490-4491 | the wrap-around comparison chooses between the best tree chunk and dv exactly as best fit asks |
| `Policy.Adjacent` | src/kernel/memory/malloc.c:4558-4562 | a small request that fits what the last small request left of the chunk it split, and has no chunk of exactly its size, is served directly behind it |
| `Dlmalloc.Heap.Malloc` | src/kernel/memory/malloc.c:4552-4686 | succeeds if and only if some free chunk, or top with the system's grant, holds the request; then it is served, from the chunk the policy in the comment names, which is first in the line of its size; after a small request that splits a chunk other than top, dv is directly behind the chunk served, and other requests leave dv alone unless they use it; on failure nothing changes |
| `Dlmalloc.Heap.Free` | src/kernel/memory/malloc.c:4690-4797 | the usage check passes just for null and chunks in use; then exactly that chunk is dropped and merged; else nothing changes, so a double free is refused; dv grows by a chunk that borders it, is lost to top with it, and else stays |
| `Dlmalloc.Heap.TryRealloc` | src/kernel/memory/malloc.c:4819-4896 | resizes in place if and only if the chunk is big enough or its free neighbour, dv or top makes up for it; the common part of the contents stays, and nothing else in use changes; dv moves with the end of the chunk if it follows it, and else stays |
| `Align.PowerTest` | src/kernel/memory/malloc.c:4902-4902 | a and (a - 1) have no common digit just for powers of two |
| `Align.RoundingEnds` | src/kernel/memory/malloc.c:4902-4906 | the doubling loop reaches the alignment if and only if it is at most 2^63 |
| `Align.RoundingStuck` | src/kernel/memory/malloc.c:4902-4906 | at 2^63 + 1 the loop goes on for ever |
| `Align.RoundAlignment` | src/kernel/memory/malloc.c:4900-4906 | the rounded alignment is the least power of two that is at least 32 and at least the one asked for |
| `Align.AlignedSpot` | src/kernel/memory/malloc.c:4920-4935 | the mask test and the mask arithmetic find a multiple of the alignment at or after the pointer, less than one alignment away |
| `Allocator.LeaderFits` | src/kernel/memory/malloc.c:4913-4936 | in the over-allocated chunk there is always an aligned spot behind a leader of at least a minimum chunk with room for the request after it |
| `Allocator.InternalMemalign` | src/kernel/memory/malloc.c:4898-4970 | succeeds if and only if malloc of the padded request would; the block is a multiple of the rounded alignment, holds the request with at most a minimum chunk to spare, is new, and everything else is kept |
| `Allocator.Memalign` | src/kernel/memory/malloc.c:5269-5274 | succeeds if and only if malloc of the request, or of the padded request for alignments above 16, would; a block is new, large enough and aligned to every power of two asked for; on failure nothing changes |
| `Allocator.CopyWords` | src/kernel/memory/malloc.c:5228-5229 | the copy into the new block transfers every word and changes no other block |
| `Allocator.MoveBlock` | src/kernel/memory/malloc.c:5225-5232 | a block that cannot grow in place moves with all its contents to a new block, and the old one is freed |
| `Allocator.Realloc` | src/kernel/memory/malloc.c:5193-5236 | succeeds if and only if the block can be resized in place or malloc of the size succeeds; contents are kept up to the smaller size; on failure the old block is as it was |
| `Allocator.StoreKeeps` | src/kernel/memory/malloc.c:2082-2150 | whatever a client stores in the payload of its own chunk, the invariant holds and no other block changes |
| `Client.Step` | src/kernel/memory/malloc.c:4552-4970 | one malloc, free, realloc, memalign or store keeps the heap equal to the specification table of blocks with their contents; it is served if and only if that was possible, and aligned as asked for |
| `Client.Run` | src/kernel/memory/malloc.c:4552-4970 | after every run from an empty heap, the heap holds exactly the blocks that replaying the operations on independent blocks leaves, each with the words stored in it; every operation on the way was served if and only if the state it met allowed it |
| `Client.BlocksApart` | src/kernel/memory/malloc.c:4552-4970 | blocks are 16-byte aligned, inside the segment, as large as asked for, and do not overlap |
| `Walk.Traverse` | src/kernel/memory/malloc.c:3431-3459 | in every state that satisfies the invariant, traverse_and_check's assertions hold, it passes every chunk once, and the sizes add up to the segment |
| `Paging.IndicesInverse` | src/kernel/include/paging.h:31-46 | the index macros undo BITS_TO_VIRT_ADDR |
| `Paging.VirtInverse` | src/kernel/include/paging.h:31-46 | BITS_TO_VIRT_ADDR of the indices of an address is its page |
| `Paging.SharedTables` | src/kernel/include/paging.h:31-46 | two addresses go through the same table of a level just if they are in the same 512 GB, 1 GB or 2 MB, and are the same page just if they are in the same 4 KB |
| `PageTable.HungPage` | src/kernel/memory/paging.c:193-209 | hanging a new zeroed table into a missing slot changes no translation |
| `PageTable.LeafSet` | src/kernel/memory/paging.c:219-222 | writing the leaf entry of a page makes that entry its translation and keeps the shape of the tables |
| `PageTable.StaysLarge` | src/kernel/memory/paging.c:193-222 | a walk that meets a large page goes on meeting it while the present entries above the last level stay |
| `Paging.Machine.VirtualMapL` | src/kernel/memory/paging.c:175-229 | refuses just unaligned addresses; else sets the entry of that page, leaves every other page and all memory off the tables as it was, takes at most three frames, and gives back the frame that was mapped there unless it is of the framebuffer; each of the twelve low bits of the entry is set if and only if it is set in the flags or is the present bit |
| `Paging.Machine.VirtualToPhysicalL` | src/kernel/memory/paging.c:233-284 | computes the translation that the walk of the table defines, with the window of the direct map in front: an address of the window is the physical address plus its start |
| `Paging.MapTranslates` | src/kernel/memory/paging.c:175-284 | the flat map: after mapping, every address of the page translates to the frame plus its offset, to nothing if the frame is 0, and every address of another page translates as before |
| `Paging.MapAllows` | src/kernel/memory/paging.c:192-222 | as the processor sees it, over all four levels, user code may use and write the page mapped just if the flags say so, unless a table that was there before is closed |
| `HeapGrowth.AdjustHeap` | src/kernel/multitasking/task.c:158-191 | refuses just a shrink by pages or an end at or below the start; else all pages up to the new end are mapped, new ones present, for user code and writable, to zeroed frames, one frame of the pool for each, every other page translates as before, and every frame that is no table and was not in the pool holds what it held |
| `HeapGrowth.PagesKept` | src/kernel/multitasking/task.c:158-191 | every page mapped before keeps its frame and all its words, and no new page shares a frame with it, if no mapped frame was in the pool |
| `HeapGrowth.NewPagesUsable` | src/kernel/multitasking/task.c:158-191 | as the processor sees it user code can use and write every new page, unless a table that was there before is closed |
| `HeapGrowth.StaysCovered` | src/kernel/multitasking/task.c:158-191 | if all pages of the heap were mapped, all pages up to the new end are |
| `Fork.UserDuplicate` | src/kernel/memory/paging.c:350-396 | the four nested loops duplicate exactly the set of user pages of the source; tables and copies are drawn from the pool in order, and every other frame holds what it held |
| `Fork.DuplicateMeans` | src/kernel/memory/paging.c:350-396 | the source translates as before with the same contents; the target maps each user page, which are those with bits 0 and 2 set and bit 7 clear, present, for user code and writable, to the same frame just if bit 9 is set, and with equal contents; no other page of the target changes |
| `Fork.CopiesUsable` | src/kernel/memory/paging.c:386-388 | as the processor sees it user code can use and write every page of the copy, unless a table of the target was closed before; the writable bit is that of the source if and only if the source page is writable |
| `Fork.PrivateFrame` | src/kernel/memory/paging.c:375-388 | the frame of a private page came from the pool and is no table of either directory; every frame from elsewhere that is no table of the target keeps its contents |
| `Fork.PrivateFrames` | src/kernel/memory/paging.c:375-388 | the frame of a private page belongs to that page alone: no page of the source, and no other page of the target, has it, kernel pages and leaves with bit 7 included, if no mapped frame was in the pool |
| `Teardown.Free` | src/kernel/memory/paging.c:313-348 | the nested loops clear exactly the user pages and give back their frames in the order visited |
| `Teardown.FreeMeans` | src/kernel/memory/paging.c:313-348 | afterwards no user page is left: entries with bits 0 and 2 set and bit 7 clear are zero, and every other page translates as before |
| `Teardown.FreedOnceIff` | src/kernel/memory/paging.c:313-348 | each frame is given back once per page that maps it; all are distinct if and only if no two user pages share a frame |
| `Teardown.BothFreedIff` | src/kernel/memory/paging.c:313-396 | after a duplication into an empty user half the teardowns of source and target release no frame in common if and only if no user page of the source is shared |
| `Teardown.ReleasesApartIff` | src/kernel/memory/paging.c:313-396 | the same of the two lists of frames given back |
| `Teardown.FreedTwice` | src/kernel/memory/paging.c:331-341 | a directory with two user pages on one frame gives that frame back twice |
| `Teardown.TwiceCallable` | src/kernel/memory/paging.c:313-348 | that directory is well formed and has exactly those two user pages |
| `Teardown.SharedCallable` | src/kernel/memory/paging.c:350-396 | a directory with one shared user page, an empty directory and a pool of four frames can be duplicated |
| `Teardown.BecomesWritable` | src/kernel/memory/paging.c:386-388 | the user page of that directory is read-only, and writable in the copy |
| `Teardown.FreedByBoth` | src/kernel/memory/paging.c:313-396 | after that duplication the teardowns of both directories give back the shared frame |
| `Generations.ChildUnshared` | src/kernel/memory/paging.c:375-388 | after a duplication into an empty user half every user page of the target is one of the source and is not marked as shared |
| `Generations.Grandchild` | src/kernel/memory/paging.c:350-396 | a duplication of the child leaves its entry as it was and gives the page of the grandchild a frame with the same contents that is neither the child's nor a frame the parent shared |
| `Tasks.NextOk` | src/kernel/multitasking/task.c:193-476 | every step of fork, exit, the reaper and the switch of tasks keeps the invariant |
| `Tasks.PlayOk` | src/kernel/multitasking/task.c:193-476 | the invariant holds in every state of every interleaving from the start |
| `Tasks.CountsHolders` | src/kernel/multitasking/task_info.c:21-122 | in every state of every run, utilizedBy is the number of tasks that hold the block, and the block is released just when there is none |
| `Tasks.ReleasedOnce` | src/kernel/multitasking/task_info.c:30-122 | in every run a block is released at most once, by its last holder, and nobody holds it at any later point |
| `Tasks.SlotKept` | src/kernel/multitasking/task.c:193-205 | in every run the reaper slot is not overwritten while a task is in it: it becomes empty first, after that task was freed |
| `Tasks.FreedSafely` | src/kernel/entry/kernel_helper.c:33-79 | in every run a task is freed at most once, from the slot, dead, not running and holding nothing, and it is in the list at no later point |
| `Tasks.NoFreedParent` | src/kernel/multitasking/task.c:262-282 | in every run, once a task that informs its parent was freed, no task that is not dead has it for a parent at any later point |
| `Tasks.Kernel.DiscardBlock` | src/kernel/multitasking/task_info.c:30-122 | the discards lower the count and release at zero, and never a block released before |
| `Tasks.Kernel.ListDestroy` | src/kernel/multitasking/task.c:69-84 | unlinks exactly the given task and keeps the order of the others |
| `Tasks.Kernel.ListAllocate` | src/kernel/multitasking/task.c:49-66 | the walk to the last task hangs exactly one new, zeroed task behind it |
| `Tasks.Kernel.TaskFork` | src/kernel/multitasking/task.c:355-476 | with any sharing flags, carries out the four fork steps of the state machine in order and keeps the invariant; the child is live, last in the list and has the running task as parent; it has the parent's page directory, file system block and file table each if and only if that flag is given, with one holder more, and else a new one with one holder; all other tasks and blocks are as they were |
| `Tasks.Kernel.CallReaperOnce` | src/kernel/multitasking/task.c:193-205 | one round of the loop is the step of the state machine; it takes the slot if and only if the slot is empty and the lock free, and else changes nothing |
| `Tasks.Kernel.TaskKill` | src/kernel/multitasking/task.c:207-260 | carries out the five exit steps of the state machine in order and keeps the invariant; the task ends dead in the slot if and only if the slot was empty and the lock free, and else waits before taskCallReaper with both blocks given up; file table and page directory have one holder less, released if that was the last; the file system block is kept, and no other task changes |
| `Tasks.Kernel.FreeChildren` | src/kernel/multitasking/task.c:262-282 | makes the dummy task the parent of every child that is not dead, unless the task does not inform its parent |
| `Tasks.Kernel.HelperReaper` | src/kernel/entry/kernel_helper.c:33-79 | carries out the five helper steps of the state machine in order and keeps the invariant; a dead task in the slot is gone from list and tasks, exactly its children that are not dead have the dummy task as parent, unless it does not inform, its file system block has one holder less, and nothing else changes; without one nothing changes at all |
| `Scheduler.Scheduler.Select` | src/kernel/multitasking/schedule.c:27-57 | picks the first ready or wakeable task in cyclic order strictly after the current one, the current one last; none if and only if there is none; changes only the task it wakes |
| `Scheduler.PickedIsFirst` | src/kernel/multitasking/schedule.c:24-57 | following the list from the current task and going on at its start, every task before the one picked is passed over |
| `Scheduler.Scheduler.Schedule` | src/kernel/multitasking/schedule.c:21-103 | the retry after a signal kill ends; the result is the pick among the tasks as the kills left them; the dummy task runs if and only if there is none; a task that runs was due and is ready, and one that was not ready is marked as woken involuntarily and has no wake-up time |
| `Scheduler.Nearer` | src/kernel/multitasking/schedule.c:27-57 | a task that stays due, that is ready, past its wake-up time, or blocked with a signal pending, comes strictly nearer with every tick that does not run it |
| `Scheduler.RunsWithinN` | src/kernel/multitasking/schedule.c:27-57 | of n tasks, one that stays due runs within n ticks |
| `Scheduler.Scheduler.Ticks` | src/kernel/multitasking/schedule.c:21-103 | over calls of schedule with any changes of the other tasks between them, a task that is due at each and not killed runs within as many calls as there are tasks, and when it runs it is ready, and if it was not it is marked as woken involuntarily and has no wake-up time |
| `IntegerText.TextIsStandard` | src/kernel/drivers/printf.c:431-553 | if the field fits the buffer, print_integer's output is what C11 asks for, for every combination of flags |
| `IntegerText.TextIsStandardIff` | src/kernel/drivers/printf.c:431-553 | for every value, base, width, precision and flags of the format loop the output is what C11 asks for if and only if the field is exact: at most 32 characters, or 33 of which the first is a space that padding makes up for |
| `IntegerText.OmittedIff` | src/kernel/drivers/printf.c:431-553 | with a precision of zero in place of an omitted one, the output is right if and only if it is exact, the numeral is not that of 0 (unless octal with #), and no zero padding is due |
| `IntegerText.LosesDigit` | src/kernel/drivers/printf.c:525-553 | a precision of 33 loses a digit |
| `IntegerText.RoundTrip` | src/kernel/drivers/printf.c:431-553 | the output is padding, sign, prefix and a numeral that reads back as the value, of length exactly the larger of the width and the natural length |
| `Printf.Gadget.Put` | src/kernel/drivers/printf.c:322-339 | counts every character and stores the ones that fit |
| `Printf.Gadget.PutReversed` | src/kernel/drivers/printf.c:431-453 | appends the reversed buffer with its padding |
| `Printf.StoreDigits` | src/kernel/drivers/printf.c:525-546 | the digit loop stores the digits of the value, least significant first, at most 32 |
| `Printf.Finalize` | src/kernel/drivers/printf.c:458-522 | appends zero padding, prefix and sign in the buffer and puts it out, as the function on lengths says |
| `Printf.PrintInteger` | src/kernel/drivers/printf.c:525-553 | puts out the text that the theorems are about (IntegerText.TextIsStandardIff, TextReading.ConversionReads) |
| `Printf.ParseSpec` | src/kernel/drivers/printf.c:1056-1150 | the parser computes the reading that FormatSpec.ReadsBack and FormatSpec.WrittenSomehow characterise |
| `FormatSpec.NumberRead` | src/kernel/drivers/printf.c:420-427 | atou_ of a decimal numeral gives its value modulo 2^32 and stops behind it |
| `FormatSpec.ReadsBack` | src/kernel/drivers/printf.c:1056-1150 | a specification written out by the grammar of C11, in front of any final character, is read back part by part: the set of flags, width and precision modulo 2^32, length, the arguments taken, and the index of the final character |
| `FormatSpec.WrittenSomehow` | src/kernel/drivers/printf.c:1056-1150 | whatever the parser accepts is a specification of that grammar, and is read as such |
| `Printf.FormatLoop` | src/kernel/drivers/printf.c:1039-1349 | the loop puts out the rendering of the format and its arguments |
| `Printf.Vsnprintf` | src/kernel/drivers/printf.c:1352-1377 | the result does not depend on the buffer size; the buffer holds as much of the rendering as fits before the terminator; nothing at or beyond the size, or after the terminator, is written |
| `FormatSpec.ConversionIff` | src/kernel/drivers/printf.c:1078-1238 | every integer conversion, with any flags, width, precision and length, prints what C11 asks for, with base, width of the argument and flags taken from the letters alone, if and only if: for ll, nothing is due; else width and precision are below 2^32 and the field is exact; and for a negative precision the condition of OmittedIff holds |
| `FormatSpec.IntegerConversion` | src/kernel/drivers/printf.c:1039-1238 | the same for every integer conversion of every format; ll leaves its argument unread |
| `FormatSpec.LosesZero` | src/kernel/drivers/printf.c:1086-1088 | %.*d of 0 with precision -1 prints nothing where C11 asks for 0 |
| `FormatSpec.LongLongSilent` | src/kernel/drivers/printf.c:1191-1199 | %lld prints nothing and leaves its argument, where C11 asks for a numeral |
| `FormatSpec.StringIff` | src/kernel/drivers/printf.c:1278-1308 | every string conversion, with any flags, width and precision, prints what C11 asks for if and only if the field has the same length and every character due is shown or looks like the padding |
| `FormatSpec.CharacterIff` | src/kernel/drivers/printf.c:1258-1276 | every character conversion prints what C11 asks for if and only if the width is below 2^32 |
| `FormatSpec.TextConversion` | src/kernel/drivers/printf.c:1039-1308 | the same for every string and character conversion of every format |
| `FormatSpec.LosesString` | src/kernel/drivers/printf.c:1086-1088 | %.*s of any string but the empty one with precision -1 prints nothing where C11 asks for the whole string |
| `TextReading.StandardReads` | src/kernel/drivers/printf.c:458-522 | what C11 asks for, read without spaces and prefix, with - as negation, is the value with its sign; it holds a - just for negative values and a + just if asked for and not negative |
| `TextReading.ConversionReads` | src/kernel/drivers/printf.c:1154-1238 | every integer conversion that is right reads back, in the base of its letter, as the argument in as many bits as the length modifier says, two's complement just for d and i; it holds a - just if negative, a + just for the flag and a signed value that is not, an x just for # and a value that is not 0, and letters in the case of its letter |
| `TextReading.PlainFormat` | src/kernel/drivers/printf.c:1047-1055 | a format without % is put out as it is |
| `TextReading.OrdinaryText` | src/kernel/drivers/printf.c:1047-1055 | so is every stretch without % of any format |
| `TextReading.Percent` | src/kernel/drivers/printf.c:1321-1324 | %% is put out as % and takes no argument |
| `TextReading.PointerReads` | src/kernel/drivers/printf.c:1310-1319 | %p without a precision reads back as the address in base 16, in at least 18 characters, and is (nil) for 0 |
| `TextReading.NullShown` | src/kernel/drivers/printf.c:1278-1282 | %s of a null pointer is (null) in its field; with 0 and without - it is not padded |
| `UserStack.StoreStrings` | src/kernel/multitasking/stack.c:32-51 | copies all strings one after the other with their terminators and nothing else |
| `UserStack.Stack.PushPointers` | src/kernel/multitasking/stack.c:143-170 | the offsets summed up from the end are the places of the strings packed from the start |
| `UserStack.Stack.PushAuxv` | src/kernel/multitasking/stack.c:97-133 | in memory order the auxiliary vector runs from AT_PHDR to AT_NULL; UserStack.AuxIsComplete says what it holds |
| `UserStack.GenerateUser` | src/kernel/multitasking/stack.c:53-176 | from the final rsp up: argc, the argv pointers, 0, the envp pointers, 0, the auxiliary vector; pointer i addresses a terminated copy of string i; a program that skips argc and the pointers up to their zeros and scans the pairs finds the right value under each of the ten keys, and each key once; rsp ends 25 words and one for each string lower, and from an aligned start it is aligned if and only if the number of strings is odd |
| `UserStack.AuxIsComplete` | src/kernel/multitasking/stack.c:97-133 | by a lookup on memory alone, AT_PHDR, AT_PHENT, AT_PHNUM, AT_BASE, AT_ENTRY, AT_PAGESZ, AT_RANDOM, AT_SECURE, AT_FLAGS and AT_HWCAP give the program headers, their size and number, the interpreter's base, the entry, 4096, the random bytes, 0, 0 and 0, and each key occurs once |
| `UserStack.ScannedIff` | src/kernel/multitasking/stack.c:83-91 | the scan of the program headers finds the least address that is loaded if and only if none is loaded at 0, or the last one that is loaded is |
| `UserStack.ZeroPassedOver` | src/kernel/multitasking/stack.c:83-91 | of headers loaded at 0 and 0x1000 it finds 0x1000 |
| `UserStack.PhdrsPlaced` | src/kernel/multitasking/stack.c:83-133 | AT_PHDR is e_phoff from where a position-independent image is loaded, and else from its least address if the scan finds that |
| `UserStack.AlignedIff` | src/kernel/multitasking/stack.c:97-173 | the words pushed leave rsp at a multiple of 16 if and only if arguments and environment strings are odd in number |
| `UserStack.Misaligned` | src/kernel/multitasking/task.c:98-98 | from the stack bottom a task starts with, one argument and one environment string end 8 off |
| `UserStack.CopiesApart` | src/kernel/multitasking/stack.c:32-51 | the copies of one list do not overlap |
| `UserStack.ListsApart` | src/kernel/multitasking/stack.c:135-139 | no copy of an argument meets a copy of an environment string |
| `Calendar.RtcToUnix` | src/kernel/cpu/rtc.c:132-162 | the year and month loops compute the closed formula of POSIX |
| `Calendar.LaterIsOneMore` | src/kernel/cpu/rtc.c:125-162 | the next second, across the ends of months, leap days and years, is one more |
| `Calendar.StrictlyIncreasing` | src/kernel/cpu/rtc.c:125-162 | later dates have larger times, so the map is injective |

## Left out

- Heap size: the heap is one segment of less than 2^40 bytes, the range in which compute_tree_index names the right
  bin for every chunk.
- Dlmalloc.Heap.SysAlloc: models memory that borders top, or none; new segments, prepending, direct mmap chunks and
  footprint counts are not modelled, because they depend on an allocator that is not part of this model.
- Giving memory back to the system (sys_trim, release_unused_segments), mspaces, statistics, calloc, bulk and
  independent allocation: not modelled.
- Locks and the checks for corrupted memory: the heap runs one operation at a time, and the RTCHECK branches cannot be
  taken while the invariant holds.
- Dlmalloc.Heap.Free: shares its body with dispose_chunk, whose text differs only in the checks; the pointer is null,
  below the least address or that of a chunk, since the head word of anything else means nothing.
- Allocator.CopyWords: memcpy moves whole words; the copied length always is a whole number of words.
- Allocator.InternalMemalign: alignments up to 2^63, since the rounding loop does not end beyond, and segments that do
  not reach the end of the address space.
- Addresses below LOWEST stand for the bin arrays and everything under least_addr.
- PhysicalAllocate and PhysicalFree: a pool of unused frames; the bitmap behind them is not part of this model.
- Paging.Machine.VirtualMapL: pages whose walk meets no large page, since the code would take the frame of a large
  page for a table; flags are the low twelve bits; locks, the TLB and the directory in force are not modelled.
- Paging.MapTranslates: other pages are covered if their walk meets no large page, for the same reason.
- Fork.UserDuplicate: each of the four nested loops is one call of the loop of its level; the copy of a shared page is
  no longer marked as shared, as in the source, and Generations says what a second duplication then does.
- HeapGrowth.AdjustHeap: killing the task is a refusal.
- TaskInfoSignal counts are not modelled: nothing in the source discards them.
- Tasks.NextOk: a task enters taskKill once, on itself; the first task, the dummy and the helper do not die; the
  branch of helperReaper for tasks killed by a signal is not modelled.
- Scheduler.Scheduler.Schedule: signal handling is the verdict whether a task dies; interval timers, the spinlock
  queue and the switch of registers are not modelled, and dead tasks carry no wakeup time.
- Printf.FormatLoop: floating point is disabled, as configured; %n only consumes its argument; a format that ends
  inside a specification ends the output.
- Printf.Vsnprintf: outputs of at most INT_MAX characters.
- TextReading.PointerReads: %p with a precision is not covered, for the reason given with
  IntegerText.TextIsStandardIff.
- FormatSpec.StringIff: a null pointer, for which C11 asks nothing, is left to TextReading.NullShown, and l, which C11
  takes for wide characters, is ignored by the code and by C11String; the same holds of FormatSpec.CharacterIff.
- IntegerText.TextIsStandardIff: %p with a precision is not covered; C11 leaves its text to the implementation.
- UserStack.GenerateUser: string bytes and stack words are separate stores; the mapping of the pages is not modelled;
  the random bytes are a parameter; the lookup is stated for strings stored above address 0, since a pointer to
  address 0 would end its list.
- Calendar.RtcToUnix: starts from a decoded clock reading from 1970 on; port access and the 12-hour conversion are not
  modelled.
- File systems, networking, devices, interrupts and the console are not part of this model.
