# The memory stack of the Preon kernel

A model of how the Preon kernel manages memory, and proofs about it, in Dafny
4.11: the buddy allocator and its mem-map, the page tables and the kernel map
built with them, the boot-time interval allocator and its hand-off, the slab
allocator, and the locks and the CPU bring-up that run on top.

## What is modelled

- **Buddy allocator.** `BuddyModel` gives `alloc`, `free` and `free_range` on
  values: free lists, live blocks, reserved frames. A block in hand (popped and
  being split, or being merged) counts as live, so every single step goes from
  one well-formed state to another (`BuddySteps`). `Buddy` is the allocator
  itself, a mem-map and list heads updated in place; `MemMap` says what mem-map
  stands for a state. `BuddyFrames` counts frames, `BuddyTheorems` has merging,
  completeness and the round trip, `BuddyCarve` the greedy carve of `free_range`,
  `BuddyRuns` whole runs and the refinement of a plain set-of-frames allocator,
  `BuddyUnits` how many requests of an order the lists can serve.
- **Page tables and the kernel map.** `PageTable`, `Bitwise` and `DescriptorBits`
  have addresses, indices and descriptors; `PageWalk` the translation a tree of
  tables gives; `PageMap` and `AddressSpace` have `map`, as a function and as the
  loop; `Layout`, `KernelMap`, `KernelBuild`, `KernelLinear`, `KernelImage` and
  `KernelRoot` build the map of RAM, image and device page, and say exactly which
  frames it takes; `KernelView` says what the hardware makes of every address, from
  the device tree's regions and the linker's bounds alone; `EarlyMap` builds it from
  the page pool.
- **Boot memory.** `BootMem` and `BootAllocator` have the interval lists and the
  top-down placement, `HandOff` and `Boot` the way from the device tree's memory
  ranges to a running buddy allocator, `FrameSource` the page source before and
  after, `Kmain` what holds from the hand-off on.
- **Slab.** `SlabLayout`, `SlabModel` and `Heap` have size classes, objects and
  runs of requests over a shared buddy allocator; `HeapLayouts` follows what each
  caller asked for through such runs; `SlabAllocator` has the intrusive lists in
  place.
- **Concurrency.** `SpinLock`, `Once` and `Smp` are transition systems over any
  number of CPUs and any interleaving. Each atomic access is one step; memory is
  sequentially consistent. `LockedBuddy` puts the buddy allocator behind the lock.

A panic or a failed assertion of the kernel is a result value (`None`, `NoRoom`,
`PanicBlock` and so on). A precondition stands for what the kernel leaves to its
caller, in words or in a debug assertion: `free` gets a live block with its own
order, `free_range` reserved frames, `dealloc` the layout of the request.

## What does not hold

- `alloc` may fail although an aligned run is free: freeing adjacent ranges one after
  the other leaves free buddies unmerged. `BuddyRuns.AdjacentRangesHideARun` is an
  instance. `BuddyUnits.CompleteIffMerged` is the exact condition: for every order,
  and after any number of further requests of that order, `alloc` finds a free run if
  there is one, if and only if no two free buddies of an order below the top are
  unmerged. `BuddyCarve.FreeRangeKeepsNoMergeable` says exactly when one `free_range`
  keeps it so, and `HandOff.HandOffMerged` when the whole hand-off does.
- The hand-off frees a frame twice when two RAM regions share it and it is not
  reserved. `HandOff.SharedFrameFreedTwice` is an instance, and
  `HandOff.HandOffLegal` says exactly when every call is legal.
- `large_alloc` does not look at the alignment. `Heap.LargeMisaligned` is an instance.
  `Heap.LargeAlignedExactly` says for which sizes and alignments every heap serves
  aligned addresses: exactly when the start of DRAM is aligned and the run is at least
  that large, or the request is beyond the top order and never served.
- CPU ids index a 64-bit word by `1u64 << id`. The release profile has no overflow
  checks, so id 64 looks at the bit of the primary and bring-up may return before
  that CPU reports in: `Smp.SixtyFifthCpuMissed`. `Smp.BringUpSafe` proves that Ok
  means "all reported" exactly for up to 63 secondaries, or from 128 on, where Ok is
  never returned.
- `free` after `alloc` restores the state exactly when the block that was split
  had no free buddy of its own order: `BuddyTheorems.FreeUndoesAlloc`.
  `BuddyRuns.FreeMergesMoreThanAllocSplit` is an instance where it does not.
- Write xor execute holds for every address of the kernel map, not for every byte
  of memory: a byte of a read-only section has a writable address as well exactly
  when it lies in RAM, by `KernelView.ReadOnlyAlias`. `EarlyMap.TextIsWritable` builds
  the map of a machine where that is the first byte of the text.
- `map_section` steps by pages from a start it does not round down, so it leaves the
  last page of a section out when the start lies at least as far into its page as the
  end lies into the last one.
  `KernelImage.UnalignedSectionCutShort` is an instance, `KernelImage.SectionCovered`
  the exact condition; sections that start on a page are always covered.

## Model

| member | source | states |
|---|---|---|
| Bits.AlignedIsMultiple | kernel/mm/buddy.rs:302-302 | the low k bits of a frame number are zero exactly when 2^k divides it |
| BuddyModel.GreatestOrder | kernel/mm/buddy.rs:300-306 | some order is the greatest whose aligned block at the frame fits in what is left; the value picked is that one |
| BuddyModel.FirstNonEmpty | kernel/mm/buddy.rs:257-257 | the least order from k up with a free block, none exactly when all those lists are empty |
| BuddyModel.BuddyFacts | kernel/mm/buddy.rs:204-211 | flipping bit k of an aligned frame gives the neighbouring block, flipping again returns, and the lower of the two heads the aligned pair |
| BuddySteps.TakeWF | kernel/mm/buddy.rs:250-254 | popping a block keeps blocks aligned, in range, disjoint and clear of reserved frames |
| BuddySteps.SplitWF | kernel/mm/buddy.rs:259-264 | so does halving the block in hand and pushing its upper half |
| BuddySteps.MergeWF | kernel/mm/buddy.rs:276-295 | so does joining the block in hand with its free buddy |
| BuddySteps.GiveWF | kernel/mm/buddy.rs:296-297 | so does pushing the block in hand |
| BuddySteps.SeedWF | kernel/mm/buddy.rs:313-326 | so does turning reserved frames into a free block |
| BuddySteps.AllocWF | kernel/mm/buddy.rs:256-268 | `alloc` keeps the state well formed, and what it returns is live with the order asked for |
| BuddySteps.FreeWF | kernel/mm/buddy.rs:270-298 | `free` of a live block keeps the state well formed through all its merges |
| BuddySteps.FreeRangeWF | kernel/mm/buddy.rs:308-327 | `free_range` of reserved frames keeps the state well formed |
| BuddySteps.OneOrderPerHead | kernel/mm/buddy.rs:29-37 | no frame heads blocks of two orders |
| BuddyFrames.AllocFrames | kernel/mm/buddy.rs:256-268 | exactly the frames of the block returned go from free to live, for every frame |
| BuddyFrames.AllocCount | kernel/mm/buddy.rs:265-265 | the count of free frames falls by exactly the size of the block |
| BuddyFrames.MergeUpFrames | kernel/mm/buddy.rs:270-298 | exactly the frames of the block freed become free, however far it merges |
| BuddyFrames.MergeUpCount | kernel/mm/buddy.rs:271-271 | the count rises by exactly the size of the block freed, whatever is merged |
| BuddyFrames.FreeRangeFrames | kernel/mm/buddy.rs:308-327 | exactly the frames of the range go from reserved to free |
| BuddyFrames.FreeRangeCount | kernel/mm/buddy.rs:323-323 | the count rises by exactly the length of the range |
| BuddyFrames.LiveFreeExclusive | kernel/mm/buddy.rs:127-134 | no frame is two of free, live and reserved |
| BuddyTheorems.AllocKeepsNoMergeable | kernel/mm/buddy.rs:256-268 | `alloc` leaves no two free buddies of one order below the top, if there were none |
| BuddyTheorems.FreeKeepsNoMergeable | kernel/mm/buddy.rs:270-298 | nor does `free` |
| BuddyTheorems.RunInOneBlock | kernel/mm/buddy.rs:256-298 | without a mergeable pair, an aligned free run lies inside a single free block |
| BuddyTheorems.AllocComplete | kernel/mm/buddy.rs:256-268 | then `alloc` fails exactly when no aligned run of the size is entirely free |
| BuddyTheorems.MergeUpUndoesSplit | kernel/mm/buddy.rs:256-298 | merging after any number of split levels gives what merging the whole block gives |
| BuddyTheorems.FreeUndoesAlloc | kernel/mm/buddy.rs:256-298 | freeing what was just allocated restores every list as the same sequence, exactly when the block split had no free buddy of its order |
| BuddyTheorems.FreeUndoesAllocWhenMerged | kernel/mm/buddy.rs:256-298 | so it always does when no mergeable pair exists |
| BuddyCarve.CarveTiles | kernel/mm/buddy.rs:308-327 | the carve cuts the range exactly into aligned blocks of legal order |
| BuddyCarve.CarveIsShortest | kernel/mm/buddy.rs:300-327 | no tiling of the range by aligned blocks of legal order has fewer blocks |
| BuddyCarve.FreeRangePushesCarve | kernel/mm/buddy.rs:313-326 | the blocks pushed are those of the carve, front to back |
| BuddyCarve.CarveNeverMergeable | kernel/mm/buddy.rs:308-327 | one carve never holds two buddies of an order below the top |
| BuddyCarve.CarveEnds | kernel/mm/buddy.rs:300-327 | the first and the last block of a carve have the greatest order that fits at that end |
| BuddyCarve.FreeRangeKeepsNoMergeable | kernel/mm/buddy.rs:308-327 | `free_range` leaves no mergeable pair exactly when neither end block completes a free block next to the range |
| BuddyCarve.FreeRangeApart | kernel/mm/buddy.rs:308-327 | in particular when no frame next to the range is free |
| BuddyRuns.StepWF | kernel/mm/buddy.rs:256-327 | every legal operation keeps the state well formed |
| BuddyRuns.StepCovered | kernel/mm/buddy.rs:256-327 | and leaves every frame free, live or reserved |
| BuddyRuns.InitialWF | kernel/mm/buddy.rs:160-172 | the state of `new` is well formed, with every frame reserved and nothing to merge |
| BuddyRuns.FreeCountIsSize | kernel/mm/buddy.rs:174-176 | the sum of 2^order over free blocks is the number of free frames |
| BuddyRuns.FramesAddUp | kernel/mm/buddy.rs:160-327 | free, live and reserved frames are disjoint and add up to all frames |
| BuddyRuns.RunInvariant | kernel/mm/buddy.rs:160-327 | all of this in every state of every run |
| BuddyRuns.StaysReserved | kernel/mm/buddy.rs:160-327 | over every run, a reserved frame that no `free_range` takes is never free and never handed out |
| BuddyRuns.RunStaysComplete | kernel/mm/buddy.rs:256-327 | allocation stays complete along every run whose `free_range` calls complete no free block |
| BuddyRuns.StepRefines | kernel/mm/buddy.rs:177-327 | each operation is a step of an allocator that only knows sets of frames |
| BuddyRuns.AdjacentRangesHideARun | kernel/mm/buddy.rs:308-327 | two adjacent ranges freed in turn: the run is free and `alloc` does not find it |
| BuddyRuns.FreeMergesMoreThanAllocSplit | kernel/mm/buddy.rs:256-298 | in that state freeing what was just allocated merges two blocks and does not restore the lists |
| BuddyUnits.AllocTakesOneUnit | kernel/mm/buddy.rs:256-268 | a request of an order is served exactly when the free blocks hold a unit of it, and uses exactly one, whatever is split |
| BuddyUnits.CompleteIffMerged | kernel/mm/buddy.rs:256-298 | no two free buddies below the top order are unmerged if and only if, for every order and after any number of requests of it, `alloc` finds an aligned free run whenever there is one |
| BuddyUnits.TwoTopBlocks | kernel/mm/buddy.rs:308-327 | twice the top block freed as one range is two blocks of the top order, and so holds twice 2^(top - j) units of each order j |
| MemMap.PushLinked | kernel/mm/buddy.rs:221-233 | pushing a frame gives the doubly linked list with it in front, and leaves other lists linked |
| MemMap.UnlinkLinked | kernel/mm/buddy.rs:235-248 | unlinking gives the list without that frame, wherever it stood |
| MemMap.FreeMeansListed | kernel/mm/buddy.rs:282-284 | the head test of `free` (state and order of the frame) finds exactly the free blocks of that order |
| MemMap.RepUnique | kernel/mm/buddy.rs:29-125 | two mem-maps for one state agree in every state and link, and in all of every head |
| Buddy.MaxOrderAt | kernel/mm/buddy.rs:300-306 | trailing zeros and the highest bit give the greatest order that fits |
| Buddy.BuddyAllocator.constructor | kernel/mm/buddy.rs:160-172 | every frame reserved, no free frames, lists empty |
| Buddy.BuddyAllocator.CountsFree | kernel/mm/buddy.rs:174-176 | `free_frames` is the number of free frames |
| Buddy.BuddyAllocator.PfnOf | kernel/mm/buddy.rs:190-197 | the frame of an address in DRAM; its address is that address |
| Buddy.BuddyAllocator.PfnOfPaOf | kernel/mm/buddy.rs:190-202 | and the frame of a frame's address is that frame |
| Buddy.BuddyAllocator.PushFront | kernel/mm/buddy.rs:221-233 | the in-place writes make the mem-map with the frame pushed |
| Buddy.BuddyAllocator.Unlink | kernel/mm/buddy.rs:235-248 | the in-place writes make the mem-map with the frame unlinked |
| Buddy.BuddyAllocator.PopFront | kernel/mm/buddy.rs:250-254 | returns the front of the list; the mem-map then stands for the list without it |
| Buddy.BuddyAllocator.Alloc | kernel/mm/buddy.rs:256-268 | the loops in place compute the model's `alloc`: result, state, mem-map and count |
| Buddy.BuddyAllocator.FreeBlockOf | kernel/mm/buddy.rs:270-298 | the merge loop in place computes the model's `free` |
| Buddy.BuddyAllocator.FreeRange | kernel/mm/buddy.rs:308-327 | the carve loop in place computes the model's `free_range` |
| Buddy.BuddyAllocator.MarkTails | kernel/mm/buddy.rs:315-319 | exactly the interior of the block becomes tails |
| Buddy.BuddyAllocator.AllocPages | kernel/mm/buddy.rs:177-179 | the address is the block's: in DRAM with its whole size, aligned to its order from the base |
| Buddy.BuddyAllocator.FreePages | kernel/mm/buddy.rs:185-188 | frees the block at the address |
| Buddy.BuddyAllocator.AllocThenFree | kernel/mm/buddy.rs:256-298 | without a mergeable pair, allocating and freeing restores list heads, every page state and link, every head's order and the count |
| Buddy.MemMapFrames | kernel/mm/buddy.rs:329-331 | just enough frames at 256 descriptors of 16 bytes each |
| PageTable.IndicesTile | kernel/arch/mm.rs:80-104 | the four 9-bit indices and the page offset make up the low 48 bits of an address |
| PageTable.RawInjective | kernel/arch/mm.rs:102-104 | addresses with the same indices and offset are the same |
| PageTable.TableEntryDecodes | kernel/mm/page_table.rs:206-208 | a table descriptor reads back as one, with the address put in |
| PageTable.LeafDecodes | kernel/mm/page_table.rs:214-222 | block and page descriptors read back as such, with address and attributes put in |
| PageTable.PermissionsDecode | kernel/mm/page_table.rs:50-176 | the encoded bits let EL1 write and execute, and EL0 access and execute, exactly for the variants that say so; the MAIR slot is 0 to 3 and the shareability 0, 2 or 3 for the variants in turn |
| DescriptorBits.WordsAgree | kernel/mm/page_table.rs:169-252 | the words composed with bitwise or, and the masks and type bits the code looks at, are those of the arithmetic model |
| DescriptorBits.FieldsReadBack | kernel/mm/page_table.rs:169-222 | the same of the composed word, for every attribute, address and type, with the access flag set and address and type put in |
| PageWalk.WriteTree | kernel/mm/page_table.rs:339-339 | writing a leaf keeps the tables a tree |
| PageWalk.WriteElsewhere | kernel/mm/page_table.rs:339-339 | and changes no walk that does not pass through the entry |
| PageWalk.InstallTree | kernel/mm/page_table.rs:322-324 | installing an empty table keeps the tables a tree |
| PageWalk.InstallWalk | kernel/mm/page_table.rs:322-324 | and changes no translation at all |
| PageMap.MapHere | kernel/mm/page_table.rs:301-340 | after `map`, an address in the leaf's span translates through the new leaf |
| PageMap.MapElsewhere | kernel/mm/page_table.rs:301-340 | every other address translates as before |
| PageMap.MapHitsBlock | kernel/mm/page_table.rs:326-329 | the descent meets a block exactly when the address already translates above the target level |
| PageMap.MapGains | kernel/mm/page_table.rs:320-337 | the tables added are exactly the missing ones on the path, each in a frame of its own from the pool |
| PageMap.MapNeedsFrames | kernel/mm/page_table.rs:324-324 | it runs out of frames only if fewer are left than tables are missing |
| AddressSpace.WholeMap | kernel/mm/page_table.rs:301-340 | all of the above for one `map`, over every 48-bit address |
| AddressSpace.Space.Map | kernel/mm/page_table.rs:301-340 | the loop in place: when it panics, and otherwise exactly one leaf's span changed, the tables still a tree, frames spent one per missing table |
| AddressSpace.Space.WalkDown | kernel/mm/page_table.rs:317-337 | the descent reaches the table of the target level or stops as the model does |
| Layout.LinearVaToPa | kernel/mm/layout.rs:37-40 | undoes `pa_to_linear_va` |
| Layout.SlotIsInterval | kernel/mm/layout.rs:8-30 | the addresses that share a leaf are an aligned interval of the window |
| KernelMap.LeafPaints | kernel/mm/kernel_map.rs:182-184 | one leaf maps one aligned interval at a fixed displacement and nothing else |
| KernelBuild.RoundTablesFew | kernel/mm/kernel_map.rs:168-186 | the tables the rounds of `map_region` go through are at most two of level 2 and one of level 1 per 512 GiB touched, however large the region |
| KernelBuild.MapRegion | kernel/mm/kernel_map.rs:158-187 | maps every byte of the range and nothing else, spending one frame for each table its rounds were missing; unaligned exactly if not made of 2 MiB pieces, stopped by a block exactly when a round meets a leaf above its level, short of frames only if the pool cannot hold those tables |
| KernelBuild.MapNextBlock | kernel/mm/kernel_map.rs:168-186 | one round: the largest block that is aligned and fits is mapped, or the tail is unaligned |
| KernelMap.PaintKeepsWX | kernel/mm/kernel_map.rs:32-81 | mapping with attributes that are not both writable and executable keeps the whole map so |
| KernelLinear.BuildLinear | kernel/mm/kernel_map.rs:115-119 | built only if every non-empty region is made of 2 MiB pieces, and then every byte of RAM is at its linear address, for one frame per missing table; the tail panic only if one is not, the block panic only if two regions overlap, short of frames only if the pool cannot hold the missing tables |
| KernelImage.MapSection | kernel/mm/kernel_map.rs:137-154 | from any start, page-aligned or not: the pages stepped to map to their image addresses with the section's attributes, and nothing else changes; built exactly when the pool can hold the tables those pages are missing |
| KernelImage.SectionCovered | kernel/mm/kernel_map.rs:147-153 | every byte of a section is mapped exactly when its end, moved down by the start's offset in its page, is still in the last page |
| KernelImage.UnalignedSectionCutShort | kernel/mm/kernel_map.rs:147-153 | a section over two pages of which only the first is mapped |
| KernelImage.ImageTablesFew | kernel/mm/kernel_map.rs:105-113 | the tables of the image are at most one of level 1, two of level 2 and one of level 3 per 2 MiB its sections touch |
| KernelImage.BuildImage | kernel/mm/kernel_map.rs:105-113 | the same for all sections, the last one winning where they overlap, leaving every other translation as it was; built exactly when the pool can hold the missing tables of all of them |
| KernelRoot.BuildDevice | kernel/mm/kernel_map.rs:126-135 | the device page maps to the UART and nothing else changes; built exactly when the pool can hold its missing tables |
| KernelRoot.Build | kernel/mm/kernel_map.rs:92-103 | without overlapping regions, built exactly when every non-empty region is made of 2 MiB pieces and there is a frame for the root and each table of the map; then every address is what `KernelView.MappedAsLaidOut` says, nothing is both writable and executable by the kernel, and one frame is spent per table |
| KernelView.MappedAsLaidOut | kernel/mm/kernel_map.rs:19-135 | address by address, with the numbers of the layout: RAM at its linear address writable and not executable, the UART in the device window as device memory, data, bss and stack writable, rodata read-only, text read-only and executable, each at its image address; EL0 may access and execute nothing, and nothing else is mapped |
| KernelView.SteppedIsIn | kernel/mm/kernel_map.rs:147-153 | the offsets a section takes are those of the pages met by stepping a page at a time from its start below its end |
| KernelRoot.FramesForIsEnough | kernel/mm/kernel_map.rs:92-135 | the tables of the map, root included, are at most a sum over regions and sections that can be read off their bounds |
| KernelView.ReadOnlyAlias | kernel/mm/kernel_map.rs:32-119 | a byte of a read-only section can be written through some address exactly when it lies in RAM |
| EarlyMap.BuildFromPool | kernel/mm/kernel_map.rs:84-103 | from a fresh pool of 32 pages, without overlapping regions: built exactly when every region is made of 2 MiB pieces and the tables fit the pool; the page source has then given one page per table |
| EarlyMap.TextIsWritable | kernel/mm/kernel_map.rs:92-119 | with half a GiB of RAM and a small image at its load address the map is built from at most 15 pool pages, and the first byte of text has an executable read-only address and a writable one |
| BootMem.InsertKeeps | kernel/mm/bootmem.rs:86-99 | a reservation is added, nothing is lost, and the list stays sorted by base |
| BootMem.InsertPlace | kernel/mm/bootmem.rs:92-97 | the new region goes behind those that start no higher and in front of all others, which keep their order |
| BootMem.InsertCovers | kernel/mm/bootmem.rs:86-99 | a frame is reserved afterwards exactly when it was or lies in the new region |
| BootMem.HolesInExact | kernel/mm/bootmem.rs:117-135 | the holes of a region are exactly its frames in no reservation, for overlapping, nested and outside reservations too |
| BootMem.HolesInMaximal | kernel/mm/bootmem.rs:117-135 | the holes ascend, are not empty and cannot be made larger |
| BootMem.HolesExact | kernel/mm/bootmem.rs:115-137 | over all RAM: exactly the frames of RAM in no reservation |
| BootMem.HolesApart | kernel/mm/bootmem.rs:115-137 | each frame is handed out once exactly when every frame two RAM regions share is reserved |
| BootAllocator.BestFits | kernel/mm/bootmem.rs:139-158 | the highest candidate of the holes is the highest aligned place where the frames lie in one region and meet no reservation |
| BootAllocator.FramesTouched | kernel/mm/bootmem.rs:101-105 | rounding outward takes exactly the frames that hold a byte of the range |
| BootAllocator.FramesInside | kernel/mm/bootmem.rs:107-113 | rounding inward takes exactly the frames that lie in the range |
| BootAllocator.BootMemory.AddMemory | kernel/mm/bootmem.rs:76-84 | appends the region, or reports that all slots are taken |
| BootAllocator.BootMemory.AddMemoryBytes | kernel/mm/bootmem.rs:107-113 | appends the frames inside the range, if there are any |
| BootAllocator.BootMemory.Reserve | kernel/mm/bootmem.rs:86-99 | shifting in place inserts the region where the order by base wants it |
| BootAllocator.BootMemory.ReserveBytes | kernel/mm/bootmem.rs:101-105 | reserves the frames the range touches |
| BootAllocator.BootMemory.ForEachFree | kernel/mm/bootmem.rs:115-137 | the nested loops yield the holes, in order |
| BootAllocator.BootMemory.Alloc | kernel/mm/bootmem.rs:139-158 | places the frames at the highest place that fits and reserves exactly them; fails exactly when none fits |
| BootAllocator.BootMemory.RamSpan | kernel/mm/bootmem.rs:65-74 | the least span that holds all RAM |
| HandOff.HandOffLegal | kernel/core/main.rs:124-127 | every `free_range` of the hand-off gets reserved frames exactly when every frame two RAM regions share is reserved; then exactly the holes are free |
| HandOff.SharedFrameFreedTwice | kernel/core/main.rs:124-127 | two regions that share an unreserved frame: the hand-off is not legal |
| HandOff.HandOffMerged | kernel/core/main.rs:124-127 | the hand-off leaves no mergeable pair exactly when no two holes split a pair of buddies between them |
| HandOff.HolesTouchOnlyAtRegions | kernel/mm/bootmem.rs:115-137 | holes touch only where one RAM region starts at the end of another |
| HandOff.HandOffMergedWhenApart | kernel/core/main.rs:114-130 | so without adjacent RAM regions the allocator starts out complete |
| Boot.RamRegionsExact | kernel/core/main.rs:98-101 | the registered regions hold exactly the frames that lie whole in one memory range |
| Boot.BuildBootMem | kernel/core/main.rs:95-110 | memory holds the ranges' regions, the reservations are image and device tree; fails exactly for more than 128 regions |
| Boot.InitBuddy | kernel/core/main.rs:114-130 | the allocator spans RAM, the mem-map is of its size and at the highest place that fits, and exactly the frames of RAM that are neither reserved nor mem-map are free; every byte of every descriptor lies in the mem-map, so in no free frame; each way to fail, exactly |
| Boot.HandHoles | kernel/core/main.rs:124-127 | the callback loop frees exactly the holes |
| Boot.BootBuddy | kernel/core/main.rs:62-65 | from the device tree to the allocator: it spans RAM from its base address, the mem-map has its size and place, a frame is free exactly when it is whole RAM, holds no byte of image or device tree and is not mem-map; every byte of every descriptor lies in the mem-map; `free_frames` counts them; each way to fail, exactly |
| Kmain.HeldNeverGiven | kernel/core/main.rs:62-65 | over every run from the hand-off on, a frame of image, device tree, mem-map or no RAM is never free and never handed out unless a `free_range` names it |
| Kmain.StartBuddy | kernel/core/main.rs:62-65 | after the hand-off the page pool of the image is out of the allocator's reach, so the page source never gives a pool page again |
| Kmain.ReclaimTrampoline | kernel/core/main.rs:139-148 | since the hand-off the trampoline has stayed reserved, so reclaiming it is legal, and it leaves allocation complete if the hand-off did |
| Kmain.Reclaim | kernel/core/main.rs:139-148 | exactly the frames with an address in the trampoline become free, after any run of allocations and frees, and no mergeable pair appears |
| FrameSource.PageSource.BumpAllocPage | kernel/mm/frame.rs:47-55 | each call moves to the next page of the pool: page-aligned, in the pool, never given twice; the pool ends after 32 |
| FrameSource.PageSource.AllocPage | kernel/mm/frame.rs:57-66 | before the hand-off the next page of the pool, never given before, and none exactly after 32; from the buddy allocator just the page of one `alloc`, of no live block before and never a pool page |
| FrameSource.PageSource.OthersKeepValid | kernel/mm/frame.rs:57-66 | that survives any run of other users' calls to the buddy allocator |
| SlabLayout.SmallestFit | kernel/mm/slab.rs:22-36 | the class is the smallest that fits size and alignment; none exactly above 2048 |
| SlabLayout.SizeClassIndex | kernel/mm/slab.rs:26-36 | the search loop finds that class |
| SlabLayout.PageFilled | kernel/mm/slab.rs:39-41 | the objects of a page fill it exactly |
| SlabLayout.SlotsApart | kernel/mm/slab.rs:148-159 | two objects of any pages, one class per page, never overlap |
| SlabLayout.SlotAligned | kernel/mm/slab.rs:148-159 | an object has every power-of-two alignment its class is large enough for |
| SlabLayout.PagesOrderLeast | kernel/mm/slab.rs:101-107 | the order is the least whose block holds the request |
| Heap.LargeAlignedExactly | kernel/mm/slab.rs:85-91 | every heap that serves a large request of this size gives an address aligned as asked, if and only if the start of DRAM is aligned and the run is that large, or no heap serves it |
| SlabModel.PopWF | kernel/mm/slab.rs:140-145 | handing out the front object keeps every carved object on one list or live, and the totals |
| SlabModel.PushWF | kernel/mm/slab.rs:130-138 | so does taking a live object back |
| SlabModel.RefillWF | kernel/mm/slab.rs:148-159 | so does carving a page that was not carved before |
| SlabModel.SlotsDescend | kernel/mm/slab.rs:151-157 | a fresh page is handed out from its last object down to its first, each at its multiple of the class size |
| SlabModel.CarvedApart | kernel/mm/slab.rs:148-159 | carved objects of any classes are the same or do not overlap |
| Heap.LiveApart | kernel/mm/slab.rs:54-98 | live objects and large runs are pairwise disjoint, and none meets an object on a free list |
| Heap.SmallServed | kernel/mm/slab.rs:55-65 | a small request gets an object that was not live, large enough, aligned as asked |
| Heap.LargeServed | kernel/mm/slab.rs:85-91 | a large request gets a run that was not live, large enough, aligned as far as base and size go |
| Heap.AllocFails | kernel/mm/slab.rs:55-91 | a request fails exactly when its list is empty and no page is to be had, or no run of its order; above 4 MiB always |
| Heap.LargestServed | kernel/mm/slab.rs:85-107 | and a heap whose only free block is the largest serves a request of exactly 4 MiB |
| Heap.PutUndoesGet | kernel/mm/slab.rs:55-98 | releasing what was just given restores slab and buddy exactly when nothing was carved, or the buddy's own round trip restores it |
| Heap.StepInv | kernel/mm/slab.rs:54-98 | requests, releases and other users' calls keep slab and buddy consistent |
| Heap.RunSafe | kernel/mm/slab.rs:26-159 | in every state of every run: disjointness, and per class free plus live objects are pages carved times objects per page |
| HeapLayouts.AskTracked | kernel/mm/slab.rs:55-91 | a request served gets an address that no live request has, and every live address stays releasable with its own layout |
| HeapLayouts.StepTracked | kernel/mm/slab.rs:54-98 | so do releases and other users' calls |
| HeapLayouts.FreshTracked | kernel/mm/slab.rs:43-52 | a slab before its first request, over any well-formed buddy allocator, is where such runs start |
| HeapLayouts.RunServes | kernel/mm/slab.rs:26-159 | in every state of every run, each live address has the bytes its request asked for, disjoint from all others', aligned as asked for every size class, and beyond as far as base and run size go |
| Heap.LargeMisaligned | kernel/mm/slab.rs:85-91 | one page asked for with two-page alignment may come back at an odd frame |
| SlabAllocator.LockedSlab.Push | kernel/mm/slab.rs:130-138 | writing the link in the object pushes it on the list |
| SlabAllocator.LockedSlab.Pop | kernel/mm/slab.rs:140-145 | reading the link pops the front object, last in first out |
| SlabAllocator.LockedSlab.CarvePage | kernel/mm/slab.rs:151-157 | the loop pushes every object of the page once |
| SlabAllocator.LockedSlab.Refill | kernel/mm/slab.rs:148-159 | one page from the buddy allocator is carved for the class, or nothing changes |
| SlabAllocator.LockedSlab.Alloc | kernel/mm/slab.rs:55-66 | computes the model's request, including the null cases and the time before the buddy is up |
| SlabAllocator.LockedSlab.LargeAlloc | kernel/mm/slab.rs:85-91 | computes the model's large request |
| SlabAllocator.LockedSlab.Dealloc | kernel/mm/slab.rs:68-76 | computes the model's release |
| SlabAllocator.LockedSlab.LargeDealloc | kernel/mm/slab.rs:93-98 | gives the run back to the buddy allocator |
| SlabAllocator.LockedSlab.OwnerWrites | kernel/mm/slab.rs:110-114 | an owner may overwrite the word its object's link was in: no list changes |
| SpinLock.StepInv | kernel/builtin/sync.rs:29-60 | each step keeps: at most one guard, the flag says whether there is one, only the holder changes the data |
| SpinLock.MutualExclusion | kernel/builtin/sync.rs:29-60 | so in every interleaving; and the critical sections are serial, each finding what the one before left |
| SpinLock.NoLostUpdate | kernel/builtin/sync.rs:29-60 | in every interleaving of CPUs that add one under the lock, the counter has gone up once per finished section whenever the lock is free |
| SpinLock.FreeLockIsTaken | kernel/builtin/sync.rs:30-33 | a swap takes the lock exactly when no guard is out, and changes nothing otherwise |
| SpinLock.Uncontended | kernel/builtin/sync.rs:29-60 | on a free lock, `lock`, a write and the drop leave the written data, a free lock and one more finished section |
| LockedBuddy.SerialIsRun | kernel/builtin/sync.rs:29-60 | a serial history of operations on the allocator is one legal run, in the order of the log |
| LockedBuddy.LockedRun | kernel/mm/buddy.rs:144-188 | in every interleaving of CPUs that each do one legal operation under the lock: whenever the lock is free, and for each holder on entry, the allocator is what one run of all finished operations leaves, with every frame accounted for |
| Once.StepInv | kernel/builtin/sync.rs:86-110 | each step keeps: one winner at most, and storage and state as far as it has come |
| Once.InitialisedOnce | kernel/builtin/sync.rs:86-110 | in every interleaving at most one initialiser runs, and every value exposed is the whole one it made |
| Once.ValueIsStable | kernel/builtin/sync.rs:86-110 | from READY on no continuation changes the value |
| Once.GetAnswers | kernel/builtin/sync.rs:104-110 | `get` exposes the value that was made when the cell is READY at its check, and otherwise nothing, leaving no trace |
| Once.ExchangeWins | kernel/builtin/sync.rs:87-99 | the exchange is won exactly when nobody has won it before; the others wait |
| Once.WaiterAnswered | kernel/builtin/sync.rs:95-101 | a waiting CPU gets past its poll exactly when READY, and then gets the value that was made |
| Once.WinnerFinishes | kernel/builtin/sync.rs:92-101 | from any point, the winner's own steps lead to READY with the value its initialiser made, which it returns |
| Once.FirstCall | kernel/builtin/sync.rs:86-102 | an undisturbed first `call_once` returns what its initialiser made |
| Smp.SkipsPrimary | kernel/cpu/smp.rs:203-213 | the loop skips the primary, and `next_idx` numbers the other nodes in order, from 1 |
| Smp.StepInv | kernel/cpu/smp.rs:196-262 | each step keeps ids, data, stacks and the online word consistent |
| Smp.BringUpResult | kernel/cpu/smp.rs:196-287 | in every interleaving, stacks are disjoint live 64 KiB blocks; when Ok, ids 1 to n each have their data and stack, and up to 63 secondaries all have reported |
| Smp.BringUpEnds | kernel/cpu/smp.rs:196-229 | in every interleaving, bring-up has ended in Ok, TooManyCpus, OutOfMemory or Psci exactly when a step ended it so: the list was done, id 128 was asked for, no block for a stack was left, or the firmware refused; and it stays so |
| Smp.RefusalIsReported | kernel/cpu/smp.rs:221-222 | the firmware's error is returned exactly when it refused a CPU, which is then neither started nor online, while all before it are started |
| Smp.BringUpSafe | kernel/cpu/smp.rs:125-229 | with memory for the stacks, in blocks of any order, Ok means all reported, in all interleavings, exactly for at most 63 secondaries or from 128 on |
| Smp.SixtyFifthCpuMissed | kernel/cpu/smp.rs:125-229 | from 8 MiB handed over in one piece, a run with 64 secondaries returns Ok before the last has reported |

## Left out

- Weak memory ordering: atomic accesses are sequentially consistent steps.
- BootAllocator.BootMemory.AddMemoryBytes: addresses of 2^44 and more, whose frame numbers the code truncates to 32 bits, are excluded by a precondition.
- Boot.BuildBootMem: the same bound on the ranges of the device tree, the image and the device tree itself.
- KernelBuild.MapRegion: a region that reaches past the linear window, 2^46 bytes, is excluded by a precondition, since its addresses would fall into the device window.
- KernelLinear.BuildLinear: regions that reach past the linear window, 2^46 bytes, are excluded by a precondition, since their addresses would fall into the device window.
- KernelRoot.Build: the same bound on the regions, and sections lie in the image window.
- KernelImage.MapSection: a section lies in the image window, as `image_va_to_pa` asserts, and is not both writable and executable, as none of the kernel's are.
- KernelImage.BuildImage: the same for every section.
- EarlyMap.BuildFromPool: the same bounds as for `KernelRoot.Build`, and a pool below 2^48.
- The contents of pages: zero-filling, and the bytes of an object except the word its link is in.
- `PageInfo.count` and `flags`, which the allocator does not use.
- The fault when `1u64 << id` overflows in a profile with overflow checks: the release profile is modelled.
- `call_once` from inside its own initialiser, which waits for ever, and an initialiser that panics.
- Progress under fairness: the transition systems state safety; a swap on a free lock succeeds, but no CPU is promised a turn.
- PSCI, device-tree parsing, per-CPU areas, caches, TLBs, the assembly stubs, console and exception code: their results are inputs, or they are not part of this model.
- BootAllocator.BootMemory.ReserveBytes: an empty range at a page boundary, which the code rules out with a debug assertion, and addresses of 2^44 and more are excluded by a precondition.
- Boot.InitBuddy: RAM regions that share an unreserved frame are excluded, since the calls it would make are then illegal; `HandOff.HandOffLegal` shows that nothing less will do.
- Boot.BootBuddy: the bounds of `Boot.BuildBootMem` and `Boot.InitBuddy` together.
- Kmain.StartBuddy: the same bounds, and the pool lies in the image, as the linker puts it.
