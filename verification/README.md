# Verified models of the kernel's memory manager, scheduler and scheme calls

This project models six parts of the kernel in Dafny and proves what they promise. Each part has
step functions or methods that follow the code branch by branch, an independent specification, and
lemmas that connect the two for all inputs, all runs or all interleavings. `dafny verify
dfyconfig.toml` checks everything.

* **Copy-on-write address spaces** (`RefCount.dfy`, `Cow*.dfy`). The kernel state holds all page
  tables, reference counts, frame contents and free frames. `CowEager` is a memory in which every
  clone copies every page at once. The main theorem is that the lazy kernel refines it over whole
  runs; exactness of the counts and the protection of shared frames come with it. `CowHistory` and
  `CowReads` say the same without any state: what is read and reported follows from the calls made
  before. `CowDemand` and `CowOutcome` read off the state before a step whether it will panic or run
  out of memory, and at which page a clone stops; `CowStranded` which clones leave references that
  nobody can release. `CowMachine` has the same operations as loops over mutable fields.
* **Buddy frame allocator** (`Buddy*.dfy`). The ghost state is a tiling of the frames by naturally
  aligned blocks. The free lists are doubly linked through the page infos. Completeness, history
  independence, the merge and split loops, the boot-time cut and the lists it builds are proved
  against the tiling.
* **TLB shootdown** (`Shootdown*.dfy`). CPUs take atomic steps: lock, change a table, send, take a
  request, invalidate, acknowledge, switch. Safety and progress hold in every interleaving.
* **Grants and holes** (`Grant*.dfy`). The map of grants, its index of holes in bytes, and the loops
  of unmapping and mapping, stated page by page in terms of what backs each page.
* **Boot memory map** (`Boot*.dfy`). Interval subtraction and merging in a fixed array, and
  `BootStart.dfy`, which takes any registered map through the sorted areas, the page tables, the
  sections and the first free lists to a valid frame allocator.
* **Scheduler and scheme calls** (`Scheduler.dfy`, `Scheme*.dfy`). State machines with invariants
  over all runs, and a bound on waiting.

Numbers are unbounded; the 64-bit words of the reference counts, the saturating address arithmetic
at boot and the packed links are written out where they matter. Locks make the operations of the
copy-on-write model atomic; the shootdown model takes the protocol apart. Frames, pages, CPUs,
contexts and calls are natural numbers. Time, the choice of free frames, the outcome of callbacks, the
number of page tables made at boot, whether a caller still exists and whether copying back to it
succeeds are parameters.

## What the code does not promise

These are properties one might expect that are false of the code. Each has the exact condition and a
concrete input, except that no short run brings a count to its maximum.

* A count can stay above the number of its live holders after a clone that runs out of memory: the
  pages already copied for the unfinished grant are in no grant that could be dropped
  (`UnfinishedGrantStrands`), and a reference added for the copy of a private page on a shared frame
  is not given back (`FailedCloneStrands`). `StepStrandsIff` says from the state before a step
  whether this happens, `CountsAreLiveIff` what it means for whole runs.
* A user load or store panics when its page fault needs a frame and none is free (`LoadReports`,
  `StoreReports`, `StorePanics`). A clone panics when it reaches a shared page without a frame and no
  frame is free (`CloneReports`, `LazySharedClonePanics`), and a mapping panics when the static
  frame's count would overflow (`ZeroMapReports`).
* Freeing a block panics when the merged block would have frame 0 as its buddy
  (`MeetsFrameZeroIff`, `LowBlockPanics`). Boot would panic on frame 0 too, but only if no page table
  had been made before (`StartAllocator`).
* A call whose release cannot copy back to the caller's buffer leaves its captured pages mapped in the
  scheme for ever (`UnownedIffCopyFailed`, `LostForever`, `CopyBackLosesSpan`).
* Cutting a grant borrowed from another address space loses which source page is behind the pages
  after the cut point; cutting a physically contiguous grant makes the rest ordinary
  (`ExtractKeepsIff`, `BorrowedCutLosesSource`, `ReinsertRestoresIff`).
* Unmapping with `unpin` panics on a file mapping that is still pinned (`UnpinPanicsIff`,
  `MunmapInner`); `EINVAL` is never returned although the code has a branch for it (`NeverInvalid`).
* A call that finds its scheme unmounting, or that is killed and answered while its context still
  exists, leaves its slot occupied for ever (`UnmountingLeaksSlot`, `KilledLeaksSlot`); every other
  slot can be given back (`FreedIff`).
* The flusher clears its dirty flag only when its queue is empty, so a flush with queued frames is
  followed by a second one; the shootdown model has this, and it is harmless.
* The second emptiness test in `add_memory` and the wait for the request flag in
  `shootdown_tlb_ipi` never take effect (`AddMemory`, `TargetIsIdle`).

## Model

| member | source | states |
|---|---|---|
| `RefCounts.RawRoundTrip` | src/memory/mod.rs:891-914 | the packed word and the count convert into each other without loss, for every well-formed count |
| `RefCounts.AddThenRemove` | src/memory/mod.rs:786-823 | a reference added and removed again leaves the count as it was, up to the kind of a count of one |
| `RefCounts.PageRefCount.AddReference` | src/memory/mod.rs:786-805 | the read-modify-write sequence on the word adds one reference of the kind asked for, or refuses for one of three causes and leaves the word alone |
| `RefCounts.PageRefCount.RemoveReference` | src/memory/mod.rs:807-823 | the same for dropping a reference, including the last one |
| `CowRuns.LazyRefinesEager` | src/context/memory.rs:149-238 | in every run of mapping, reading, writing, cloning, unmapping and borrowing, every page reads what it would read if each clone had copied every page, shared pages stay one memory cell, and every step reports what the eager memory reports, except that it panics or runs out of memory exactly in the cases that StepReports reads off the state before it |
| `CowReads.ReadsLastStored` | src/memory/mod.rs:1009-1014 | in every run each page and each borrowed frame reads, byte by byte, the last value stored in the piece of memory it is, and zero where nothing was stored since it was mapped; told from the calls and their reports alone |
| `CowReads.ReportsFollowHistory` | src/context/memory.rs:2380-2484 | in every run each call that does not panic or run out of memory reports what the calls before it say: which pages and spaces exist, which accesses are allowed, which mappings and clones are rejected, what is read |
| `CowHistory.PrivatePagesAreAlone` | src/context/memory.rs:149-238 | only pages of shared grants are one piece of memory with other pages: what is stored in a private page is seen in no clone |
| `CowBytes.StepEffect` | src/context/memory.rs:149-238 | what each call does to every location, its rights, its aliases and its bytes |
| `CowRuns.ReachableIsConsistent` | src/debugger.rs:444-460 | after every step of every run each count is the exact number of references, a frame is in the allocator exactly when it has none, no entry on a copy-on-write frame is writable and none exceeds its grant |
| `CowRuns.ClonesShareFrames` | src/context/memory.rs:1591-1746 | right after a clone, a page of a shared grant and its image are one frame of kind Shared |
| `CowRuns.OneCellOneFrame` | src/context/memory.rs:2292-2333 | two locations that alias in the eager memory are on one frame of kind Shared |
| `CowSimulation.StepKeeps` | src/context/memory.rs:2380-2484 | every single step keeps the invariant and the relation to the eager memory |
| `CowSimulation.StoreStep` | src/memory/mod.rs:1009-1014 | a user store, with the fault it may cause, is the eager store; it panics exactly when the fault needs a frame and none is free |
| `CowSimulation.StoreBytes` | src/context/memory.rs:2433-2484 | a store that is done writes its byte in its page and in everything on the same shared frame, and no other byte that can be read changes |
| `CowSimulation.BorrowStep` | src/context/memory.rs:505-545 | borrowing a frame makes the page exclusive first and never reaches the unreachable branches |
| `CowSimulation.UnmapStep` | src/context/memory.rs:1899-1911 | unmapping drops exactly the pages named |
| `CowOutcome.StepReports` | src/context/memory.rs:149-238 | what every step reports is decided by the state before it: panics and out of memory exactly when a named cause holds, otherwise the report of the eager memory |
| `CowOutcome.CloneReports` | src/context/memory.rs:149-238 | a clone matches the eager clone; it panics exactly when the first page it cannot copy is a shared page without a frame, and runs out of memory exactly when it is another page |
| `CowOutcome.CloneFate` | src/context/memory.rs:149-238 | where a clone stops is given by free frames and counts before it, and what it leaves behind by the grant it stops in |
| `CowPanics.LazySharedClonePanics` | src/context/memory.rs:1631-1637 | a run of four steps, from boot without a free frame, in which cloning a shared page that has no frame panics |
| `CowOutcome.ZeroMapReports` | src/context/memory.rs:1235-1284 | mapping zeroed pages panics exactly when the count of the static frame would overflow |
| `CowOutcome.LoadReports` | src/memory/mod.rs:1009-1014 | a load reports what the eager memory reports: a refusal exactly without a grant or against its rights; and it panics exactly when an allowed access needs a frame and none is free |
| `CowOutcome.StoreReports` | src/memory/mod.rs:1009-1014 | the same for a store |
| `CowPanics.StorePanics` | src/memory/mod.rs:1009-1014 | a run of three steps, from boot without a free frame, in which a user store panics |
| `CowOutcome.BorrowReports` | src/context/memory.rs:505-545 | borrowing runs out of memory exactly when the write fault does or the count of the frame is full, and reports the same for a private page that is not writable |
| `CowOutcome.EnoughRoom` | src/context/memory.rs:1591-1746 | a free frame for each page and room in the counts are enough for any clone |
| `CowDemand.CopyPageOutcome` | src/context/memory.rs:1608-1727 | copying one page succeeds exactly when the frame or the reference it asks for is there, and takes exactly that |
| `CowDemand.CopyPagesOutcome` | src/context/memory.rs:1608-1727 | copying a grant stops at the page that prefix sums over the state before it foretell, with exactly the entries made until then |
| `CowDemand.CopyIsWritable` | src/context/memory.rs:1708-1727 | the entry of the copy is writable exactly when the page is shared and its grant writable |
| `CowPlain.StepPlain` | src/context/memory.rs:1613-1650 | a page of a shared grant is never on a copy-on-write frame other than the static one |
| `CowProofs.FaultKeeps` | src/context/memory.rs:2380-2484 | a fault is refused exactly when there is no grant, or it is a write without PROT_WRITE or a fetch without PROT_EXEC; it runs out of memory exactly when an allowed access needs a frame and none is free; otherwise nothing that can be read changes and the page is as writable as grant and count allow |
| `CowProofs.BreakCowKeeps` | src/context/memory.rs:2292-2333 | breaking a copy-on-write page keeps every count exact and every content |
| `CowProofs.BreakCowIsCode` | src/context/memory.rs:2433-2484 | the fault code on a copy-on-write page is that change |
| `CowProofs.FillKeeps` | src/context/memory.rs:2335-2351 | filling a lazy page with a zeroed frame is invisible |
| `CowClone.CopyPageKeeps` | src/context/memory.rs:1591-1746 | one iteration of copy_mappings, in every arm of both modes, is the eager copy of that page |
| `CowClone.CopyPagesKeeps` | src/context/memory.rs:1591-1746 | copying a grant copies a prefix of it, all of it unless memory runs out |
| `CowCopy.ShareCowKeeps` | src/context/memory.rs:1613-1657 | sharing copy-on-write protects both entries and copies the cell |
| `CowCopy.CopyOutKeeps` | src/context/memory.rs:1692-1708 | a shared source of a private clone is copied out |
| `CowCopy.ShareSharedKeeps` | src/context/memory.rs:1631-1657 | sharing a shared page makes the new page an alias |
| `CowCopy.MoveSharedKeeps` | src/context/memory.rs:1658-1690 | a copy-on-write page that must become shared moves to a new frame together with its clone |
| `CowCopy.LoseKeeps` | src/context/memory.rs:1692-1703 | a copy that runs out of frames loses a reference, invisibly |
| `CowSteps.DropKeeps` | src/context/memory.rs:2703-2726 | dropping one reference frees the frame exactly when it was the last |
| `CowSteps.StoreKeeps` | src/context/memory.rs:2433-2484 | a write through a writable entry reaches exactly the locations that alias it |
| `CowSteps.MapZeroKeeps` | src/context/memory.rs:1235-1284 | the eager part of zeroed maps the static frame copy-on-write |
| `CowSteps.HandedKeeps` | src/context/memory.rs:505-545 | a borrowed frame aliases the page it was taken from |
| `CowInvariant.GainReference` | src/memory/mod.rs:786-805 | adding one entry and one count keeps all counts exact |
| `CowInvariant.LoseReference` | src/memory/mod.rs:807-823 | removing one entry and one count keeps all counts exact, and the frame goes exactly with its last entry |
| `CowInvariant.SoleReference` | src/memory/mod.rs:824-834 | a count of one means one entry: a writable page is not shared by accident |
| `CowStranded.ExactIffNoneStranded` | src/memory/mod.rs:402-407 | counts equal the references of live holders exactly when no reference is stranded |
| `CowStranded.StepStrandsIff` | src/context/memory.rs:149-238 | a step strands a reference exactly when it is a clone that, judged by the state before it, stops inside a grant of which it has copied a page that was present or shared, or stops at a private page on a frame of kind Shared |
| `CowStranded.StrandedStays` | src/context/memory.rs:2225-2243 | a stranded reference is never released |
| `CowStranded.CountsAreLiveIff` | src/memory/mod.rs:402-407 | in every run all counts equal the live page-table entries, borrowed frames and the static reference exactly when no clone before has stranded a reference |
| `CowStranded.FailedCloneStrands` | src/context/memory.rs:1692-1703 | a run of five steps in which a failed clone leaves a count one above its live references |
| `CowStranded.UnfinishedGrantStrands` | src/context/memory.rs:1652-1690 | a run of three steps in which a clone gives up inside a grant and leaves the page it had copied |
| `CowMachine.AddressSpaces.Cow` | src/context/memory.rs:2292-2333 | the sole holder keeps its frame, any other gets a free one nobody else refers to, with the content it had; it fails exactly when others hold the frame and none is free, and no other frame changes |
| `CowMachine.AddressSpaces.HandleFreeAction` | src/context/memory.rs:2703-2726 | the frame leaves the counts and joins the pool exactly with its last reference, otherwise its count drops by one; nothing else changes |
| `CowMachine.AddressSpaces.InitFrameInPlace` | src/memory/mod.rs:1037-1051 | a frame is handed out unless none is free; it was referred to by nobody, is zeroed and has the count asked for, and no other frame changes |
| `CowMachine.AddressSpaces.CorrectFault` | src/context/memory.rs:2380-2484 | the in-place form agrees with the step function in every branch, keeps the relation, and refuses exactly what the grant does not allow |
| `CowMachine.AddressSpaces.UserStore` | src/context/memory.rs:2433-2484 | a store with its fault writes its byte where it should and nowhere else, in agreement with the eager store |
| `CowMachine.AddressSpaces.CopyOwnedInPlace` | src/context/memory.rs:1612-1727 | the loop body for private grants leaves the state of the proved step, in each of its exits |
| `CowMachine.AddressSpaces.CopyAwayInPlace` | src/context/memory.rs:1692-1708 | the arm for a shared source of a private clone, with the reference it loses when memory runs out |
| `CowMachine.AddressSpaces.ShareEntryInPlace` | src/context/memory.rs:1652-1727 | the loop body for shared grants leaves the state of the proved step, in each of its exits |
| `CowMachine.AddressSpaces.CopyMappings` | src/context/memory.rs:1591-1746 | the loop over one grant does to the kernel what copying its pages one by one does, up to the page where memory runs out |
| `CowMachine.AddressSpaces.UnmapPages` | src/context/memory.rs:1899-1911 | the loop removes exactly these pages, keeps all counts exact and keeps the relation to the eager memory |
| `CowMachine.AddressSpaces.MapZeroed` | src/context/memory.rs:1235-1284 | the first sixteen pages are mapped read-only to the static frame and the others not at all, and the relation to zeroed cells holds |
| `CowMachine.AddressSpaces.TryClone` | src/context/memory.rs:149-238 | the clone loop, successful or not, keeps the invariant and the relation to the eager clone |
| `CowMachine.AddressSpaces.DropHalfBuilt` | src/context/memory.rs:2225-2243 | dropping what a failed clone had built restores the eager state |
| `BuddyTiling.ServableIff` | src/memory/mod.rs:68-86 | some free block is large enough exactly when some naturally aligned run of that size is entirely free |
| `BuddyTiling.FreeRunInBlock` | src/memory/mod.rs:148-230 | every aligned run of free pages lies in one free block |
| `BuddyTiling.FreeBlocksAreCanonical` | src/memory/mod.rs:148-230 | which blocks are free is a function of the set of free pages |
| `BuddyTiling.HistoryIndependence` | src/memory/mod.rs:148-230 | equal sets of free pages have equal free blocks, whatever the history |
| `BuddyTiling.BuddyIsHead` | src/memory/mod.rs:161-196 | the sibling that the merge loop looks at is never an interior page of another block |
| `BuddyOps.AllocKeeps` | src/memory/mod.rs:115-136 | splitting keeps a maximal tiling and takes exactly one aligned run out of the free pages |
| `BuddyOps.MergeUpKeeps` | src/memory/mod.rs:154-215 | the merge loop gains only free pages and stops only where no free buddy is left |
| `BuddyOps.FreeKeeps` | src/memory/mod.rs:154-229 | freeing gives back exactly the pages of the block and keeps a maximal tiling |
| `BuddyOps.AllocThenFree` | src/memory/mod.rs:68-230 | allocating through any number of splits and freeing restores the same free blocks of every order |
| `BuddyLists.PackRoundTrip` | src/memory/mod.rs:270-287 | link and order share one word, the order in the low bits, without loss, frame 0 excepted |
| `BuddyLists.UnlinkKeeps` | src/memory/mod.rs:197-212 | unlinking leaves a well-formed doubly linked list of the other blocks |
| `BuddyLists.PushKeeps` | src/memory/mod.rs:216-226 | pushing to the front leaves a well-formed list |
| `BuddyAllocator.SiblingTest` | src/memory/mod.rs:161-196 | the test on the page info of the sibling is exactly whether it can be merged |
| `BuddyAllocator.MeetsFrameZeroIff` | src/memory/mod.rs:161-165 | freeing computes the frame at address 0, and panics, exactly when it completes a free run as far from address 0 as it is long |
| `BuddyAllocator.HighFramesNeverMeetZero` | src/memory/mod.rs:305-310 | that cannot happen when no frame below the largest block size is managed |
| `BuddyAllocator.FrameAllocator.Allocate` | src/memory/mod.rs:68-146 | none exactly when no aligned run is free; otherwise the smallest sufficient block is cut down, all lists and the used count stay right |
| `BuddyAllocator.FrameAllocator.FindOrder` | src/memory/mod.rs:77-86 | the first list that is not empty, and why there is none |
| `BuddyAllocator.FrameAllocator.SplitDown` | src/memory/mod.rs:115-134 | each half that is split off goes into a list that was empty |
| `BuddyAllocator.FrameAllocator.UnlinkSibling` | src/memory/mod.rs:197-212 | the sibling leaves its list wherever in it it stood |
| `BuddyAllocator.FrameAllocator.MergeFree` | src/memory/mod.rs:154-215 | the loop ends with the block that merging on the tiling ends with, and panics exactly when that block is as far from frame 0 as it is long |
| `BuddyAllocator.FrameAllocator.Deallocate` | src/memory/mod.rs:148-230 | exactly the pages of the block become free, all merging done, or the panic on frame 0 |
| `BuddyBoot.FreeListBuilder.MarkBumpPages` | src/memory/mod.rs:615-627 | exactly the pages below the bump offset are marked used |
| `BuddyBoot.FreeListBuilder.AppendPage` | src/memory/mod.rs:633-661 | a block goes to the end of the list of its order unless its head is below the bump offset |
| `BuddyBoot.FreeListBuilder.CutSection` | src/memory/mod.rs:669-726 | any section is cut into naturally aligned blocks that cover it once and of which no pair could be merged |
| `BuddyBoot.FreeListBuilder.CutSections` | src/memory/mod.rs:669-739 | all sections together give a consistent allocator |
| `BuddyBoot.InitSections` | src/memory/mod.rs:610-739 | after boot the allocator is valid, owns exactly the pages of the sections, and holds free exactly the blocks whose head is at or above the bump offset |
| `BuddyBoot.SectionMaximal` | src/memory/mod.rs:669-726 | no buddies are free across section boundaries either |
| `BuddyBoot.OneBlockStraddles` | src/memory/mod.rs:615-641 | the pages above the bump offset that boot gives up lie in a single block |
| `BuddySections.BuildSections` | src/memory/mod.rs:540-606 | the sections cover exactly the areas, touch only where the largest blocks begin and are no more than the section array has places; it panics exactly when frame 0 is in an area |
| `BuddySections.SectionsFit` | src/memory/mod.rs:509-524 | the section array is sized for every list of areas, touching and empty ones included |
| `BuddySections.CutArea` | src/memory/mod.rs:576-606 | one area, cut at section boundaries |
| `BuddyHistory.HistoryKeeps` | src/memory/mod.rs:68-230 | after any history the live blocks are exactly those handed out and not freed, in the sizes asked for, and the tiling is sound and maximal |
| `BuddyHistory.AllocateIsStep` | src/memory/mod.rs:68-146 | whatever the allocator hands out is a step of a history |
| `BuddyHistory.DeallocateIsStep` | src/memory/mod.rs:148-230 | and so is every free of a block that is held |
| `BuddyHistory.NeverRefusedInVain` | src/memory/mod.rs:68-86 | after any history a request is refused exactly when no aligned run is among the pages neither held nor reserved |
| `BuddyHistory.OrderDoesNotMatter` | src/memory/mod.rs:148-230 | two histories with the same outstanding blocks leave the same free blocks |
| `BuddyHistory.FreeIsTheRest` | src/memory/mod.rs:46-59 | free, live and reserved pages partition what is owned |
| `ShootdownRuns.FreeIsSafe` | src/context/memory.rs:2775-2816 | in every interleaving, when a flush frees its frames every CPU in used_by has finished its handler and caches only what the table now holds, and any other CPU with the table loaded is inside the switch |
| `ShootdownRuns.NothingFreedIsCached` | src/context/memory.rs:2801-2816 | a running CPU never caches an entry that was removed and whose frame has been handed back |
| `ShootdownRuns.RunInv` | src/percpu.rs:96-146 | membership in used_by means the space is current, requests belong to the flush of the current space, acknowledgements count finished handlers, in every reachable state |
| `ShootdownRuns.TableIsHistory` | src/context/memory.rs:2826-2845 | in every run an entry is in a table exactly when its last change under the guard put it there |
| `ShootdownRuns.CacheIsHistory` | src/percpu.rs:96-109 | in every run a CPU caches exactly what the hardware has filled in since its cache was last emptied |
| `ShootdownRuns.QueueIsHistory` | src/context/memory.rs:2826-2845 | in every run a flusher holds exactly what was queued since it last handed frames back |
| `ShootdownRuns.FlushLeavesDirty` | src/context/memory.rs:2775-2816 | a flush with something queued leaves the flusher dirty |
| `ShootdownRuns.AnythingMayHappen` | src/percpu.rs:74-146 | no access, guard, switch or page-table change is ruled out by the model |
| `ShootdownSteps.StepInv` | src/percpu.rs:74-146 | every step of every CPU keeps that |
| `ShootdownSteps.TargetIsIdle` | src/percpu.rs:74-84 | a request is never sent to a CPU that still has one, so the wait for the flag never spins |
| `ShootdownSteps.AllFinished` | src/context/memory.rs:2801-2804 | once the acknowledgements are in, every target has finished |
| `ShootdownSteps.RequestFacts` | src/percpu.rs:96-109 | who waits for a request, and that its target cannot leave the space meanwhile |
| `ShootdownSteps.FreshFree` | src/context/memory.rs:2775-2816 | no stale entry is left when the flush completes |
| `ShootdownProgress.NeverStuck` | src/percpu.rs:74-109 | unless everything is quiet some CPU can go on with what it has begun |
| `ShootdownProgress.StepDecreases` | src/percpu.rs:74-109 | each such step decreases a measure of unsent, unserved and unacknowledged requests |
| `ShootdownProgress.DrainIsBounded` | src/context/memory.rs:95-133 | without new work only so many steps are left, in any interleaving |
| `ShootdownProgress.StuckDrainIsQuiet` | src/context/memory.rs:95-133 | any run without new work that cannot be continued has every lock free and every request answered |
| `ShootdownProgress.SomeRunDrains` | src/context/memory.rs:95-133 | and every reachable state has such a run |
| `GrantInfos.Intersection` | src/context/memory.rs:767-772 | exactly the pages of both spans |
| `GrantInfos.ExtractSpans` | src/context/memory.rs:1957-2070 | the three parts are the span of the grant, in order |
| `GrantInfos.ExtractAt` | src/context/memory.rs:1957-2070 | what backs every page after the cut, for every provider |
| `GrantInfos.ExtractKeepsIff` | src/context/memory.rs:1957-2070 | a cut keeps what backs every page exactly when the span is the whole grant or the grant is neither borrowed from another space nor physically contiguous |
| `GrantInfos.BorrowedCutLosesSource` | src/context/memory.rs:2042-2050 | the two-page grant on which the general claim fails |
| `GrantInfos.NeverInvalid` | src/context/memory.rs:574-585 | EINVAL is never returned |
| `GrantInfos.UnpinPanicsIff` | src/context/memory.rs:2088-2110 | after unpinning, extraction panics exactly on file mappings that are still pinned |
| `GrantMap.ContainsIff` | src/context/memory.rs:839-846 | the lookup finds what a page-by-page scan would find |
| `GrantMap.ConflictsExact` | src/context/memory.rs:848-862 | the iterator yields exactly the grants that share a page with the span, ascending |
| `GrantMap.FirstConflict` | src/context/memory.rs:848-862 | its first element is the lowest of them |
| `GrantMap.InsertAttr` | src/context/memory.rs:978-1018 | insertion gives the new pages the attributes of the new grant and changes no other page |
| `GrantMap.InsertMerged` | src/context/memory.rs:985-1018 | no two adjacent mergeable grants remain |
| `GrantMap.MergedIffTogether` | src/context/memory.rs:2129-2144 | nothing is left to merge exactly when adjacent pages of anonymous memory with equal attributes are in one grant |
| `GrantMap.AnonymousIsCanonical` | src/context/memory.rs:985-1018 | the anonymous grants are a function of the attributes of the pages |
| `GrantMap.InsertGrantsOk` | src/context/memory.rs:978-1018 | grants stay disjoint and in range |
| `GrantMap.RemoveKeeps` | src/context/memory.rs:1019-1023 | removal clears exactly the pages of the grant |
| `GrantHoles.ReserveExact` | src/context/memory.rs:918-952 | reserving takes exactly the range out of the holes |
| `GrantHoles.UnreserveExact` | src/context/memory.rs:953-977 | giving back adds exactly the range |
| `GrantHoles.HolesCanonical` | src/context/memory.rs:918-977 | the holes are a function of the free bytes |
| `GrantHoles.FindFreeExact` | src/context/memory.rs:883-914 | with a page-aligned bound the span is free, at or above the bound and the lowest that fits; none means nothing fits |
| `GrantHoles.FindFreeAnyBound` | src/context/memory.rs:883-914 | with any bound the span is free; it is at or above the bound exactly when the bound is on a page or not inside the chosen hole |
| `GrantSpace.CanInsertIffUnused` | src/context/memory.rs:978-983 | a span conflicts with no grant exactly when its bytes are free in the index |
| `GrantSpace.InsertValid` | src/context/memory.rs:978-1018 | grants and holes stay a partition of the address space |
| `GrantSpace.RemoveValid` | src/context/memory.rs:1019-1023 | the same for removal |
| `GrantSpace.FindFreeCanInsert` | src/context/memory.rs:883-917 | whatever find_free returns passes the assertion in insert |
| `GrantSpace.UserGrants.ReserveRange` | src/context/memory.rs:918-952 | the stepwise changes of the hole index amount to taking the range out of one hole |
| `GrantSpace.UserGrants.UnreserveRange` | src/context/memory.rs:953-977 | the stepwise changes amount to growing the neighbouring holes over the range |
| `GrantSpace.UserGrants.Insert` | src/context/memory.rs:978-1018 | grants and holes stay a partition, equal adjacent anonymous pages are in one grant, only the new pages change attributes |
| `GrantSpace.UserGrants.Remove` | src/context/memory.rs:1019-1023 | grants and holes stay a partition, only the pages of the removed grant change |
| `GrantSpace.UserGrants.FindSpan` | src/context/memory.rs:883-917 | the found span in terms of the pages |
| `GrantUnmap.RoundKeeps` | src/context/memory.rs:588-646 | one round clears the first conflicting grant and everything up to its end |
| `GrantUnmap.OutsideKeptIff` | src/context/memory.rs:1957-2070 | a page outside the span keeps what backs it exactly when its grant is not met, or no pin is dropped and the cut is clean or the page lies before the cut of a borrowed grant |
| `GrantMapping.AddrSpace.UnmapGrant` | src/context/memory.rs:1879-1911 | present pages leave the table and their frames are queued once each, a contiguous run as one entry |
| `GrantMapping.ClearedByPages` | src/context/memory.rs:563-650 | unmapping stops exactly at the first pinned page of the span, with unpin at the first page pinned by a count |
| `GrantMapping.AddrSpace.CutGrant` | src/context/memory.rs:591-635 | the parts outside the cut go back into the map |
| `GrantMapping.AddrSpace.ClearGrant` | src/context/memory.rs:591-646 | one whole round, grants, page table and queue |
| `GrantMapping.AddrSpace.MunmapInner` | src/context/memory.rs:563-650 | on success nothing of the span is granted, every other page is as the cut leaves it, each present page is queued once in order; EBUSY exactly at the first pinned grant, with what was already cleared; the panic on a pinned file mapping exactly when unpinning; the pin count in a source address space is not part of it |
| `GrantMapping.AddrSpace.ChooseSpan` | src/context/memory.rs:672-704 | the span that mmap picks, and what picking it clears |
| `GrantMapping.ChoiceIsUnique` | src/context/memory.rs:672-704 | there is one such span at most |
| `GrantMapping.AddrSpace.Mmap` | src/context/memory.rs:660-720 | the conflict assertion in insert always holds; each error exactly when its cause holds, otherwise the span is as asked or the lowest that fits and the callback decides; grants, page table and queue afterwards |
| `GrantReinsert.ReinsertRestoresIff` | src/context/memory.rs:1957-2070 | extracting and reinserting the three parts restores what backs every page exactly when the cut is clean |
| `BootMap.Intersect` | src/startup/memory.rs:49-61 | exactly the addresses of both entries, none when there are none |
| `BootMap.Combine` | src/startup/memory.rs:63-73 | defined exactly when the entries touch, and then their union |
| `BootMap.AlignFacts` | src/startup/memory.rs:139-144 | rounding, with saturation at the last page boundary |
| `BootMap.MemoryMap.Register` | src/startup/memory.rs:82-101 | free memory rounds inwards and loses no whole page, everything else outwards; the panic exactly when the map is full |
| `BootAreas.FewAreas` | src/startup/memory.rs:242-271 | areas that do not touch are no more than the entries they start from |
| `BootAreas.MergeOne` | src/startup/memory.rs:242-266 | merging while swap-deleting never misses an area already passed |
| `BootAreas.SwapDeleteKeeps` | src/startup/memory.rs:261-263 | swap-delete removes exactly one area |
| `BootTable.AreaTable.AppendMerged` | src/startup/memory.rs:242-271 | the merging loop absorbs everything that touches, and there is always a slot |
| `BootTable.AreaTable.AddMemory` | src/startup/memory.rs:169-272 | adds exactly the addresses of the area that nothing reserves |
| `BootTable.AreaTable.AddFree` | src/startup/memory.rs:391-411 | the areas are disjoint, do not touch, and cover exactly the free memory within the limits that no other entry reserves |
| `BootStart.SortKeeps` | src/startup/memory.rs:410-411 | sorting the areas keeps what they cover and that they are apart |
| `BootBump.TakeEachFacts` | src/startup/memory.rs:274-301 | frames that the bump allocator gives out one at a time are the lowest usable ones, and run out exactly when there are not enough |
| `BootBump.BumpAllocator.TakeTables` | src/startup/memory.rs:427-430 | the page tables take exactly the lowest frames |
| `BootBump.ServeFacts` | src/memory/mod.rs:525-592 | whatever is asked for in whatever order, what is left is everything from one frame on |
| `BootBump.ArraysFit` | src/memory/mod.rs:509-592 | the section array and the page-info arrays have room for their elements, and no page more |
| `BootBump.InitFromBump` | src/memory/mod.rs:493-742 | the frame allocator owns exactly what the bump allocator had left at entry, and holds free only what it has left after the section array and the page infos; it panics on frame 0 exactly when that frame was left, and fails exactly when a request does not fit |
| `BootStart.StartAllocator` | src/startup/memory.rs:391-439 | from any registered memory map, any limits and any number of page tables: a valid allocator that owns exactly the usable frames but the lowest ones, which the page tables took, with every block above the bump allocator free and nothing that it used; success, lack of memory and the panic on frame 0 each exactly when its cause holds |
| `BootPanic.LowBlockPanics` | src/memory/mod.rs:305-310 | boot with memory that begins below a block size, allocate that block and free it: the free panics, for every order that leaves room for tables and arrays |
| `Scheduler.UpdateRunnable` | src/context/switch.rs:43-76 | eligible exactly when not running, allowed here, and runnable or blocked with a wake time that has come; such a blocked context is woken and nothing else changes |
| `Scheduler.RunningIsCurrent` | src/context/switch.rs:171-232 | over all runs on any number of CPUs a context runs exactly if it is current on a CPU, and on one only |
| `Scheduler.PickedWithinAffinity` | src/context/switch.rs:43-76 | a context is picked only within its affinity and never moves to another CPU |
| `Scheduler.PickedCouldRun` | src/context/switch.rs:43-76 | over all runs a picked context was runnable or blocked and due, and is runnable and running afterwards |
| `Scheduler.SwitchWakesDue` | src/context/switch.rs:56-76 | a switch changes status and wake time only of blocked contexts that are due and could run here |
| `Scheduler.NonePassedOver` | src/context/switch.rs:178-214 | a context that could run is passed over only for one that comes before it in the round |
| `Scheduler.BoundedWaiting` | src/context/switch.rs:171-215 | each switch that passes over an eligible context brings it nearer in the round |
| `Scheduler.WaitsLessThanContexts` | src/context/switch.rs:171-215 | so it is passed over fewer times than there are contexts |
| `Scheduler.ExitedIsLeft` | src/syscall/process.rs:34-61 | a context that has removed itself is left by the next switch, unless not even the idle context can run |
| `Scheduler.SwitchKeeps` | src/context/switch.rs:217-232 | one switch keeps the correspondence of running and current |
| `Scheduler.Switcher.Scan` | src/context/switch.rs:178-214 | finds the first eligible context of a range, the idle one skipped, and wakes exactly the due contexts it looked at |
| `Scheduler.Switcher.Select` | src/context/switch.rs:171-215 | the first eligible context in round-robin order, the idle context last |
| `Scheduler.Switcher.SwitchOn` | src/context/switch.rs:139-232 | the switch is a step of the run: one context stops, one starts, the correspondence of running and current holds |
| `SchemeProofs.TagNotReused` | src/scheme/user.rs:231-237 | a tag is not handed out while its answer is owed or its request queued |
| `SchemeProofs.AnswerReachesItsCall` | src/scheme/user.rs:1050-1105 | an answer goes to the slot of the call whose request was read, and to no other |
| `SchemeProofs.CancelMeansItsCall` | src/scheme/user.rs:352-364 | a cancelation that the scheme reads is never about another call under the same tag |
| `SchemeProofs.ReturnsItsAnswer` | src/scheme/user.rs:278-393 | a call returns the answer that the scheme gave to its request, unchanged, except that EINTR becomes EIO if the call never woke up without an answer; it never finds its slot gone |
| `SchemeProofs.FlaggedIff` | src/scheme/user.rs:324-378 | a call counts as canceling exactly when it has woken up without an answer |
| `SchemeProofs.CancelIsSent` | src/scheme/user.rs:364-378 | and goes on only after it has sent the cancelation |
| `SchemeSpans.StepSpanInv` | src/scheme/user.rs:1050-1105 | every step keeps it clear who unmaps the captured pages, whatever the scheme answers to whatever tag |
| `SchemeSpans.SpanHasOneOwner` | src/scheme/user.rs:1308-1339 | with any scheme the captured span is with the guard, with the slot of a killed call, unmapped once, or lost: exactly one of them |
| `SchemeSpans.MappedUntilAnswered` | src/scheme/user.rs:311-325 | as long as a call waits for its answer, even a killed one, its pages stay mapped in the scheme, whatever the scheme does |
| `SchemeSpans.UnownedIffCopyFailed` | src/scheme/user.rs:1308-1339 | over all runs a captured span is mapped and without an owner exactly when a release of its call failed to copy back |
| `SchemeSpans.LostForever` | src/scheme/user.rs:1308-1347 | and nothing unmaps it later |
| `SchemeSpans.CopyBackLosesSpan` | src/scheme/user.rs:1319-1330 | the run that loses a span, with an orderly scheme |
| `SchemeProofs.StepInv` | src/scheme/user.rs:278-393 | every step of callers and scheme keeps the invariant; in particular no request that was sent is lost, it is queued or owed and never both |
| `SchemeSlots.OrphanStays` | src/scheme/user.rs:278-288 | a slot whose call found the scheme unmounting, or was killed and answered later, is never given back |
| `SchemeSlots.FreedIff` | src/scheme/user.rs:278-393 | a slot can still be given back by some continuation exactly when it is not orphaned |
| `SchemeSlots.SlotsAreGivenBack` | src/scheme/user.rs:1050-1105 | the same for every slot at every moment of every run |
| `SchemeSlots.KilledLeaksSlot` | src/scheme/user.rs:1084-1091 | the run of a call that is killed and then answered, which leaks its slot |
| `SchemeSlots.UnmountingLeaksSlot` | src/scheme/user.rs:278-288 | the run that leaks a slot |
| `SchemeMachine.UserInner.NextTag` | src/scheme/user.rs:231-237 | the tag was free, so no owed answer can be taken for the new call |
| `SchemeMachine.UserInner.EnterWaiting` | src/scheme/user.rs:290-304 | publishing the call keeps the invariant over slots, queue, owed answers and spans |
| `SchemeMachine.UserInner.WakeUp` | src/scheme/user.rs:309-391 | a waking caller always finds its own slot, waiting or answered, and in each case does the step of the protocol |
| `SchemeMachine.UserInner.RespondTo` | src/scheme/user.rs:1050-1105 | every outcome of respond, whatever the scheme sends; who unmaps the pages stays clear, and an orderly scheme is never refused |

## Left out

- Copy-on-write model: grants with the providers PhysBorrowed, External and FmapBorrowed, physically contiguous and pinned grants, `mprotect` and `move`, page-table allocation failures, and the deferral of frees to the flusher queue (frees are immediate there; the shootdown model has the deferral).
- Refcount races under relaxed memory ordering: the copy-on-write steps are atomic.
- DropHalfBuilt: starts from a clone that failed in `copy_mappings`; other ways to drop an address space are unmapping steps.
- Buddy allocator: the contents of allocated memory, the flags and strategy arguments, and looking up a page info by binary search over the sections (the page infos are one map); freeing a block with another order than it was allocated with.
- Boot: which page tables `map_memory` needs (their number is a parameter), the rmm crate behind the bump allocator (its order of allocation is written out), and the second sort, of sections that are in order already.
- Shootdown: `move`, which holds two address-space guards; `borrow_fmap`, which pairs one space's CPU set with another's acknowledgement word; upgradeable reads (treated as writes); CPUs without an initialised per-CPU block; global pages and kernel mappings.
- UnmapGrant: that a partly unmapped physically contiguous run is later freed with a valid order is not claimed.
- MunmapInner: does not model the pin count of a file mapping in a source address space, nor the panic when unmapping the parts of a cut borrowed grant takes it below zero, because source address spaces are not part of the grant model; nor the list of file descriptions to notify.
- Mmap: overflow of the page count times the page size is not modelled; counts are in range.
- Grants: `mprotect` over several grants, `transfer`, and the source side of borrowed grants.
- Scheduler: the saving of registers, the context locks, signals, ptrace and the tick counter; the switch is atomic under its global lock.
- Scheme calls: tags beyond 32 bits, the parsing of packets, passing of file descriptors, the copying of buffers (whether copying back succeeds is a parameter), and liveness after a spurious wakeup.
- `cpu_set.rs` is modelled as a set; arch start-up, ACPI and device-tree parsing, logging, the other scheme handlers and the memory intrinsics are left out because they would only add easy members or need hardware.
