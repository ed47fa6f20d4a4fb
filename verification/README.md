# Verified model of the kernel

This project models the parts of a RISC-V kernel that keep deep invariants, and proves them:

- **Physical memory.** The binary buddy system (`Bits`, `BuddyModel`, `BuddyTheory`, `Buddy`,
  `BuddyRuns`), the chunk pools on top of it (`ChunkModel`, `ChunkSteps`, `HeapSteps`,
  `Allocator`), boot-time reservation (`Startup`) and the intrusive lists that carry the free
  lists (`ListHead`). The loops of the source are methods over a frame array and lists; the
  invariant ties the state and order recorded in every frame to list membership, speaks about
  everything outside one open block while a split or merge runs, and makes the free lists a
  function of the set of free pages.
- **Virtual memory.** Sv39 entries (`PteCodec`, RISC-V Privileged Architecture 20211203, section
  4.4), table trees (`PageTables`), the page-table code (`Mmu`, `AddressCopy` for `copy_pgd`,
  `TreeSize` for what a copy costs, `Teardown` for `free_pgd`), areas (`Vma`), the relational model of copy-on-write and demand
  paging with its census and its refinement of eager copying (`CowModel`, `CowCensus`,
  `CowInvariant`, `CowRefinement`, `CowAccess`), and the system calls and the fault handler over
  real tables, each proved to be a step of that model (`KernelState`, `KernelSteps`,
  `KernelRelease`, `KernelPopulate`, `Kernel`, with a concrete memory in `KernelWitness`). A
  step carries the pages it found free and the tables it lacked, so whether it succeeds is
  fixed by them. `PageBridge` makes the page allocator that `Mmu` assumes out of the allocator
  of `Allocator`.
- **Scheduling and deferred work.** The run queue, the scheduler and the reaper (`Scheduler`), and
  whole runs of them (`SchedulerRuns`);
  timers, their comparator, the task queue and nested task runs (`TimerTasks`).
- **Boot data.** The flattened device tree scanner byte by byte (`FdtMatch`, `FdtModel`, `Fdt`,
  `FdtProps`, `FdtReserved`; Devicetree Specification v0.4, section 5.4), and the newc archive
  and the directory tree built from it (`Cpio`, `RamfsModel`, `Ramfs`), over strings in memory
  (`ByteText`). `FdtFlat` and `CpioFlat` write any tree and any archive out as bytes and prove
  that these are read back.
- **Shared file handles** (`FileTable`).

`Wrappers` holds `Option` and the byte type.

Hardware appears as input: `rdtime` as nondecreasing readings, a page fault as an access the
entry refuses, a user load or store as a step the entry allows. An entry allows an access with
its U and A bits set, and D for a store, as on hardware that does not set them itself (section
4.3.1 of the privileged architecture). Preemption happens between
steps. Page numbers and addresses are unbounded numbers below the limits that the source states.

Where the code does not do what one would hope, the condition is a theorem:

- A load from a write-only area is killed before the first store and served after it
  (`CowAccess.ServedExactly`, `CowAccess.WriteOnlyLoadIsKilled`).
- When demand paging finds a free page but too few for the tables it lacks, the page stays
  allocated and unmapped. This happens exactly then (`Kernel.KernelMemory.DemandPage`,
  `CowAccess.LosesExactly`), the set `leaked` counts these pages, the pages in use are exactly
  the mapped ones if and only if it never happened (`CowAccess.FreedWithLastMapping`), and
  `KernelWitness` has a memory in which it does.
- The pool start is rounded up without shrinking the pool, so the pool stays inside the memory
  it was given exactly under the condition of `Startup.PoolInside`; `Startup.PoolOutside` has a
  memory for which it does not.
- With 32 reserved regions in the pool the frame array itself is not reserved
  (`Startup.BootMemory.StartupAlloc`, `Startup.FrameArrayUnprotected`).

## Model

| member | source | states |
|---|---|---|
| Bits.XorIsBuddy | lib/buddy.c:301 | for an index aligned to an order, exclusive-or with the block size is the other half of the block twice as large |
| Bits.AndIsAlignment | lib/buddy.c:197 | the mask test of `buddy_init` holds exactly for indices aligned to the block size |
| Buddy.BuddySystem.MarkBlock | lib/buddy.c:39-55 | the head gets state and order, the other pages of the block are its tails with order -1, nothing else changes |
| Buddy.BuddySystem.MarkReservedRange | lib/buddy.c:113-149 | a page becomes reserved exactly when the byte range touches it |
| Buddy.BuddySystem.Init | lib/buddy.c:154-212 | from any frames: the whole partition invariant, with exactly the pages that are not reserved free |
| Buddy.BuddySystem.AllocPages | lib/buddy.c:217-262 | null exactly when no index-aligned run of that many free pages exists (or the order is above 10); otherwise exactly the pages of one such run stop being free, and the invariant holds |
| Buddy.BuddySystem.FreePages | lib/buddy.c:264-339 | an allocated head of the pool releases exactly the pages of its block; any other pointer changes nothing; the invariant holds |
| Buddy.BuddySystem.Merge | lib/buddy.c:297-333 | merging an open block with its free buddies restores the invariant and frees exactly the block |
| Buddy.BuddySystem.Split | lib/buddy.c:240-250 | splitting down keeps the invariant outside the block still open and frees exactly the upper halves |
| BuddyTheory.FreeBlocksAreMaximalRuns | lib/buddy.c:297-332 | a block is on a free list exactly when it is a maximal index-aligned run of free pages |
| BuddyTheory.CanonicalLists | lib/buddy.c:177-208 | two states with the same free pages have the same blocks on every free list |
| BuddyTheory.AllocationIsComplete | lib/buddy.c:227-261 | some list of a sufficient order is nonempty exactly when an aligned run of free pages of the requested size exists |
| BuddyTheory.BlocksTileThePool | lib/buddy.c:154-339 | block sizes sum to the number of pages in the pool |
| BuddyRuns.AllocThenFreeRestores | lib/buddy.c:217-339 | allocating a block and freeing it restores every free list |
| BuddyRuns.FreeOrderIsIrrelevant | lib/buddy.c:264-339 | freeing the same blocks in any two orders ends with the same free lists |
| ListHead.Links.Add | lib/list.h:45-57 | inserting after the head puts the node in front of the sequence the ring stands for; nodes outside keep their links |
| ListHead.Links.AddTail | lib/list.h:59-62 | inserting at a position puts the node in front of it, or last at the head |
| ListHead.Links.Del | lib/list.h:64-75 | unlinking removes exactly that node and leaves it a ring of its own |
| ListHead.OtherListsStay | lib/list.h:45-75 | operations on one ring leave every disjoint ring as it was |
| ChunkModel.LiveAreDisjoint | src/allocator.c:357-411 | any two live allocations, chunks or blocks, do not overlap |
| ChunkModel.LiveIsInside | src/allocator.c:357-411 | a live allocation lies inside the pool and meets no free and no reserved page |
| ChunkSteps.RefCountIsLive | src/allocator.c:392-399 | in every pool page the count is the number of its live chunks and is at least one between calls |
| HeapSteps.TakeChunk | src/allocator.c:384-399 | taking the first free chunk keeps conservation and makes exactly that chunk live |
| HeapSteps.CutIntoChunks | src/allocator.c:92-130 | cutting a fresh page keeps conservation and makes nothing live |
| HeapSteps.GiveChunk | src/allocator.c:461-471 | giving back a live chunk keeps conservation and ends that chunk only |
| HeapSteps.ReturnPage | src/allocator.c:474-491 | returning a page whose last chunk was given back loses no live chunk and leaves no node in it |
| HeapSteps.TakeBlock | src/allocator.c:400-410 | taking a block makes exactly its first address live |
| HeapSteps.GiveBlock | src/allocator.c:500-510 | giving back a block ends exactly that allocation |
| Allocator.ChunkAllocator.FindPoolIndex | src/allocator.c:78-87 | the smallest of the pools of 16, 32, up to 2048 bytes that fits, -1 exactly above 2048 bytes |
| Allocator.ChunkAllocator.RoundupOrder | src/allocator.c:57-66 | the smallest order whose block holds that many pages |
| Allocator.ChunkAllocator.ExpandChunkPool | src/allocator.c:92-130 | a page that was free becomes a pool page with all its chunks in front of the free list, or none is free and nothing changes |
| Allocator.ChunkAllocator.Allocate | src/allocator.c:357-411 | success adds one live allocation of at least `size` bytes, less than twice as many from nine bytes on, and changes no other; failure changes nothing and, for 1 to 2147483647 bytes, happens only when nothing fits; reserved pages stay reserved; each call is a step of the runs that `Startup` speaks about |
| Allocator.ChunkAllocator.Free | src/allocator.c:414-511 | takes effect exactly on live allocations: a chunk ends, a block loses a reference and ends with the last; all others stay; anything else changes nothing |
| Allocator.ChunkAllocator.PageIncRef | src/allocator.c:513-520 | one more reference for a page of the pool and no other change; the invariant holds |
| Allocator.ChunkAllocator.GetPageRef | src/allocator.c:522-529 | the count of a page of the pool, 0 elsewhere |
| PageBridge.AllocPage | src/allocator.c:357-411 | `allocate(PAGE_SIZE)` fails exactly when no page is free and otherwise takes one free page with one reference |
| PageBridge.FreePage | src/allocator.c:500-510 | `free` on such a page drops one reference, and the page is free again exactly with the last |
| PageBridge.IncRef | src/allocator.c:513-520 | `page_inc_ref` on such a page adds one reference and takes nothing |
| PageBridge.PageTaken | src/allocator.c:400-410 | a request for one page does to the free pages and the counts what the page-table code assumes of its allocator |
| PageBridge.NoPageTaken | src/allocator.c:403-408 | it fails only when no page is free |
| PageBridge.PageFreed | src/allocator.c:500-510 | freeing such a page drops one reference and frees the page exactly with the last |
| PageBridge.PageShared | src/allocator.c:513-520 | `page_inc_ref` adds one reference to such a page |
| Startup.BootMemory.SetRegion | lib/buddy.c:83-111 | for any start and size of at least a page, the pool starts on the first page boundary at or above the start, and its size is the largest whole number of pages that exceeds neither the size nor 2 GiB; below a page it is 16 MiB at 0x81000000 |
| Startup.PoolOfIs | lib/buddy.c:83-111 | that description fixes the pool |
| Startup.PoolInside | lib/buddy.c:83-111 | for every start and size, the pool that is set lies inside the memory it was given exactly when that is at least a page and is cut off at the upper limit, starts on a page, or ends in a partial page that makes up for the rounding |
| Startup.PoolOutside | lib/buddy.c:89-90 | one page of memory from address 1 on gives a pool that ends behind it |
| Startup.BootMemory.Reserve | src/allocator.c:190-228 | a region with bytes inside the pool is recorded with exactly those, as long as fewer than 32 regions are; otherwise nothing changes |
| Startup.BootMemory.FindRoom | src/allocator.c:280-312 | the lowest page-aligned address of the pool from which no byte of the range lies in a recorded region, null exactly when there is none; the search ends |
| Startup.BootMemory.StartupAlloc | src/allocator.c:235-314 | the first 32 wanted regions with bytes inside the pool are recorded, clipped to it; the frame array gets the lowest place beside them, and its bytes are recorded if and only if fewer than 32 regions were |
| Startup.RecordedIs | src/allocator.c:190-228 | as many regions are recorded as have bytes inside the pool, up to 32, and with no more than 32 exactly their bytes are covered |
| Startup.BootMemory.AllocatorInit | src/allocator.c:319-351 | it fails exactly when no place for the frame array exists; otherwise exactly the pages that a recorded region touches are reserved, the others are free, and nothing is live |
| Startup.MarkRegions | src/allocator.c:335-339 | a page is reserved exactly when one of its bytes lies in a recorded region |
| Startup.LiveAvoidsRegions | src/allocator.c:335-346 | while those pages stay reserved, no byte of a live allocation lies in a recorded region |
| Startup.LiveAvoidsBoot | src/allocator.c:319-351 | from boot on, over every run of requests, releases and references: no byte of a live allocation lies in a wanted region while at most 32 have bytes inside the pool, or in the frame array of 40 bytes a page while fewer than 32 have |
| Startup.FrameArrayUnprotected | src/allocator.c:197 | with 32 one-byte regions in the pool not one byte of the frame array is reserved |
| PteCodec.EncodeDecode | src/mmu.c:107 | encoding a page-aligned address with ten flag bits loses nothing and fits 54 bits |
| PteCodec.DecodeEncode | src/mmu.c:111 | decoding and encoding again gives back the word |
| PteCodec.DecodeInjective | src/mmu.c:107-138 | the fields of a stored word determine it |
| PteCodec.ClearWord | src/mmu.c:200 | clearing W changes the W field and nothing else |
| PteCodec.SetWord | src/exception.c:127 | setting W changes the W field and nothing else |
| PteCodec.SplitWord | src/exception.c:121 | the word written by a split points at the new page, is writable and keeps every other flag |
| PteCodec.LinkWord | src/mmu.c:107 | the word that links a table is valid, has none of R, W and X, and points at the table |
| PteCodec.LiteralWords | src/mmu.h:15-22 | the bits of an entry by their numbers |
| PageTables.SetLeaf | src/mmu.c:133-139 | writing one leaf entry of an unshared tree changes exactly one translation of one root |
| PageTables.AddMid | src/mmu.c:96-108 | linking a zeroed middle table changes no translation and keeps the trees unshared |
| PageTables.AddLeaf | src/mmu.c:114-120 | the same for a leaf table |
| PageTables.MissingIs | src/mmu.c:98-120 | the tables missing on a walk are those whose places no frame holds |
| PageTables.WalkIsHardwareWalk | src/mmu.c:88-127 | for every address, the walk by page number finds the valid entry that the hardware finds by bits 30 up, 21 to 29 and 12 to 20 over tables linked by pointer entries; the user half ends at 0x4000000000 |
| PageTables.LinkIsWord | src/mmu.c:107 | the entry that links a table is the page number above ten flag bits of which only V is set |
| Mmu.PageTableCode.Pagewalk | src/mmu.c:88-127 | finds the leaf table of the page and changes no translation; with alloc it fails exactly when fewer pages are free than tables are missing on the walk, and takes exactly those or all that are left; without alloc it changes nothing, and null means no table |
| Mmu.PageTableCode.MapPagesAt | src/mmu.c:133-139 | every page of the range translates to its frame and flags exactly when there are pages for all the tables the range lacks, and otherwise the pages are used up and some page is skipped; every other translation is as before |
| AddressCopy.CopyPgd | src/mmu.c:158-213 | it succeeds exactly when a page is free for every table of the parent's address space, and takes that many: parent and child translate alike, all without W, every page gains one reference for each entry, other address spaces and every kernel half are as before; on failure only W bits of the parent's user half are cleared, counts, free pages and tables are as before |
| TreeSize.SameSize | src/mmu.c:173-207 | an address space that mirrors another table by table has as many tables |
| TreeSize.NoLarger | src/mmu.c:173-207 | without extra tables it has no more, and fewer when one is lacking |
| AddressCopy.Undone | src/mmu.c:173-189 | a copy, complete or not, followed by `free_pgd` of the child restores free pages, counts and tables |
| AddressCopy.CopyReleasable | src/mmu.c:173-189 | a copy may be torn down at any point |
| AddressCopy.ShareEntry | src/mmu.c:195-207 | one turn of the inner loop shares one entry and counts it |
| Teardown.FreePgd | src/mmu.c:218-239 | all tables of the address space are freed, each page loses one reference for every entry and is free exactly when none is left, other translations are as before |
| Teardown.TornIsOk | src/mmu.c:218-239 | what is left after teardown is again a set of unshared trees whose targets are allocated |
| Vma.InsertedOk | src/syscall.c:27-50 | inserting an area that overlaps none keeps the list sorted and disjoint and adds exactly it |
| Vma.InUseIs | src/syscall.c:16-25 | the overlap test accepts a range exactly when one of its addresses lies in an area |
| Vma.SearchEnds | src/syscall.c:65-81 | where the search ends is the lowest address from 0x10000000 on with that many free addresses |
| Vma.FindInserted | src/syscall.c:27-50 | afterwards an address is found in the new area or where it was found before |
| CowModel.EntryWord | src/exception.c:161-164 | the entry that demand paging installs has the bits V, U, A and D (0xD1), R when the area is readable or writable, W and X as the area says, and no other |
| CowInvariant.StepKeepsInv | src/exception.c:98-179 | every load, store, fault, mmap, populate, fork, failed fork, exec, reap and thread creation keeps the census, the agreement of entries with areas, and the areas sorted and disjoint |
| CowInvariant.DemandIsFresh | src/exception.c:134-172 | demand paging only runs on pages without a valid entry |
| CowCensus.SoleMapping | src/exception.c:111-128 | a page with count one has a single mapping in the whole system |
| CowAccess.CountsAreMappings | src/mmu.c:195-206 | over every run the count of a page that was not lost is the number of entries of all processes that map it, and an unused page is mapped by none |
| CowAccess.LosesExactly | src/exception.c:142-166 | a page is lost exactly in demand paging that finds a page but too few for the tables it lacks, and then one |
| CowAccess.OneLostEach | src/mmu.c:133-139 | over every run the lost pages are as many as these events |
| CowAccess.FreedWithLastMapping | src/allocator.c:500-510 | over every run the pages in use are exactly those that some entry maps if and only if none of these events happened |
| CowAccess.UsedExactlyWhileMapped | src/allocator.c:500-510 | a page is in use exactly while an entry maps it, or since it was lost |
| CowAccess.WritableIsSole | src/mmu.c:199-202 | a writable entry is the only mapping of its page |
| CowAccess.EntriesStayInAreas | src/exception.c:134-172 | over every run each valid entry is a user entry with A and D set, lies in an area of its process, grants no more than the area does, and is readable when writable |
| CowAccess.ServedExactly | src/exception.c:104-179 | an access is served exactly when an eagerly filled page would allow it and, if its page is not there yet, a page is free and it is no load from a write-only area |
| CowAccess.KilledExactly | src/exception.c:142-179 | the fault handler kills exactly the accesses that are not served, and changes nothing then |
| CowAccess.WriteOnlyLoadIsKilled | src/exception.c:136-143 | that exception is real, by a concrete state |
| CowAccess.OneFaultSuffices | src/exception.c:107-172 | one fault lets the access through exactly when it finds a page for the copy of a shared page, or a page and its missing tables for one that is not there |
| CowRefinement.FaultRefines | src/exception.c:98-179 | handling a fault changes no process's view of its memory |
| CowRefinement.StepRefinesEager | src/syscall.c:306-346 | every step is, on the views, the step of a machine that copies at fork and fills at creation |
| CowRefinement.RunRefinesEager | src/syscall.c:306-346 | over every run of any number of processes the views follow the eager machine |
| CowRefinement.EagerIsDeterministic | src/syscall.c:306-346 | the eager machine is deterministic, so the events alone fix what every process reads |
| KernelRelease.ReleaseReady | src/mmu.c:218-239 | the census makes the release of any task's address space safe |
| KernelRelease.LeftDone | src/syscall.c:286-289 | a torn-down address space stands for the relational release and leaves a good state |
| Kernel.KernelMemory.constructor | src/mmu.c:249-252 | after boot the kernel's root maps no user page and the invariant holds |
| Kernel.KernelMemory.MapKernel | src/mmu.c:260-291 | kernel ranges are mapped as asked and no process sees a difference |
| Kernel.KernelMemory.IsVmaOverlap | src/syscall.c:16-25 | true exactly when some address of the range lies in an area |
| Kernel.KernelMemory.AddVma | src/syscall.c:27-50 | the new area list is the sorted insertion |
| Kernel.KernelMemory.FindFreeVmaRegion | src/syscall.c:65-81 | the lowest address from 0x10000000 on from which no address of the range lies in an area; the range ends below 0x4000000000 exactly when some such range does; the search ends |
| Kernel.KernelMemory.FillPage | src/exception.c:150-160 | a page of zeros with the bytes the area's file has for it |
| Kernel.KernelMemory.BreakSharing | src/exception.c:107-131 | on real tables, a split or unsharing is the relational step and keeps the invariant; a split is put off exactly when no page is free |
| Kernel.KernelMemory.DemandPage | src/exception.c:142-169 | fails exactly when no page is free; the page is lost exactly when one is free but no more than there are missing tables; otherwise it is filled and mapped, and exactly these pages are taken |
| Kernel.KernelMemory.PageFault | src/exception.c:98-179 | on real tables, the whole page-fault branch is the relational fault step for the pages that are free and the tables that are missing, with the same verdict, and loses a page exactly when that step does |
| Kernel.KernelMemory.Fork | src/syscall.c:306-346 | on real tables, a fork succeeds exactly when the free pages are no fewer than the tables of the address space, takes that many, and is the relational fork; otherwise it only clears W bits |
| Kernel.KernelMemory.Exec | src/syscall.c:242-291 | on real tables, exec is the relational exec: empty map, old pages released; the areas are the image from address 0, rounded up to whole pages, and the stack from 0x3FFFFFE000 to 0x4000000000; other threads keep theirs |
| Kernel.KernelMemory.Mmap | src/syscall.c:606-644 | the area is placed at the usable hint or the lowest free range, and the run of relational steps taken is exactly the new area and then its pages in order, each with what the ones before left; it fails exactly when the free pages do not reach to the last page, and loses a page exactly when they run out between a page and its tables |
| KernelPopulate.StopsExactly | src/syscall.c:633-638 | the free pages run out between a page and its tables exactly when the loop stops, or ends, with more needed than there were |
| Kernel.KernelMemory.Reap | src/thread.c:212-222 | on real tables, reaping is the relational release |
| Kernel.KernelMemory.ThreadCreate | src/thread.c:273-295 | a new thread runs on the kernel's root without areas |
| KernelSteps.StoreDone | src/exception.c:98-179 | a user store that the entry allows keeps the invariant over real tables |
| KernelWitness.LastPageIsLost | src/exception.c:142-166 | one free page and an empty root: a state that satisfies the invariant, in which a store is about to lose the page |
| KernelWitness.FaultOnTheLastPage | src/exception.c:142-166 | the fault handler run on it reports the fault as handled and loses the page |
| FdtMatch.MatchPath | lib/fdt.c:29-45 | the two-cursor loop decides the text comparison |
| FdtMatch.MatchMeaning | lib/fdt.c:29-45 | for every node and query: the comparison accepts exactly nodes that answer component by component with optional unit address, and nodes below a unit-addressed match |
| FdtMatch.DescendantAccepted | lib/fdt.c:42-44 | a concrete node that is accepted although it does not answer |
| FdtModel.MatchFindsNode | lib/fdt.c:95-97 | a preorder search by the text comparison finds the first node that answers component by component, for every tree and query |
| Fdt.Push | lib/fdt.c:82-93 | the buffer holds the path of the open nodes after a node begins |
| Fdt.Pop | lib/fdt.c:98-112 | and after it ends |
| Fdt.PathOffset | lib/fdt.c:47-131 | on every flattened tree, byte by byte: the offset of the first node in preorder that the query names, -1 when there is none or the magic is wrong |
| FdtProps.GetProp | lib/fdt.c:133-183 | the value of the first property of that name before the node's children, null otherwise |
| FdtReserved.ParseRangeAndSize | lib/fdt.c:370-408 | nothing unless both properties are long enough and the request is not zero; otherwise the start of the range and as many bytes as were asked for, or the whole range if it is shorter, a range of no length being no bound |
| FdtReserved.ScanRegions | lib/fdt.c:460-524 | the depth-counting scan yields the requested element of the list of the children's regions |
| FdtReserved.GetReservedRegion | lib/fdt.c:421-525 | region number `index` of the node /reserved-memory: its own first, then one for each child that defines one, in order; nothing past the end |
| FdtFlat.BigIsRead | lib/fdt.c:51-57 | every word below 2^32 is read back from its four bytes, the highest first |
| FdtFlat.FlatIsRead | lib/fdt.c:62-128 | every tree written out token by token, as section 5.4 of the Devicetree Specification lays it out, is the tree that the scan sees, and it ends where the bytes end |
| FdtFlat.BlobIsRead | lib/fdt.c:47-62 | with a header and a strings block around it, the blob is one on which `PathOffset` and `GetProp` promise their answers, with the offsets where they were put |
| FdtFlat.FindInSample | lib/fdt.c:47-183 | the scanner run on a blob of 90 bytes, given byte for byte, finds "/m", "/m@8" and "/" at offsets 68, 68 and 40, nothing at "/m@", and the property value at 60 |
| FdtFlat.ExtentIsRead | lib/fdt.c:328-350 | start and size are read back from 64-bit numbers, high word first, or from 32-bit ones in 8 to 15 bytes; nothing from less |
| FdtFlat.SizeIsRead | lib/fdt.c:370-408 | a requested size is read back from 8 or from 4 bytes |
| FdtFlat.NamesAre | lib/fdt.c:421-525 | the names the scan looks for, as text |
| ByteText.SameString | lib/string.c:3-9 | equal exactly when that string stands there |
| Cpio.HexToInt | lib/cpio.c:33-43 | the loop of either header reader computes its digit-by-digit value |
| Cpio.HexReadersAgree | src/ramfs.c:74-86 | on letters and digits the two readers agree exactly when there is no lower-case letter |
| CpioFlat.HexIsRead | lib/cpio.c:33-43 | the hexadecimal digits of a number, upper-case and of any count that holds it, are read back as the number |
| CpioFlat.ArchiveIsRead | lib/cpio.c:8-24 | every list of files written out as a newc archive is the archive that the scan sees, entry by entry |
| CpioFlat.FileIsRead | lib/cpio.c:123-148 | and the first file of each name is found with its mode, its size and, byte for byte, its content |
| Cpio.InitrdGetFile | lib/cpio.c:123-148 | data and size of the first entry of that name, -1 when there is none |
| RamfsModel.ModesAre | src/ramfs.c:160 | directory and file by the type of the mode: 4 is a directory, 8, 10, 1 and 2 are files, and block devices (6) and sockets (12) count as directories |
| RamfsModel.DotIs | src/ramfs.c:138-141 | the entry passed over is the one called "." |
| RamfsModel.BuildIsExact | src/ramfs.c:124-188 | for every archive and path, what the insertion loop has made stand at the path, by the first entry at or below it |
| RamfsModel.TreeAgreesExactly | src/ramfs.c:124-188 | for every archive with normalised names: the tree has a file at a name's path exactly when the scan finds a file under the name and nothing hides it, with the same data and size |
| RamfsModel.TreeAgrees | lib/cpio.c:123-148 | without files that are path prefixes of other entries, tree and scan agree on every file, duplicates included |
| RamfsModel.HiddenFile | src/ramfs.c:155-182 | a concrete archive where a file hides what is below it |
| Ramfs.RamFs.Lookup | src/ramfs.c:220-234 | the first entry of the directory with that name; none in a file |
| Ramfs.NextToken | lib/string.c:63-102 | the next component and the rest, as the splitting function says |
| Ramfs.RamFs.AddEntry | src/ramfs.c:143-185 | the nodes then represent the path map with the entry inserted |
| Ramfs.RamFs.SetupMount | src/ramfs.c:109-191 | from the bytes of any archive: for every path, walking by lookups arrives at what the archive says stands there |
| TimerTasks.TimerSystem.AddTimerTicks | src/timer.c:107-138 | inserted behind all that expire no later; the comparator stays the earliest expiry; all invariants hold |
| TimerTasks.TimerSystem.HandleInterrupt | src/timer.c:144-172 | exactly the due timers leave the list, in order; the queue is the old one with their callbacks queued one after the other at priority 10; the comparator is the earliest left, or all ones |
| TimerTasks.TimerSystem.ComparatorIsEarliest | src/timer.c:134-172 | over every run the comparator holds the minimum pending expiry, or all ones |
| TimerTasks.TimerSystem.StartsInOrder | src/task.c:67-104 | over every run callbacks start in nondecreasing expiry order, ties as added, none twice and none early |
| TimerTasks.TimerSystem.AddTask | src/task.c:19-50 | the queue with the task behind everything of at least its priority |
| TimerTasks.QueuedTimers | src/task.c:34-45 | queueing keeps expired timers in delivery order |
| TimerTasks.TimerSystem.BeginTask | src/task.c:67-92 | starts the first queued task exactly when its priority is above the thread's, so nested runs have strictly increasing priorities |
| TimerTasks.TimerSystem.EndTask | src/task.c:96-103 | restores the priority from before |
| Scheduler.RunQueue.Enqueue | src/thread.c:19-28 | one circle with the thread behind the head |
| Scheduler.RunQueue.Create | src/thread.c:273-320 | a ready thread with a fresh pid joins the circle; idle stays at the head |
| Scheduler.RunQueue.Schedule | src/thread.c:81-150 | the thread that runs is ready or running, and all between the current one and it in the circle wait or have ended; it is the only one running; the search never fails; the statuses of all threads are given |
| Scheduler.PickedIsNext | src/thread.c:96-128 | what the search picks is the next thread in the circle that is ready or running |
| Scheduler.RunQueue.Sleep | src/thread.c:56-68 | the caller waits, another thread runs, and no other thread changes |
| Scheduler.RunQueue.WaitPid | src/syscall.c:381-412 | -1 exactly when no thread has the pid; a zombie is reported without waiting; otherwise the caller waits for that pid and another thread runs |
| Scheduler.RunQueue.Wake | src/thread.c:45-50 | a waiting thread is ready; nothing else changes |
| Scheduler.RunQueue.Exit | src/thread.c:325-338 | the caller is a zombie, its parent is woken exactly when it waits for this child or for any, another thread runs, and no other thread changes |
| Scheduler.RunQueue.Stop | src/syscall.c:433-474 | the thread with the pid becomes a zombie and its parent is woken as in an exit, unless it is one already; a caller that stops itself gives way; 0 exactly when a thread was stopped; no other thread changes |
| Scheduler.RunQueue.KillZombies | src/thread.c:156-237 | one pass leaves exactly the threads that are no zombies, in their order, within its iteration limit |
| SchedulerRuns.StepKeepsSteady | src/thread.c:81-150 | every operation keeps one circle headed by idle in which only the current thread runs |
| SchedulerRuns.NeverResumed | src/thread.c:104-117 | over every run a zombie keeps its status and is never current again, and from the next reaping on it is out of the circle |
| SchedulerRuns.WaitingStays | src/thread.c:45-68 | an operation ends the wait of a thread exactly when it wakes it, stops it, or ends a child it waits for |
| SchedulerRuns.WaitsUntilRoused | src/thread.c:104-117 | over every run a waiting thread goes on waiting and is never current until one of these happens to it |
| SchedulerRuns.RunsWithin | src/thread.c:96-128 | over every run, reaping included, a thread that stays runnable and is d places ahead runs within d decisions and one more for each thread created meanwhile |
| SchedulerRuns.EveryoneRuns | src/thread.c:96-128 | so it runs once there were as many decisions as threads |
| FileTable.FileHandles.VfsClose | src/vfs.c:145-152 | one reference less, freed with the last |
| FileTable.FileHandles.Open | src/syscall.c:650-677 | the first free slot gets a new handle with one reference, or nothing changes; the census holds |
| FileTable.FileHandles.Close | src/syscall.c:679-687 | an occupied slot is cleared and its handle loses a reference; the census holds |
| FileTable.FileHandles.Inherit | src/syscall.c:348-353 | the new thread shares every handle of its parent, each counted once more; the census holds |
| FileTable.FileHandles.CloseAll | src/thread.c:194-200 | all slots of the thread are cleared; the census holds |
| FileTable.OpenWhileHeld | src/vfs.c:145-152 | a handle is open exactly while some slot of some thread holds it |

## Left out

- Kernel.KernelMemory.Exec: assumes a free page for the new root, because the source does not check that allocation.
- Kernel.KernelMemory.Mmap: assumes that the chosen range ends below the user limit, because the source does not check it; the signed -1 result is None.
- Fdt.PathOffset: assumes names that are not empty and hold no slash, and paths that fit the buffer of 1024 bytes; the source checks neither.
- Ramfs.RamFs.SetupMount: assumes names shorter than 256 bytes, headers with upper-case digits, and memory for every node.
- Startup.BootMemory.StartupAlloc: takes the pool and the reserved regions as parameters instead of reading them from the device tree.
- Scheduler.RunQueue.Exit: assumes that a parent is still in the circle; the source keeps a pointer to it.
- Scheduler.RunQueue.Stop: the same assumption for the thread that is stopped.
- Kernel.KernelMemory.Fork: the kernel stack and the thread structure that fork allocates first are not counted.
- TimerTasks.TimerSystem.AddTimerTicks: assumes that the expiry does not overflow and that there is memory for the node.
- FileTable.FileHandles.Open: path resolution is a parameter, and opening a node succeeds, as it does in every file system of the kernel.
- Signal stacks and handlers: `sys_sigreturn` frees a remembered page, which is outside the census.
- Kernel stacks and thread structures in fork and reaping, apart from address spaces, areas and file slots.
- TLB fences, `satp`, saved registers and the switch of contexts.
- The printing, UART, PLIC, SBI, video and shell code, and the bootloader.
- devfs, tmpfs, mounts and path resolution in the virtual file system; reading from an open file.
- `init_uart_from_fdt`, the PLIC and timer lookups of the device tree: further uses of the same two searches.
- Minimum sleep time, and that `waitpid` returns only when its child has ended.
- Header fields of 0x80000000 and above, which the archive readers' `int` makes negative.
- Minimum pids, 32-bit overflow of counters and of `nr_threads`.
