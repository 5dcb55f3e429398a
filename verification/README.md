# Kernel verification

A Dafny model of the memory managers, scheduler, ext2 layer, paths and mounts of a small x86-64
kernel, with proofs. `dafny verify dfyconfig.toml` checks all of it.

The code that changes state in place is modelled by classes whose methods are proved against pure
functions; the theorems are about those functions and about every finite run of them (`Runs`).
Shifts and masks of unsigned words are written as division and remainder.

| component | modules | source |
|---|---|---|
| kernel heap | `HeapBlocks` (block lists), `HeapChoice` (which block is handed out), `KernelHeap` (headers in memory), `HeapRuns` (interleavings), `HeapMachine` (interleavings in memory) | `mem/kheap.c` |
| physical frames | `Frames` | `mem/pmm.c` |
| kernel pages | `PageEntries`, `KernelPages`, `KernelWalk` (as the CPU sees them) | `mem/paging.c`, `mem/paging.h` |
| address spaces | `PageMaps`, `PageBuild`, `AddressSpaces`, `SpaceRuns`, `Isolation`, `Memory` (with both allocators), `Forks` | `mem/paging.c`, `mem/pmm.c` |
| memory regions | `Regions` | `mem/paging.c`, `util/list.c` |
| scheduling | `Semaphores`, `Scheduler`, `SchedulerRuns`, `SchedulerHolders` (who holds the semaphores), `SchedulerMachine` (on linked lists) | `sched/sched.c`, `sched/thread.c` |
| ext2 | `Ext2Disk`, `Ext2File`, `Ext2ReadWrite`, `Ext2Inode`, `Ext2Descriptors`, `Ext2Alloc` | `fs/ext2/` |
| lists, paths, mounts | `LinkedList`, `ListPool`, `Tokens`, `PathBuffers`, `Paths`, `Mounts` | `util/list.c`, `util/stdlib.c`, `fs/vfs/` |

`Division` and `Options` hold what the others share.

Where the code does not meet a property it suggests, the code is modelled as it is and the property
is proved with the exact condition under which it holds:

- `kmalloc` drops its lock before growing the heap. Over every run from `kheap_init` a request makes
  at most two expansions exactly when there is at most one flow of control in the allocator, be it a
  processor or a thread that can be interrupted there (`TwoSufficeAlone`); with a second one it can
  make any number (`AnyNumber`).
- `page_kernel_alloc4k` asked for no pages marks one exactly when its first search finds room; that slot
  belongs to no range a caller asked for (`NoneTidy`).
- `page_clone_map` does not clear the directory pages. The clone agrees with the hardware walk
  exactly when no stale word under a copied table has the large-page bit (`CloneCoherent`). It copies
  entries and not pages, so it keeps isolation exactly when no page was present (`ForkShares`). A run
  in which both break is `Forks.Fork`.
- Address spaces stay isolated over every run of new spaces and new pages that asks for no more pages
  and frames than the two allocators have left; the first call beyond that comes back empty
  (`System.AnyRun`). The code goes on with the null it gets, and isolation or the shape of the address
  space is lost (`PageAnyway`); a run from `pmm_init` gets there (`RunOut`).
- `page_map_memory` ignores the top-level index: it takes effect exactly below 512 GiB of the 48-bit
  space (`MapTakesEffect`).
- `list_insert` leaves `cnt` alone and falls through at `cnt`: it inserts exactly below `cnt`
  (`InsertExact`), and the region list stays sorted exactly when that place is not met
  (`RegionSpace.Alloc`). Three calls on a fresh space meet it (`Regions.Twice`).
- `list_pop_back` leaves `head` set when it removes the only element (`List.PopBack`), so
  `vfs_mk_canonpath` faults exactly when a name follows a return to the root (`CanonMeaning`).
- `strtok` leaves its cursor one past the terminator. It finds the tokens of the text exactly when the
  text is empty, ends in a slash, or has a zero byte behind its terminator (`TokensExact`); a path that
  fills its buffer can gain a name from the next heap header (`ExtraWitness`).
- `strsplit` allocates no byte for the terminator: its copies stay in their blocks exactly when no part
  has a length that is a multiple of 16 (`SplitStays`). Otherwise the next header loses the low byte of
  its length, and the heap stays tiled exactly when that byte was zero or the block is the last
  (`ShortenedTiled`).
- `vfs_get_mountpoint` stops at an empty token: a mount is found by the same text exactly when no two
  slashes stand together before a name (`MountThenLookup`).
- `vfs_mkpath` joins a relative path without a slash (`MkPathJoins`).
- `schedule` spins with a blocked thread still current when nothing is ready: exactly then a thread
  is in two places (`StepKeeps`), and it can run on two CPUs (`TwiceRunning`). A run from idle CPUs
  gets there (`HeldReached`, `TwiceReached`).
- `mutex_release` and `sem_release` differ exactly when nothing is held (`UnlockAlike`).
- `ext2_read` and `ext2_write` take the end remainder as length even in the first block: they are
  right exactly for requests that start on or cross a block boundary (`ChunkSteps`, `Volume.Read`,
  `Volume.Write`). The test for growth is right exactly for files whose last block is at most half
  full (`GrowthGuard`).
- `ext2_write_inode` uses the inode number across groups and a 32-bit product: `WriteMisplaces` says
  exactly when it is right, which below 4 GiB is for the first group's inodes but the last.
  `ext2_inode_lba` is right exactly below 4 GiB (`ReadWraps`).
- `ext2_rewrite_bgds` always writes block 2: it is right exactly for 1024-byte blocks
  (`RewriteBlock`). The free count wraps exactly when it is zero with a clear bit left (`Conserved`).

## Model

| member | source | states |
|---|---|---|
| `HeapBlocks.RoundUpSound` | mem/kheap.c:77-79 | the rounded size is a multiple of 16 within 15 of the request exactly for requests up to 2^64 - 16; the last fifteen sizes wrap to zero |
| `HeapBlocks.SplitKeeps` | mem/kheap.c:30-49 | a split keeps the tiling: headers, lengths and both ends of the heap fit as before |
| `HeapBlocks.CombineForwardKeeps` | mem/kheap.c:12-23 | absorbing a free successor keeps the tiling and both ends |
| `HeapBlocks.TakeKeeps` | mem/kheap.c:92-109 | taking a fitting block keeps the tiling and both ends |
| `HeapBlocks.ReleaseKeeps` | mem/kheap.c:122-132 | freeing with both merges keeps the tiling and both ends |
| `HeapBlocks.ExpandKeeps` | mem/kheap.c:147-162 | growth at the tail moves the end by exactly one header and n bytes and keeps the tiling |
| `HeapBlocks.TakeCoalesced` | mem/kheap.c:92-109 | an allocation leaves no two free neighbours |
| `HeapBlocks.ReleaseCoalesced` | mem/kheap.c:122-132 | after kfree no two neighbours are both free |
| `HeapBlocks.ExpandCoalesced` | mem/kheap.c:147-162 | after growth no two neighbours are both free |
| `HeapBlocks.LiveApart` | mem/kheap.c:12-49 | in every tiled heap the payloads in use are pairwise disjoint |
| `HeapBlocks.TakeLive` | mem/kheap.c:92-109 | an allocation adds exactly one block in use, inside what was a free block |
| `HeapBlocks.ReleaseLive` | mem/kheap.c:122-132 | kfree removes exactly the freed block from those in use, however many merges follow |
| `HeapBlocks.ExpandLive` | mem/kheap.c:147-162 | growth changes nothing that is in use |
| `HeapBlocks.ReleaseUndoesTake` | mem/kheap.c:94-132 | kfree of a block just taken gives back the exact block list, splits and merges included |
| `HeapBlocks.ExpandServes` | mem/kheap.c:117-119 | after one growth the retry succeeds, at the tail, exactly when the tail was not a free block of no bytes; a failed retry cannot fail again |
| `HeapBlocks.KmallocBounded` | mem/kheap.c:75-120 | the expand-and-retry recursion ends after at most two expansions, two exactly when nothing fits and the tail is free and empty |
| `HeapBlocks.KmallocGrants` | mem/kheap.c:75-120 | kmalloc adds one block in use, of exactly the rounded size for a positive request, and leaves every other one where it was |
| `HeapBlocks.KmallocExtent` | mem/kheap.c:75-120 | the heap ends one header and n bytes further for every expansion and not otherwise |
| `HeapBlocks.KmallocCoalesced` | mem/kheap.c:75-120 | kmalloc with its expansions leaves no two free neighbours |
| `HeapChoice.AcceptedServes` | mem/kheap.c:92-109 | kmalloc accepts a free block exactly when the list stays tiled, with both ends, with an n-byte block in use in its place and nothing or one free block of at least 16 bytes behind it |
| `HeapChoice.KmallocChoice` | mem/kheap.c:75-120 | for a positive request kmalloc expands the heap exactly when no free block can be replaced like that; otherwise it hands out the lowest one that can, replaced in place |
| `HeapChoice.KmallocNothing` | mem/kheap.c:75-120 | a request for no bytes gets, whole, the lowest free block that is empty or longer than a header, and expands the heap exactly when there is none |
| `HeapChoice.KmallocAtEnd` | mem/kheap.c:75-120 | after an expansion the block handed out is cut from the tail that grew, and every block below it is as it was |
| `HeapBlocks.FirstNeighbours` | mem/kheap.c:75-120 | on a fresh heap requests for 16 and 32 bytes lie next to each other: behind the 16 bytes comes the header of the 32-byte block |
| `KernelHeap.LiveUntouched` | mem/kheap.c:12-49 | stores to headers and to free payloads reach no payload in use |
| `KernelHeap.CombineInPlace` | mem/kheap.c:18-22 | the stores of heap_combine_forward turn memory holding a block list into memory holding the merged list, with prev and next inverse again |
| `KernelHeap.SplitInPlace` | mem/kheap.c:30-49 | the stores of heap_split_block turn memory holding a block list into memory holding the split list |
| `KernelHeap.AppendInPlace` | mem/kheap.c:151-158 | the stores of kheap_expand append one free block to the list in memory |
| `KernelHeap.Heap.constructor` | mem/kheap.c:51-73 | the initial heap is one free block of no bytes that is first and last |
| `KernelHeap.Heap.CombineForward` | mem/kheap.c:12-23 | memory and last_block follow the merge of the block list; no payload in use changes |
| `KernelHeap.Heap.CombineBack` | mem/kheap.c:25-28 | the same for the merge into a free predecessor |
| `KernelHeap.Heap.SplitBlock` | mem/kheap.c:30-49 | memory and last_block follow the split of the block list; no payload in use changes |
| `KernelHeap.Heap.AllocSection` | mem/kheap.c:81-114 | the locked search takes the first block that fits, or changes no word when none does |
| `KernelHeap.Heap.Kfree` | mem/kheap.c:122-132 | memory follows the release on the block list, and no other payload in use changes |
| `KernelHeap.Heap.ExpandSection` | mem/kheap.c:147-162 | memory follows growth and its merge, and no payload in use changes |
| `KernelHeap.Heap.TryAlloc` | mem/kheap.c:81-114 | one pass hands out the payload of the first fitting block, zeroed |
| `KernelHeap.Heap.Kmalloc` | mem/kheap.c:75-120 | kmalloc terminates, refines the allocator on block lists, returns a zeroed payload and changes no word of any payload in use |
| `HeapRuns.StepSafe` | mem/kheap.c:75-162 | every locked section of any CPU keeps tiling, coalescing and the match between handed-out blocks and blocks in use |
| `HeapRuns.EveryRunSafe` | mem/kheap.c:75-162 | over every interleaving of any number of CPUs from kheap_init the heap is tiled, aligned, coalesced, and its blocks in use are disjoint and exactly those handed out and not freed |
| `HeapRuns.HeldUntilFreed` | mem/kheap.c:75-162 | a handed-out block stays in place with its length over every run that does not free it, and once returned it can be freed |
| `HeapRuns.AllFreedMeansWhole` | mem/kheap.c:122-132 | once everything is freed the heap is one free block again |
| `HeapRuns.LostRound` | mem/kheap.c:114-119 | because the lock is dropped before kheap_expand, another CPU can take the new block and the retry fails again |
| `HeapRuns.Unbounded` | mem/kheap.c:114-119 | from a starved state a request expands the heap any number of times without being served |
| `HeapRuns.StarvedFromBoot` | mem/kheap.c:51-120 | two flows of control get from kheap_init to such a state in five steps |
| `HeapRuns.AnyNumber` | mem/kheap.c:75-120 | from kheap_init with two flows of control or more, one request can make any number of expansions |
| `HeapRuns.TwoSufficeAlone` | mem/kheap.c:75-120 | over every run from kheap_init no request makes more than two expansions exactly when at most one flow of control uses the allocator |
| `HeapMachine.Machine.constructor` | mem/kheap.c:51-73 | the machine starts as kheap_init leaves memory, with all CPUs idle |
| `HeapMachine.Machine.Search` | mem/kheap.c:81-114 | a CPU's locked search in memory is the transition on block lists and changes no word of a payload in use |
| `HeapMachine.Machine.Grow` | mem/kheap.c:147-162 | the same for a CPU's expansion |
| `HeapMachine.Machine.Clear` | mem/kheap.c:98-107 | the memset outside the lock zeroes the block found and no other payload in use |
| `HeapMachine.Machine.Free` | mem/kheap.c:122-132 | the same for a CPU's kfree, which changes no other payload in use |
| `HeapMachine.Machine.AnyRun` | mem/kheap.c:75-162 | over any interleaving memory follows the run, links and last_block included, and a returned block that is not freed keeps every word its owner put there |
| `Frames.WithBitOnly` | mem/pmm.c:86-97 | the MSB-first mask sets or clears one bit of a byte and no other |
| `Frames.SetBitMarks` | mem/pmm.c:86-97 | a bitmap write is adding or removing one frame in the set of used frames |
| `Frames.MarkedPlace` | mem/pmm.c:78-84 | frame 8j + k is the bit k places behind the most significant one of byte j |
| `Frames.FrameMap.constructor` | mem/pmm.c:9-15 | initially exactly the frames that hold the low addresses are used |
| `Frames.FrameMap.Get` | mem/pmm.c:78-84 | reads membership in the set of used frames |
| `Frames.FrameMap.Set` | mem/pmm.c:86-97 | changes membership of one frame in place, of no other |
| `Frames.FrameMap.Reserve` | mem/pmm.c:17-33 | adds the frame of an address to the set |
| `Frames.FrameMap.Release` | mem/pmm.c:23-39 | removes the frame of an address from the set |
| `Frames.FrameMap.ReserveMany` | mem/pmm.c:41-57 | adds exactly the frames of a run of pages |
| `Frames.FrameMap.ReleaseMany` | mem/pmm.c:47-63 | removes exactly the frames of a run of pages |
| `Frames.FrameMap.Request` | mem/pmm.c:65-76 | returns the lowest frame not in use and marks it, or null exactly when all are in use |
| `PageEntries.SetUser` | mem/paging.c:27-30 | an entry given a frame and the user flags holds that frame, is present, writable and open to users, and keeps its large-page bit |
| `PageEntries.SetKernel` | mem/paging.c:27-30 | an entry given a frame and the kernel flags holds that frame, is present and writable, and keeps its user and large-page bits |
| `PageEntries.FrameOfAligned` | mem/paging.h:24-52 | an aligned address below 2^52 survives the frame mask |
| `PageEntries.UserIndices` | mem/paging.h:10-22 | below 512 GiB the top index is zero and the other three are the digits of the page number |
| `KernelPages.SlotRoundTrip` | mem/paging.c:337-341 | the address built for a slot decodes through PD_IDX and PT_IDX to that slot |
| `KernelPages.KernelSpace.constructor` | mem/paging.c:72-75 | initially no table is present and no slot in use |
| `KernelPages.KernelSpace.SearchPresent` | mem/paging.c:310-358 | finds the lowest run of free slots inside present tables, or none exists; a request for no pages looks for one |
| `KernelPages.KernelSpace.MarkPresent` | mem/paging.c:342-353 | marks exactly the slots of the run, across table boundaries |
| `KernelPages.KernelSpace.SearchAbsent` | mem/paging.c:360-377 | finds the lowest run of enough absent tables, or none exists; a request for no pages looks for one table |
| `KernelPages.KernelSpace.MarkAbsent` | mem/paging.c:379-398 | adds exactly those tables and marks exactly the first cnt of their slots |
| `KernelPages.KernelSpace.Alloc4k` | mem/paging.c:308-405 | returns the address of the lowest free run in present tables, otherwise of the lowest run of absent tables, and marks exactly the slots the address decodes to; asked for no pages it looks for one, and marks that one in the first case and none in the second |
| `KernelPages.KernelSpace.MapMemory` | mem/paging.c:150-163 | gives exactly the named slots consecutive frames |
| `KernelPages.KernelSpace.Free4k` | mem/paging.c:407-417 | clears exactly the named slots |
| `KernelPages.AllocatedWasFree` | mem/paging.c:308-405 | the run handed out was unused whichever search found it, and its tables are present afterwards |
| `KernelPages.AllocTidy` | mem/paging.c:308-405 | a new range misses every live range, and live ranges still cover exactly the used slots |
| `KernelPages.NoneTidy` | mem/paging.c:333-353 | a request for no pages keeps live ranges and used slots in step exactly when no slot of a present table is free |
| `KernelPages.MapTidy` | mem/paging.c:150-163 | mapping inside a live range keeps ranges and used slots in step |
| `KernelPages.FreeTidy` | mem/paging.c:407-417 | freeing a live range removes exactly it |
| `KernelPages.EveryRunTidy` | mem/paging.c:308-417 | over any run of alloc, map and free the live ranges are disjoint, cover exactly the used slots, and every used slot lies in a present table |
| `KernelWalk.SlotPlace` | mem/paging.c:337-341 | slot g is at 0xffffffffc0000000 + 4096g, a canonical address with index 511 on the two upper levels |
| `KernelWalk.SlotWalk` | mem/paging.c:46-57 | with entry 511 of the top level leading to the kernel PDP and its entry 511 to the heap directory, the walk of slot g passes directory entry g / 512 to table g / 512 and reads its entry g % 512; users have no access |
| `KernelWalk.EveryRunWalks` | mem/paging.c:308-417 | after any run of alloc, map and free the CPU finds a page at a slot exactly when the slot is in use, the one its entry holds, never for users |
| `KernelWalk.MapsWalk` | mem/paging.c:150-163 | after a mapping the CPU finds the slots at consecutive frames, writable and closed to users, and every other slot where it was |
| `PageMaps.WalkAgrees` | mem/paging.c:83-121 | at every user address the four-level walk of section 4.5 of the Intel SDM, Volume 3A, finds what page_getphys returns, exactly when the directory entry passed is not marked as a large page |
| `PageMaps.WalkFinds` | mem/paging.c:83-121 | without large-page bits the walk ends at the frame of the page entry exactly when that entry is present, writable and open to users when the entry is |
| `PageMaps.KernelSeen` | mem/paging.c:185-196 | the walk of any address outside the first 512 GiB is that of a top level that holds the kernel's entries |
| `PageMaps.OtherSpace` | mem/paging.c:129-176 | what one address space writes into its own structures neither breaks nor changes another |
| `PageMaps.MkTableKeeps` | mem/paging.c:165-176 | a new table keeps the address space well-formed and every translation as it was |
| `PageMaps.SetPageKeeps` | mem/paging.c:129-148 | writing one page entry changes that translation and no other; the page is present, writable and open to users |
| `PageBuild.TopBuilt` | mem/paging.c:183-204 | the two top levels are well-formed as soon as they are written: entry 0 leads to the PDP, the others are the kernel's |
| `PageBuild.DirBuilt` | mem/paging.c:205-218 | each directory added keeps the part built so far and its translations |
| `PageBuild.CopyBuilt` | mem/paging.c:275-289 | a copied table translates as the source page does and leaves earlier cells alone |
| `PageBuild.NullBuilt` | mem/paging.c:284-288 | a cell without a table translates nothing and leaves earlier cells alone |
| `PageBuild.PartIsWhole` | mem/paging.c:183-230 | when all rows are built the address space is well-formed |
| `AddressSpaces.TrIsGetphys` | mem/paging.c:83-121 | page_getphys depends on the page number only |
| `AddressSpaces.Paging.MkTable` | mem/paging.c:165-176 | the address space gains a table, translations of all address spaces stay |
| `AddressSpaces.Paging.MapPage` | mem/paging.c:129-148 | one round of the mapping loop sets one translation, makes the table if missing, and touches no other page or address space |
| `AddressSpaces.Paging.MapMemory` | mem/paging.c:129-148 | page v + 4096k translates to p + 4096k for every k below cnt across table, directory and PDP carries, the last write counting where a run comes round; every other page and address space is as before |
| `AddressSpaces.MappedWalks` | mem/paging.c:129-148 | to the CPU every page mapped is there, at its frame, writable and open to users, and every other address leads where it did with the same rights |
| `AddressSpaces.Paging.MkMap` | mem/paging.c:183-230 | a new address space holds the kernel, translates nothing else, agrees with the hardware walk and leaves the others alone; exactly five pages and one for each directory are drawn |
| `AddressSpaces.Paging.CloneMap` | mem/paging.c:232-294 | the clone holds the kernel, every cell of it holds what the source holds, every other address space is left alone, and exactly five pages and one for each directory and each table are drawn |
| `AddressSpaces.MapTakesEffect` | mem/paging.c:129-148 | mapping an address is seen by page_getphys exactly when its top-level index is zero (or the frame is 0); otherwise the page below 512 GiB with the same lower indices is remapped |
| `AddressSpaces.PageNumber` | mem/paging.h:10-22 | two addresses share their three lower indices exactly when their page numbers agree modulo 2^27 |
| `SpaceRuns.CleanIsCoherent` | mem/paging.c:83-121 | without large-page bits the shadow structure and the hardware walk agree at every user address |
| `SpaceRuns.CoherentIsClean` | mem/paging.c:83-121 | and they agree everywhere only then |
| `SpaceRuns.CloneCoherent` | mem/paging.c:232-294 | because page_clone_map does not clear directory pages, a clone agrees with the hardware walk exactly when no stale word under a copied table has the large-page bit |
| `SpaceRuns.Perform` | mem/paging.c:129-294 | create, clone and map keep every address space well-formed, agreement included, and change only the one they name |
| `SpaceRuns.AnyRun` | mem/paging.c:129-294 | over any run, an address space no map call names translates as at the start, so a clone and its source never affect each other; and every address space sees the kernel as the kernel's own top level does |
| `SpaceRuns.CoherentRun` | mem/paging.c:129-230 | over any run of page_mk_map and page_map_memory, page_getphys agrees with the hardware walk at every user address of every address space |
| `Isolation.IsolatedApart` | mem/paging.c:129-230 | in isolated address spaces the hardware walk never gets to one frame from two pages, and never to a frame that holds a page structure |
| `Isolation.ReachesOwned` | mem/paging.c:83-121 | where the walk gets to from an address is the frame handed out for that page of that address space |
| `Isolation.ForkShares` | mem/paging.c:232-294 | page_clone_map copies entries, not pages: isolation survives a clone exactly when the parent has no page present |
| `Isolation.NullPage` | mem/paging.c:129-148 | when pmm_request gave null and page_map_memory goes on, the address spaces are no longer isolated |
| `Isolation.NullTable` | mem/paging.c:165-176 | when it gave null for a table, the address space is no longer well-formed once the page is mapped in it |
| `Memory.OneSlot` | mem/paging.c:308-405 | a request for one kernel page fails exactly when no slot is free, and otherwise takes one free slot and no other |
| `Memory.TakeFrame` | mem/pmm.c:65-76 | pmm_request takes one clear frame, or returns null exactly when there is none |
| `Memory.TakePage` | mem/paging.c:308-405 | page_kernel_alloc4k(1) takes one free page, or none exactly when there is none |
| `Memory.TakePair` | mem/paging.c:165-170 | a page and a frame mapped to each other leave both allocators with exactly the others |
| `Memory.System.constructor` | mem/pmm.c:9-15 | after pmm_init and paging_init the pages and frames left are all slots and all frames above the reserved ones |
| `Memory.System.Draw` | mem/paging.c:165-170 | what the page code uses as unused is what the allocators hand out, distinct from everything in use |
| `Memory.System.NewSpace` | mem/paging.c:183-230 | page_mk_map keeps the address spaces isolated and coherent and draws exactly 517 pages and frames, or stops exactly when there are fewer |
| `Memory.System.NewPage` | sys/syscall/syscall.c:80-84 | a page mapped to a frame from pmm_request keeps them isolated and draws one frame, and a page and a frame more exactly when its table is missing |
| `Memory.System.AnyRun` | sys/syscall/syscall.c:80-84 | any run of both gets through exactly when its calls are no more than the pages and frames left, and isolation holds throughout; its tables are then those the calls name, so runs chain; otherwise it stops at the first call that comes back empty |
| `Memory.System.PageAnyway` | mem/paging.c:129-176 | with too few frames left the code maps frame 0: isolation is lost when the table is there, and the address space is no longer well-formed when it is not |
| `Memory.LastFrame` | sys/syscall/syscall.c:80-84 | from pmm_init and paging_init one address space and one address mapped again and again take the last frame |
| `Memory.RunOut` | sys/syscall/syscall.c:80-84 | one page more and the address spaces are no longer isolated |
| `Forks.Parent` | mem/paging.c:129-230 | on memory used before, an address space with one page of its own, isolated and coherent |
| `Forks.Fork` | mem/paging.c:232-294 | its clone shares the page, and the walk no longer agrees with page_getphys about the clone, as it does about the parent |
| `Regions.InsertExact` | util/list.c:138-159 | list_insert before an existing node is an insertion exactly for indices below cnt; at cnt the region is there twice, beyond it the null node is dereferenced |
| `Regions.TwiceUnsorted` | util/list.c:138-159 | a list with a region twice is no longer sorted and disjoint |
| `Regions.PlaceSorts` | mem/paging.c:448-485 | inserting at the place the search found keeps the list sorted and disjoint |
| `Regions.InsertedSorted` | mem/paging.c:419-441 | inserting by start address keeps the list sorted and disjoint exactly when the range was free |
| `Regions.RegionSpace.Search` | mem/paging.c:443-485 | finds the least base from 4096 on whose range misses every region, and its place in the list |
| `Regions.RegionSpace.Alloc` | mem/paging.c:443-500 | allocates the least free base, fails only when no range ends below KERNEL_VIRTUAL_ADDR, and leaves the list sorted and disjoint exactly when the place is not cnt of a longer list |
| `Regions.RegionSpace.AllocAt` | mem/paging.c:419-441 | takes the place by start address; the list stays sorted and disjoint exactly when the range was free and cnt was not met |
| `Regions.Twice` | mem/paging.c:419-500 | on a fresh space a region at 64 KiB and two pages after it leave the second page in the list twice |
| `Semaphores.StepSound` | sched/sched.c:440-462 | an acquire or a release by a holder keeps holders, counter and wait list in step |
| `Semaphores.EveryRunSound` | sched/sched.c:431-462 | over any run the holders are as many as curr_cnt, never more than max_cnt, and nobody waits while a unit is free |
| `Semaphores.ReleaseWithin` | sched/sched.c:456-462 | a release without the holder discipline keeps curr_cnt within max_cnt exactly when someone waits or the count is not zero |
| `Semaphores.WaiterAdvances` | sched/sched.c:440-462 | every release moves each waiter one place forward, whoever else arrives |
| `Semaphores.WaiterServed` | sched/sched.c:440-462 | the waiter at place k is granted its unit by the (k+1)-th release |
| `Semaphores.LockAlike` | sched/sched.c:472-486 | mutex_acquire and sem_acquire with max 1 act alike |
| `Semaphores.UnlockAlike` | sched/sched.c:488-494 | mutex_release and sem_release act alike exactly when there is something to release |
| `Semaphores.Bisimilar` | sched/sched.h:72-79 | a mutex and a semaphore of one unit simulate each other step for step |
| `Semaphores.MutualExclusion` | sched/sched.c:464-494 | at most one thread holds a mutex, over any run |
| `Scheduler.ScheduleConserves` | sched/sched.c:55-98 | schedule moves threads between CPU and queue and neither loses nor duplicates one |
| `Scheduler.ScheduleKeeps` | sched/sched.c:55-98 | schedule keeps every thread in one place, in a state that fits the place |
| `Scheduler.SpawnKeeps` | sched/thread.c:7-29 | a spawned thread is in exactly one run queue |
| `Scheduler.AcquireKeeps` | sched/sched.c:440-454 | an acquire, with its block and reschedule, keeps every thread in one place if a unit is free or another thread is ready |
| `Scheduler.ReleaseKeeps` | sched/sched.c:456-462 | a release, with the wake-up and reschedule, keeps every thread in one place |
| `Scheduler.ExitKeeps` | sched/thread.c:105-108 | an exit keeps every thread in one place if another thread is ready |
| `Scheduler.StepKeeps` | sched/sched.c:55-98 | a step keeps every thread in exactly one place exactly when it does not end in the idle spin with a blocked or ended thread still current |
| `Scheduler.SpinBreaks` | sched/sched.c:96-97 | after such a spin the thread is in two places |
| `Scheduler.CurrentsDiffer` | sched/sched.c:55-98 | two CPUs never run the same thread |
| `SchedulerRuns.EveryRunOnePlace` | sched/sched.c:55-98 | from idle CPUs, over any run on any number of CPUs, every spawned thread is current on one CPU, once in one run queue, once in one wait list, or exited |
| `SchedulerRuns.ExitIsFinal` | sched/thread.c:105-108 | a thread that has exited is never current, queued or waiting again |
| `SchedulerRuns.StepMoves` | sched/sched.c:61-76 | no step of any CPU takes a thread out of a run queue but from the front, or puts one in but at the back |
| `SchedulerRuns.DispatchedInTurn` | sched/sched.c:61-76 | the thread at place k is dispatched by exactly the (k+1)-th completed schedule of its CPU, whatever interleaves |
| `SchedulerRuns.SpawnBalances` | sched/thread.c:7-29 | any run of spawns keeps the thread counts of the CPUs within one of each other |
| `SchedulerRuns.TwiceRunning` | sched/thread.c:71-84 | a thread that blocks with an empty queue and is released on another CPU is then current on both |
| `SchedulerRuns.HeldReached` | sched/sched.c:55-98 | from two idle CPUs two threads come to run, one on each, with the first holding the only unit of a semaphore |
| `SchedulerRuns.TwiceReached` | sched/thread.c:71-84 | when the second then asks for the unit and the first releases it, both CPUs run the second; an exit there leaves a thread in two places as well |
| `SchedulerHolders.Projects` | sched/sched.c:440-462 | seen from one semaphore, a step of the scheduler is an acquire or a release of the thread that runs, or nothing |
| `SchedulerHolders.EveryRunHeld` | sched/sched.c:440-462 | over any run on any number of CPUs in which only holders release, a semaphore has as many holders as its counter says, never more than its units, and nobody waits while a unit is free |
| `SchedulerHolders.SpawnedHere` | sched/thread.c:7-29 | a new thread joins the back of the queue of the first CPU with the fewest threads, and nothing else moves |
| `SchedulerHolders.TickedHere` | sched/sched.c:55-98 | a tick puts the thread that runs at the back of its CPU's own queue and runs the head; alone it runs on |
| `SchedulerHolders.ExitedHere` | sched/thread.c:105-108 | an exit removes the thread that runs for good and runs the head of its CPU's queue |
| `SchedulerHolders.WokenHere` | sched/thread.c:71-84 | a release with waiters puts the first of them at the back of the releasing CPU's queue, or runs it there at once exactly when that queue was empty, the releasing thread going behind it |
| `SchedulerHolders.BlockedHere` | sched/sched.c:448-452 | an acquire without a unit puts the caller at the back of the wait list and runs the head of its CPU's queue |
| `ListPool.Push` | util/list.c:21-43 | a push on one of several lists that share no node leaves the others as they were and all of them proper |
| `ListPool.Pop` | util/list.c:80-96 | the same for taking the first element |
| `ListPool.Add` | util/list.c:3-8 | a new list shares nothing with the others |
| `SchedulerMachine.Kernel.constructor` | arch/x86_64/smp.c:41-42 | the lists of n CPUs are empty and separate, and stand for idle CPUs |
| `SchedulerMachine.Kernel.Schedule` | sched/sched.c:55-98 | on run queues kept as linked lists, schedule requeues and dispatches as the transition says |
| `SchedulerMachine.Kernel.LeastBusy` | sched/thread.c:11-21 | the loop over thread lists finds the first CPU with the fewest threads |
| `SchedulerMachine.Kernel.Spawn` | sched/thread.c:7-29 | the search and the pushes on two lists are the spawn transition |
| `SchedulerMachine.Kernel.SemCreate` | sched/sched.c:431-438 | a new semaphore has a wait list of its own that shares no node with any other list |
| `SchedulerMachine.Kernel.SemAcquire` | sched/sched.c:440-454 | counter, wait list, thread state and reschedule are the acquire transition |
| `SchedulerMachine.Kernel.Unblock` | sched/thread.c:71-84 | thread_unblock on the linked run queue, with its test of cnt, is the wake-up transition |
| `SchedulerMachine.Kernel.SemRelease` | sched/sched.c:456-462 | the hand-off from the wait list to the run queue, or the lowered counter, is the release transition |
| `SchedulerMachine.Kernel.Exit` | sched/thread.c:105-108 | thread_block with the killed state is the exit transition |
| `SchedulerMachine.Kernel.AnyRun` | sched/sched.c:55-98 | over any run from idle CPUs the linked lists follow the model and hold every thread in exactly one place |
| `Ext2Disk.BlockBySectors` | fs/ext2/super.c:80-83 | reading or writing the sectors of a block address is reading or writing that block |
| `Ext2Disk.WriteBlock` | fs/ext2/inode.c:114-117 | a block write changes that block and no other |
| `Ext2File.SlotsDistinct` | fs/ext2/inode.c:37-80 | direct, single and double indirect slots are in bounds and different for different logical blocks |
| `Ext2File.DirectBlock` | fs/ext2/inode.c:44-47 | logical block a below 12 is the one pointer a of the inode names |
| `Ext2File.SingleBlock` | fs/ext2/inode.c:48-57 | logical block 12 + a is the little-endian number at byte 4a of the block that pointer 12 names |
| `Ext2File.DoubleBlock` | fs/ext2/inode.c:58-72 | with bpp pointers in a block, logical block 12 + bpp + a * bpp + b is the little-endian number at byte 4b of the block that is named at byte 4a of the block that pointer 13 names |
| `Ext2File.NoBlock` | fs/ext2/inode.c:73-78 | above these the answer is block 0 |
| `Ext2File.SameLookup` | fs/ext2/inode.c:37-80 | a lookup depends on the pointer blocks it consults and nothing else |
| `Ext2File.Overwrite` | fs/ext2/inode.c:114-117 | overwriting one data block changes that block of the file only, and no lookup |
| `Ext2ReadWrite.ChunkSteps` | fs/ext2/file.c:9-40 | chunks follow each other without gap, and their lengths sum to size exactly for requests that start on or cross a block boundary |
| `Ext2ReadWrite.ChunkFits` | fs/ext2/file.c:24-37 | a copy leaves its buffers exactly for the other requests |
| `Ext2ReadWrite.SpliceStep` | fs/ext2/file.c:76-98 | a chunk written to its block extends the spliced range of the flat file |
| `Ext2ReadWrite.Volume.GetInodeBlk` | fs/ext2/inode.c:37-80 | the three branches with their pointer-block reads compute the logical-to-physical map |
| `Ext2ReadWrite.Volume.ReadInodeBlk` | fs/ext2/inode.c:109-112 | reads the contents of a logical block |
| `Ext2ReadWrite.Volume.WriteInodeBlk` | fs/ext2/inode.c:114-117 | changes the disk in the logical block only |
| `Ext2ReadWrite.Volume.Read` | fs/ext2/file.c:5-44 | returns size bytes exactly for the requests ChunkSteps names, and what it returns is a slice of the flat file |
| `Ext2ReadWrite.Volume.Write` | fs/ext2/file.c:46-102 | succeeds exactly for those requests; the file becomes the old one with the data spliced in, and every block the file does not own stays |
| `Ext2ReadWrite.ReadAfterWrite` | fs/ext2/file.c:5-102 | a read of any range after a write gives new bytes inside the written range and old bytes outside |
| `Ext2ReadWrite.ReadBack` | fs/ext2/file.c:5-102 | reading the written range returns what was written |
| `Ext2ReadWrite.GrowthGuard` | fs/ext2/file.c:53-66 | the test for growth admits only requests that fit the file's own blocks exactly when the last block is at most half full |
| `Ext2Inode.ReadWraps` | fs/ext2/super.c:67-73 | ext2_read_inode reads the right byte exactly when it lies below 4 GiB |
| `Ext2Inode.WriteMisplaces` | fs/ext2/inode.c:9-24 | ext2_write_inode finds a descriptor and writes where the inode belongs exactly for inodes that are not the last of their group and whose group starts a multiple of 4 GiB into the tables; while the 32-bit product does not wrap, exactly for the first group's inodes but its last |
| `Ext2Inode.GroupPlace` | fs/ext2/super.c:55-65 | inode g * per_group + i + 1 is the i-th of 128 bytes each in the table of group g |
| `Ext2Inode.InodeStore.ReadInode` | fs/ext2/inode.c:26-35 | returns the 128 bytes at the computed position, for every inode of every group |
| `Ext2Inode.InodeStore.WriteInode` | fs/ext2/inode.c:9-24 | changes the 128 bytes at the computed position and no others |
| `Ext2Inode.ReadAfterWrite` | fs/ext2/inode.c:9-35 | in the first group, its last inode apart and below 4 GiB, a read after a write returns the inode written, and every other one is unchanged |
| `Ext2Descriptors.DecodeEncode` | fs/ext2/ext2.h:149-160 | a descriptor is read back from its 38 bytes as it was |
| `Ext2Descriptors.ImageLoads` | fs/ext2/super.c:126-137 | a block that starts with the array of descriptors gives every one of them back |
| `Ext2Descriptors.ImageBytes` | fs/ext2/ext2.h:149-160 | descriptor k starts at byte 38k, its bitmap block and its free count being little-endian numbers at bytes 0 and 12 |
| `Ext2Alloc.SetBitOnly` | fs/ext2/super.c:101-103 | setting a clear bit changes no other bit |
| `Ext2Alloc.MarkedOnly` | fs/ext2/super.c:101-104 | marking a block changes no other bit of the bitmap |
| `Ext2Alloc.BitPlace` | fs/ext2/super.c:101-103 | bit 8j + k is the one worth 2^k of byte j, and marking it adds just that |
| `Ext2Alloc.MarkedCount` | fs/ext2/super.c:101-104 | marking lowers the number of clear bits by one |
| `Ext2Alloc.RewriteBlock` | fs/ext2/super.c:126-137 | descriptors are written back where they were loaded from exactly on volumes with 1024-byte blocks |
| `Ext2Alloc.GroupAllocator.FindClear` | fs/ext2/super.c:95-101 | finds the lowest clear bit, clear in the value of its byte, or the bitmap is full |
| `Ext2Alloc.GroupAllocator.RewriteBgds` | fs/ext2/super.c:126-137 | the descriptor block then loads as the descriptors in memory, keeps its other bytes, and no other block changes |
| `Ext2Alloc.GroupAllocator.AllocBlock` | fs/ext2/super.c:85-118 | takes the first clear bit of the first group that has one, decodes it to the number returned and saves the lowered free count; nothing changes exactly when every bitmap is full |
| `Ext2Alloc.Conserved` | fs/ext2/super.c:103-107 | used bits plus free counts stay constant exactly when the group's free count was not zero |
| `Ext2Alloc.NumbersDistinct` | fs/ext2/super.c:110-110 | different bits stand for different numbers exactly when a group has as many blocks as bitmap bits, or there is one group |
| `Ext2Alloc.EveryRunSound` | fs/ext2/super.c:85-118 | over any run of allocations no number is returned twice, every returned one is marked, and the counts match the bitmaps |
| `LinkedList.List.constructor` | util/list.c:3-8 | an empty list has null head and tail |
| `LinkedList.List.PushBack` | util/list.c:21-43 | the node structure stays a proper doubly linked list of the old values and the new one at the back |
| `LinkedList.List.PushFront` | util/list.c:61-78 | the same at the front |
| `LinkedList.List.PopFront` | util/list.c:80-96 | removes and returns the first value, the last one included |
| `LinkedList.List.PopBack` | util/list.c:45-59 | removes and returns the last value; the structure stays proper exactly when it did not have one element, which leaves head set |
| `LinkedList.List.Get` | util/list.c:98-113 | returns the node at an index, null beyond the end |
| `LinkedList.List.Remove` | util/list.c:115-136 | unlinks the node at an index and keeps the others in order |
| `Tokens.StrSplit` | fs/vfs/path.c:3-34 | collects the non-empty parts between separators |
| `PathBuffers.SplitStays` | fs/vfs/path.c:9-20 | all parts strsplit collects and copies stay inside their blocks exactly when no part has a length that is a multiple of 16 |
| `PathBuffers.TerminatorPlace` | fs/vfs/path.c:17-18 | the terminator of a copy lies in the block kmalloc took exactly when the length is not a multiple of 16; otherwise it is the first byte of the next header, or the end of the heap |
| `PathBuffers.ShortenedLinked` | mem/kheap.h:5-12 | clearing that byte leaves every link in place and one length shorter |
| `PathBuffers.ShortenedTiled` | mem/kheap.c:12-49 | the heap is then still tiled exactly when the length was a multiple of 256 or the block is the last, which ends that much lower |
| `PathBuffers.ShortenedFresh` | fs/vfs/path.c:17-18 | on a fresh heap a part of sixteen characters costs the heap the 48 free bytes behind it |
| `Tokens.FieldsJoin` | fs/vfs/path.c:3-34 | a separator splits the parts of any text in two |
| `Tokens.FieldsPlain` | fs/vfs/path.c:3-34 | a text without separators is one part; with the law above this fixes the parts of every text |
| `Tokens.FieldsGlue` | fs/vfs/path.c:3-34 | without a separator at the joint the neighbouring parts become one |
| `Tokens.StrTok` | util/stdlib.c:224-261 | each call takes the next token, empty ones included, and leaves the cursor before the rest |
| `Tokens.TokensAreFields` | util/stdlib.c:224-261 | strtok and strsplit find the same names in every text with nothing behind it |
| `Tokens.TokensBehind` | util/stdlib.c:224-261 | on a text in memory strtok finds the tokens of the text, and then those of the bytes behind its terminator when the text ends in a token |
| `Tokens.TokensExact` | util/stdlib.c:253-258 | they are exactly those of the text when it is empty, ends in a slash, or has a zero byte behind its terminator |
| `Paths.WalkMeaning` | fs/vfs/path.c:104-131 | the token loop faults exactly when a name follows a .. that went back to the root; otherwise its list is the meaning of the path |
| `Paths.RenderParts` | fs/vfs/path.c:136-148 | writing names out and splitting them again gives the names back |
| `Paths.ResolveLaws` | fs/vfs/path.c:105-131 | what a path means obeys the laws of paths: empty and . components drop out, a name and the .. behind it cancel, .. at the root drops out, and names alone are kept |
| `Paths.CanonMeaning` | fs/vfs/path.c:83-157 | the result is / or /c1/.../cn without empty, . or .. components and names what the tokens seen mean, exactly unless a name follows a return to the root; the tokens seen are those of the path when nothing behind its terminator is taken for one |
| `Paths.FaultWitness` | fs/vfs/path.c:111-127 | /a/../b is a path that faults |
| `Paths.CanonClean` | fs/vfs/path.c:83-157 | what lies behind a zero byte, or behind a text that ends in a slash, has no effect |
| `Paths.CanonPadded` | mem/kheap.c:77-106 | since kmalloc zeroes whole multiples of 16, the result is that of the path alone unless its copy fills the buffer and does not end in a slash |
| `Paths.ExtraAppears` | util/stdlib.c:253-258 | a name behind the terminator of a name becomes one more component |
| `Paths.ExtraWitness` | fs/vfs/path.c:83-157 | a path of fifteen characters with a 32-byte block behind it gains the component made of one blank |
| `Paths.CanonIdempotent` | fs/vfs/path.c:83-157 | a canonical path is its own canonical form in any working directory, when nothing behind it is taken for a token |
| `Paths.CanonFromCanon` | fs/vfs/path.c:83-157 | canonicalising the working directory first changes no result that was reached |
| `Paths.CanonCompose` | fs/vfs/path.c:83-157 | going to p and then to q is going to p/q |
| `Paths.EveryRunCanonical` | sys/syscall/syscall.c:258-270 | the working directory is canonical after every run of chdir, whatever lies behind the copies |
| `Paths.MkCanonPath` | fs/vfs/path.c:83-157 | the loops over tokens and names compute the canonical form of any text in memory, and the counted buffer size holds the text, its terminator and one byte more unless the result is the root |
| `Paths.MakePath` | fs/vfs/path.c:39-69 | the parts vfs_mkpath collects, each without slash and not empty |
| `Paths.MkPathJoins` | fs/vfs/path.c:51-56 | a relative path adds its parts to those of the working directory exactly when the joint is at a slash or one side is empty |
| `Mounts.SiblingsDistinct` | fs/vfs/mount.c:31-50 | children of one node have distinct names |
| `Mounts.MountTree.constructor` | fs/vfs/vfs.c:7-14 | initially the root alone, without a file |
| `Mounts.MountTree.FindChild` | fs/vfs/mount.c:31-42 | finds the child with a name exactly when the longer path has a node |
| `Mounts.MountTree.MountRecur` | fs/vfs/mount.c:19-53 | adds nodes for exactly the missing prefixes and sets the file of the path, keeping every other file |
| `Mounts.MountTree.Mount` | fs/vfs/mount.c:55-70 | the same for a mount point given as text: the tree is what all mounts so far make of the root alone |
| `Mounts.MountTree.Lookup` | fs/vfs/mount.c:72-112 | returns the device last mounted at the longest prefix of the path known to the tree, or none |
| `Mounts.SameNames` | fs/vfs/mount.c:103-112 | a lookup follows the names a mount would exactly when no two slashes stand together behind the first character |
| `Mounts.CanonicalNames` | fs/vfs/mount.c:55-112 | mounting and looking up a canonical path use the same names |
| `Mounts.AfterIs` | fs/vfs/mount.c:19-70 | after any mounts the tree has exactly the prefixes of mounted paths, each with the device last mounted there |
| `Mounts.LookupAfter` | fs/vfs/mount.c:19-112 | after any mounts a lookup finds the device last mounted at the longest known prefix, or none |
| `Mounts.LastMountFound` | fs/vfs/mount.c:19-112 | a mount is found at its path until another is made exactly there, whatever is mounted elsewhere |
| `Mounts.FoundAtNode` | fs/vfs/mount.c:19-112 | after a mount a lookup of the same tokens ends at its node exactly when no name follows an empty token |
| `Mounts.MountThenLookup` | fs/vfs/mount.c:55-112 | a device mounted at a text is found by looking up the same text exactly when no two slashes stand together before a name |

## Left out

- `krealloc`, and the branch of `kmalloc` before the heap exists.
- KernelHeap.Heap.Kmalloc: the arena above the last block counts as mapped and addresses do not wrap; `heap_end` is never compared in the source. Requests within 64 bytes of 2^64 are covered by `RoundUpSound` only.
- KernelHeap.Heap.Kfree: only of pointers in use; other pointers are undefined in the source.
- Memory holds words, one per header field or payload offset; bytes within a word are not modelled.
- KernelPages.KernelSpace.Alloc4k: what the missing return statement yields when no room is left (`None` here).
- KernelPages.EveryRunTidy: runs make requests for at least one page; a request for none can mark a slot of no range, which `NoneTidy` states exactly.
- AddressSpaces.Paging.MkTable: a spare page and frame are at hand; that the allocators provide them, and what happens when they do not, is in `Memory` and `Isolation.NullTable`. The arrays of a page map are fields of the model; their three pages are drawn and counted.
- Memory.System.constructor: every frame of the bitmap is memory; a machine with less has frames in the bitmap that are not there. `pmm_release_m` for the boot loader's memory map comes after this state.
- Memory.System.AnyRun: clones and frames released in between are not part of the runs.
- TLB flushes, `page_kernel_getphys`, `page_map_mmio` and freeing of page maps.
- Regions.RegionSpace.Alloc: sizes above zero and no 64-bit overflow; a region list does not carry over to a clone.
- Context switches, interrupt masking, sleeping, signals, `thread_kill` and process lists: hardware effects, or threads changed while they stay queued.
- Each call of the scheduler and of semaphores with its block and reschedule is one step; the source takes no lock around the whole.
- Ext2ReadWrite.Volume.Write: without growth of the file; the growth path, triple indirection and the inode and directory allocators are stubs or do not match the layout.
- Ext2File.SlotsDistinct: the 32-bit overflow of pointers per block squared is not modelled.
- Ext2Alloc.GroupAllocator.RewriteBgds: descriptors that fit in one block; the source copies past its buffer when there are more.
- Tokens.StrTok: tokens are not limited to the 1000 bytes of its buffer.
- Tokens.StrSplit: the parts are values; the buffers they are copied to are in `PathBuffers`.
- `vfs_destroy_path`, which frees the nodes of its list before `list_destroy` does.
- Paths.CanonFromCanon: with a zero byte behind every text.
- Paths.CanonCompose: with a zero byte behind every text.
- Paths.MkCanonPath: the token list is a value with the state `list_pop_back` leaves behind; nodes of the list are modelled in `LinkedList`.
- Mounts.MountTree.MountRecur: tree nodes are numbers in creation order instead of pointers.
- Finding files below a mount point, file descriptors, pipes, ttys, FAT, drivers, SMP boot, ELF parsing, formatted output.
