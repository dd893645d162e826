# Verified model of the kernel

This project models the state-changing cores of a small 64-bit kernel and proves what they promise.

- **Heap** (`Memory`, `ChunkList`, `FirstFit`, `HeapSpec`, `HeapEdits`, `HeapSteps`, `HeapResize`, `HeapBlocks`,
  `Heap`, `HeapTheorems`, `HeapPlaces`, `HeapRuns`, `HeapCases`, `HeapWrap`, `HeapExtend`): the allocator as a class
  over a byte array. The chunk list lives in the bytes; a ghost sequence of chunks says what the headers spell out.
  `MallocStep`, `FreeStep`, `ReallocStep` and `SqueezeStep` say what each call does to memory, globals, mapped pages
  and list; the class methods are proved to do exactly that, and the theorems and runs are about those steps.
  `HeapCases` runs the class from a fresh heap into each of its failures.
- **Paging** (`Bitmap`, `PageTables`, `PageEdits`, `PageSpaces`, `PagerSpec`, `Pager`, `PagerTheorems`, `MapTheorems`,
  `SpaceLives`, `PhysWindow`): the page bitmap and the page tables of all address spaces in one array of frames. A
  ghost map says which frame is which table; translation is the walk through the frames, 4-level paging as in the
  Intel manual, volume 3A, section 4.5.
- **Files** (`Disk`, `BlockTree`, `BlockIndex`, `Ext2File`, `Ext2Reader`, `Ext2Cases`): byte ranges out of sectors,
  and the ext2 file walk against ext2's index arithmetic.
- **Tasks** (`Tasks`): pid choice, task count and round robin.
- **Terminal** (`Paper`, `Typewriter`, `Terminal`): the framebuffer as a window on a log, the log as paper, and the
  paper as what a typewriter with endless paper would show.
- **Library** (`Units`, `Division`, `Numerals`, `CString`, `LinkedList`): number printing and parsing, the doubly
  linked list.

## What was assumed and found

Heap:
- Sizes are arbitrary, not only multiples of 8. The last chunk may be shorter than its header, which then reaches into
  the eight bytes always kept behind the heap.
- `malloc` stops the kernel in a case a caller can meet: the merged tail is free, holds the request, but is shorter
  than the least chunk size (`HaltsExactly`; `HaltingRun` gets there in three calls).
- A request from 2^64 - 7 on wraps around with its header, and `malloc` may hand out as little as 24 bytes for it;
  from 2^64 - 8 on `realloc` cuts a block down to 24 bytes. `MallocAdds` and `ReallocStepKeeps` promise the size
  exactly below that; `WrappedRequest` is such an input. At 2^64 - 8 nothing is left of the request: with no free run
  for the least chunk and the last chunk in use, an empty block is put behind the heap, and the next write is a header
  0x20 bytes further (`OverrunsExactly`, `OverrunRun`); `Overrun` ends the call there.
- Growing a block in place over a neighbour writes a header for what is left over even when there are fewer than eight
  bytes left, into the next chunk's header: for 1 to 7 bytes over the next chunk, for 0 to 7 over the previous one.
  `NextHeaderKept` says exactly when that header survives, and `ExactSlideRun` loses one in five calls; runs of calls
  (`HeapRuns`) ask for that room.
- A page that cannot be mapped behind the heap ends `Malloc` in `MapFailed`, after which nothing is claimed.
  `HeapExtend` takes up that loop with its "not ours" chunks, in memory: `Extend` says exactly when growing past such
  pages leaves headers that lie end to end, with a run from a fresh heap for each of the three ways it does not
  (`LeftOut`, `WrappedAgain`, `ShortTail`); `WrappedFits` says when the chunk it ends in is large enough.

Paging:
- Frames are numbered; a table address is its frame number. The state in use since boot is kept apart: unmapping such
  a page breaks the invariant, and only that does (`UnmapPage`).
- `getPAddr` masks entries with all but eleven bits, so flag bit 11 shows up in addresses (`PAddrExactly`,
  `MappedWithBit11`).

Files: a hole among the blocks puts the walk out of step (`HolesDecide`, `HoleStops`). A block whose byte offset does
not fit 32 bits is read from the wrong place, be it a data block (`FarBlockWraps`) or a pointer block of the double or
triple indirect part (`FarPointerBlock`, `FarRead`; the single one is found by a 64-bit product). `WellFormed`
excludes holes and far blocks of both kinds; what it compares with, `BlockOf` and `PlaceOf`, takes every block from
its own place on the disk. A read that fails leaves stale bytes in the buffers and the walk goes on: a data block that
cannot be read comes out as the one before (`FailedRepeats`); the copied and remaining counts still add up.

Tasks: the count of tasks is the ready ones plus all failed loads, since a failed load is never taken back.

Terminal: a tab in the last four columns leaves the cursor outside its row (`TidyKept`, `EdgeTabStrays`).

Text: 64-bit overflow is taken to wrap around; `NoOverflow` says that it matters for the least number only.

## Model

| member | source | states |
|---|---|---|
| Memory.UnwordOfWord | kernel/mm/malloc.cpp:31-37 | a header packed into its eight bytes (48 bits of size, 14 of magic, two flags) unpacks to itself |
| Memory.WordOfUnword | kernel/mm/malloc.cpp:31-37 | and any eight bytes are the packing of the header they unpack to: the layout loses nothing |
| Memory.WordBits | kernel/mm/malloc.cpp:31-37 | the header as one 64-bit number: size from bit 0, magic from bit 48, the flags in bits 62 and 63 |
| Memory.Memcpy | kernel/mm/memcpy.cpp:3-14 | the forward copy is a move (all bytes read before any is written) whenever the destination is not inside the source, in particular when it lies below it; nothing else changes |
| ChunkList.Edit | kernel/mm/malloc.cpp:31-45 | rewriting the headers of chunks i to j in place, with nothing written outside them, leaves a list that tiles the heap and every live chunk outside them byte for byte |
| FirstFit.SearchIsFirstFit | kernel/mm/malloc.cpp:116-157 | the search with lazy merging stops at the first run of free chunks, in address order, that adds up to the request; if it finds none, the list it leaves is fully merged and no chunk of it fits |
| FirstFit.NoneFitsIffNoRun | kernel/mm/malloc.cpp:116-157 | the merged list offers a size if and only if some run of adjacent free chunks of the unmerged list adds up to it |
| FirstFit.SqueezedIsNormal | kernel/mm/malloc.cpp:530-567 | merging leaves no two free neighbours and the same chunks in use |
| FirstFit.SqueezeTwice | kernel/mm/malloc.cpp:530-567 | merging a second time changes nothing |
| Heap.KernelHeap.constructor | kernel/mm/malloc.cpp:59-76 | the heap starts as one free chunk over one page, eight bytes short of it, with totals one page and zero |
| HeapSteps.InitialSound | kernel/mm/malloc.cpp:59-76 | that state satisfies the invariant of the heap |
| Heap.KernelHeap.Absorb | kernel/mm/malloc.cpp:134-140 | one merge: the list with chunks i and i+1 joined, live chunks untouched |
| Heap.KernelHeap.Find | kernel/mm/malloc.cpp:116-157 | the loop computes the first-fit search on the chunk list, merging in memory as it goes, and keeps every live chunk |
| Heap.KernelHeap.Carve | kernel/mm/malloc.cpp:234-253 | the chunk is put to use, split only when the rest can stand as a chunk, and the allocated total follows |
| Heap.KernelHeap.TakePages | kernel/mm/malloc.cpp:161-199 | the page loop succeeds exactly when every page up to the needed end can be mapped; the free tail or the end grows by whole pages |
| Heap.KernelHeap.Supply | kernel/mm/malloc.cpp:159-220 | after a search in vain the heap grows behind its last chunk, which then holds the request, or the call ends: in a stop, on a page it cannot take, or with an empty block behind the heap |
| Heap.KernelHeap.Malloc | kernel/mm/malloc.cpp:93-258 | a call is the planned placement on a sound heap: null, a block, a stop, or an empty block behind the heap when header and request wrap to nothing; the heap stays sound and all live blocks keep address and bytes |
| Heap.KernelHeap.Drain | kernel/mm/malloc.cpp:292-316 | the freed chunk takes in all free chunks after it, up to the first one in use |
| Heap.KernelHeap.UnmapPages | kernel/mm/malloc.cpp:326-327 | exactly the pages from the new end on are unmapped |
| Heap.KernelHeap.Trim | kernel/mm/malloc.cpp:318-328 | whole pages of a free last chunk are given back and the end and totals move with them |
| Heap.KernelHeap.Free | kernel/mm/malloc.cpp:260-331 | a bad or unused header stops the kernel; otherwise the block leaves the list, merges forward, and the tail is trimmed |
| Heap.KernelHeap.Squeeze | kernel/mm/malloc.cpp:530-580 | the list becomes its merged normal form; nothing else changes (the page release at the end is never reached) |
| Heap.KernelHeap.GiveToNext | kernel/mm/malloc.cpp:450-458 | shrinking before a free chunk moves that chunk's header down, although the copy may overlap it |
| Heap.KernelHeap.CutOff | kernel/mm/malloc.cpp:459-468 | shrinking before a used chunk cuts off a free one |
| Heap.KernelHeap.TakeNext | kernel/mm/malloc.cpp:473-496 | growing over the next free chunk: what is written in every case, and a sound resized heap when there is room for the header left over |
| Heap.KernelHeap.Previous | kernel/mm/malloc.cpp:501-505 | the walk finds the chunk right before the block |
| Heap.KernelHeap.SlideDown | kernel/mm/malloc.cpp:506-520 | growing down over the free chunk before it: the overlapping copy keeps the payload; a sound heap when there is room for the left-over header |
| Heap.KernelHeap.ReallocInPlace | kernel/mm/malloc.cpp:440-521 | the branch taken is the one the sizes of the neighbours call for, and it is done as that branch says |
| Heap.KernelHeap.MoveBlock | kernel/mm/malloc.cpp:523-527 | allocate, copy, free: a live copy elsewhere, or the outcome of the failed allocation |
| Heap.KernelHeap.Realloc | kernel/mm/malloc.cpp:405-528 | all five ways and the error stops, as one step from a sound heap |
| HeapBlocks.LiveDisjoint | kernel/mm/malloc.cpp:93-258 | two live blocks share no byte, lie between the first chunk and the end, and are at least the least chunk size |
| HeapBlocks.MallocAdds | kernel/mm/malloc.cpp:230-257 | a block handed out is new and in use, and all other live blocks are what they were; it holds the size asked for if and only if size and header together do not wrap around 64 bits |
| HeapPlaces.WholeRequest | kernel/mm/malloc.cpp:112-114 | unless it wraps, a request comes to its size with header, and at least the least chunk size |
| HeapPlaces.MallocPlaces | kernel/mm/malloc.cpp:116-257 | a block handed out starts at the first run of free chunks that reaches the request; it is exactly the request when what is left can stand as a chunk, which then lies free behind it, and the whole run otherwise; pages are taken only when no run has room, the fewest that do, behind the free run at the end; the allocated total grows by the payload |
| HeapPlaces.MallocFinds | kernel/mm/malloc.cpp:116-157 | a block is handed out whenever some run of free chunks has room |
| HeapPlaces.MallocGrows | kernel/mm/malloc.cpp:159-222 | and when none has, if and only if the pages needed behind the heap lie in memory and are not mapped; the block then starts where the free run at the end does |
| HeapBlocks.FreeRemoves | kernel/mm/malloc.cpp:274-330 | freeing takes exactly that block out of the live ones, whatever is merged or trimmed |
| HeapPlaces.FreeAnswers | kernel/mm/malloc.cpp:260-331 | a block in use is always freed; the kernel stops exactly for a header with a wrong magic value or not in use |
| HeapBlocks.OwnerWrites | kernel/mm/malloc.cpp:255-257 | a caller writing inside its own payload cannot disturb the list or another block |
| HeapTheorems.GrowsOnlyWhenFull | kernel/mm/malloc.cpp:159-199 | the end of the heap moves only if no run of free chunks anywhere had the size asked for |
| HeapTheorems.HaltsExactly | kernel/mm/malloc.cpp:160-207 | the stop for a tail still too small happens if and only if no free run fits and the merged tail is free with request <= size < 0x20: growth counts the request, the test the rounded size |
| HeapTheorems.OverrunsExactly | kernel/mm/malloc.cpp:159-253 | an empty block is put behind the heap, about to be split by a header in a page not its own, if and only if the request with its header wraps to nothing, no free run has room for the least chunk, and the last chunk is in use |
| HeapCases.OverrunRun | kernel/mm/malloc.cpp:159-253 | such a case: a fresh heap filled by one block and a request of 2^64 - 8 bytes |
| HeapCases.HaltingRun | kernel/mm/malloc.cpp:93-207 | such a case, from the heap init leaves: malloc, a realloc over the free tail, and a malloc of 8 bytes that stops the kernel |
| HeapTheorems.InPlaceTransfers | kernel/mm/malloc.cpp:440-521 | in place, the block keeps its first min(old, new) bytes, the live blocks change by that one, and the others keep theirs |
| HeapTheorems.MoveTransfers | kernel/mm/malloc.cpp:523-527 | the same when the block moves |
| HeapTheorems.NextHeaderKept | kernel/mm/malloc.cpp:473-520 | growing in place leaves the following chunk's header readable if and only if there is room for the left-over header or the two happen to agree byte for byte |
| HeapTheorems.NeverSurvives | kernel/mm/malloc.cpp:506-515 | with nothing or one byte left over they never agree: that header is lost |
| HeapCases.ExactSlideRun | kernel/mm/malloc.cpp:501-520 | a run of five calls from the heap init leaves: before the last, a realloc that fits exactly over the free block before it, the header of the block behind is in place, after it that header is another one |
| HeapRuns.ReallocStepKeeps | kernel/mm/malloc.cpp:405-528 | on every branch the result holds the first min(old payload, size) bytes unless size and header wrap around 64 bits, it is large enough if and only if they do not, every other block is unchanged, and the heap is sound |
| HeapPlaces.ReallocPlaces | kernel/mm/malloc.cpp:440-527 | a block stays if it or the free chunk behind it has the bytes, else moves down to the free chunk before it if that makes it large enough, and only else is asked for anew; in the first two cases the heap keeps its end and its pages |
| HeapPlaces.ReallocLists | kernel/mm/malloc.cpp:440-521 | and the list then: exactly the request and the rest as a free chunk when it borders on the free chunk it takes from or gives to, else cut only when the rest can stand as a chunk |
| HeapRuns.WrappedRequest | kernel/mm/malloc.cpp:413-468 | the failing input: a request of 2^64 - 1 bytes comes to 0x20, and realloc cuts a larger block down to it |
| HeapRuns.SqueezeKeeps | kernel/mm/malloc.cpp:530-567 | after squeezing no two adjacent chunks are free and every live block is what it was |
| HeapRuns.StepKeeps | kernel/mm/malloc.cpp:93-567 | each call keeps tiling, totals and mapped pages, and every block it does not name |
| HeapRuns.RunSound | kernel/mm/malloc.cpp:93-567 | at every point of every run the chunks tile first to end, end is 8 short of a page, used total is end + 8 - first, and allocated total is the payload of used chunks |
| HeapRuns.RunFromInit | kernel/mm/malloc.cpp:59-567 | in particular at every point of every run from the heap init leaves |
| HeapRuns.RunKeeps | kernel/mm/malloc.cpp:93-567 | a block live at any point of a run that no call names up to a later point is there where it was, with its bytes |
| HeapRuns.FreeNormalForm | kernel/mm/malloc.cpp:292-328 | after a free: chunks before are unchanged, the one after the hole is in use, a free tail is less than a page, exactly the pages between new and old end are unmapped |
| HeapExtend.Extend | kernel/mm/malloc.cpp:159-222 | the page loop with its "not ours" chunks, in memory: the headers are those of a list from the old tail to the new end, and spell out chunks end to end if and only if no page not ours comes behind pages taken for no chunk yet, the growth is not interrupted twice, and no tail shorter than its header is wrapped at once; then they are the plain growth, or one wrapped chunk and a fresh one; all bytes below the old end but the tail header stay |
| HeapExtend.TailHeadLost | kernel/mm/malloc.cpp:178-182 | a "not ours" header right behind a free tail of 1 to 7 bytes always makes the header of that tail unreadable |
| HeapCases.LeftOut | kernel/mm/malloc.cpp:161-222 | the first case, behind a fresh heap filled by one block: the headers leave out a page taken before the page not ours |
| HeapCases.WrappedAgain | kernel/mm/malloc.cpp:161-222 | the second: with two separate pages not ours the headers leave out the page between them |
| HeapCases.ShortTail | kernel/mm/malloc.cpp:161-222 | the third: two calls on a fresh heap leave a free tail of four bytes, whose header the first "not ours" chunk takes |
| HeapWrap.PlainIsGrown | kernel/mm/malloc.cpp:159-222 | with no mapped page in the way this is the growth of a contiguous heap |
| HeapWrap.WrappedFits | kernel/mm/malloc.cpp:178-221 | after a wrap the fresh chunk holds the request if and only if rounding it up to pages leaves at least a header over |
| Bitmap.PageMap.MarkFree | kernel/mm/paging.cpp:37-57 | exactly that page leaves the set in use; pages past the end are ignored |
| Bitmap.PageMap.MarkUsed | kernel/mm/paging.cpp:59-79 | exactly that page joins the set in use; pages past the end are ignored |
| Bitmap.PageMap.FirstFree | kernel/mm/paging.cpp:86-103 | the least page not in use among the first 8 * (pages / 8), found past full bytes, or none |
| Pager.Paging.constructor | kernel/mm/paging.cpp:14-35 | the frames that hold a bit for every page are in use and mapped to themselves, no more than those and all below are in use, nothing else is entered; the boot tables make a sound space |
| Pager.Paging.Reserve | kernel/multiboot.cpp:49-66 | a reserved page is marked in use after boot, pages past the end are ignored, and the invariant holds with it |
| PagerSpec.InitSound | kernel/mm/paging.cpp:14-35 | the state after boot satisfies the invariant of all address spaces |
| Pager.Paging.GetFreePhysPage | kernel/mm/paging.cpp:86-103 | the first free page of the state, or none is free |
| Pager.Paging.EnsureTable | kernel/mm/paging.cpp:144-177 | a missing table is built in a free frame without changing any translation; a present one is left alone |
| Pager.Paging.MapPageAt | kernel/mm/paging.cpp:137-201 | table by table as the source goes: a missing one is built in the first free frame with the caller's flags, the address is mapped to the first free page, or was mapped, or memory is out, or the kernel stops |
| Pager.Paging.MapPage | kernel/mm/paging.cpp:124-202 | the same after looking for an address when none is given |
| MapTheorems.MapHaltsExactly | kernel/mm/paging.cpp:137-201 | it stops the kernel if and only if the top entry is missing, or a table on the way is missing and no frame is free |
| MapTheorems.MapSucceeds | kernel/mm/paging.cpp:137-201 | with the top entry there, the address unmapped and three frames free it maps the address |
| MapTheorems.MapWrites | kernel/mm/paging.cpp:187-201 | the last-level entry is that of a frame that was free, present and writable, with exactly the other low bits the caller gave |
| MapTheorems.MapBuilds | kernel/mm/paging.cpp:148-177 | every table built is on the way to the address and entered with the same bits |
| Pager.Paging.UnmapPage | kernel/mm/paging.cpp:204-232 | the kernel's entry goes and its frame is free; the invariant survives if and only if the page was not in use since boot |
| Pager.Paging.ScanPT | kernel/mm/paging.cpp:272-283 | the least missing entry of a last-level table, skipping the low pages only in table 0 |
| Pager.Paging.GetUnmappedVAddr | kernel/mm/paging.cpp:234-291 | the least page address from FREE_PAGES_START on that the kernel does not map, in a page table built for it when need be; nothing else changes; it stops only when that address has no page table and cannot be given one |
| PagerSpec.HitIsLeast | kernel/mm/paging.cpp:234-283 | the first gap of the nested scan is the numerically least unmapped address |
| MapTheorems.ScanHaltsExactly | kernel/mm/paging.cpp:234-291 | with v the least address the kernel does not map, the search stops the kernel if and only if v has no page table and either no page directory or no free frame, and returns v otherwise |
| MapTheorems.ScanBuilds | kernel/mm/paging.cpp:257-269 | the search builds at most the page table of the address it returns, and only if there was none, present and writable but not open to the user |
| MapTheorems.ScanAfterBoot | kernel/mm/paging.cpp:234-283 | after boot it returns the first gap of page table 0 above the low pages |
| Pager.Paging.CreatePageDir | kernel/mm/paging.cpp:293-319 | two first free pages become a space with the kernel's page directory 0; with fewer than two nothing changes |
| MapTheorems.CreateSucceeds | kernel/mm/paging.cpp:293-319 | with two frames free a space is made |
| MapTheorems.CreateWrites | kernel/mm/paging.cpp:303-319 | its two tables are empty but for one entry each, present, writable and open to the user, the second naming page directory 0 |
| Pager.Paging.DestroyPageDir | kernel/mm/paging.cpp:321-364 | exactly what belongs to the space is freed: its tables and the pages they map, never page directory 0 or below |
| Pager.Paging.FreePDPT | kernel/mm/paging.cpp:331-358 | the loops below a directory pointer table free what hangs there, the shared directory excepted |
| Pager.Paging.GetPAddr | kernel/mm/paging.cpp:105-122 | four reads from the kernel's top table; the translation whenever no entry on the way has bit 11 set |
| PagerSpec.PAddrExactly | kernel/mm/paging.cpp:105-122 | for a mapped page behind plain tables the result is the page address if and only if its own entry lacks bit 11, and otherwise half a page too high |
| PagerSpec.MappedWithBit11 | kernel/mm/paging.cpp:105-122 | a failing input: the last page of page table 0, mapped after boot with flag 0x800, is reported half a page too high |
| PageEdits.LowIsShared | kernel/mm/paging.cpp:307-316 | every space translates the addresses below USER_OFFSET as the kernel does, through page directory 0 |
| PageEdits.WithTableSound | kernel/mm/paging.cpp:148-177 | adding a table keeps tables distinct, in use, and reached by one path |
| PageEdits.WithTableWalks | kernel/mm/paging.cpp:148-177 | an empty table changes no translation |
| PageEdits.LeafWalks | kernel/mm/paging.cpp:187-201 | changing one last-level entry changes the translation of that address in that space, and in all if it is low, and of nothing else |
| PageSpaces.WithSpaceWalks | kernel/mm/paging.cpp:293-319 | a new space has the kernel's low addresses and nothing else; old ones do not notice |
| PageSpaces.BelowIsAllOwned | kernel/mm/paging.cpp:321-364 | the nested loops free exactly the frames that belong to the space |
| PagerTheorems.MapUpdates | kernel/mm/paging.cpp:124-202 | a successful mapping is a map update: the address goes to a page that was free, every other translation in every space is unchanged, except that a low address appears everywhere |
| PagerTheorems.NoMapNoChange | kernel/mm/paging.cpp:124-202 | a mapping that fails changes no translation |
| PagerTheorems.MapAnyUpdates | kernel/mm/paging.cpp:124-202 | with no address given, a successful mapping is that map update at the least address from FREE_PAGES_START on that the kernel does not map |
| PagerTheorems.NoMapAnyNoChange | kernel/mm/paging.cpp:124-202 | and a failing one, whether it fails in the search or in the mapping, changes no translation |
| PagerTheorems.UnmapUpdates | kernel/mm/paging.cpp:204-232 | unmapping removes exactly that translation, in all spaces if low, and frees exactly its frame |
| PagerTheorems.UnmapUndoesMap | kernel/mm/paging.cpp:124-232 | unmapping what was just mapped gives back every translation |
| PagerTheorems.StepKeepsSound | kernel/mm/paging.cpp:124-364 | every call, mapping with or without an address among them, keeps table frames distinct and in use, pages mapped once, and none leaked |
| PagerTheorems.RunKeepsSharing | kernel/mm/paging.cpp:124-364 | after any run each live space translates each address below USER_OFFSET as the kernel does |
| PagerTheorems.LifeConserves | kernel/mm/paging.cpp:293-364 | create, any user-range mappings, destroy: the set of frames in use is exactly what it was, and no other table changed |
| SpaceLives.StepChanges | kernel/mm/paging.cpp:124-364 | each call changes the tables of one space: a space mapping in itself changes no other one, and every other call leaves its tables alone |
| SpaceLives.OwnsWhatItTook | kernel/mm/paging.cpp:293-364 | at every point of a run of any calls a space owns exactly the frames its making and its own calls took, and the other frames in use are what the other calls alone account for |
| SpaceLives.LifeAmongOthers | kernel/mm/paging.cpp:293-364 | a space made, used among any calls of other spaces, and destroyed gives back exactly the frames it took, changes no other table, and leaves in use what the others alone account for |
| PhysWindow.Window.TmpMap | kernel/mm/paging.cpp:408-418 | the window entry becomes the page with bits 0 and 1 set, and no other byte changes |
| PhysWindow.Window.PhyRead | kernel/mm/paging.cpp:420-437 | any range, page by page through the window, is read as it lies in physical memory; only the window's entry changes |
| PhysWindow.Window.PhyWrite | kernel/mm/paging.cpp:439-456 | exactly the range is written, apart from the window's entry |
| PhysWindow.Window.PhyZero | kernel/mm/paging.cpp:458-474 | exactly the range is cleared, apart from the window's entry |
| PhysWindow.Window.WriteThenRead | kernel/mm/paging.cpp:420-456 | what is written is read back, for any range that avoids the window's entry |
| Tasks.TaskManager.LoadTask | kernel/proc/process.cpp:100-159 | the pid is the least unused slot below MAXPID; the count rises even when the program fails to load |
| Tasks.TaskManager.ExitTask | kernel/proc/process.cpp:289-356 | the slot of the current task is unused again and the count drops; the kernel task stops instead; the next task is 0 |
| Tasks.TaskManager.Schedule | kernel/proc/process.cpp:359-454 | disabled, idle or alone nothing changes; otherwise the round-robin successor runs |
| Tasks.NextInOrder | kernel/proc/process.cpp:438-452 | with two or more ready tasks the successor is the next ready pid, and the first one after the last |
| Tasks.RoundRobin | kernel/proc/process.cpp:438-454 | k switches among k >= 2 ready tasks visit each exactly once and come back |
| Tasks.TaskManager.Interrupts | kernel/proc/process.cpp:359-454 | n timer interrupts one after the other run the n successors; k of them with k >= 2 ready tasks run each ready task exactly once and end where they began |
| Tasks.LoneTask | kernel/proc/process.cpp:371-454 | a lone ready task whose count is stuck above one alternates with the kernel task |
| Disk.ReadSector | kernel/disk/disk.cpp:337-378 | a drive that cannot be selected fails; otherwise numbers from 2^24 on stop the kernel; a read fills exactly its 512 bytes |
| Disk.DiskRead | kernel/disk/disk.cpp:403-436 | any byte range whose sectors can be addressed and read arrives exactly; a failure leaves the destination alone, and within 2^24 sectors the kernel never stops |
| BlockIndex.UnderIndex | kernel/disk/ext2.cpp:260-300 | below an indirect block, the first blocks of the nested walk come in the order of ext2's division and remainder over the pointer blocks at their own places on the disk, as long as none is a hole and no pointer block on the way is past 4 GiB |
| BlockIndex.VisitedInOrder | kernel/disk/ext2.cpp:235-301 | over all four parts, the first N blocks visited are logical blocks 0 to N-1 of the 12 / n / n^2 / n^3 arithmetic if none is a hole and their pointer blocks are within reach of the offset the reader computes |
| BlockIndex.HolesDecide | kernel/disk/ext2.cpp:235-301 | with pointer blocks within reach, the walk visits the right blocks if and only if there is no hole among them |
| Ext2Cases.HoleStops | kernel/disk/ext2.cpp:235-244 | a failing input: of three blocks with a hole in the middle only the first is visited |
| Ext2File.ContentAt | kernel/disk/ext2.cpp:237-244 | byte k * bs + j of the blocks one after the other is byte j of block k |
| Ext2File.FlatFile | kernel/disk/ext2.cpp:220-306 | byte i of a readable, well-formed file is byte i % bs of the block ext2's arithmetic gives for i / bs, read at that block's own place on the disk |
| Ext2File.WholeFile | kernel/disk/ext2.cpp:220-306 | such a file is copied whole, each byte from its place on the disk |
| Ext2File.FarBlockWraps | kernel/disk/ext2.cpp:237-239 | the 32-bit product puts a block at its place if and only if its byte offset fits 32 bits |
| Ext2Cases.FarPointerBlock | kernel/disk/ext2.cpp:262-286 | a readable file of 269 one-kilobyte blocks without holes whose data blocks are all near but one of whose pointer blocks is past 4 GiB: the first byte of its last block comes out wrong |
| Ext2Cases.FarRead | kernel/disk/ext2.cpp:220-306 | and the reader hands out that wrong byte |
| Ext2Reader.Reader.CopyBlock | kernel/disk/ext2.cpp:239-243 | the copied prefix grows by the buffer, cut to what is left of the file, even when the read failed; a readable block extends the prefix by that block |
| Ext2Reader.Reader.ReadSingle | kernel/disk/ext2.cpp:246-258 | the single indirect part, its pointer block found by a 64-bit product |
| Ext2Reader.Reader.ReadDouble | kernel/disk/ext2.cpp:260-277 | the double indirect part, its pointer blocks found by 32-bit products |
| Ext2Reader.Reader.ReadTriple | kernel/disk/ext2.cpp:279-300 | the triple indirect part, likewise |
| Ext2Reader.Reader.WalkOne | kernel/disk/ext2.cpp:251-258 | the loop over a pointer block copies the blocks it names up to the first zero, in order |
| Ext2Reader.Reader.WalkTwo | kernel/disk/ext2.cpp:266-277 | the double loop copies everything two levels below, reusing one buffer |
| Ext2Reader.Reader.WalkThree | kernel/disk/ext2.cpp:284-300 | the triple loop copies everything three levels below, reusing two buffers |
| Ext2Reader.ReadFile | kernel/disk/ext2.cpp:220-306 | copied plus left is always the file size; a readable file yields exactly the bytes of the visited blocks, cut at its size; with data blocks that cannot be read it goes on, each repeating the buffer |
| Ext2Reader.FailedRepeats | kernel/disk/ext2.cpp:239-301 | a data block that cannot be read comes out as the block before it |
| Paper.TidyKept | kernel/vga/vgatext.cpp:154-207 | a character never misses the screen from inside a row, and only a tab from the last four columns leaves the cursor outside it |
| Paper.EdgeTabStrays | kernel/vga/vgatext.cpp:177-200 | after such a tab the next plain character is written past the screen if and only if the cursor is in the last row |
| Paper.HistoryKept | kernel/vga/vgatext.cpp:154-342 | a character adds at most one row and never changes a row above the last 25 |
| Paper.ShownOnly | kernel/vga/vgatext.cpp:154-342 | what is shown after a character depends only on what was shown before |
| Typewriter.KeyRefines | kernel/vga/vgatext.cpp:154-207 | one character is one key of a typewriter with numbered cells, if and only if it is no tab in the last four columns |
| Typewriter.RunRefines | kernel/vga/vgatext.cpp:70-76 | whole runs of characters refine the typewriter under that condition: the screen is the last 25 rows of endless paper |
| Typewriter.EveryRunRefines | kernel/vga/vgatext.cpp:70-207 | every terminal with its cursor on the screen shows some typewriter, and goes on showing it over any run without a tab in the last four columns |
| Typewriter.HistoryOfRun | kernel/vga/vgatext.cpp:154-342 | over whole runs the log only grows and rows that left the screen never change |
| Typewriter.ScreenOfRun | kernel/vga/vgatext.cpp:154-342 | over whole runs the screen is the same with the log as without it |
| Terminal.VgaText.Put | kernel/vga/vgatext.cpp:154-207 | wherever the log is scrolled to, one character gives the paper of the model, with its end on the screen and in the log; it reports a cell outside the screen |
| Terminal.VgaText.NewLines | kernel/vga/vgatext.cpp:277-342 | the paper gains at most 25 blank rows, on screen and in the reallocated log; without the allocator the log is given up |
| Terminal.VgaText.Scroll | kernel/vga/vgatext.cpp:228-267 | the top row of the window moves by n, to the first or the last one where it would leave the log; the screen follows, and the paper is unchanged |
| Terminal.VgaText.ScrollDown | kernel/vga/vgatext.cpp:269-275 | the end of the log is on the screen |
| Terminal.VgaText.EnableLog | kernel/vga/vgatext.cpp:31-68 | switched on, the log starts as the screen; it stays off when the allocator is not ready |
| Terminal.VgaText.Clear | kernel/vga/vgatext.cpp:209-226 | a blank page, and a log of one blank screen if there was one |
| Terminal.VgaText.Rubout | kernel/vga/vgatext.cpp:344-364 | in a line: the cell before the cursor is emptied in log and screen |
| Terminal.VgaText.Print | kernel/vga/vgatext.cpp:70-76 | a string gives the paper of its characters one after the other |
| Numerals.Digit | kernel/lib/string.cpp:72 | the table entry at 35 plus a remainder of either sign is the digit of its magnitude |
| Numerals.NumeralDenotes | kernel/lib/string.cpp:69-74 | the numeral of a number denotes it in every base 2 to 36, with digits of that base and no leading zero |
| Numerals.NumeralIsUnique | kernel/lib/string.cpp:69-74 | and is the only such string |
| Numerals.PrintedParses | kernel/lib/string.cpp:61-125 | the decimal text of any number parses to it |
| Numerals.PrefixParses | kernel/lib/string.cpp:110-125 | and so does that text with any other character behind it |
| CString.Flip | kernel/lib/string.cpp:77-82 | the first n characters are turned around in place |
| CString.Reverse | kernel/lib/string.cpp:29-39 | a C string is turned around and still ends where it did |
| CString.Itoa | kernel/lib/string.cpp:61-84 | the buffer holds the sign and numeral of the value in the base, or nothing for a bad base |
| CString.Utoa | kernel/lib/string.cpp:87-108 | the same for an unsigned number, through a signed copy and 64-bit wrap-around |
| CString.Atoi | kernel/lib/string.cpp:110-125 | the sign and leading digits, in 64-bit arithmetic |
| CString.RoundTrip | kernel/lib/string.cpp:61-125 | every 64-bit value printed in base ten is read back |
| CString.TextHasNoEnd | kernel/lib/string.cpp:61-84 | no decimal text has a terminator inside |
| CString.PrintAndRead | kernel/lib/string.cpp:61-125 | printed into a buffer and read back from it, every 64-bit value comes out |
| CString.NoOverflow | kernel/lib/string.cpp:110-125 | without any intermediate value leaving 64 bits if and only if it is not the least one |
| LinkedList.LList.Size | kernel/lib/llist.h:24-31 | the number of elements |
| LinkedList.LList.At | kernel/lib/llist.h:38-52 | the element at a position, 0 on an empty list, a stop past the end |
| LinkedList.LList.Prepend | kernel/lib/llist.h:54-63 | the sequence with the element in front, links sound both ways |
| LinkedList.LList.Append | kernel/lib/llist.h:65-81 | the sequence with the element behind |
| LinkedList.LList.Insert | kernel/lib/llist.h:84-121 | insertion at a position, including the one behind the last; past that a stop, but on an empty list silently nothing |
| LinkedList.LList.RemoveFirst | kernel/lib/llist.h:134-148 | the sequence without its first element |
| LinkedList.LList.RemoveLast | kernel/lib/llist.h:123-132 | the sequence without its last element, or unchanged when empty |
| LinkedList.LList.RemoveAt | kernel/lib/llist.h:151-181 | removal at a position, a stop past the end |
| LinkedList.LList.Clear | kernel/lib/llist.h:10-14 | the empty sequence |
| LinkedList.InsertKeeps | kernel/lib/llist.h:54-121 | linking a node in between two neighbours keeps `prev` the inverse of `next` and inserts its element at that place |
| LinkedList.RemoveKeeps | kernel/lib/llist.h:123-181 | passing a node by keeps the chain and removes its element |

## Left out

- Heap.KernelHeap.Malloc: a page already mapped behind the heap ends the call in `MapFailed`, after which nothing is claimed (`HeapExtend.Extend` models that loop); after `Overrun` the second header write, into a page not the heap's, is not modelled.
- Heap.KernelHeap.Realloc: a block that has to move ends as its `malloc` does, so the same holds when that meets a mapped page.
- Heap.KernelHeap.Supply: the same two ends, on a mapped page and after the empty block.
- Heap.KernelHeap.TakePages: a page already mapped ends it in a failed outcome instead of a "not ours" chunk; `HeapExtend.Extend` has the whole loop.
- Heap.KernelHeap.Find: taking a "not ours" page back when it has become free (lines 142-154) is not modelled; `Sound` has no such chunks.
- HeapExtend.Extend: asks that no page between FREE_PAGES_START and the heap's end is unmapped, without which the source's distance to the next unmapped page wraps, and that memory has room for the request above the last page not ours.
- Heap.KernelHeap.Squeeze: the repair of a chunk of size 0 is not modelled, no run reaches one.
- Pager.Paging.constructor: at most 32 GiB of memory, so that the bitmap's pages are entries of page table 0; the source writes past that table with more.
- Pager.Paging.Reserve: one page of the loop of kernel/multiboot.cpp:49-66; reading the boot loader's memory map is not modelled.
- Pager.Paging.MapPage: only with a null physical address, so the pager chooses the frame; mapping a given frame could map it twice.
- SpaceLives.LifeAmongOthers: a mapping in the space itself with no address given is taken as the search and the mapping it consists of.
- Pager.Paging.GetUnmappedVAddr: stops where the kernel stops, at a missing second or third level table, and then claims only that.
- PhysWindow.Window.PhyRead: the window's own translation at 0x7000 is kept out of the translations of the pager, since every access rewrites it; the pager's methods read and write frames directly.
- Tasks.TaskManager.Schedule: a context switch is the change of the current task; registers, stacks, CR3 and segment state are not modelled.
- Tasks.TaskManager.LoadTask: whether the ELF image loads is a parameter; arguments, stack mapping and the ELF loader are not modelled.
- Disk.ReadSector: the ATA port protocol (device selection, reset, polling) is a set of sectors that cannot be read.
- Disk.DiskRead: not a count of 0 at offset 0, where the source's last block number wraps below zero.
- Ext2Reader.ReadFile: inode lookup, directories, VFS paths and the return value of the node's `read` are not modelled.
- Terminal.VgaText.Rubout: only inside a line; at the start of a line it is not reached by `put` with a limit that is not negative.
- Terminal.VgaText.SetRuboutLimit: takes no limit column below 0, for the same reason.
- Terminal.VgaText.Scroll: the row count is a mathematical integer; the 32-bit product of a huge count is not modelled.
- Terminal.VgaText.NewLines: the log's `realloc` is taken by its promise, a block of the new size that starts with the old bytes.
- LinkedList.LList.RemoveFirst: needs an element; the source follows a null pointer on an empty list.
- Leak records of `new` and `delete`, chunk and statistics printing, error messages, E9 output, cursor hardware: input and output.
- `strlen`, `strcmp`, `strcpy`, `strcat`, `strchr`: apart from the length, one-line loops that would add only easy members.
- Assembly, boot, GDT, IDT, TSS, PIC, keyboard and shell: hardware set-up and user interface.
