# A verified model of the kernel's memory, scheduling and text cores

This project models the hard parts of a small 32-bit x86 kernel and its C library in Dafny 4.11
and proves what they keep over every run. `dafny verify dfyconfig.toml` checks all of it.

The parts, and where they live:

- **Copy-on-write memory.** `PhysicalFrames` (the reference-counted frame allocator),
  `PageEntries`, `Bytes` and `PageTables` (entries, words and bytes, tables and how often they name a
  frame), `Paging` (the routines that edit tables through one shared window), `CopyOnWrite` and
  `AddressSpaces` (the invariant over all processes), `ProcessMemory` (the refinement), `CopyNeeds`
  (which stores take a frame), `FrameLeaks` (frames that are never free again), `VirtualMemory`
  (fork, sbrk, faults, layouts and destruction on the real tables), `Elf` and `Programs` (exec and
  spawn, from the file to what the process reads), `Arguments` (the strings that a program is called
  with, from the loader to the program). The main result is
  `ProcessMemory.RunRefines`: at every point of every run each process reads what it would read
  if fork copied every page at once. The counts satisfy "count >= mappings", not equality, because
  a fork counts the recorded stack frames twice.
- **Heaps.** `HeapBlocks` (the block list as a value), `HeapAllocator` (the same on bytes, with
  9-byte headers), `ProcessHeaps` (the user-space allocators of all processes, which have no
  state but bytes in their pages, as one state machine with every store a program can make),
  `UserHeap` (the same on the page tables, every byte read and stored there). The main results are
  `ProcessHeaps.RunAgrees` and `PayloadStays`.
- **Scheduling.** `Links`, `Queue` and `LinkedList` (pointer structures refined to sequences),
  `ProcessTree`, `Processes` (the state and its functions), `Places`, `Scheduling` and
  `Dispatching` (what every move does and when it loses nobody), `Lifecycle` (all events and all
  runs), `Fairness` (round robin and nap lengths), `Waiting` (whom a process waits for and until
  when), `Effects` (what each event makes of the whole state), `Breakdowns` (runs from boot that end
  badly), `Scheduler` (the variables, linked queues
  and loops of the code), `NappingList` (the timekeeper's walk on the pointer list). The main
  results are `Lifecycle.StepInPlaceIff`, which says for every event exactly when it leaves each
  process in the place its state says, and `Lifecycle.EveryRunInPlace`, for which guarded events
  suffice.
- **Text and files.** `Terminal` (the VGA screen as a window on unbounded text), `Numbers`
  (printing and parsing), `Paths` and `Vfs` (the mount tree).
- `Machine`, `Runs` and `Sets` hold the page size, bytes and options, the inductions over runs and the
  set facts that several modules share.

Interrupts and system calls are atomic steps. Frame numbers, 8-bit counts, 32-bit words and
signed conversions are written out where the code depends on them.

## Findings

Where a promised property fails, the code is kept as it is, an input is given, and the exact
condition is proved.

- Waiting for the kernel (pid 1) loses the caller: the kernel has no list of waiters, so the
  process naps in no list (`Lifecycle.WaitForKernelLoses`, `Lifecycle.WaitIff`).
- A kill leaves all processes in place exactly for targets that are ready, dead already or not found
  (`Lifecycle.KillIff`, `Lifecycle.KillNapping`). The kernel can be such a target; afterwards the
  scheduler can be left without a process to run (`Breakdowns.KillKernelStops`,
  `Lifecycle.StepStopsIff`).
- A ready queue with 256 processes refuses the next, and nothing checks that: a preemption then
  loses the process that ran (`Lifecycle.FullQueueLoses`, `Breakdowns.FullQueueReached`; exactly
  when, `Lifecycle.StepInPlaceIff`).
- A dead process taken from the dead queue is destroyed if and only if the kernel was running
  (`Waiting.DestroyedIff`). Otherwise it is never taken up again, and a wait for it never ends
  (`Waiting.DroppedForever`, `Breakdowns.SomeWaitNeverEnds`).
- proc_find looks at first children only (`ProcessTree.FindIff`,
  `ProcessTree.FindMissesSecondChild`).
- A first heap block is not checked against the end of the heap. Where it does not fit with its header
  it ends beyond the mapped memory, and the memset over its payload fails first; from 7 bytes too long
  on, a later request would fail (`HeapBlocks.OversizedFirstBlock`, `HeapBlocks.GrowthSufficesIff`).
- A backspace at the first cell of a scrolled screen does not go back to the row above
  (`Terminal.PutShowsIff`, `Terminal.BackspaceLeaves`).
- An ELF segment that does not start on a page boundary is misplaced or lacks its last page, unless
  it takes nothing from the file and its size alone asks for that page; one at address 0 is passed over
  (`Elf.RightIffPlaced`).
- Frames are lost in two ways, and in no other: a fork counts the recorded stack frames twice, and a
  page mapped over another one leaves the count of the frame below. Such frames are never free again,
  whoever is destroyed (`FrameLeaks.ForkLosesStack`, `FrameLeaks.MapLosesFrame`,
  `FrameLeaks.RunAddsExcess`, `FrameLeaks.TakenHasNone`, `FrameLeaks.NeverFreeAgain`).
- Freed frames never reach the free list (`PhysicalFrames.FrameAllocator.Free`).
- A direct call of sbrk puts a program's allocator out of step with the kernel exactly when it asks
  for more (`UserHeap.System.Sbrk`).
- A program's store takes its allocator's list or variables away exactly when the word it writes changes
  a header or one of three variables (`ProcessHeaps.HarmlessIff`); a changed size can leave no list at
  all (`ProcessHeaps.SizeStoreLosesAll`).

## Model

| member | source | states |
|---|---|---|
| `PhysicalFrames.AlignTo` | kernel/memory/memory_phys.c:197-208 | the greatest multiple of the alignment not above the address |
| `PhysicalFrames.SlotIsIndex` | kernel/memory/memory_phys.c:59-70 | the byte-map slot of a frame is the index the code computes from its address, and -1 in the hole between lower memory and 1 MiB |
| `PhysicalFrames.IndexRoundTrip` | kernel/memory/memory_phys.c:59-82 | index to address to index is the identity on every managed index whenever lower memory ends by 1 MiB |
| `PhysicalFrames.IndexInjectiveIff` | kernel/memory/memory_phys.c:59-70 | distinct managed page addresses get distinct indices if and only if lower memory is a whole number of 4 KiB pages |
| `PhysicalFrames.FrameAllocator.constructor` | kernel/memory/memory_phys.c:33-56 | all counts start at zero except those of the frames that hold the byte map itself, which start at one; the free list starts empty, the totals come from the sizes the boot loader reports |
| `PhysicalFrames.FrameAllocator.IncreaseRefcount` | kernel/memory/memory_phys.c:96-101 | one count goes up, on 8 bits; an unmanaged address changes nothing; all other counts stay |
| `PhysicalFrames.FrameAllocator.DecreaseRefcount` | kernel/memory/memory_phys.c:104-109 | one count goes down, on 8 bits; all other counts stay |
| `PhysicalFrames.FrameAllocator.GetRefcount` | kernel/memory/memory_phys.c:112-119 | the count of the frame, -1 for an unmanaged address |
| `PhysicalFrames.FrameAllocator.AllocAddr` | kernel/memory/memory_phys.c:122-129 | claims exactly that frame when it is free, otherwise returns 0 and changes nothing |
| `PhysicalFrames.FrameAllocator.Free` | kernel/memory/memory_phys.c:132-145 | the count becomes 0 and the free list stays empty, because the code writes to a local copy of its slot |
| `PhysicalFrames.FrameAllocator.AllocPage` | kernel/memory/memory_phys.c:148-166 | a frame whose count was 0, now 1, and the first such, by its address; address 0 and no change when no frame is free (the address of slot 0 is 0 too); no other count changes |
| `PageEntries.EncodeAfterDecode` | include/kernel/memory/memory_paging.h:30-48 | every 32-bit word is recovered from its decoded entry fields |
| `PageEntries.DecodeAfterEncode` | include/kernel/memory/memory_paging.h:30-48 | every entry is recovered from its 32-bit word, so no two fields overlap |
| `PageEntries.Layout` | include/kernel/memory/memory_paging.h:30-48 | present, read_write and user_supervisor are bits 0 to 2 of the word, and the frame is bits 12 to 31 |
| `PageTables.SpaceCountIsCardinality` | kernel/memory/memory_paging.c:234-272 | the number of decrements the nested loops make for a frame is the number of user pages that map it |
| `Paging.Mmu.TempMap` | kernel/memory/memory_paging.c:58-69 | the shared window shows the intended frame and memory is unchanged |
| `Paging.Mmu.MappedFrame` | kernel/memory/memory_paging.c:338-362 | the frame named by the entry of a page, read through the window; 0 when the directory has no table for it |
| `Paging.Mmu.UnsetEntry` | kernel/memory/memory_paging.c:365-387 | exactly that page is unmapped; a page without a table changes nothing |
| `Paging.Mmu.SetEntry` | kernel/memory/memory_paging.c:393-436 | exactly the entry of that page is set, a missing table is added on a free frame first, and every access finds the intended frame in the window |
| `Paging.Mmu.CloneTable` | kernel/memory/memory_paging.c:145-172 | one table: every present entry becomes read-only on both sides and every frame's count rises by its number of entries |
| `Paging.Mmu.Clone` | kernel/memory/memory_paging.c:121-186 | a fresh directory whose entry 1023 names the directory itself where the source's is present, whose other kernel entries are the source's where present and zero elsewhere, and whose user half shares every frame read-only, page by page, with exact counts; the source keeps its frames |
| `Paging.Mmu.RemoveAddressSpace` | kernel/memory/memory_paging.c:190-230 | the user half is emptied, each frame's count falls by the number of its mappings and tables are given back |
| `Paging.Mmu.NukeDirectory` | kernel/memory/memory_paging.c:234-272 | the same, and the directory frame itself is given back; memory of all other frames is untouched |
| `Paging.Mmu.NewDirectory` | kernel/memory/memory_paging.c:103-117 | an empty user half; entries 768 to 1022 are the running directory's where present, zero elsewhere, and the last one names the new directory |
| `Paging.Mmu.Fault` | kernel/memory/memory_paging.c:439-479 | a frame counted once becomes writable in place and no frame is taken; a shared one is copied to a fresh frame, its count lowered and only this page remapped; a frame that is not counted is left alone |
| `Paging.Mmu.UserStore` | kernel/memory/memory_paging.c:439-479 | a store to a present page ends with the word written in a frame the page alone maps writable |
| `Paging.FaultedWritable` | kernel/memory/memory_paging.c:453-476 | after the fault the page is open to user-mode writes |
| `Paging.Mmu.ForkDirectory` | kernel/process/process.c:185-199 | the clone of the directory, its kernel half and self-map as above, and exactly one more reference per entry of the recorded stack frames |
| `Paging.TimesIsCardinality` | kernel/process/process.c:190-199 | that number is how many entries of the record name the frame |
| `CopyOnWrite.ForkKeeps` | kernel/memory/memory_paging.c:155-171 | after a fork every frame's count is at least its mappings, and a writable mapping is the only one |
| `CopyOnWrite.MapKeeps` | kernel/memory/memory_paging.c:393-436 | mapping a page on a frame nothing maps keeps both invariants |
| `CopyOnWrite.RemoveKeeps` | kernel/memory/memory_paging.c:206-224 | taking a whole space away keeps both invariants when counts fall by no more than its mappings |
| `CopyOnWrite.CountOneIsSole` | kernel/memory/memory_paging.c:453-460 | a frame counted once is mapped by one page only, so making it writable in place is safe |
| `CopyOnWrite.MappedIsCounted` | kernel/memory/memory_phys.c:148-166 | a mapped frame has a positive count, so the allocator never hands out a frame in use |
| `AddressSpaces.EntrySetSpaces` | kernel/memory/memory_paging.c:338-436 | two-level tables refine flat maps: setting an entry changes that page of that process and no other page of any process |
| `AddressSpaces.FreeIsUnused` | kernel/memory/memory_phys.c:148-166 | a frame with count 0 is in no directory, no table and under no user page |
| `AddressSpaces.ClonedInv` | kernel/memory/memory_paging.c:121-186 | cloning keeps the invariant over all processes: structures apart, counts covering mappings, writers sole |
| `AddressSpaces.NukedInv` | kernel/memory/memory_paging.c:234-272 | dropping a directory keeps the invariant for all remaining processes |
| `AddressSpaces.EmptiedInv` | kernel/memory/memory_paging.c:190-230 | emptying a user half keeps the invariant for all processes |
| `AddressSpaces.ClonedView` | kernel/memory/memory_paging.c:121-186 | the clone reads every page of its source and nobody else's pages change |
| `AddressSpaces.CloneThenNukeRestores` | kernel/memory/memory_paging.c:121-272 | dropping a clone right away restores every reference count exactly, for any table contents, frames mapped several times included |
| `ProcessMemory.FaultInvisible` | kernel/memory/memory_paging.c:439-479 | the fault handler keeps the invariant and changes nothing that any process can read |
| `ProcessMemory.WriteRefines` | kernel/memory/memory_paging.c:439-479 | a store to a writable page changes what its owner reads there and nothing else anywhere |
| `ProcessMemory.StepRefines` | kernel/process/process.c:165-220 | every step (fork, write with its fault, map, exec, create, destroy) keeps the invariant and reads as the same step of the machine that copies eagerly |
| `ProcessMemory.RunRefines` | kernel/process/process.c:91-286 | at every point of every run each process reads exactly what it would read had every fork copied all its pages, and the invariant holds |
| `FrameLeaks.StepAddsExcess` | kernel/process/process.c:165-286 | exactly what every step adds to the excess of a data frame, the count beyond its mappings: a fork as often as the frame is recorded as a stack frame, a page mapped over one on the frame 1, every other step 0 |
| `FrameLeaks.TakenHasNone` | kernel/memory/memory_phys.c:148-166 | a data frame that a step takes from the allocator is counted exactly as often as it is mapped |
| `FrameLeaks.RunAddsExcess` | kernel/memory/memory_phys.c:104-166 | over every run in which a data frame stays in use its excess grows by what the steps add in all; once nobody maps it, it is free if and only if it had no excess and no step added any |
| `FrameLeaks.NeverFreeAgain` | kernel/memory/memory_phys.c:148-166 | over every run a data frame with an excess is never free, so it is never handed out again, whoever is destroyed |
| `FrameLeaks.ForkLosesStack` | kernel/process/process.c:185-199 | a fork gives such an excess to every recorded stack frame that the parent maps |
| `FrameLeaks.MapLosesFrame` | kernel/process/elf.c:57-65 | a page mapped over one that is there gives such an excess to the frame below, as when two segments share a page |
| `CopyNeeds.StoredCopies` | kernel/memory/memory_paging.c:439-479 | a store takes a frame exactly when its page was shared and is then not shared any more, and makes no other page need a copy |
| `CopyNeeds.MappedCopies` | kernel/memory/memory_paging.c:393-436 | mapping a fresh page makes no page need a copy |
| `VirtualMemory.ProcessTable.MapPage` | kernel/memory/memory_paging.c:393-436 | a fresh page step of that machine, on the real tables; it takes one frame, or two when the page has no table yet |
| `VirtualMemory.ProcessTable.PageFault` | kernel/memory/memory_paging.c:439-479 | the handler on the real tables changes no process's reads and leaves the page writable |
| `VirtualMemory.ProcessTable.UserWrite` | kernel/memory/memory_paging.c:439-491 | a store reads back as the eager write; the process is killed exactly when the page is not mapped; a frame is taken exactly when the page was shared, and no other page starts to need a copy |
| `VirtualMemory.ProcessTable.Fork` | kernel/process/process.c:165-220 | a fork step of the eager machine; a mapped heap is mapped in both; counts rise exactly by the shared mappings and once more per recorded stack frame; the child inherits the break and the record, shares the kernel's page tables, and its self-map names its own directory |
| `VirtualMemory.ProcessTable.Clear` | kernel/process/loader.c:18-60 | the process loses its user pages, no other process is affected, and frames are only freed |
| `VirtualMemory.ProcessTable.Destroy` | kernel/process/process.c:228-286 | exactly that process's memory goes |
| `VirtualMemory.ProcessTable.Create` | kernel/process/process.c:91-112 | a new process without user pages; no other process is affected |
| `VirtualMemory.ProcessTable.Sbrk` | kernel/process/syscall.c:140-179 | a positive increment maps the fewest whole pages that hold it at the break, a zero or negative one maps nothing, and every page up to the new break is mapped; it needs one frame a page and one for each table not there yet |
| `VirtualMemory.ProcessTable.Poke` | kernel/process/elf.c:74-90 | a word that the kernel stores through its window in a frame which a process maps open to writes is read by that process alone, like a store of its own |
| `VirtualMemory.HeapSurvives` | kernel/process/syscall.c:140-160 | a heap stays mapped up to the break through every step that does not clear or destroy its process; a forked child has the same |
| `VirtualMemory.LaidKeepsHeaps` | kernel/process/loader.c:58-77 | laying out one process leaves every other heap mapped |
| `VirtualMemory.CloneThenNuke` | kernel/memory/memory_paging.c:121-272 | the two routines in sequence on real tables: every count is back |
| `HeapBlocks.MallocTiled` | kernel/memory/memory_heap.c:46-124 | after an allocation the blocks still tile the heap: each next address is address + 9 + size |
| `HeapBlocks.MallocGives` | kernel/memory/memory_heap.c:46-124 | the block handed out is live, at least as long as asked for, and was free or did not exist before |
| `HeapBlocks.MallocHands` | kernel/memory/memory_heap.c:46-124 | the first block that is free and long enough, and not the last, is handed out: cut to exactly the size, with a free block of the rest less 9 behind it, if at least 10 bytes are over, and whole otherwise; a new block behind the last has exactly the size; all other blocks stay |
| `HeapBlocks.TotalSizeIs` | kernel/memory/memory_heap.c:47-48 | the total of a request is the size rounded up to a multiple of 8, and 9 for the header |
| `HeapBlocks.GrownIs` | kernel/memory/memory_heap.c:127-143 | a growth is the fewest whole pages that hold the bytes asked for |
| `HeapBlocks.MallocKeepsLive` | kernel/memory/memory_heap.c:46-124 | every other live block keeps its address and length |
| `HeapBlocks.BlocksDisjoint` | kernel/memory/memory_heap.c:46-124 | two blocks, header and payload, share no address |
| `HeapBlocks.RunTiled` | kernel/memory/memory_heap.c:40-124 | over every sequence of allocations and frees the blocks tile the heap |
| `HeapBlocks.LiveUntilFreed` | kernel/memory/memory_heap.c:40-124 | over every sequence a live block keeps its place and length until it is freed |
| `HeapBlocks.BoundariesGrow` | kernel/memory/memory_heap.c:40-124 | over every sequence block boundaries are only added |
| `HeapBlocks.GrownSlack` | kernel/memory/memory_heap.c:127-143 | page-granular growth leaves between 7 and 4095 bytes more than asked |
| `HeapBlocks.GrowthSufficesIff` | kernel/memory/memory_heap.c:71-143 | one growth makes room for every request if and only if the last block ends less than 7 bytes beyond the end of the heap |
| `HeapBlocks.OversizedFirstBlock` | kernel/memory/memory_heap.c:50-91 | the first request is placed without a test of its size, in the kernel's heap and in a program's: its block ends inside the mapped memory if and only if it and its header fit, and growth makes room for every later request if and only if it was less than 7 bytes too long |
| `HeapAllocator.Heap.Search` | kernel/memory/memory_heap.c:63-70 | the walk along the next fields in memory ends at the first fit of the block list |
| `HeapAllocator.Heap.Split` | kernel/memory/memory_heap.c:92-112 | in memory: one block of the requested size and a free sibling with a header of its own |
| `HeapAllocator.Heap.IncreaseHeap` | kernel/memory/memory_heap.c:127-143 | the end moves up by whole pages; no byte below the old end changes |
| `HeapAllocator.Heap.Allocate` | kernel/memory/memory_heap.c:46-124 | on bytes: never NULL; the block handed out, its length and what stays behind it are those of MallocHands, the payload is zeroed, no byte of another live payload or of a foreign header changes, and the end moves exactly if there was no room, by the fewest whole pages that hold the total |
| `HeapAllocator.RoomForIff` | kernel/memory/memory_heap.c:53-82 | a request needs no growth if and only if there is no block yet, a block before the last is free and long enough, or the last one ends with more than the total before the end of the heap |
| `HeapAllocator.Heap.Release` | kernel/memory/memory_heap.c:40-43 | on bytes: one present bit is cleared, so that block is free and every other one is as it was; no other byte changes |
| `HeapAllocator.OthersUntouched` | kernel/memory/memory_heap.c:71-124 | no allocation touches a byte of another live payload, nor a header other than its own, a sibling's and its predecessor's |
| `HeapAllocator.GrowthMakesRoom` | kernel/memory/memory_heap.c:71-91 | once the list ends inside the heap, the second test for room never fails |
| `ProcessHeaps.NextKeeps` | libraries/alloc.c:12-118 | whatever one process does (spawn, exec, fork, allocate, free, sbrk, any store, destroy), the bytes of every process that has not changed a header or a variable of its own allocator go on spelling out that allocator, inside what the kernel has mapped up to its break |
| `ProcessHeaps.HarmlessIff` | libraries/alloc.c:6-118 | a store of one word leaves its process's allocator there if and only if it keeps the size, the next field and the bit of every header, and the values of heap.start, heap.end and heap.head |
| `ProcessHeaps.AnyWordIff` | libraries/alloc.c:6-118 | a store is so whatever word it writes if and only if it meets no header byte and is none of those variables |
| `ProcessHeaps.PayloadHarmless` | libraries/alloc.c:32-110 | a store that changes only payload bytes of one block keeps the allocator, also where its word reaches into a header, as for the first bytes of an unaligned block |
| `ProcessHeaps.SizeStoreLosesAll` | libraries/alloc.c:46-55 | after a store of another size over the first of several headers, no list of blocks that tile the heap is spelled out any more |
| `ProcessHeaps.PayloadStays` | libraries/alloc.c:20-118 | a byte of a live block changes only by a store of its own process to it, and then to what is stored: by no allocation, free, growth or fork, and by nothing another process does |
| `ProcessHeaps.OthersKeepBytes` | kernel/process/process.c:165-286 | no step of another process changes a byte that a process reads |
| `ProcessHeaps.ForkSharesBytes` | kernel/process/process.c:185-199 | after a fork parent and child each read the parent's allocator, byte for byte |
| `ProcessHeaps.NextInStep` | libraries/alloc.c:32-118 | no step but a direct call of sbrk for more puts an allocator out of step with the kernel's break |
| `ProcessHeaps.RunAgrees` | libraries/alloc.c:12-118 | at every point of every run, for every process that has not changed a header or a variable of its own allocator: its memory is that allocator; and all have the kernel's end of the heap as long as nobody calls sbrk for more behind its allocator |
| `ProcessHeaps.BlockMapped` | libraries/alloc.c:32-110 | every address of every block of every process lies in a page mapped for it |
| `UserHeap.AllocateIn` | libraries/alloc.c:32-118 | on the page tables: the variables and the bytes are read from the process's pages, the kernel maps the fewest pages that hold the total and only if there is no room, and only bytes of the touched block and headers, heap.end and heap.head are stored, through page faults where a page is shared; what is handed out is as in MallocHands, and the process reads zeros there |
| `UserHeap.ReleaseIn` | libraries/alloc.c:20-24 | on the page tables: one byte of one header is stored |
| `UserHeap.StartIn` | libraries/alloc.c:12-18 | on the page tables: the variables of a new program are stored, from the end of the heap and the length of the strings that it reads off its stack; its argument page stays as the kernel left it |
| `UserHeap.System.Allocate` | libraries/alloc.c:32-110 | an allocation step of the whole; the address handed out is the payload of the block of MallocHands, where the process reads zeros, and the break moves as the room says |
| `UserHeap.System.Release` | libraries/alloc.c:20-24 | a free step of the whole |
| `UserHeap.System.Spawn` | kernel/process/loader.c:107-165 | a new process whose allocator starts behind the argument strings, of the length that it reads off its stack, in step with its break |
| `UserHeap.System.Exec` | kernel/process/loader.c:18-104 | the same in place of what the process had, whatever state that was in |
| `UserHeap.System.Store` | kernel/memory/memory_paging.c:439-491 | any store of any process, with its page fault: a store step of the whole, which ends the allocator of its process exactly if it changes a header or a variable, and touches no other |
| `UserHeap.System.Destroy` | kernel/process/process.c:228-286 | exactly that process's memory and allocator go |
| `UserHeap.System.Fork` | kernel/process/process.c:165-220 | the child reads its parent's allocator from shared pages, and both go on separately |
| `UserHeap.System.Sbrk` | kernel/process/syscall.c:140-160 | a program that calls sbrk itself leaves all allocators in agreement, and in step exactly when the increment is not positive or the program has no allocator |
| `Queue.Queue.Enqueue` | kernel/util/queue.c:62-90 | appends behind the tail, or refuses at the limit and for NULL, with links, ends and length consistent |
| `Queue.Queue.Dequeue` | kernel/util/queue.c:93-112 | takes the head, NULL when empty |
| `Queue.Queue.Bypass` | kernel/util/queue.c:32-51 | the four unlinking cases leave both link directions spelling out the sequence without that node |
| `Queue.Queue.ForceRemove` | kernel/util/queue.c:23-59 | filters out every occurrence, adjacent ones included, and keeps the order of the rest |
| `LinkedList.List.Append` | kernel/util/linked_list.c:86-110 | the data goes to the end; NULL is refused |
| `LinkedList.List.InsertAt` | kernel/util/linked_list.c:43-83 | the data goes in front of the element at the index, or to the end when there is none |
| `LinkedList.List.Find` | kernel/util/linked_list.c:113-124 | the first node holding the data, NULL exactly when none does |
| `LinkedList.List.Remove` | kernel/util/linked_list.c:159-191 | exactly that node goes; a foreign node or NULL changes nothing |
| `ProcessTree.Rooted` | kernel/util/generic_tree.c:43-54 | the nodes of the tree are exactly the processes whose parent fields lead to the kernel |
| `ProcessTree.CreateOk` | kernel/util/generic_tree.c:43-54 | adding a child keeps a tree with agreeing parent fields |
| `ProcessTree.DestroyOk` | kernel/process/process.c:249-278 | destroying a process other than the kernel removes exactly it, moves its children to its parent and keeps a tree rooted at the kernel in which every parent field agrees with the lists |
| `ProcessTree.DestroyKeepsUnder` | kernel/process/process.c:249-278 | among the survivors, who descends from whom does not change |
| `ProcessTree.TraverseIff` | kernel/util/generic_tree.c:59-77 | the traversal finds exactly the nodes under its root |
| `ProcessTree.TraverseFindsAll` | kernel/util/generic_tree.c:59-86 | from the kernel it finds exactly the living processes |
| `ProcessTree.Find` | kernel/process/process.c:289-310 | what proc_find returns is a process of the tree with that pid, or nothing |
| `ProcessTree.FindIff` | kernel/process/process.c:289-310 | proc_find finds a process if and only if it and every ancestor of it below the kernel is the first child of its parent |
| `ProcessTree.FindMissesSecondChild` | kernel/process/process.c:296-307 | a second child exists, is found by the full traversal and is missed by proc_find |
| `Scheduling.ReadyAllIs` | kernel/process/process.c:237-244 | waking the waiters one after the other appends them all to the ready queue in order, as far as the queue takes them |
| `Scheduling.ElapseIs` | kernel/process/scheduler.c:54-71 | one pass over the napping list takes one tick from every napper exactly once, and readies those with none left in list order |
| `Scheduling.TimekeepIff` | kernel/process/scheduler.c:54-71 | the timekeeper keeps every process in its place if and only if those it wakes fit in the ready queue |
| `Scheduling.WakeUpIff` | kernel/process/scheduler.c:164-185 | a woken napper leaves the list for the end of the ready queue and nothing else moves; all are in place if and only if the queue was not full |
| `Scheduling.DestroyIs` | kernel/process/process.c:228-286 | exactly the dead process goes, exactly its waiters are readied in order as far as the queue takes them, and no list refers to it afterwards |
| `Scheduling.NewProcessIff` | kernel/process/process.c:91-220 | a new process with a fresh pid becomes the last child of the running one and enters the end of the ready queue; all are in place if and only if the queue was not full |
| `Dispatching.ReapIs` | kernel/process/scheduler.c:120-127 | reaping takes exactly the head of the dead queue and, only if the kernel was running, destroys it and readies its waiters |
| `Dispatching.DispatchIs` | kernel/process/scheduler.c:74-137 | the whole state after a dispatch in terms of the one before: the head of the ready queue runs; behind the others come the process that ran, if it lives, and the waiters of a reaped one, as far as the queue takes them |
| `Dispatching.DispatchIff` | kernel/process/scheduler.c:74-137 | all are in place after a dispatch if and only if the process that ran, if it lives, could be queued, and so could all that reaping readied |
| `Dispatching.RunnerLost` | kernel/process/scheduler.c:74-108 | with a full ready queue the process that ran is ready and in no queue |
| `Dispatching.OthersIff` | kernel/process/scheduler.c:74-214 | without the process that ran, which a wait or a sleep takes elsewhere, the others are in line if and only if they fit |
| `Lifecycle.TickIff` | kernel/process/scheduler.c:74-108 | a timer preemption always finds a process to run; it keeps every process in its place if and only if the ready queue was not full and takes what reaping readies |
| `Lifecycle.FullQueueLoses` | kernel/process/scheduler.c:74-108 | a preemption with 256 ready processes leaves the one that ran ready, in no queue and in no list |
| `Lifecycle.ExitIff` | kernel/process/syscall.c:63-72 | ending the running process, the kernel too, keeps every process in its place if and only if another is ready and the waiters readied by reaping fit; with nobody ready there is no next process |
| `Lifecycle.ExitQueues` | kernel/process/syscall.c:63-72 | a process that exits is dead and once in the dead queue, at its end |
| `Lifecycle.ForkIff` | kernel/process/syscall.c:75-80 | a new process leaves every process in its place if and only if the ready queue was not full |
| `Lifecycle.SleepIff` | kernel/process/syscall.c:114-117 | sleeping leaves every process in its place if and only if another was ready and what reaping readies fits |
| `Lifecycle.WaitForKernelLoses` | kernel/process/process.c:30-67 | waiting for pid 1, which has no list of waiters, leaves the caller napping, in no queue, not in the napping list and with nobody's waiters |
| `Lifecycle.WaitIff` | kernel/process/scheduler.c:198-214 | a wait leaves every process in its place if and only if the turn has room and the process waited for, if found alive, is not the kernel and another process was ready |
| `Lifecycle.KillNapping` | kernel/process/syscall.c:120-137 | killing a napping process puts it at the end of the dead queue, if that has room, and leaves it in the napping list or among somebody's waiters; nothing else changes |
| `Lifecycle.KillReady` | kernel/process/syscall.c:120-137 | killing a ready process, the kernel too, takes it out of the ready queue and puts it at the end of the dead queue, if that has room; nothing else changes, and all others are in place |
| `Lifecycle.KillIff` | kernel/process/syscall.c:120-137 | a kill leaves every process in its place if and only if its target is not found, dead already, or ready |
| `Lifecycle.StepInPlaceIff` | kernel/process/scheduler.c:54-220 | every event keeps each process in exactly the place its state says, and finds a process to dispatch, if and only if the queues have room for what the event puts in them and its target can be moved |
| `Lifecycle.StepStopsIff` | kernel/process/scheduler.c:120-137 | the scheduler is left without a process to run exactly by the end of a process with nobody else ready |
| `Effects.StepHasEffect` | kernel/process/scheduler.c:54-220 | what every event makes of the state, written out without its steps: who runs, the order of the ready and dead queues and of the nappers, the modes, the lists of waiters and the tree |
| `Lifecycle.StepKeeps` | kernel/process/scheduler.c:54-220 | from at most 256 processes that are not dead, with the kernel ready or running, every guarded event keeps all places, that bound and the kernel able to run |
| `Lifecycle.BootInv` | kernel/process/scheduler.c:26-51 | the kernel alone, running, satisfies the invariant |
| `Lifecycle.EveryRunKeeps` | kernel/process/scheduler.c:54-220 | every run of guarded events from a state with the invariant ends in one |
| `Lifecycle.EveryRunInPlace` | kernel/process/scheduler.c:54-220 | the same from boot, and in every state reached a dispatch finds the ready queue non-empty |
| `Fairness.StepAdvances` | kernel/process/scheduler.c:74-220 | no event but a kill of it sets a ready process back, and each switch brings it one place forward |
| `Fairness.TurnComes` | kernel/process/scheduler.c:74-143 | a process with k others before it runs within k + 1 switches in every run that does not kill it |
| `Fairness.StepNaps` | kernel/process/scheduler.c:54-71 | only the timekeeper and a wake-up of its process change an entry of the napping list |
| `Fairness.NapLasts` | kernel/process/scheduler.c:54-71 | a nap of c ticks stands at c - j after j timekeeper runs and is over right after run max(c, 1), unless woken |
| `Fairness.SleepLasts` | kernel/process/syscall.c:114-117 | sleeping for t ticks ends after exactly max(t, 1) timekeeper runs, unless woken |
| `Waiting.WaitLists` | kernel/process/syscall.c:100-105 | the caller of wait is listed with the process found, or, if none is found alive, has only given up its turn |
| `Waiting.StepWaits` | kernel/process/process.c:237-244 | no event but the destruction of the process waited for ends a wait, and that one readies the waiter |
| `Waiting.DestroyedIff` | kernel/process/scheduler.c:116-127 | the head of the dead queue is gone after a dispatch if and only if the kernel was running; otherwise it is dead and in no queue |
| `Waiting.StepDropped` | kernel/process/scheduler.c:54-220 | no event takes up a dead process that is in no queue |
| `Waiting.DroppedForever` | kernel/process/scheduler.c:54-220 | in every run such a process stays what it is, and whoever waits for it stays in its list of waiters |
| `Breakdowns.SomeWaitNeverEnds` | kernel/process/scheduler.c:116-127 | from boot, with one process that the kernel creates: that process waits for its first child, which exits while the second runs, and goes on waiting in every run |
| `Breakdowns.FullQueueReached` | kernel/process/scheduler.c:74-108 | from boot, with one process that the kernel creates: its 255 forks leave all in place, and the next preemption loses it |
| `Breakdowns.KillKernelStops` | kernel/process/syscall.c:120-137 | killing the kernel while it alone is ready leaves all in place, and the end of the running process then finds nobody to run |
| `Breakdowns.KernelAloneReached` | kernel/process/syscall.c:120-137 | such a state is reached from boot by a fork and a preemption |
| `Scheduler.Kernel.constructor` | kernel/process/scheduler.c:26-51 | the variables after start-up, with two empty linked queues, are the boot state, which satisfies the invariant |
| `Scheduler.Kernel.Timekeeping` | kernel/process/scheduler.c:54-71 | the loop on the variables takes one tick from each napper and readies those with none left, in order, although it removes entries from the list it walks; all are in place if and only if the woken fit in the ready queue |
| `Scheduler.Kernel.WakeProcess` | kernel/process/scheduler.c:164-185 | a napper with that pid leaves the list for the end of the ready queue, nothing else moves; 0 is returned exactly when the pid was napping; all are in place if and only if it was not, or the queue was not full |
| `Scheduler.Kernel.Destroy` | kernel/process/process.c:228-286 | the loops over waiters and children are the destroy step |
| `Scheduler.Kernel.Preempt` | kernel/process/scheduler.c:74-137 | the handler on the variables and on the two linked queues is the dispatch step, which DispatchIs writes out |
| `Scheduler.Kernel.OnTick` | kernel/process/scheduler.c:74-137 | the timer event: the process that ran goes to the end of the ready queue, its head runs, the head of the dead queue is taken, and destroyed if the kernel ran, with its waiters readied; all are in place if and only if it has room, and the invariant is kept |
| `Scheduler.Kernel.OnExit` | kernel/process/syscall.c:63-72 | the exit event: the process that ran goes to the end of the dead queue and the head of the ready queue runs; all are in place if and only if it has room, and the invariant is kept unless the kernel exits |
| `Scheduler.Kernel.OnFork` | kernel/process/syscall.c:75-80 | the fork event: a process with the next pid, not in use before, is the last child of the one that runs and goes to the end of the ready queue; all are in place if and only if that was not full |
| `Scheduler.Kernel.OnWait` | kernel/process/syscall.c:100-105 | the wait event: the caller gives up its turn, leaves the ready queue and is listed with the process found, if that is not dead; all are in place if and only if it has room, and the invariant is kept for a user caller and a pid that is not the kernel's |
| `Scheduler.Kernel.OnSleep` | kernel/process/syscall.c:114-117 | the sleep event: the caller gives up its turn and leaves the ready queue for the end of the napping list; all are in place if and only if it has room, and the invariant is kept for a user caller |
| `Scheduler.Kernel.OnKill` | kernel/process/syscall.c:120-137 | the kill event, for any pid: a target found and not dead is marked dead, leaves the ready queue and enters the end of the dead queue, and nothing else changes; otherwise nothing changes; all are in place if and only if the target is not found, dead or ready; 0 exactly when a process that was not dead is dead now |
| `NappingList.Timekeeper` | kernel/process/scheduler.c:54-71 | on the linked list itself: every entry's counter falls by exactly one, the list keeps exactly the survivors in order, and the expired are woken in order |
| `NappingList.Visit` | kernel/process/scheduler.c:57-69 | one turn of the loop: the walk reaches the next unvisited entry also when the current node is removed |
| `Terminal.PutShowsIff` | drivers/devices/gtty/gtty.c:349-435 | after one character the screen shows the last 25 rows of the unbounded text, at the same position, unless it is a backspace at the first cell of a scrolled window |
| `Terminal.BackspaceLeaves` | drivers/devices/gtty/gtty.c:349-435 | with 25 typed characters, 25 newlines and then a backspace and a return 24 times lead a fresh screen to that state, where the next backspace makes screen and text differ |
| `Terminal.NoBackspaceStays` | drivers/devices/gtty/gtty.c:349-435 | a string without backspace never leaves the window |
| `Terminal.ScreenShowsText` | drivers/devices/gtty/gtty.c:349-435 | for every string that stays in the window the screen afterwards is the last 25 rows of the unbounded line-wrapped terminal |
| `Terminal.PutOk` | drivers/devices/gtty/gtty.c:410-431 | the position stays on the screen after every character, backspace and tab included |
| `Terminal.Location` | drivers/devices/gtty/gtty.c:344-346 | a position on the screen is an index inside video memory |
| `Terminal.Display.WriteCells` | drivers/devices/vga/vga.c:80-97 | exactly the cells in range are written, with the colour; no write leaves video memory even when start and size wrap on 32 bits |
| `Terminal.Display.Scroll` | drivers/devices/vga/vga.c:190-205 | all rows move up by one and the last is blank |
| `Terminal.Display.WriteVga` | drivers/devices/gtty/gtty.c:349-435 | the loop, with its recursive tabs, is the character-wise screen; -1 and no change in pixel mode |
| `Numbers.ValueOfDigits` | libraries/libc/string.c:193-210 | positional notation is inverted by reading digits, for every number, in base 10 and 16; the digits are in upper case and without leading zeros |
| `Numbers.PutUint` | libraries/libc/string.c:193-210 | the buffer holds the decimal digits without leading zeros and a NUL, nothing else changes, and the digit count is returned |
| `Numbers.PutInt` | libraries/libc/string.c:213-223 | the same with a sign, down to the least 32-bit number |
| `Numbers.PutHex` | libraries/libc/string.c:159-190 | 0x and the upper-case hexadecimal digits without leading zeros, no NUL, nothing else changes |
| `Numbers.Strtoul` | libraries/libc/string.c:297-319 | the value on 32 bits of the longest digit run behind the prefix, and where that run ends |
| `Numbers.Strtol` | libraries/libc/string.c:321-325 | the signed reading of that value after a minus |
| `Numbers.UintRoundTrip` | libraries/libc/string.c:193-319 | printing then reading in base 10 is the identity on all 32-bit numbers and consumes exactly what was printed |
| `Numbers.IntRoundTrip` | libraries/libc/string.c:213-325 | the same for signed numbers |
| `Numbers.HexRoundTrip` | libraries/libc/string.c:159-319 | the same for hexadecimal in base 0, into a zeroed buffer |
| `Elf.MapPages` | kernel/process/elf.c:48-65 | the first loop on the page tables: each page of the segment is mapped, clear, on a frame of the allocator, and the frames are noted in order |
| `Elf.PageCountIs` | kernel/process/elf.c:48-55 | the pages of a segment are the fewest that hold its size in memory |
| `Elf.CopyPages` | kernel/process/elf.c:67-90 | the second loop: through the window, the file's part of each page is copied into its frame, so the process reads the file's bytes and zeros behind them |
| `Elf.LoadSegment` | kernel/process/elf.c:45-91 | both: the process reads the pages of the segment on top of what was mapped before |
| `Elf.LoadAll` | kernel/process/elf.c:30-95 | over all headers in order: the process reads the pages of every segment, later ones on top of earlier ones on the same page; nobody else reads anything new |
| `Elf.ByteOfSegment` | kernel/process/elf.c:48-90 | where each byte of a loaded segment lies, aligned or not |
| `Elf.AlignedSegment` | kernel/process/elf.c:48-90 | byte k of a page-aligned segment is the file's byte for k below p_filesz and 0 up to p_memsz |
| `Elf.RightIffPlaced` | kernel/process/elf.c:45-90 | every byte of a PT_LOAD segment, up to its size in memory, is mapped and right for all file contents if and only if the segment is empty, or is not at address 0 and starts on a page boundary or takes nothing from the file and ends in the last page that its size alone asks for |
| `Bytes.ByteOfPage` | kernel/process/elf.c:74-90 | bytes copied into a page through the window are read back from its 32-bit words, little end first |
| `Elf.CodeHas` | kernel/process/elf.c:39-92 | where each page of each segment stands in the list of pages that the loader maps; what comes behind it for the same page is of a later segment |
| `Programs.SegmentPresent` | kernel/process/elf.c:45-91 | a segment none of whose pages is mapped again is present as a whole in what the process reads |
| `Programs.Exec` | kernel/process/loader.c:18-104 | from the file on, through the page tables: the process has exactly the pages of its segments, five of stack and the argument page; the stack is clear but for the four words at its end, which are 0xDB05DB05, the end of the heap, the length of the arguments and their number; at every address of every segment the process reads the byte that the last segment there has, except under the stack and the argument page; the recorded stack frames are those mapped; the heap is mapped up to the new break |
| `Programs.Spawn` | kernel/process/loader.c:107-165 | the same for a new process, whose stack proc_create maps before the segments, so that only the argument page comes on top of them, and the stack reads so where no segment covers it |
| `Arguments.PutArgs` | kernel/process/loader.c:63-75 | the argument page starts with the name and the arguments, each with its NUL, one behind the other, and is otherwise as it was; their length is what is counted |
| `Arguments.FetchStrings` | libraries/bootstrap.c:31-42 | from such a page the loop of bootstrap takes exactly the strings |
| `Arguments.ExecPasses` | kernel/process/loader.c:63-92 | a program that loader_exec starts finds, by the words on its stack and in its heap, its name and the arguments given, whatever the page held before |
| `Arguments.SpawnPasses` | kernel/process/loader.c:126-158 | the same of loader_spawn, where no segment covers the top page of the stack |
| `Paths.JoinAfterSplit` | kernel/util/path.c:8-25 | the parts of a path, joined by slashes, give the path back |
| `Paths.PartsHaveNoSlash` | kernel/util/path.c:8-25 | no part holds a slash |
| `Paths.ParsePath` | kernel/util/path.c:8-25 | the buffer holds the path with slashes turned to NUL, and the number of slashes is returned |
| `Paths.NextPart` | kernel/vfs/vfs.c:206-207 | the C strings that the walk reads from the buffer are the parts of the path in order |
| `Vfs.MountKeeps` | kernel/vfs/vfs.c:133-237 | a mount keeps sibling names distinct and every mounted node that is no stub in its place; on success the path leads to the node |
| `Vfs.MountSucceedsIff` | kernel/vfs/vfs.c:185-232 | a mount below the root succeeds if and only if the last part is the node's name and the path leads nowhere yet or to a stub |
| `Vfs.MountAtRoot` | kernel/vfs/vfs.c:158-183 | a mount at / succeeds if and only if there is no root yet or the root is a stub; then the node is the root's, with its sub-trees and all other nodes as they were; refused, it changes nothing |
| `Vfs.MountBelow` | kernel/vfs/vfs.c:185-232 | a mount below the root, refused or not: the path leads somewhere, with exactly one new stub for each part that led nowhere, behind the sub-trees that were there; the node stands there if it was mounted, and no other node changes |
| `Vfs.MountAllKeeps` | kernel/vfs/vfs.c:133-237 | over any sequence of mounts every path keeps leading where it led, and a node that is no stub is never displaced |
| `Vfs.MountedStays` | kernel/vfs/vfs.c:133-237 | a node that is no stub, once mounted, is found under its path after any further mounts |
| `Vfs.MountTable.Descend` | kernel/vfs/vfs.c:188-196 | the loop over the sub-trees finds the one with the name, if there is one |
| `Vfs.MountTable.Follow` | kernel/vfs/vfs.c:186-208 | the walk along the cut-up path ends where the parts lead, with stubs made for what was missing |
| `Vfs.MountTable.MountNode` | kernel/vfs/vfs.c:133-237 | the code on its buffer and tree is the mount step, error returns included: at / and below it exactly the trees of MountAtRoot and MountBelow are left, and a path without a leading slash changes nothing |
| `Vfs.MountTable.constructor` | kernel/vfs/vfs.c:119-130 | start-up leaves a stub directory at the root |

## Left out

- Port I/O, assembly, TLB, FPU state, descriptor tables, timer programming, boot code and devices other than the text screen: hardware effects with no law of their own here.
- Writes of the kernel into user buffers and faults at kernel addresses: only paging is enabled in CR0, so copy-on-write is stated for user-mode writes below 0xC0000000.
- The pointers and the copies that bootstrap makes of the argument strings in the program's heap: Arguments.ExecPasses and SpawnPasses say which strings it reads; UserHeap takes the words of their page as given.
- Paging.Mmu.Fault: a frame that shares its count with another, which lower memory of broken pages allows (PhysicalFrames.IndexInjectiveIff), is excluded.
- Paging.Mmu.MappedFrame: addresses of the user half only; for the kernel half the routine reads the shared tables, which the model leaves out.
- Paging.Mmu.UnsetEntry: addresses of the user half only, for the same reason.
- Paging.Mmu.SetEntry: addresses of the user half only, for the same reason.
- Accessed and dirty bits that the processor sets in table entries.
- Exhausted frames and counts beyond 255: the callers do not check, so exactly the frames an operation takes, and room in the 8-bit counts, are preconditions of the memory operations.
- VirtualMemory.ProcessTable.Sbrk: does not say what new heap pages contain, because the code does not clear them.
- HeapAllocator.Heap.Allocate: requests are below 2^31 and the heap stays below 4 GiB; the first block must fit the initial page, because the code otherwise writes beyond the mapped heap; HeapBlocks.OversizedFirstBlock says exactly when.
- UserHeap.System.Allocate: the same for a first request of a process, whose heap ends with the argument page. The bytes that changed are stored once each, with what they end up as, where the code stores some of them several times; heap.allocated_size, which nothing reads, is not stored.
- UserHeap.System.Exec: the allocator's variables lie in the program's image below the heap, as the linker places them, and the arguments fit in their page.
- UserHeap.System.Spawn: the same, and no segment covers the top page of the stack, where the kernel leaves the words that bootstrap reads.
- What the allocator's functions do once a program has changed a header or a variable, even to those of another list: no more than the stores and calls of sbrk that they consist of, which are steps of every run.
- HeapAllocator.Heap.MakeRoom: walks the list once to test for room and once to place the block, where the code walks it once.
- Contents after alloc_reallocate: the code frees and reallocates without copying.
- Shrinking the break: the loop for a negative sbrk never runs.
- "Every dead process is destroyed in the end": false of the code, see the findings.
- Lifecycle.StepKeeps: one way only, because its guard also keeps a run going; which single event keeps all places is exact in Lifecycle.StepInPlaceIff.
- Queue.Queue.Enqueue: a failing kern_malloc is not modelled, because the verified allocator never returns NULL.
- LinkedList.List.InsertAt: an index above 0 on an empty list is excluded, because the code follows a NULL tail there.
- Fairness.SleepLasts: the counter is an unbounded integer; a sleep of -2^31 ticks would overflow in C.
- Scheduler.Kernel: process registers, names, open files and the STANDALONE or CLONE type, which no scheduling decision reads; the ready and dead queues are linked queues, while the napping list and the lists of waiters and children are sequences there (NappingList.Timekeeper has the walk on the pointer list).
- Queue and list nodes share one node class in Links, although the source declares two record types of the same shape.
- ProcessTree.Find: soundness and its exact reach are proved; completeness is false of the code.
- Terminal.Display.WriteVga: the cursor register and the contents of the input buffer are not modelled, only its index; strings are shorter than 2^31.
- Numbers: floating point printing and the 64-bit parsers.
- Elf.LoadAll: the decoding of headers from file bytes and validate_elf are not modelled; headers are given as records.
- Programs.Exec: segments lie in the user half and in the file, which the code does not check. The four words on the stack are there from the start, where the code stores them at the end in the same frames.
- Programs.Spawn: the same; frames of the stack that a segment covers stay recorded, as in the code.
- Vfs.MountTable.MountNode: a path other than "/" needs a mounted root, because the code follows a NULL without one; reading, writing and finding nodes are not modelled.
- tarfs, devfs dispatch, VESA drawing, the shell, the calculator, libm, libbmp and liblist.
