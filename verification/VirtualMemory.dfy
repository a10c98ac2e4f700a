/** The memory side of process life: proc_create, proc_clone and proc_destroy in
    kernel/process/process.c, sbrk in kernel/process/syscall.c and the copy-on-write page fault,
    run on the page tables of Paging, and the layouts that the program loader maps page by page.
    Each operation is shown to be a run of the steps of ProcessMemory. */
module VirtualMemory {
  import opened Machine
  import opened PhysicalFrames
  import opened PageEntries
  import opened PageTables
  import opened Paging
  import opened CopyOnWrite
  import opened AddressSpaces
  import opened ProcessMemory
  import opened CopyNeeds

  const STACK_PAGE := 0x4000_0000 / PAGE
  const HEAP_PAGE := 0x5000_0000 / PAGE
  const STACK_PAGES := 5
  const LAST_PAGE := USER_PAGES   // the kernel half starts here

  class ProcessTable {
    const mmu: Mmu
    var dirs: map<int, nat>          // proc_pdir of each process
    var heapEnd: map<int, nat>       // heap_end of each process, in pages
    var stackFrames: map<int, seq<nat>>  // proc_ustack_phys of each process

    ghost function S(): Vm
      reads this`dirs, mmu, mmu.phys.allocations
    {
      Vm(mmu.H(), dirs)
    }

    ghost predicate Valid()
      reads this`dirs, mmu, mmu.phys, mmu.phys.allocations, mmu.phys.freeList
    {
      mmu.Valid() && VmInv(S())
    }

    /** Every page from the start of a process's heap to its break is mapped. */
    ghost predicate HeapMapped(pid: int)
      reads this, mmu, mmu.phys.allocations
    {
      pid in heapEnd && HeapIn(Reads(S()), pid, heapEnd[pid])
    }

    ghost function Free(): nat
      reads mmu, mmu.phys.allocations
    {
      |FreeSlots(mmu.H().counts)|
    }

    /** How many frames are free once the process has lost its user pages. */
    ghost function FreeAfterClear(pid: int): nat
      requires pid in dirs && dirs[pid] < |mmu.mem|
      reads this, mmu, mmu.phys.allocations
    {
      |FreedByClear(mmu.H(), dirs[pid])|
    }

    /** The table is none of the objects below it. */
    lemma Apart()
      ensures this as object != mmu as object && this as object != mmu.phys as object
      ensures this as object != mmu.phys.allocations as object && this as object != mmu.phys.freeList as object
    {
    }

    constructor (mmu: Mmu)
      requires mmu.Valid() && ZeroHeld(mmu.H())
      ensures Valid() && dirs == map[] && this.mmu == mmu
    {
      this.mmu := mmu;
      dirs, heapEnd, stackFrames := map[], map[], map[];
      new;
      NoProcesses(mmu.H());
    }

    // ----- mapping one page -----

    /** A fresh frame, its first words set, mapped for the user at page p. */
    method MapPage(pid: int, p: nat, words: seq<Word>) returns (f: FrameNumber, ghost content: Page)
      requires Valid() && pid in dirs && p < USER_PAGES && |words| <= ENTRIES
      requires Free() >= FramesToMap(mmu.mem[dirs[pid]], p)
      modifies mmu`window, mmu`mem, mmu.phys.allocations
      ensures Valid()
      ensures forall k :: 0 <= k < |words| ==> content[k] == words[k]
      ensures Slot(mmu.phys.lower, f) < mmu.phys.allocations.Length
      ensures Transition(old(S()), S(), Map(pid, p, content))
      ensures Reads(S()) == Eager(old(Reads(S())), Map(pid, p, content))
      ensures Free() >= old(Free()) - old(FramesToMap(mmu.mem[dirs[pid]], p))
      ensures Tables(mmu.mem[dirs[pid]]) == old(Tables(mmu.mem[dirs[pid]])) + {p / ENTRIES}
      ensures FewerCopies(old(mmu.H()), mmu.H(), dirs[pid])
      ensures MapsTo(mmu.H(), dirs[pid], p, f) && MapsKept(old(mmu.H()), mmu.H(), dirs[pid], p)
    {
      ghost var s0 := S();
      SpaceInv(s0, pid);
      f, content := mmu.MapFresh(dirs[pid], p, words);
      MappedMaps(s0.h, mmu.H(), dirs[pid], p, f, content);
      MappedCopies(s0.h, mmu.H(), dirs[pid], p, content);
      MapStep(s0, S(), pid, p, content);
    }

    // ----- user-mode stores and the page fault handler -----

    /** The copy-on-write branch of page_fault_handler, for a present page the user may not write. */
    method PageFault(pid: int, p: nat)
      requires Valid() && pid in dirs && p < USER_PAGES
      requires EntryAt(mmu.mem, dirs[pid], p).present
      requires mmu.H().counts[Slot(mmu.phys.lower, EntryAt(mmu.mem, dirs[pid], p).frame)] > 1 ==> Free() >= 1
      modifies mmu, mmu.phys.allocations
      ensures Valid() && Faulted(old(mmu.H()), mmu.H(), dirs[pid], p)
      ensures ZeroHeld(mmu.H()) && UserWritable(mmu.mem, dirs[pid], p)
      ensures Reads(S()) == old(Reads(S()))
    {
      ghost var s0 := S();
      SpaceInv(s0, pid);
      SlotContent(s0.h, dirs, pid, p);
      mmu.Fault(dirs[pid], p);
      FaultInvisible(s0.h, mmu.H(), dirs, pid, p);
    }

    /** A user-mode store to word j of page p. A page that is not present kills the process. */
    method UserWrite(pid: int, p: nat, j: nat, w: Word) returns (killed: bool)
      requires Valid() && pid in dirs && p < USER_PAGES && j < ENTRIES
      requires NeedsCopy(mmu.H(), dirs[pid], p) ==> Free() >= 1
      modifies mmu, mmu.phys.allocations
      ensures Valid()
      ensures killed <==> p !in old(Reads(S()))[pid]
      ensures Transition(old(S()), S(), Write(pid, p, j, w))
      ensures Reads(S()) == Eager(old(Reads(S())), Write(pid, p, j, w))
      ensures FewerCopies(old(mmu.H()), mmu.H(), dirs[pid]) && !NeedsCopy(mmu.H(), dirs[pid], p)
      ensures Free() == old(Free()) - if old(NeedsCopy(mmu.H(), dirs[pid], p)) then 1 else 0
    {
      ghost var s0 := S();
      SpaceInv(s0, pid);
      killed := !EntryAt(mmu.mem, dirs[pid], p).present;
      if !killed {
        PageInv(s0, pid, p);
        mmu.UserStore(dirs[pid], p, j, w);
        StoredCopies(s0.h, mmu.H(), dirs, pid, p, j, w);
      }
      WriteStep(s0, S(), pid, p, j, w);
      PresentIsRead(s0, pid, p);
    }

    function ReadPage(pid: int, p: nat): (page: Page)
      requires Valid() && pid in dirs && p in Reads(S())[pid]
      reads this`dirs, mmu, mmu.phys, mmu.phys.allocations, mmu.phys.freeList
      ensures page == Reads(S())[pid][p]
    {
      SlotContent(mmu.H(), dirs, pid, p);
      mmu.mem[EntryAt(mmu.mem, dirs[pid], p).frame]
    }

    /** What a program reads. */
    function ReadWord(pid: int, p: nat, j: nat): (w: Word)
      requires Valid() && pid in dirs && p in Reads(S())[pid] && j < ENTRIES
      reads this`dirs, mmu, mmu.phys, mmu.phys.allocations, mmu.phys.freeList
      ensures w == Reads(S())[pid][p][j]
    {
      ReadPage(pid, p)[j]
    }

    // ----- fork, exec and destroy -----

    /** The page-table part of proc_clone. */
    method ForkSpace(parent: int, child: int, stack: seq<nat>)
      requires Valid() && parent in dirs && child !in dirs
      requires Known(mmu.phys.lower, mmu.phys.allocations.Length, stack)
      requires RoomToFork(mmu.H(), dirs[parent], stack)
      modifies this`dirs, mmu, mmu.phys.allocations
      ensures Valid() && child in dirs && dirs == old(dirs)[child := dirs[child]]
      ensures ForkedDir(old(mmu.H()), mmu.H(), old(dirs)[parent], dirs[child], stack)
      ensures dirs[child] < |mmu.mem| && KernelShared(old(mmu.mem)[old(dirs)[parent]], mmu.mem[dirs[child]], dirs[child])
      ensures Transition(old(S()), S(), Step.Fork(parent, child))
      ensures Reads(S()) == Eager(old(Reads(S())), Step.Fork(parent, child))
    {
      ghost var s0 := S();
      var nd := CloneSpace(parent, stack);
      ghost var h := mmu.H();
      dirs := dirs[child := nd];
      assert mmu.phys.Valid();
      assert mmu.H() == h;
      ForkStep(s0, S(), parent, child, nd, stack);
    }

    method CloneSpace(parent: int, stack: seq<nat>) returns (nd: FrameNumber)
      requires Valid() && parent in dirs && Known(mmu.phys.lower, mmu.phys.allocations.Length, stack)
      requires RoomToFork(mmu.H(), dirs[parent], stack)
      modifies mmu, mmu.phys.allocations
      ensures mmu.Valid() && ZeroHeld(mmu.H()) && ForkedDir(old(mmu.H()), mmu.H(), dirs[parent], nd, stack)
      ensures nd < |mmu.mem| && KernelShared(old(mmu.mem)[dirs[parent]], mmu.mem[nd], nd)
    {
      SpaceInv(S(), parent);
      nd := mmu.ForkDirectory(dirs[parent], stack);
    }

    /** Record the stack frames and the break of a process. */
    method Inherit(child: int, stack: seq<nat>, brk: nat)
      requires Valid() && StacksOk() && Known(mmu.phys.lower, mmu.phys.allocations.Length, stack)
      modifies this`stackFrames, this`heapEnd
      ensures Valid() && StacksOk() && S() == old(S()) && mmu.H() == old(mmu.H())
      ensures heapEnd == old(heapEnd)[child := brk] && stackFrames == old(stackFrames)[child := stack]
    {
      ghost var s := S();
      stackFrames := stackFrames[child := stack];
      heapEnd := heapEnd[child := brk];
      assert mmu.phys.Valid();
      assert S() == s;
    }

    /** proc_clone: the clone shares the pages, the recorded stack frames and the break. */
    method Fork(parent: int, child: int)
      requires Valid() && parent in dirs && child !in dirs && StacksOk() && parent in stackFrames && parent in heapEnd
      requires RoomToFork(mmu.H(), dirs[parent], stackFrames[parent])
      modifies this, mmu, mmu.phys.allocations
      ensures Valid() && StacksOk() && child in dirs && dirs == old(dirs)[child := dirs[child]]
      ensures ForkedDir(old(mmu.H()), mmu.H(), old(dirs)[parent], dirs[child], old(stackFrames)[parent])
      ensures dirs[child] < |mmu.mem| && KernelShared(old(mmu.mem)[old(dirs)[parent]], mmu.mem[dirs[child]], dirs[child])
      ensures Transition(old(S()), S(), Step.Fork(parent, child))
      ensures Reads(S()) == Eager(old(Reads(S())), Step.Fork(parent, child))
      ensures heapEnd == old(heapEnd)[child := old(heapEnd)[parent]]
      ensures stackFrames == old(stackFrames)[child := old(stackFrames)[parent]]
      ensures old(HeapMapped(parent)) ==> HeapMapped(parent) && HeapMapped(child)
    {
      Apart();
      ghost var r, brk := Reads(S()), heapEnd[parent];
      ForkRecorded(parent, child);
      ForkHeaps(r, parent, child, brk);
      assert heapEnd[parent] == brk && heapEnd[child] == brk;
    }

    method ForkRecorded(parent: int, child: int)
      requires Valid() && parent in dirs && child !in dirs && StacksOk() && parent in stackFrames && parent in heapEnd
      requires RoomToFork(mmu.H(), dirs[parent], stackFrames[parent])
      modifies this, mmu, mmu.phys.allocations
      ensures Valid() && StacksOk() && child in dirs && dirs == old(dirs)[child := dirs[child]]
      ensures ForkedDir(old(mmu.H()), mmu.H(), old(dirs)[parent], dirs[child], old(stackFrames)[parent])
      ensures dirs[child] < |mmu.mem| && KernelShared(old(mmu.mem)[old(dirs)[parent]], mmu.mem[dirs[child]], dirs[child])
      ensures Transition(old(S()), S(), Step.Fork(parent, child))
      ensures Reads(S()) == Eager(old(Reads(S())), Step.Fork(parent, child))
      ensures heapEnd == old(heapEnd)[child := old(heapEnd)[parent]]
      ensures stackFrames == old(stackFrames)[child := old(stackFrames)[parent]]
    {
      Apart();
      var stack, brk := stackFrames[parent], heapEnd[parent];
      ForkSpace(parent, child, stack);
      Inherit(child, stack, brk);
    }

    /** The address-space part of loader_exec: everything below the kernel is unmapped. */
    method Clear(pid: int)
      requires Valid() && pid in dirs
      modifies mmu, mmu.phys.allocations
      ensures Valid()
      ensures Free() >= old(Free()) && Free() == old(FreeAfterClear(pid)) && NoCopies(mmu.H(), dirs[pid])
      ensures Transition(old(S()), S(), Step.Clear(pid))
      ensures Reads(S()) == Eager(old(Reads(S())), Step.Clear(pid))
    {
      ghost var s0 := S();
      SpaceInv(s0, pid);
      mmu.RemoveAddressSpace(dirs[pid]);
      DropFrees(s0.h, mmu.H(), dirs[pid]);
      ClearedCopies(s0.h, mmu.H(), dirs[pid]);
      ClearStep(s0, S(), pid);
    }

    /** The memory part of proc_destroy. */
    method Destroy(pid: int)
      requires Valid() && pid in dirs
      modifies this, mmu, mmu.phys.allocations
      ensures Valid() && dirs == old(dirs) - {pid} && (old(StacksOk()) ==> StacksOk())
      ensures Transition(old(S()), S(), Step.Destroy(pid))
      ensures Reads(S()) == Eager(old(Reads(S())), Step.Destroy(pid))
      ensures heapEnd == old(heapEnd) - {pid} && stackFrames == old(stackFrames) - {pid}
    {
      ghost var s0 := S();
      SpaceInv(s0, pid);
      mmu.NukeDirectory(dirs[pid]);
      dirs, heapEnd, stackFrames := dirs - {pid}, heapEnd - {pid}, stackFrames - {pid};
      DestroyStep(s0, S(), pid);
    }

    /** The first part of proc_create: a directory with an empty user half. */
    method Create(pid: int, current: nat)
      requires Valid() && pid !in dirs && current < |mmu.mem| && Held(mmu.H(), current) && Free() >= 1
      modifies this`dirs, mmu, mmu.phys.allocations
      ensures Valid() && dirs.Keys == old(dirs.Keys) + {pid}
      ensures Transition(old(S()), S(), Step.Create(pid))
      ensures Reads(S()) == Eager(old(Reads(S())), Step.Create(pid))
      ensures Free() == old(Free()) - 1 && NoCopies(mmu.H(), dirs[pid])
    {
      ghost var s0 := S();
      var nd := mmu.NewDirectory(current);
      CreatedCopies(mmu.H(), nd);
      dirs := dirs[pid := nd];
      TakeFreeSlot(s0.h.counts, Slot(s0.h.lower, nd), 1);
      CreateStep(s0, S(), pid, nd, mmu.mem[nd]);
    }

    // ----- laying out an address space -----

    /** The table is in order and the layout done up to page k. */
    ghost predicate Laying(pid: int, plan: Plan, done: seq<PageInit>, k: int)
      reads this`dirs, mmu, mmu.phys, mmu.phys.allocations, mmu.phys.freeList
    {
      Valid() && LaidUpTo(S(), pid, plan, done, k)
    }

    lemma StartLaying(pid: int, layout: seq<PageInit>, spare: nat) returns (plan: Plan)
      requires Valid() && pid in dirs && dirs[pid] < |mmu.mem| && Free() >= FramesFor(Tables(mmu.mem[dirs[pid]]), layout, 0) + spare
      ensures PlanOk(plan) && Laying(pid, plan, [], 0) && plan.layout == layout && plan.left[|layout|] == spare
      ensures plan.h0 == mmu.H() && plan.r0 == Reads(S())
    {
      var had, left := Notes(Tables(mmu.mem[dirs[pid]]), layout, 0, spare);
      plan := Plan(mmu.H(), 0, Reads(S()), layout, had, left);
      assert layout[0..] == layout;
      LaidNothing(Reads(S()), pid);
    }

    /** The same plan, from where it stands. */
    lemma Resumed(pid: int, plan: Plan, done: seq<PageInit>, k: int) returns (from: Plan)
      requires PlanOk(plan) && Laying(pid, plan, done, k)
      ensures PlanOk(from) && Laying(pid, from, done, k) && from == plan.(h0 := mmu.H(), base := |done|)
    {
      from := plan.(h0 := mmu.H(), base := |done|);
      assert forall i :: 0 <= i < |plan.layout| ==> (Noted(from.layout, from.had, from.left, i) <==> Noted(plan.layout, plan.had, plan.left, i));
    }

    /** The next page of the layout. */
    method MapNext(pid: int, init: PageInit, ghost plan: Plan, ghost done: seq<PageInit>, ghost k: nat)
        returns (f: FrameNumber, ghost next: seq<PageInit>, ghost next_k: nat)
      requires PlanOk(plan) && Laying(pid, plan, done, k) && k < |plan.layout| && plan.layout[k].page == init.page < USER_PAGES && |init.words| <= ENTRIES
      modifies mmu`window, mmu`mem, mmu.phys.allocations
      ensures next == done + [init] && next_k == k + 1 && Laying(pid, plan, next, next_k)
      ensures Slot(mmu.phys.lower, f) < mmu.phys.allocations.Length
      ensures MapsTo(mmu.H(), dirs[pid], init.page, f) && MapsKept(old(mmu.H()), mmu.H(), dirs[pid], init.page)
    {
      ghost var s0 := S();
      RoomForPage(s0, pid, plan, done, k);
      var g, content := MapPage(pid, init.page, init.words);
      f, next, next_k := g, done + [init], k + 1;
      PageLaid(s0, S(), pid, plan, done, k, init, content, next, next_k);
    }

    /** The same, for the page that is i places behind k. */
    method MapAt(pid: int, init: PageInit, ghost plan: Plan, ghost done: seq<PageInit>, ghost at: nat, ghost k: nat, ghost i: nat)
        returns (f: FrameNumber, ghost next: seq<PageInit>, ghost next_at: nat)
      requires PlanOk(plan) && Laying(pid, plan, done, at) && at == k + i && IsAt(plan.layout, k, i, init)
      requires init.page < USER_PAGES && |init.words| <= ENTRIES
      modifies mmu`window, mmu`mem, mmu.phys.allocations
      ensures next == done + [init] && next_at == at + 1 && Laying(pid, plan, next, next_at)
      ensures Slot(mmu.phys.lower, f) < mmu.phys.allocations.Length
      ensures MapsTo(mmu.H(), dirs[pid], init.page, f) && MapsKept(old(mmu.H()), mmu.H(), dirs[pid], init.page)
    {
      f, next, next_at := MapNext(pid, init, plan, done, at);
    }

    /** Some pages of the layout, one after the other. */
    method MapSome(pid: int, pages: seq<PageInit>, ghost plan: Plan, ghost done: seq<PageInit>, ghost k: nat, ghost all: seq<PageInit>, ghost end: nat)
        returns (frames: seq<nat>)
      requires PlanOk(plan) && Laying(pid, plan, done, k) && HasAt(plan.layout, k, pages) && all == done + pages && end == k + |pages|
      requires forall i :: 0 <= i < |pages| ==> pages[i].page < USER_PAGES && |pages[i].words| <= ENTRIES
      modifies mmu`window, mmu`mem, mmu.phys.allocations
      ensures Laying(pid, plan, all, end)
      ensures |frames| == |pages| && Known(mmu.phys.lower, mmu.phys.allocations.Length, frames)
      ensures Distinct(pages) ==> Under(mmu.H(), dirs[pid], pages, frames)
    {
      frames := [];
      ghost var now, at := done, k;
      var i := 0;
      assert done + pages[..0] == done;
      while i < |pages|
        invariant 0 <= i <= |pages| && now == done + pages[..i] && at == k + i && Laying(pid, plan, now, at)
        invariant |frames| == i && Known(mmu.phys.lower, mmu.phys.allocations.Length, frames)
        invariant Distinct(pages) ==> Under(mmu.H(), dirs[pid], pages, frames)
      {
        NextOf(done, pages, i);
        assert IsAt(plan.layout, k, i, pages[i]);
        ghost var h := mmu.H();
        var f;
        f, now, at := MapAt(pid, pages[i], plan, now, at, k, i);
        UnderMore(h, mmu.H(), dirs[pid], pages, frames, f);
        AddKnown(mmu.phys.lower, mmu.phys.allocations.Length, frames, f);
        frames := frames + [f];
        i := i + 1;
      }
      assert i == |pages| && at == end;
      assert pages[..i] == pages;
    }

    /** The frames that mapping pages for pid takes: one each, and one for each missing table. */
    ghost function Needs(pid: int, pages: seq<PageInit>): nat
      requires pid in dirs && dirs[pid] < |mmu.mem|
      reads this, mmu
    {
      FramesFor(Tables(mmu.mem[dirs[pid]]), pages, 0)
    }

    /** Map fresh pages one after the other. */
    method MapAll(pid: int, pages: seq<PageInit>) returns (frames: seq<nat>)
      requires Valid() && pid in dirs && dirs[pid] < |mmu.mem| && Free() >= Needs(pid, pages)
      requires forall k :: 0 <= k < |pages| ==> pages[k].page < USER_PAGES && |pages[k].words| <= ENTRIES
      modifies mmu`window, mmu`mem, mmu.phys.allocations
      ensures Valid()
      ensures Laid(old(Reads(S())), Reads(S()), pid, pages)
      ensures |frames| == |pages| && Known(mmu.phys.lower, mmu.phys.allocations.Length, frames)
      ensures FewerCopies(old(mmu.H()), mmu.H(), dirs[pid]) && Free() >= old(Free()) - old(Needs(pid, pages))
    {
      ghost var plan := StartLaying(pid, pages, Free() - Needs(pid, pages));
      HasSelf(pages);
      frames := MapSome(pid, pages, plan, [], 0, pages, |pages|);
    }

    /** The loop of sysc_sbrk. */
    method MapHeap(pid: int, end: nat, pages: nat)
      requires Valid() && pid in dirs && HeapIn(Reads(S()), pid, end) && end + pages <= USER_PAGES
      requires Free() >= Needs(pid, Consecutive(end, pages))
      modifies mmu, mmu.phys.allocations
      ensures Valid() && unchanged(this`heapEnd) && HeapIn(Reads(S()), pid, end + pages)
      ensures Laid(old(Reads(S())), Reads(S()), pid, Consecutive(end, pages))
      ensures FewerCopies(old(mmu.H()), mmu.H(), dirs[pid]) && Free() >= old(Free()) - old(Needs(pid, Consecutive(end, pages)))
    {
      var frames := MapAll(pid, Consecutive(end, pages));
      LaidConsecutive(old(Reads(S())), Reads(S()), pid, end, pages);
    }

    method Grow(pid: int, end: nat, pages: nat, ghost ends: map<int, nat>)
      requires Valid() && pid in heapEnd && end == heapEnd[pid] && HeapIn(Reads(S()), pid, end)
      requires end + pages <= USER_PAGES && Free() >= Needs(pid, Consecutive(end, pages)) && ends == heapEnd[pid := end + pages]
      modifies this`heapEnd, mmu, mmu.phys.allocations
      ensures Valid() && HeapMapped(pid) && heapEnd == ends
      ensures Laid(old(Reads(S())), Reads(S()), pid, Consecutive(end, pages))
      ensures pid in dirs && FewerCopies(old(mmu.H()), mmu.H(), dirs[pid])
      ensures Free() >= old(Free()) - old(Needs(pid, Consecutive(end, pages)))
    {
      Apart();
      MapHeap(pid, end, pages);
      ghost var s, free := S(), Free();
      heapEnd := heapEnd[pid := end + pages];
      assert mmu.phys.Valid();
      assert S() == s && Free() == free;
    }

    /** sysc_sbrk: a positive increment maps whole pages at the break; zero and negative
        increments map nothing. The new break is returned as an address. */
    method Sbrk(pid: int, bytes: int) returns (brk: nat)
      requires Valid() && HeapMapped(pid)
      requires heapEnd[pid] + PagesFor(bytes) <= USER_PAGES && Free() >= Needs(pid, Consecutive(heapEnd[pid], PagesFor(bytes)))
      modifies this`heapEnd, mmu, mmu.phys.allocations
      ensures Valid() && HeapMapped(pid)
      ensures heapEnd == old(heapEnd)[pid := old(heapEnd)[pid] + PagesFor(bytes)]
      ensures var n := heapEnd[pid] - old(heapEnd[pid]); n >= 0 && bytes <= n * PAGE && (n > 0 ==> (n - 1) * PAGE < bytes)
      ensures brk == heapEnd[pid] * PAGE && unchanged(this`dirs, this`stackFrames)
      ensures Laid(old(Reads(S())), Reads(S()), pid, Consecutive(old(heapEnd)[pid], PagesFor(bytes)))
      ensures pid in dirs && FewerCopies(old(mmu.H()), mmu.H(), dirs[pid])
      ensures Free() >= old(Free()) - old(Needs(pid, Consecutive(heapEnd[pid], PagesFor(bytes))))
    {
      var end, pages := heapEnd[pid], PagesFor(bytes);
      ghost var ends := heapEnd[pid := heapEnd[pid] + PagesFor(bytes)];
      Grow(pid, end, pages, ends);
      PagesForIs(bytes);
      brk := (end + pages) * PAGE;
    }

    // ----- stores of the kernel to a process's frame -----

    /** What the window shows of a frame that the process maps. */
    method Peek(pid: int, q: nat, f: nat, j: nat) returns (w: Word)
      requires Valid() && pid in dirs && dirs[pid] < |mmu.mem| && q < USER_PAGES && j < ENTRIES && MapsTo(mmu.H(), dirs[pid], q, f)
      modifies mmu`window
      ensures Valid() && S() == old(S()) && q in Reads(S())[pid] && w == Reads(S())[pid][q][j]
    {
      SlotContent(mmu.H(), dirs, pid, q);
      mmu.TempMap(f);
      w := mmu.Load(j);
    }

    /** A word stored through the window to a frame that the process maps: the same as if it had
        stored the word itself. */
    method Poke(pid: int, q: nat, f: nat, j: nat, w: Word)
      requires Valid() && pid in dirs && dirs[pid] < |mmu.mem| && q < USER_PAGES && j < ENTRIES && MapsTo(mmu.H(), dirs[pid], q, f)
      modifies mmu`window, mmu`mem
      ensures Valid() && SameDir(old(mmu.H()), mmu.H(), dirs[pid])
      ensures Transition(old(S()), S(), Write(pid, q, j, w))
      ensures Reads(S()) == Eager(old(Reads(S())), Write(pid, q, j, w))
    {
      ghost var s0 := S();
      SpaceInv(s0, pid);
      SlotContent(s0.h, dirs, pid, q);
      mmu.TempMap(f);
      mmu.Store(j, w);
      FlatFrame(s0.h, mmu.H(), dirs[pid]);
      WriteStep(s0, S(), pid, q, j, w);
    }

    /** Recorded stack frames are frames the byte map knows. */
    ghost predicate StacksOk()
      reads this`stackFrames, mmu.phys
    {
      forall a :: a in stackFrames ==> Known(mmu.phys.lower, mmu.phys.allocations.Length, stackFrames[a])
    }
  }

  /** What the invariant gives about one process's directory. */
  lemma SpaceInv(s: Vm, pid: int)
    requires VmInv(s) && pid in s.dirs
    ensures ZeroHeld(s.h) && SpaceOk(s.h, s.dirs[pid]) && SpaceCovered(s.h, s.dirs[pid])
  {
    CoveredBySpaceOk(s.h, s.dirs[pid]);
  }

  lemma PageInv(s: Vm, pid: int, p: int)
    requires VmInv(s) && pid in s.dirs && 0 <= p < USER_PAGES && EntryAt(s.h.mem, s.dirs[pid], p).present
    ensures var e := EntryAt(s.h.mem, s.dirs[pid], p); Held(s.h, e.frame) && e.frame < |s.h.mem|
    ensures s.h.mem[s.dirs[pid]][p / ENTRIES].writable && s.h.mem[s.dirs[pid]][p / ENTRIES].user
  {
    SlotContent(s.h, s.dirs, pid, p);
  }

  /** The pages in done were mapped for pid on top of what everybody read at the start, and there are
      frames for those of the layout from k on. */
  ghost predicate LaidUpTo(s: Vm, pid: int, plan: Plan, done: seq<PageInit>, k: int) {
    && pid in s.dirs && s.dirs[pid] < |s.h.mem| && 0 <= k < |plan.had| && k < |plan.left|
    && Laid(plan.r0, Reads(s), pid, done) && FewerCopies(plan.h0, s.h, s.dirs[pid]) && MapsStay(plan.h0, s.h, s.dirs[pid], done, plan.base)
    && HasTables(s.h.mem[s.dirs[pid]], plan.had[k]) && |FreeSlots(s.h.counts)| >= plan.left[k]
  }

  lemma RoomForPage(s: Vm, pid: int, plan: Plan, done: seq<PageInit>, k: nat)
    requires PlanOk(plan) && k < |plan.layout| && plan.layout[k].page < USER_PAGES && LaidUpTo(s, pid, plan, done, k)
    ensures |FreeSlots(s.h.counts)| >= FramesToMap(s.h.mem[s.dirs[pid]], plan.layout[k].page)
  {
    assert Noted(plan.layout, plan.had, plan.left, k);
  }

  lemma PageLaid(s: Vm, s': Vm, pid: int, plan: Plan, done: seq<PageInit>, k: nat, init: PageInit, content: Page,
                 next: seq<PageInit>, next_k: nat)
    requires next == done + [init] && next_k == k + 1 && PlanOk(plan) && k < |plan.layout| && plan.layout[k].page == init.page < USER_PAGES && |init.words| <= ENTRIES
    requires LaidUpTo(s, pid, plan, done, k) && s'.dirs == s.dirs && FewerCopies(s.h, s'.h, s.dirs[pid])
    requires MapsKept(s.h, s'.h, s.dirs[pid], init.page)
    requires Reads(s') == Eager(Reads(s), Map(pid, init.page, content)) && forall j :: 0 <= j < |init.words| ==> content[j] == init.words[j]
    requires Tables(s'.h.mem[s.dirs[pid]]) == Tables(s.h.mem[s.dirs[pid]]) + {init.page / ENTRIES}
    requires |FreeSlots(s'.h.counts)| >= |FreeSlots(s.h.counts)| - FramesToMap(s.h.mem[s.dirs[pid]], init.page)
    ensures LaidUpTo(s', pid, plan, next, next_k)
  {
    assert Noted(plan.layout, plan.had, plan.left, k);
    LaidMore(plan.r0, Reads(s), Reads(s'), pid, done, init, content);
    FewerStill(plan.h0, s.h, s'.h, s.dirs[pid]);
    StayMore(plan.h0, s.h, s'.h, s.dirs[pid], done, plan.base, init);
    TablesMore(s.h.mem[s.dirs[pid]], s'.h.mem[s.dirs[pid]], plan.had[k], init.page / ENTRIES);
  }

  ghost predicate Distinct(pages: seq<PageInit>) {
    forall i, j :: 0 <= i < j < |pages| ==> pages[i].page != pages[j].page
  }

  /** The first of these pages are mapped to these frames. */
  ghost predicate Under(h: Phys, d: nat, pages: seq<PageInit>, frames: seq<nat>) {
    && d < |h.mem| && |frames| <= |pages|
    && forall i :: 0 <= i < |frames| ==> pages[i].page < USER_PAGES && MapsTo(h, d, pages[i].page, frames[i])
  }

  lemma UnderMore(h: Phys, h': Phys, d: nat, pages: seq<PageInit>, frames: seq<nat>, f: nat)
    requires |frames| < |pages| && pages[|frames|].page < USER_PAGES
    requires MapsKept(h, h', d, pages[|frames|].page) && MapsTo(h', d, pages[|frames|].page, f)
    ensures Distinct(pages) && Under(h, d, pages, frames) ==> Under(h', d, pages, frames + [f])
  {
  }

  /** Pages mapped open to user-mode writes stay on their frames, but for those of the list. */
  ghost predicate MapsStay(h: Phys, h': Phys, d: nat, done: seq<PageInit>, base: nat) {
    && d < |h.mem| && d < |h'.mem| && base <= |done|
    && forall q, f :: 0 <= q < USER_PAGES && MapsTo(h, d, q, f) && !Listed(done[base..], q) ==> MapsTo(h', d, q, f)
  }

  lemma StayMore(h0: Phys, h: Phys, h': Phys, d: nat, done: seq<PageInit>, base: nat, init: PageInit)
    requires MapsStay(h0, h, d, done, base) && MapsKept(h, h', d, init.page)
    ensures MapsStay(h0, h', d, done + [init], base)
  {
    var list, more := done[base..], (done + [init])[base..];
    assert more == list + [init];
    forall q, f | 0 <= q < USER_PAGES && MapsTo(h0, d, q, f) && !Listed(more, q) ensures MapsTo(h', d, q, f) {
      assert more[|list|] == init;
      assert forall k :: 0 <= k < |list| ==> more[k] == list[k];
    }
  }

  /** Only contents changed. */
  lemma StaySame(h0: Phys, h: Phys, h': Phys, d: nat, done: seq<PageInit>, done': seq<PageInit>, base: nat)
    requires MapsStay(h0, h, d, done, base) && SameDir(h, h', d) && |done'| == |done|
    requires forall k :: 0 <= k < |done| ==> done'[k].page == done[k].page
    ensures MapsStay(h0, h', d, done', base)
  {
    forall q, f | 0 <= q < USER_PAGES && MapsTo(h0, d, q, f) && !Listed(done'[base..], q) ensures MapsTo(h', d, q, f) {
      forall k | 0 <= k < |done| - base ensures done[base..][k].page != q {
        assert done'[base..][k].page == done[base..][k].page;
      }
      assert MapsTo(h, d, q, f);
      SameDirMaps(h, h', d, q, f);
    }
  }

  lemma TablesMore(dir: Page, dir': Page, had: set<int>, t: int)
    requires HasTables(dir, had) && Tables(dir') == Tables(dir) + {t}
    ensures HasTables(dir', had + {t})
  {
    forall u | u in had + {t} ensures 0 <= u < USER_TABLES && dir'[u].present {
      assert u in Tables(dir');
    }
  }

  ghost predicate HasTables(dir: Page, had: set<int>) {
    forall t :: t in had ==> 0 <= t < USER_TABLES && dir[t].present
  }

  /** Page q is mapped to the frame f, open to user-mode writes. */
  ghost predicate MapsTo(h: Phys, d: nat, q: int, f: nat)
    requires d < |h.mem| && 0 <= q < USER_PAGES
  {
    UserWritable(h.mem, d, q) && EntryAt(h.mem, d, q).frame == f
  }

  /** All such pages but p stay what they are. */
  ghost predicate MapsKept(h: Phys, h': Phys, d: nat, p: int) {
    && d < |h.mem| && d < |h'.mem|
    && forall q, f :: 0 <= q < USER_PAGES && q != p && MapsTo(h, d, q, f) ==> MapsTo(h', d, q, f)
  }

  lemma MappedMaps(h: Phys, h': Phys, d: nat, p: int, f: FrameNumber, fill: Page)
    requires SpaceOk(h, d) && 0 <= p < USER_PAGES && MappedOn(h, h', d, p, f, fill)
    ensures MapsKept(h, h', d, p) && MapsTo(h', d, p, f)
  {
    var h1: Phys :| Claimed(h, h1, f, fill) && EntrySet(h1, h', d, p, UserEntry(f), true);
    ClaimedDir(h, h1, d, f, fill);
    forall q | 0 <= q < USER_PAGES ensures EntryAt(h1.mem, d, q) == EntryAt(h.mem, d, q) {
      var i := q / ENTRIES;
      if h.mem[d][i].present {
        assert InStruct(h.mem, d, h.mem[d][i].frame);
      }
    }
  }

  /** Nothing of the directory and its tables changed, and no count. */
  ghost predicate SameDir(h: Phys, h': Phys, d: nat) {
    && h'.lower == h.lower && h'.counts == h.counts && d < |h.mem| == |h'.mem| && h'.mem[d] == h.mem[d]
    && forall q :: 0 <= q < USER_PAGES ==> EntryAt(h'.mem, d, q) == EntryAt(h.mem, d, q)
  }

  lemma SameDirMaps(h: Phys, h': Phys, d: nat, q: int, f: nat)
    requires SameDir(h, h', d) && 0 <= q < USER_PAGES && MapsTo(h, d, q, f)
    ensures MapsTo(h', d, q, f)
  {
  }

  lemma SameDirCopies(h: Phys, h': Phys, d: nat)
    requires SameDir(h, h', d)
    ensures FewerCopies(h, h', d) && Tables(h'.mem[d]) == Tables(h.mem[d]) && FreeSlots(h'.counts) == FreeSlots(h.counts)
  {
  }

  lemma NoCopiesStill(h: Phys, h': Phys, d: nat)
    requires NoCopies(h, d) && FewerCopies(h, h', d)
    ensures NoCopies(h', d)
  {
  }

  lemma FewerStill(h: Phys, h1: Phys, h2: Phys, d: nat)
    requires FewerCopies(h, h1, d) && FewerCopies(h1, h2, d)
    ensures FewerCopies(h, h2, d)
  {
  }

  lemma MapStep(s: Vm, s': Vm, pid: int, p: int, fill: Page)
    requires VmInv(s) && pid in s.dirs && 0 <= p < USER_PAGES && s'.dirs == s.dirs && PhysOk(s'.h) && ZeroHeld(s'.h)
    requires FreshMapped(s.h, s'.h, s.dirs[pid], p, fill)
    ensures Transition(s, s', Map(pid, p, fill)) && VmInv(s') && Reads(s') == Eager(Reads(s), Map(pid, p, fill))
  {
    StepRefines(s, s', Map(pid, p, fill));
  }

  lemma WriteStep(s: Vm, s': Vm, pid: int, p: int, j: int, w: Word)
    requires VmInv(s) && pid in s.dirs && 0 <= p < USER_PAGES && 0 <= j < ENTRIES && s'.dirs == s.dirs && PhysOk(s'.h) && ZeroHeld(s'.h)
    requires if EntryAt(s.h.mem, s.dirs[pid], p).present then Stored(s.h, s'.h, s.dirs[pid], p, j, w) else s'.h == s.h
    ensures Transition(s, s', Write(pid, p, j, w)) && VmInv(s') && Reads(s') == Eager(Reads(s), Write(pid, p, j, w))
  {
    StepRefines(s, s', Write(pid, p, j, w));
  }

  lemma PresentIsRead(s: Vm, pid: int, p: int)
    requires VmInv(s) && pid in s.dirs && 0 <= p < USER_PAGES
    ensures EntryAt(s.h.mem, s.dirs[pid], p).present <==> p in Reads(s)[pid]
  {
  }

  lemma ForkStep(s: Vm, s': Vm, parent: int, child: int, nd: nat, stack: seq<nat>)
    requires VmInv(s) && parent in s.dirs && child !in s.dirs && s'.dirs == s.dirs[child := nd] && PhysOk(s'.h) && ZeroHeld(s'.h)
    requires ForkedDir(s.h, s'.h, s.dirs[parent], nd, stack)
    ensures Transition(s, s', Step.Fork(parent, child)) && VmInv(s') && Reads(s') == Eager(Reads(s), Step.Fork(parent, child))
  {
    StepRefines(s, s', Step.Fork(parent, child));
  }

  lemma ClearStep(s: Vm, s': Vm, pid: int)
    requires VmInv(s) && pid in s.dirs && s'.dirs == s.dirs && PhysOk(s'.h)
    requires DropProgress(s.h, s'.h, s.dirs[pid], USER_TABLES, true)
    ensures Transition(s, s', Step.Clear(pid)) && VmInv(s') && Reads(s') == Eager(Reads(s), Step.Clear(pid))
  {
    EmptiedInv(s.h, s'.h, s.dirs, pid);
    StepRefines(s, s', Step.Clear(pid));
  }

  lemma DestroyStep(s: Vm, s': Vm, pid: int)
    requires VmInv(s) && pid in s.dirs && s'.dirs == s.dirs - {pid} && PhysOk(s'.h)
    requires Nuked(s.h, s'.h, s.dirs[pid])
    ensures Transition(s, s', Step.Destroy(pid)) && VmInv(s') && Reads(s') == Eager(Reads(s), Step.Destroy(pid))
  {
    NukedInv(s.h, s'.h, s.dirs, pid);
    StepRefines(s, s', Step.Destroy(pid));
  }

  lemma CreateStep(s: Vm, s': Vm, pid: int, nd: nat, dir: Page)
    requires VmInv(s) && pid !in s.dirs && s'.dirs == s.dirs[pid := nd] && PhysOk(s'.h) && ZeroHeld(s'.h)
    requires Claimed(s.h, s'.h, nd, dir) && forall i :: 0 <= i < USER_TABLES ==> dir[i] == ZERO
    ensures Transition(s, s', Step.Create(pid)) && VmInv(s') && Reads(s') == Eager(Reads(s), Step.Create(pid))
  {
    StepRefines(s, s', Step.Create(pid));
  }

  lemma NoProcesses(h: Phys)
    requires PhysOk(h) && ZeroHeld(h)
    ensures Inv(h, map[])
  {
    forall s | 0 <= s < |h.counts| ensures |Refs(SpacesOf(h, map[]), s)| <= h.counts[s] {
      assert Refs(SpacesOf(h, map[]), s) == {};
    }
  }

  lemma CoveredBySpaceOk(h: Phys, d: nat)
    requires SpaceOk(h, d)
    ensures SpaceCovered(h, d)
  {
    forall i, j | 0 <= i < USER_TABLES && h.mem[d][i].present && 0 <= j < ENTRIES && h.mem[h.mem[d][i].frame][j].present
      ensures Slot(h.lower, h.mem[h.mem[d][i].frame][j].frame) < |h.counts|
    {
      assert EntryAt(h.mem, d, i * ENTRIES + j) == h.mem[h.mem[d][i].frame][j];
    }
  }

  // ----- laying out an address space -----

  /** A page to map and the words its frame starts with. */
  datatype PageInit = PageInit(page: nat, words: seq<Word>)

  /** A layout: what it goes on top of, its pages, and for each of them the tables that are there by
      then and how many frames must be left; and the tables as they were when the first base of its
      pages were mapped. */
  datatype Plan = Plan(h0: Phys, base: nat, r0: Images, layout: seq<PageInit>, had: seq<set<int>>, left: seq<nat>)

  ghost predicate IsAt(layout: seq<PageInit>, k: int, i: int, init: PageInit) {
    0 <= k + i < |layout| && layout[k + i].page == init.page
  }

  /** The layout has these pages at k. */
  ghost predicate HasAt(layout: seq<PageInit>, k: nat, pages: seq<PageInit>) {
    forall i {:trigger IsAt(layout, k, i, pages[i])} :: 0 <= i < |pages| ==> IsAt(layout, k, i, pages[i])
  }

  lemma HasSelf(layout: seq<PageInit>)
    ensures HasAt(layout, 0, layout)
  {
    forall i | 0 <= i < |layout| ensures IsAt(layout, 0, i, layout[i]) {
    }
  }

  /** A part of them, or others on the same pages. */
  lemma HasPart(layout: seq<PageInit>, k: nat, all: seq<PageInit>, before: seq<PageInit>, pages: seq<PageInit>, at: nat)
    requires HasAt(layout, k, all) && at == k + |before| && |before| + |pages| <= |all|
    requires forall i :: 0 <= i < |pages| ==> pages[i].page == all[|before| + i].page
    ensures HasAt(layout, at, pages)
  {
    forall i | 0 <= i < |pages| ensures IsAt(layout, at, i, pages[i]) {
      assert IsAt(layout, k, |before| + i, all[|before| + i]);
    }
  }

  ghost predicate PlanOk(plan: Plan) {
    && |plan.had| == |plan.left| == |plan.layout| + 1
    && forall k {:trigger Noted(plan.layout, plan.had, plan.left, k)} :: 0 <= k < |plan.layout| ==> Noted(plan.layout, plan.had, plan.left, k)
  }

  /** Whole pages for a byte count, rounded up; none for zero or a negative count. */
  function PagesFor(bytes: int): nat {
    if bytes <= 0 then 0 else bytes / PAGE + (if bytes % PAGE > 0 then 1 else 0)
  }

  /** The fewest whole pages that hold this many bytes; none for zero or a negative number. */
  lemma PagesForIs(bytes: int)
    ensures var n := PagesFor(bytes); bytes <= n * PAGE && (n > 0 ==> (n - 1) * PAGE < bytes)
  {
    assert bytes == bytes / PAGE * PAGE + bytes % PAGE;
  }

  function Consecutive(first: nat, count: nat): (r: seq<PageInit>)
    ensures |r| == count && forall k :: 0 <= k < count ==> r[k] == PageInit(first + k, [])
  {
    seq(count, k requires 0 <= k < count => PageInit(first + k, []))
  }

  /** How many frames the pages from k on take when these tables are there already. */
  ghost function FramesFor(tables: set<int>, pages: seq<PageInit>, k: nat): nat
    requires k <= |pages|
    decreases |pages| - k
  {
    if k == |pages| then 0
    else (if pages[k].page / ENTRIES in tables then 1 else 2) + FramesFor(tables + {pages[k].page / ENTRIES}, pages, k + 1)
  }

  lemma {:induction false} FewerFrames(some: set<int>, more: set<int>, pages: seq<PageInit>, k: nat)
    requires k <= |pages| && some <= more
    ensures FramesFor(more, pages, k) <= FramesFor(some, pages, k)
    decreases |pages| - k
  {
    if k < |pages| {
      var t := {pages[k].page / ENTRIES};
      FewerFrames(some + t, more + t, pages, k + 1);
    }
  }

  /** The same, noted down for every k: the tables that are there when page k is due, and the frames
      to have left. */
  lemma {:induction false} Notes(tables: set<int>, pages: seq<PageInit>, k: nat, spare: nat) returns (had: seq<set<int>>, left: seq<nat>)
    requires k <= |pages|
    ensures |had| == |left| == |pages| - k + 1 && had[0] == tables && left[0] == FramesFor(tables, pages, k) + spare && left[|pages| - k] == spare
    ensures forall i :: 0 <= i < |pages| - k ==> Noted(pages[k..], had, left, i)
    decreases |pages| - k
  {
    if k == |pages| {
      had, left := [tables], [spare];
    } else {
      var h, l := Notes(tables + {pages[k].page / ENTRIES}, pages, k + 1, spare);
      had, left := [tables] + h, [FramesFor(tables, pages, k) + spare] + l;
      forall i | 0 <= i < |pages| - k ensures Noted(pages[k..], had, left, i) {
        if i > 0 {
          assert Noted(pages[k + 1..], h, l, i - 1);
        }
      }
    }
  }

  ghost predicate Noted(pages: seq<PageInit>, had: seq<set<int>>, left: seq<nat>, k: nat) {
    && k + 1 < |had| && k + 1 < |left| && k < |pages|
    && left[k] == (if pages[k].page / ENTRIES in had[k] then 1 else 2) + left[k + 1]
    && had[k + 1] == had[k] + {pages[k].page / ENTRIES}
  }

  const WORDS := 0x1_0000_0000
  const MAGIC := 0xDB05DB05

  /** The four words that the loader leaves on top of the stack: a magic value, the end of the heap,
      the length of the arguments and their number, the program's name included. */
  function TopWords(argLength: nat, argc: nat): (r: seq<Word>)
    requires argLength < WORDS && argc + 1 < WORDS
    ensures |r| == 4
  {
    [Decode(MAGIC), Decode((HEAP_PAGE + 1) * PAGE), Decode(argLength), Decode(argc + 1)]
  }

  /** The top page of the stack: zeros, but for those words. */
  function TopPage(argLength: nat, argc: nat): (last: Page)
    requires argLength < WORDS && argc + 1 < WORDS
    ensures var top := TopWords(argLength, argc);
            last[1020] == top[0] && last[1021] == top[1] && last[1022] == top[2] && last[1023] == top[3]
    ensures forall j :: 0 <= j < 1020 ==> last[j] == ZERO
  {
    var top := TopWords(argLength, argc);
    Blank()[1020 := top[0]][1021 := top[1]][1022 := top[2]][1023 := top[3]]
  }

  /** The stack. */
  function StackPages(argLength: nat, argc: nat): (r: seq<PageInit>)
    requires argLength < WORDS && argc + 1 < WORDS
    ensures |r| == STACK_PAGES
    ensures forall k :: 0 <= k < STACK_PAGES ==>
              r[k] == PageInit(STACK_PAGE + k, if k == STACK_PAGES - 1 then TopPage(argLength, argc) else Blank())
  {
    seq(STACK_PAGES, k requires 0 <= k < STACK_PAGES =>
      PageInit(STACK_PAGE + k, if k == STACK_PAGES - 1 then TopPage(argLength, argc) else Blank()))
  }

  /** Segments, then the stack, then one heap page that holds the arguments. */
  function ExecLayout(code: seq<PageInit>, args: seq<Word>, argLength: nat, argc: nat): (r: seq<PageInit>)
    requires |args| <= ENTRIES && argLength < WORDS && argc + 1 < WORDS
    requires forall k :: 0 <= k < |code| ==> code[k].page < USER_PAGES && |code[k].words| <= ENTRIES
    ensures |r| == |code| + STACK_PAGES + 1 && r[|r| - 1].page == HEAP_PAGE
    ensures forall k :: 0 <= k < |r| ==> r[k].page < USER_PAGES && |r[k].words| <= ENTRIES
  {
    code + StackPages(argLength, argc) + [PageInit(HEAP_PAGE, args)]
  }

  /** A new process gets its stack before its segments. */
  function SpawnLayout(code: seq<PageInit>, args: seq<Word>, argLength: nat, argc: nat): (r: seq<PageInit>)
    requires |args| <= ENTRIES && argLength < WORDS && argc + 1 < WORDS
    requires forall k :: 0 <= k < |code| ==> code[k].page < USER_PAGES && |code[k].words| <= ENTRIES
    ensures |r| == |code| + STACK_PAGES + 1 && r[|r| - 1].page == HEAP_PAGE
    ensures forall k :: 0 <= k < |r| ==> r[k].page < USER_PAGES && |r[k].words| <= ENTRIES
  {
    StackPages(argLength, argc) + code + [PageInit(HEAP_PAGE, args)]
  }

  lemma LayoutHeap(r: Images, r': Images, pid: int, pages: seq<PageInit>)
    requires pages != [] && pages[|pages| - 1].page == HEAP_PAGE && Laid(r, r', pid, pages)
    ensures HeapIn(r', pid, HEAP_PAGE + 1)
  {
    assert Listed(pages, HEAP_PAGE);
  }

  ghost predicate HeapIn(r: Images, pid: int, end: nat) {
    && pid in r && HEAP_PAGE <= end <= USER_PAGES
    && (forall p :: HEAP_PAGE <= p < end ==> p in r[pid])
  }

  ghost predicate Listed(pages: seq<PageInit>, p: int) {
    exists k :: 0 <= k < |pages| && pages[k].page == p
  }

  /** Exactly the listed pages of pid were mapped anew, each starting with its words unless a
      later entry of the list maps it again; everything else reads as before. */
  ghost predicate Laid(r: Images, r': Images, pid: int, pages: seq<PageInit>) {
    && pid in r && r'.Keys == r.Keys
    && (forall a :: a in r && a != pid ==> r'[a] == r[a])
    && (forall p :: p in r'[pid] <==> p in r[pid] || Listed(pages, p))
    && (forall p :: p in r[pid] && !Listed(pages, p) ==> r'[pid][p] == r[pid][p])
    && (forall k, j :: 0 <= k < |pages| && 0 <= j < |pages[k].words| && j < ENTRIES && !Listed(pages[k + 1..], pages[k].page) ==>
          r'[pid][pages[k].page][j] == pages[k].words[j])
  }

  lemma NextOf(done: seq<PageInit>, pages: seq<PageInit>, i: nat)
    requires i < |pages|
    ensures done + pages[..i] + [pages[i]] == done + pages[..i + 1]
  {
  }

  /** Another content for a page that is not mapped again. */
  lemma LaidRefilled(r0: Images, r: Images, r': Images, pid: int, pages: seq<PageInit>, at: nat, words: Page)
    requires Laid(r0, r, pid, pages) && at < |pages| && !Listed(pages[at + 1..], pages[at].page)
    requires r' == Eager(r, Map(pid, pages[at].page, words))
    ensures Laid(r0, r', pid, pages[at := PageInit(pages[at].page, words)])
  {
    var pages' := pages[at := PageInit(pages[at].page, words)];
    forall p ensures Listed(pages', p) <==> Listed(pages, p) {
      if k :| 0 <= k < |pages| && pages[k].page == p { assert pages'[k].page == p; }
    }
    forall k, j | 0 <= k < |pages'| && 0 <= j < |pages'[k].words| && j < ENTRIES && !Listed(pages'[k + 1..], pages'[k].page)
      ensures r'[pid][pages'[k].page][j] == pages'[k].words[j]
    {
      if k != at {
        LaterListed(pages, pages', k, pages[k].page);
        if k < at {
          assert pages'[k + 1..][at - k - 1] == pages'[at];
        } else {
          assert pages[at + 1..][k - at - 1] == pages[k];
        }
      }
    }
  }

  lemma LaterListed(pages: seq<PageInit>, pages': seq<PageInit>, k: nat, p: int)
    requires k < |pages| == |pages'| && forall i :: 0 <= i < |pages| ==> pages'[i].page == pages[i].page
    ensures Listed(pages[k + 1..], p) ==> Listed(pages'[k + 1..], p)
  {
    var rest := pages[k + 1..];
    if i :| 0 <= i < |rest| && rest[i].page == p {
      assert pages'[k + 1..][i].page == p;
    }
  }

  /** Frames the byte map of the given size knows or ignores. */
  ghost predicate Known(lower: nat, size: nat, frames: seq<nat>) {
    forall k :: 0 <= k < |frames| ==> Slot(lower, frames[k]) < size
  }

  lemma AddKnown(lower: nat, size: nat, frames: seq<nat>, f: nat)
    requires Known(lower, size, frames) && Slot(lower, f) < size
    ensures Known(lower, size, frames + [f])
  {
  }

  lemma LaidNothing(r: Images, pid: int)
    requires pid in r
    ensures Laid(r, r, pid, [])
  {
  }

  lemma LaidMore(r0: Images, r: Images, r': Images, pid: int, pages: seq<PageInit>, next: PageInit, content: Page)
    requires Laid(r0, r, pid, pages) && r' == Eager(r, Map(pid, next.page, content)) && |next.words| <= ENTRIES
    requires forall k :: 0 <= k < |next.words| ==> content[k] == next.words[k]
    ensures Laid(r0, r', pid, pages + [next])
  {
    var pages' := pages + [next];
    forall p ensures Listed(pages', p) <==> Listed(pages, p) || p == next.page {
      if p == next.page { assert pages'[|pages|].page == p; }
      if k :| 0 <= k < |pages| && pages[k].page == p { assert pages'[k].page == p; }
    }
    forall k, j | 0 <= k < |pages'| && 0 <= j < |pages'[k].words| && j < ENTRIES && !Listed(pages'[k + 1..], pages'[k].page)
      ensures r'[pid][pages'[k].page][j] == pages'[k].words[j]
    {
      if k < |pages| {
        var rest, rest' := pages[k + 1..], pages'[k + 1..];
        assert rest' == rest + [next];
        assert rest'[|rest|].page == next.page;
        assert forall i :: 0 <= i < |rest| ==> rest'[i] == rest[i];
        assert !Listed(rest, pages[k].page) && pages[k].page != next.page;
      }
    }
  }

  lemma LaidConsecutive(r: Images, r': Images, pid: int, first: nat, count: nat)
    requires Laid(r, r', pid, Consecutive(first, count)) && HeapIn(r, pid, first) && first + count <= USER_PAGES
    ensures HeapIn(r', pid, first + count)
  {
    var pages := Consecutive(first, count);
    forall p | first <= p < first + count ensures Listed(pages, p) {
      assert pages[p - first].page == p;
    }
  }

  /** A heap stays mapped through every step that does not clear or destroy its process, and
      a forked child inherits it. */
  lemma HeapSurvives(r: Images, step: Step, pid: int, end: nat)
    requires HeapIn(r, pid, end) && step != Step.Clear(pid) && step != Step.Destroy(pid)
    ensures HeapIn(Eager(r, step), pid, end)
    ensures step.Fork? && step.parent == pid && step.child !in r ==> HeapIn(Eager(r, step), step.child, end)
  {
  }

  lemma ForkHeaps(r: Images, parent: int, child: int, end: nat)
    requires child !in r
    ensures HeapIn(r, parent, end) ==>
              HeapIn(Eager(r, Step.Fork(parent, child)), parent, end) && HeapIn(Eager(r, Step.Fork(parent, child)), child, end)
  {
    if HeapIn(r, parent, end) {
      HeapSurvives(r, Step.Fork(parent, child), parent, end);
    }
  }

  lemma LaidKeepsHeaps(r: Images, r': Images, pid: int, pages: seq<PageInit>, a: int, end: nat)
    requires Laid(r, r', pid, pages) && HeapIn(r, a, end)
    ensures HeapIn(r', a, end)
  {
  }

  /** clone_page_structures then nuke_page_directory of the clone: every count is back. */
  method CloneThenNuke(mmu: Mmu, src: nat)
    requires mmu.Valid() && ZeroHeld(mmu.H())
    requires DirOk(mmu.mem, src) && StructHeld(mmu.H(), src) && SpaceCovered(mmu.H(), src) && RoomToClone(mmu.H(), src)
    requires |FreeSlots(mmu.H().counts)| > |TablesFrom(mmu.mem[src], 0)|
    modifies mmu, mmu.phys.allocations
    ensures mmu.Valid() && mmu.H().counts == old(mmu.H()).counts
  {
    ghost var h0 := mmu.H();
    var nd := mmu.Clone(src);
    ghost var h1 := mmu.H();
    ClonedDroppable(h0, h1, src, nd);
    mmu.NukeDirectory(nd);
    CloneThenNukeRestores(h0, h1, mmu.H(), src, nd);
  }
}
