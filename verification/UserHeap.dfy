/** The user-space allocators of libraries/alloc.c, one in each process, on top of the kernel's sbrk
    and page tables. They read and write nothing but the memory of their process. */
module UserHeap {
  import opened Machine
  import opened Bytes
  import opened HeapBlocks
  import opened HeapAllocator
  import opened ProcessHeaps
  import VM = VirtualMemory
  import PM = ProcessMemory
  import PT = PageTables
  import PE = PageEntries
  import PG = Paging
  import CW = CopyOnWrite
  import CN = CopyNeeds
  import EL = Elf
  import PR = Programs

  // ----- reading -----

  /** The byte at an address. */
  function LoadByte(table: VM.ProcessTable, pid: int, a: nat): (b: Byte)
    requires table.Valid() && pid in table.dirs && a / PAGE in PM.Reads(table.S())[pid]
    reads table`dirs, table.mmu, table.mmu.phys, table.mmu.phys.allocations, table.mmu.phys.freeList
    ensures ByteIs(PM.Reads(table.S())[pid], a, b)
  {
    ByteOf(table.ReadWord(pid, a / PAGE, a % PAGE / 4), a % PAGE % 4)
  }

  /** The first n bytes of the heap of pid. */
  function LoadBytes(table: VM.ProcessTable, pid: int, n: nat, ghost end: nat): (mem: seq<Byte>)
    requires table.Valid() && pid in table.dirs && Reaches(PM.Reads(table.S()), pid, n, end)
    reads table`dirs, table.mmu, table.mmu.phys, table.mmu.phys.allocations, table.mmu.phys.freeList
    ensures |mem| == n && HoldsBytes(PM.Reads(table.S())[pid], mem)
  {
    if n == 0 then []
    else
      ReachesLess(PM.Reads(table.S()), pid, n, end);
      var less, last := LoadBytes(table, pid, n - 1, end), LoadByte(table, pid, HEAP_START + n - 1);
      HoldsMore(PM.Reads(table.S())[pid], less, last);
      less + [last]
  }

  /** The process has n bytes of heap below page end. */
  ghost predicate Reaches(r: CW.Images, pid: int, n: nat, end: nat) {
    VM.HeapIn(r, pid, end) && HEAP_START + n <= end * PAGE
  }

  lemma ReachesLess(r: CW.Images, pid: int, n: nat, end: nat)
    requires n > 0 && Reaches(r, pid, n, end)
    ensures Reaches(r, pid, n - 1, end) && (HEAP_START + n - 1) / PAGE in r[pid]
  {
    InHeap(HEAP_START + n - 1, end);
  }

  lemma HoldsMore(image: CW.Image, mem: seq<Byte>, b: Byte)
    requires HoldsBytes(image, mem) && ByteIs(image, HEAP_START + |mem|, b)
    ensures HoldsBytes(image, mem + [b])
  {
  }

  lemma InHeap(a: nat, end: nat)
    requires HEAP_START <= a < end * PAGE
    ensures VM.HEAP_PAGE <= a / PAGE < end
  {
  }

  // ----- writing -----

  lemma EagerSame(r: CW.Images, pid: int, p: int, j: int, w: PE.Word)
    requires pid in r && p in r[pid] && 0 <= j < PE.ENTRIES
    ensures r[pid][p][j] == w ==> CW.Eager(r, CW.Step.Write(pid, p, j, w)) == r
  {
    if r[pid][p][j] == w {
      assert PE.WithEntry(r[pid][p], j, w) == r[pid][p];
      assert CW.WithPage(r[pid], p, r[pid][p]) == r[pid];
    }
  }

  /** There are frames for the copies of these pages that a store may need. */
  ghost predicate Affords(table: VM.ProcessTable, pid: int, pages: set<int>)
    reads table, table.mmu, table.mmu.phys.allocations
  {
    && pid in table.dirs && table.dirs[pid] < |table.mmu.mem|
    && table.Free() >= |CN.Copies(table.mmu.H(), table.dirs[pid], pages)|
  }

  /** A store, unless the word is there already. */
  method PutWord(table: VM.ProcessTable, pid: int, p: nat, j: nat, w: PE.Word, ghost pages: set<int>)
    requires table.Valid() && pid in table.dirs && p in PM.Reads(table.S())[pid] && j < PE.ENTRIES
    requires (PM.Reads(table.S())[pid][p][j] != w ==> p in pages) && Affords(table, pid, pages)
    modifies table.mmu, table.mmu.phys.allocations
    ensures table.Valid() && Affords(table, pid, pages)
    ensures PM.Reads(table.S()) == CW.Eager(old(PM.Reads(table.S())), CW.Step.Write(pid, p, j, w))
  {
    var now := table.ReadWord(pid, p, j);
    EagerSame(PM.Reads(table.S()), pid, p, j, w);
    if now != w {
      UserPage(table.S(), pid, p);
      CopiesIn(table.mmu.H(), table.dirs[pid], pages, p);
      ChangeWord(table, pid, p, j, w, pages);
    }
  }

  lemma UserPage(s: PM.Vm, pid: int, p: int)
    requires pid in PM.Reads(s) && p in PM.Reads(s)[pid]
    ensures 0 <= p < PT.USER_PAGES
  {
  }

  method ChangeWord(table: VM.ProcessTable, pid: int, p: nat, j: nat, w: PE.Word, ghost pages: set<int>)
    requires table.Valid() && Affords(table, pid, pages) && p < PT.USER_PAGES && j < PE.ENTRIES && p in pages
    requires PG.NeedsCopy(table.mmu.H(), table.dirs[pid], p) ==> table.Free() >= 1
    modifies table.mmu, table.mmu.phys.allocations
    ensures table.Valid() && Affords(table, pid, pages)
    ensures PM.Reads(table.S()) == CW.Eager(old(PM.Reads(table.S())), CW.Step.Write(pid, p, j, w))
  {
    ghost var h := table.mmu.H();
    var killed := table.UserWrite(pid, p, j, w);
    CN.CopiesLess(h, table.mmu.H(), table.dirs[pid], pages, p);
  }

  lemma CopiesIn(h: PT.Phys, d: nat, pages: set<int>, p: int)
    requires d < |h.mem| && 0 <= p < PT.USER_PAGES && p in pages
    ensures PG.NeedsCopy(h, d, p) ==> |CN.Copies(h, d, pages)| >= 1
  {
    if PG.NeedsCopy(h, d, p) {
      assert p in CN.Copies(h, d, pages);
    }
  }

  /** How far the writing of the heap has come. */
  ghost predicate Writing(r0: CW.Images, r: CW.Images, pid: int, mem: seq<Byte>, was: seq<Byte>, n: nat) {
    WroteHeap(r0, r, pid, HEAP_START + |mem|) && Partly(r[pid], mem, was, n)
  }

  /** Bytes change in these pages only. */
  ghost predicate ChangesIn(mem: seq<Byte>, was: seq<Byte>, pages: set<int>) {
    |was| == |mem| && forall x :: 0 <= x < |mem| && mem[x] != was[x] ==> (HEAP_START + x) / PAGE in pages
  }

  /** One word of the heap. */
  method WriteHeapWord(table: VM.ProcessTable, pid: int, mem: seq<Byte>, k: nat, ghost was: seq<Byte>,
                       ghost pages: set<int>, ghost r0: CW.Images)
    requires table.Valid() && Affords(table, pid, pages) && 4 * k + 4 <= |mem|
    requires Writing(r0, PM.Reads(table.S()), pid, mem, was, 4 * k) && ChangesIn(mem, was, pages)
    modifies table.mmu, table.mmu.phys.allocations
    ensures table.Valid() && Affords(table, pid, pages)
    ensures Writing(r0, PM.Reads(table.S()), pid, mem, was, 4 * k + 4)
  {
    ghost var r := PM.Reads(table.S());
    var p, j, w := HeapWordPage(k), HeapWordOffset(k), HeapWord(mem, k);
    HeapWordThere(r[pid], mem, was, k);
    if r[pid][p][j] != w {
      ghost var x := WordDiffers(r[pid], mem, was, k);
    }
    PartlyMore(r[pid], mem, was, k);
    WroteHeapMore(r0, r, pid, HEAP_START + |mem|, p, j, w);
    PutWord(table, pid, p, j, w, pages);
  }

  lemma HeapWordThere(image: CW.Image, mem: seq<Byte>, was: seq<Byte>, k: nat)
    requires Partly(image, mem, was, 4 * k) && 4 * k + 4 <= |mem|
    ensures HeapWordPage(k) in image && HeapWordOffset(k) < PE.ENTRIES
    ensures WordAddr(HeapWordPage(k), HeapWordOffset(k)) == HEAP_START + 4 * k
  {
    HeapWordAddr(k);
    assert ByteIs(image, HEAP_START + 4 * k, was[4 * k]);
  }

  /** The bytes that changed are stored. */
  method WriteBytes(table: VM.ProcessTable, pid: int, mem: seq<Byte>, ghost was: seq<Byte>, ghost pages: set<int>)
    requires table.Valid() && Affords(table, pid, pages) && |mem| % PAGE == 0
    requires HoldsBytes(PM.Reads(table.S())[pid], was) && ChangesIn(mem, was, pages)
    modifies table.mmu, table.mmu.phys.allocations
    ensures table.Valid() && Affords(table, pid, pages)
    ensures HoldsBytes(PM.Reads(table.S())[pid], mem) && WroteHeap(old(PM.Reads(table.S())), PM.Reads(table.S()), pid, HEAP_START + |mem|)
  {
    ghost var r0 := PM.Reads(table.S());
    WritingNone(r0, pid, mem, was);
    var k, words := 0, |mem| / 4;
    WholeWords(|mem|);
    while k < words
      invariant 0 <= k <= words && table.Valid() && Affords(table, pid, pages)
      invariant Writing(r0, PM.Reads(table.S()), pid, mem, was, 4 * k)
    {
      WriteHeapWord(table, pid, mem, k, was, pages, r0);
      k := k + 1;
    }
    WritingAll(r0, PM.Reads(table.S()), pid, mem, was, 4 * k);
  }

  lemma WholeWords(n: nat)
    requires n % PAGE == 0
    ensures n / 4 * 4 == n
  {
  }

  lemma WritingNone(r: CW.Images, pid: int, mem: seq<Byte>, was: seq<Byte>)
    requires pid in r && HoldsBytes(r[pid], was) && |was| == |mem|
    ensures Writing(r, r, pid, mem, was, 0)
  {
    WroteNone(r, pid, HEAP_START + |mem|);
  }

  lemma WritingAll(r0: CW.Images, r: CW.Images, pid: int, mem: seq<Byte>, was: seq<Byte>, n: nat)
    requires Writing(r0, r, pid, mem, was, n) && n >= |mem|
    ensures WroteHeap(r0, r, pid, HEAP_START + |mem|) && HoldsBytes(r[pid], mem)
  {
  }

  /** The variables heap.start, heap.end and heap.head, as numbers 0 to 2. */
  function VarAt(vars: nat, i: nat): nat { vars + 4 + 4 * i }

  function VarOf(u: User, i: nat): nat {
    if i == 0 then u.start else if i == 1 then u.End() else u.Head()
  }

  ghost predicate VarsOk(u: User) {
    u.vars % 4 == 0 && u.vars + 16 <= HEAP_START <= u.start <= u.End() < ADDRESSES
  }

  /** A variable is mapped, and it is there already or lies in one of these pages. */
  ghost predicate VarIn(image: CW.Image, u: User, i: nat, pages: set<int>) {
    VarAt(u.vars, i) / PAGE in image && (WordIs(image, VarAt(u.vars, i), VarOf(u, i)) || VarAt(u.vars, i) / PAGE in pages)
  }

  ghost predicate VarsIn(image: CW.Image, u: User, pages: set<int>) {
    VarIn(image, u, 0, pages) && VarIn(image, u, 1, pages) && VarIn(image, u, 2, pages)
  }

  /** The bytes of the heap and the first n variables are stored. */
  ghost predicate Filling(r0: CW.Images, r: CW.Images, pid: int, u: User, pages: set<int>, n: nat) {
    && Wrote(r0, r, pid, u) && HoldsBytes(r[pid], u.mem) && VarsIn(r[pid], u, pages)
    && (n > 0 ==> WordIs(r[pid], VarAt(u.vars, 0), VarOf(u, 0))) && (n > 1 ==> WordIs(r[pid], VarAt(u.vars, 1), VarOf(u, 1)))
    && (n > 2 ==> WordIs(r[pid], VarAt(u.vars, 2), VarOf(u, 2)))
  }

  ghost function VarStep(pid: int, u: User, i: nat): CW.Step
    requires VarsOk(u) && i < 3
  {
    CW.Step.Write(pid, VarAt(u.vars, i) / PAGE, VarAt(u.vars, i) % PAGE / 4, PE.Decode(VarOf(u, i)))
  }

  lemma Aligned(vars: nat, i: nat)
    requires vars % 4 == 0
    ensures VarAt(vars, i) % 4 == 0
  {
  }

  lemma VarStays(image: CW.Image, u: User, i: nat, k: nat, pages: set<int>)
    requires VarsOk(u) && i < 3 && k < 3 && HoldsBytes(image, u.mem) && VarIn(image, u, i, pages) && VarIn(image, u, k, pages)
    ensures VarAt(u.vars, i) % PAGE / 4 < PE.ENTRIES
    ensures var image' := StoredIn(image, VarAt(u.vars, i) / PAGE, VarAt(u.vars, i) % PAGE / 4, PE.Decode(VarOf(u, i)));
            && HoldsBytes(image', u.mem) && VarIn(image', u, k, pages) && WordIs(image', VarAt(u.vars, i), VarOf(u, i))
            && (WordIs(image, VarAt(u.vars, k), VarOf(u, k)) ==> WordIs(image', VarAt(u.vars, k), VarOf(u, k)))
  {
    Aligned(u.vars, i);
    Aligned(u.vars, k);
    VarStored(image, u.mem, VarAt(u.vars, i), VarOf(u, i), VarAt(u.vars, k), VarOf(u, k));
  }

  lemma FillingMore(r0: CW.Images, r: CW.Images, pid: int, u: User, pages: set<int>, n: nat)
    requires VarsOk(u) && n < 3 && Filling(r0, r, pid, u, pages, n)
    ensures VarAt(u.vars, n) % PAGE / 4 < PE.ENTRIES && Filling(r0, CW.Eager(r, VarStep(pid, u, n)), pid, u, pages, n + 1)
  {
    var a := VarAt(u.vars, n);
    VarStays(r[pid], u, n, 0, pages);
    VarStays(r[pid], u, n, 1, pages);
    VarStays(r[pid], u, n, 2, pages);
    Aligned(u.vars, n);
    WordAddrOf(a);
    WroteMore(r0, r, pid, u, a / PAGE, a % PAGE / 4, PE.Decode(VarOf(u, n)));
  }

  /** The next variable is stored, unless it is there already. */
  method WriteVar(table: VM.ProcessTable, pid: int, a: nat, v: nat, ghost u: User, ghost n: nat, ghost pages: set<int>, ghost r0: CW.Images)
    requires table.Valid() && Affords(table, pid, pages) && VarsOk(u) && n < 3 && a == VarAt(u.vars, n) && v == VarOf(u, n)
    requires Filling(r0, PM.Reads(table.S()), pid, u, pages, n)
    modifies table.mmu, table.mmu.phys.allocations
    ensures table.Valid() && Affords(table, pid, pages) && Filling(r0, PM.Reads(table.S()), pid, u, pages, n + 1)
  {
    FillingMore(r0, PM.Reads(table.S()), pid, u, pages, n);
    PE.DecodeAfterEncode(PM.Reads(table.S())[pid][a / PAGE][a % PAGE / 4]);
    PutWord(table, pid, a / PAGE, a % PAGE / 4, PE.Decode(v), pages);
  }

  /** The variables are stored. */
  method WriteVars(table: VM.ProcessTable, pid: int, vars: nat, start: nat, end: nat, head: nat, ghost u: User, ghost pages: set<int>,
                   ghost r0: CW.Images)
    requires table.Valid() && Affords(table, pid, pages) && VarsOk(u) && vars == u.vars && start == u.start && end == u.End() && head == u.Head()
    requires Filling(r0, PM.Reads(table.S()), pid, u, pages, 0)
    modifies table.mmu, table.mmu.phys.allocations
    ensures table.Valid() && Affords(table, pid, pages) && Filling(r0, PM.Reads(table.S()), pid, u, pages, 3)
  {
    WriteVar(table, pid, VarAt(vars, 0), start, u, 0, pages, r0);
    WriteVar(table, pid, VarAt(vars, 1), end, u, 1, pages, r0);
    WriteVar(table, pid, VarAt(vars, 2), head, u, 2, pages, r0);
  }

  lemma FilledIs(r0: CW.Images, r: CW.Images, pid: int, u: User, pages: set<int>)
    requires Filling(r0, r, pid, u, pages, 3)
    ensures Rewrote(r0, r, pid, u)
  {
  }

  // ----- the allocator of a process -----

  ghost function UserIn(heap: Heap, vars: nat): User
    reads heap
  {
    User(vars, heap.start, heap.blocks, heap.mem)
  }

  /** The memory of pid is the allocator u, inside the heap that the kernel has mapped. */
  ghost predicate Has(table: VM.ProcessTable, pid: int, u: User)
    reads table, table.mmu, table.mmu.phys, table.mmu.phys.allocations, table.mmu.phys.freeList
  {
    && table.Valid() && pid in table.dirs && table.HeapMapped(pid)
    && UserOk(u) && Encodes(PM.Reads(table.S())[pid], u) && u.End() <= table.heapEnd[pid] * PAGE
  }

  lemma VarThere(image: CW.Image, u: User, a: nat, i: nat)
    requires HoldsVars(image, u) && i < 3 && a == VarAt(u.vars, i)
    ensures WordIs(image, a, VarOf(u, i))
  {
  }

  /** Variable i of the allocator. */
  function LoadVar(table: VM.ProcessTable, pid: int, vars: nat, i: nat, ghost u: User): (v: nat)
    requires table.Valid() && pid in table.dirs && HoldsVars(PM.Reads(table.S())[pid], u) && vars == u.vars && i < 3
    reads table`dirs, table.mmu, table.mmu.phys, table.mmu.phys.allocations, table.mmu.phys.freeList
    ensures v == VarOf(u, i)
  {
    var a := VarAt(vars, i);
    VarThere(PM.Reads(table.S())[pid], u, a, i);
    PE.Encode(table.ReadWord(pid, a / PAGE, a % PAGE / 4))
  }

  // ----- growth -----

  lemma PagesForIsGrown(bytes: nat)
    ensures VM.PagesFor(bytes) * PAGE == Grown(bytes)
  {
  }

  /** What growing by n pages and then storing into these pages may take. */
  ghost predicate CanGrow(table: VM.ProcessTable, pid: int, n: nat, pages: set<int>)
    reads table, table.mmu, table.mmu.phys.allocations
  {
    && pid in table.dirs && table.dirs[pid] < |table.mmu.mem| && pid in table.heapEnd && table.heapEnd[pid] + n <= VM.LAST_PAGE
    && table.Free() >= table.Needs(pid, VM.Consecutive(table.heapEnd[pid], n)) + |CN.Copies(table.mmu.H(), table.dirs[pid], pages)|
  }

  /** sysc_sbrk, as the allocator sees it. */
  method GrowTable(table: VM.ProcessTable, pid: int, bytes: int, ghost pages: set<int>) returns (brk: nat)
    requires table.Valid() && table.HeapMapped(pid) && CanGrow(table, pid, VM.PagesFor(bytes), pages)
    modifies table`heapEnd, table.mmu, table.mmu.phys.allocations
    ensures unchanged(table`dirs, table`stackFrames) && table.Valid() && table.HeapMapped(pid) && Affords(table, pid, pages)
    ensures Grew(old(PM.Reads(table.S())), PM.Reads(table.S()), old(table.heapEnd), table.heapEnd, pid, VM.PagesFor(bytes))
    ensures brk == table.heapEnd[pid] * PAGE
  {
    ghost var h := table.mmu.H();
    brk := table.Sbrk(pid, bytes);
    CN.CopiesFewer(h, table.mmu.H(), table.dirs[pid], pages);
  }

  /** The bytes that were there still are. */
  lemma Prefix(image: CW.Image, mem: seq<Byte>, more: seq<Byte>)
    requires HoldsBytes(image, mem) && HoldsBytes(image, more) && |mem| <= |more|
    ensures more[..|mem|] == mem
  {
    forall x | 0 <= x < |mem| ensures more[x] == mem[x] {
      assert ByteIs(image, HEAP_START + x, mem[x]) && ByteIs(image, HEAP_START + x, more[x]);
    }
  }

  // ----- allocation -----

  /** The pages that an allocation stores into: those of the bytes it touches, of heap.end when the
      heap grows, and of heap.head at the first request. */
  ghost predicate TouchesPage(u: User, size: nat, p: int) {
    || TouchesHeap(u, size, p)
    || (!RoomFor(u.blocks, u.End(), size) && p == VarAt(u.vars, 1) / PAGE)
    || (u.blocks == [] && p == VarAt(u.vars, 2) / PAGE)
  }

  ghost predicate TouchesHeap(u: User, size: nat, p: int) {
    exists a: nat :: a / PAGE == p && !Untouched(u.blocks, u.start, size, a)
  }

  ghost function Touched(u: User, size: nat): set<int> {
    set p | 0 <= p < PT.USER_PAGES && TouchesPage(u, size, p)
  }

  /** The request is one the allocator serves: not negative as a signed size, the first one not larger
      than the first page, and there are frames for the growth and the copies that it takes. */
  ghost predicate CanServe(table: VM.ProcessTable, pid: int, u: User, size: nat)
    reads table, table.mmu, table.mmu.phys.allocations
  {
    && size < SIGNED_LIMIT && (u.blocks == [] ==> u.start + HEADER + size <= u.End())
    && CanGrow(table, pid, Growth(u.blocks, u.End(), size), Touched(u, size))
  }

  lemma GrewNothing(r: CW.Images, brk: map<int, nat>, pid: int)
    requires pid in brk && pid in r && brk[pid] <= VM.LAST_PAGE
    ensures Grew(r, r, brk, brk, pid, 0)
  {
    VM.LaidNothing(r, pid);
    assert VM.Consecutive(brk[pid], 0) == [];
    assert brk[pid := brk[pid] + 0] == brk;
  }

  lemma NoNeeds(table: VM.ProcessTable, pid: int)
    requires pid in table.dirs && table.dirs[pid] < |table.mmu.mem| && pid in table.heapEnd
    ensures table.Needs(pid, VM.Consecutive(table.heapEnd[pid], 0)) == 0
  {
    assert VM.Consecutive(table.heapEnd[pid], 0) == [];
  }

  lemma StartFilling(r0: CW.Images, r: CW.Images, pid: int, u: User, pages: set<int>)
    requires WroteHeap(r0, r, pid, u.End()) && HoldsBytes(r[pid], u.mem) && VarsOk(u) && VarsIn(r0[pid], u, pages)
    ensures Filling(r0, r, pid, u, pages, 0)
  {
    Aligned(u.vars, 0);
    Aligned(u.vars, 1);
    Aligned(u.vars, 2);
    WordBelow(r0, r, pid, u.End(), VarAt(u.vars, 0), VarOf(u, 0));
    WordBelow(r0, r, pid, u.End(), VarAt(u.vars, 1), VarOf(u, 1));
    WordBelow(r0, r, pid, u.End(), VarAt(u.vars, 2), VarOf(u, 2));
  }

  /** The table is as r0 says, with frames for the copies of these pages. */
  ghost predicate Open(table: VM.ProcessTable, pid: int, pages: set<int>, r0: CW.Images)
    reads table, table.mmu, table.mmu.phys, table.mmu.phys.allocations, table.mmu.phys.freeList
  {
    table.Valid() && PM.Reads(table.S()) == r0 && Affords(table, pid, pages)
  }

  /** An allocator is written to the memory that was read: the bytes of the heap, which were those of
      was, and the variables. */
  method WriteBack(table: VM.ProcessTable, pid: int, vars: nat, start: nat, head: nat, mem: seq<Byte>, ghost was: seq<Byte>, ghost v: User,
                   ghost pages: set<int>, ghost r0: CW.Images)
    requires v.vars == vars && v.start == start && v.Head() == head && v.mem == mem && VarsOk(v) && |mem| % PAGE == 0
    requires Open(table, pid, pages, r0) && HoldsBytes(r0[pid], was) && ChangesIn(mem, was, pages) && VarsIn(r0[pid], v, pages)
    modifies table.mmu, table.mmu.phys.allocations
    ensures unchanged(table`dirs, table`stackFrames, table`heapEnd)
    ensures table.Valid() && Rewrote(r0, PM.Reads(table.S()), pid, v)
  {
    table.Apart();
    WriteBytes(table, pid, mem, was, pages);
    StartFilling(r0, PM.Reads(table.S()), pid, v, pages);
    WriteVars(table, pid, vars, start, HEAP_START + |mem|, head, v, pages, r0);
    FilledIs(r0, PM.Reads(table.S()), pid, v, pages);
  }

  lemma PageInUser(a: nat, end: nat)
    requires HEAP_START <= a < end * PAGE && end <= VM.LAST_PAGE
    ensures 0 <= a / PAGE < PT.USER_PAGES
  {
    InHeap(a, end);
  }

  /** The bytes that an allocation leaves alone are as they were. */
  ghost predicate Spared(u: User, mem: seq<Byte>, was: seq<Byte>, size: nat) {
    |mem| == |was| && forall x :: 0 <= x < |mem| && Untouched(u.blocks, u.start, size, HEAP_START + x) ==> mem[x] == was[x]
  }

  /** What an allocation changes lies in the pages that it touches. */
  lemma ChangesTouched(u: User, mem: seq<Byte>, was: seq<Byte>, size: nat, end: nat)
    requires Spared(u, mem, was, size) && HEAP_START + |mem| <= end * PAGE && end <= VM.LAST_PAGE
    ensures ChangesIn(mem, was, Touched(u, size))
  {
    forall x | 0 <= x < |mem| && mem[x] != was[x] ensures (HEAP_START + x) / PAGE in Touched(u, size) {
      PageInUser(HEAP_START + x, end);
      assert !Untouched(u.blocks, u.start, size, HEAP_START + x);
      assert TouchesHeap(u, size, (HEAP_START + x) / PAGE);
    }
  }

  /** So do the variables that it changes. */
  lemma VarsTouched(image: CW.Image, u: User, u': User, size: nat)
    requires UserOk(u) && Encodes(image, u) && u'.vars == u.vars && u'.start == u.start
    requires RoomFor(u.blocks, u.End(), size) ==> u'.End() == u.End()
    requires u.blocks != [] ==> u'.blocks != []
    ensures VarsIn(image, u', Touched(u, size))
  {
    PageBelow(VarAt(u.vars, 1));
    PageBelow(VarAt(u.vars, 2));
  }

  lemma PageBelow(a: nat)
    requires a < HEAP_START
    ensures a / PAGE < PT.USER_PAGES
  {
  }

  lemma IsServed(u: User, u': User, was: seq<Byte>, size: nat)
    requires UserOk(u) && UserOk(u') && u'.vars == u.vars && u'.start == u.start && u'.blocks == Malloc(u.blocks, u.start, size)
    requires |u.mem| <= |was| && was[..|u.mem|] == u.mem && Spared(u, u'.mem, was, size)
    requires Zeroed(u', MallocIndex(u.blocks, size))
    ensures Served(u, u', size)
  {
    forall x | 0 <= x < |u.mem| && Untouched(u.blocks, u.start, size, HEAP_START + x) ensures u'.mem[x] == u.mem[x] {
      assert was[..|u.mem|][x] == was[x];
    }
  }

  lemma IsZeroed(heap: Heap, bs: seq<Block>, size: nat, p: nat, vars: nat)
    requires heap.Valid() && heap.base == HEAP_START && Delivered(heap, bs, size, p)
    ensures Zeroed(UserIn(heap, vars), MallocIndex(bs, size))
  {
    assert Represented(heap.mem, heap.base, heap.blocks, MallocIndex(bs, size));
  }

  lemma HeapIsUser(heap: Heap, vars: nat)
    requires heap.Valid() && heap.base == HEAP_START && heap.end < ADDRESSES && |heap.mem| % PAGE == 0
    requires vars % 4 == 0 && vars + 16 <= HEAP_START
    ensures UserOk(UserIn(heap, vars)) && VarsOk(UserIn(heap, vars))
  {
  }

  /** The heap ends where a page ends. */
  lemma WholePages(end: nat, len: nat)
    requires HEAP_START + len == end * PAGE
    ensures len % PAGE == 0
  {
    assert len == (end - VM.HEAP_PAGE) * PAGE;
  }

  /** The heap is u, grown or not, and has room for the request. */
  ghost predicate Ready(heap: Heap, vars: nat, size: nat, u: User)
    reads heap
  {
    && heap.Valid() && heap.base == HEAP_START && size < SIGNED_LIMIT && RoomFor(heap.blocks, heap.end, size)
    && (heap.blocks == [] ==> heap.start + HEADER + size <= heap.end) && heap.end < ADDRESSES && |heap.mem| % PAGE == 0
    && UserOk(u) && u.vars == vars && u.start == heap.start && u.blocks == heap.blocks
    && |u.mem| <= |heap.mem| && heap.mem[..|u.mem|] == u.mem && (RoomFor(u.blocks, u.End(), size) ==> heap.end == u.End())
  }

  /** The placing part of alloc_allocate; v is the allocator that results. */
  method PlaceIn(heap: Heap, vars: nat, size: nat, ghost u: User) returns (p: nat, ghost v: User)
    requires Ready(heap, vars, size, u)
    modifies heap
    ensures heap.Valid() && heap.base == HEAP_START && heap.end == old(heap.end) && v == UserIn(heap, vars) && VarsOk(v)
    ensures Served(u, v, size) && Spared(u, v.mem, old(heap.mem), size) && IsPayload(v, u, size, p)
  {
    p := heap.Deliver(size);
    v := UserIn(heap, vars);
    HeapIsUser(heap, vars);
    IsZeroed(heap, u.blocks, size, p, vars);
    IsServed(u, v, old(heap.mem), size);
  }

  /** p is where the payload of the block starts that the allocator v hands out. */
  ghost predicate IsPayload(v: User, u: User, size: nat, p: nat) {
    var i := MallocIndex(u.blocks, size); i < |v.blocks| && p == v.blocks[i].Payload()
  }

  /** A block was placed in u, which had grown to the bytes was: v results, p is handed out, and this
      is what has to be stored where the process reads image. */
  ghost predicate Placed(u: User, v: User, size: nat, p: nat, was: seq<Byte>, image: CW.Image) {
    && VarsOk(v) && |v.mem| % PAGE == 0 && |v.mem| == |was| && Served(u, v, size) && IsPayload(v, u, size, p)
    && ChangesIn(v.mem, was, Touched(u, size)) && VarsIn(image, v, Touched(u, size))
  }

  /** The heap is u, grown to mem or not, and has room for the request. */
  ghost predicate HasGrown(u: User, mem: seq<Byte>, size: nat) {
    && size < SIGNED_LIMIT && RoomFor(u.blocks, HEAP_START + |mem|, size) && UserOk(u)
    && (u.blocks == [] ==> u.start + HEADER + size <= HEAP_START + |mem|) && HEAP_START + |mem| < ADDRESSES && |mem| % PAGE == 0
    && |u.mem| <= |mem| && mem[..|u.mem|] == u.mem && (RoomFor(u.blocks, u.End(), size) ==> |mem| == |u.mem|)
  }

  /** The placing part of alloc_allocate, for a process that reads image below its break. */
  method Place(vars: nat, start: nat, head: nat, mem: seq<Byte>, size: nat, ghost u: User, ghost image: CW.Image, ghost end: nat)
      returns (p: nat, head': nat, mem': seq<Byte>, ghost v: User)
    requires vars == u.vars && start == u.start && head == u.Head() && HasGrown(u, mem, size)
    requires Encodes(image, u) && HEAP_START + |mem| <= end * PAGE && end <= VM.LAST_PAGE
    ensures v == User(vars, start, v.blocks, mem') && head' == v.Head() && Placed(u, v, size, p, mem, image)
  {
    ExtendRepresents(u.mem, mem, HEAP_START, u.blocks);
    var heap := new Heap.Loaded(HEAP_START, mem, start, HEAP_START + |mem|, head, u.blocks);
    p, v := PlaceIn(heap, vars, size, u);
    ChangesTouched(u, v.mem, mem, size, end);
    VarsTouched(image, u, v, size);
    head', mem' := heap.head, heap.mem;
  }

  /** And its stores. */
  method Serve(table: VM.ProcessTable, pid: int, vars: nat, start: nat, head: nat, mem: seq<Byte>, size: nat, ghost u: User,
               ghost r0: CW.Images)
      returns (p: nat, ghost v: User)
    requires vars == u.vars && start == u.start && head == u.Head() && HasGrown(u, mem, size)
    requires table.HeapMapped(pid) && HEAP_START + |mem| <= table.heapEnd[pid] * PAGE
    requires Open(table, pid, Touched(u, size), r0) && Encodes(r0[pid], u) && HoldsBytes(r0[pid], mem)
    modifies table.mmu, table.mmu.phys.allocations
    ensures unchanged(table`dirs, table`stackFrames, table`heapEnd)
    ensures table.Valid() && v.End() == HEAP_START + |mem| && Served(u, v, size) && IsPayload(v, u, size, p)
    ensures Rewrote(r0, PM.Reads(table.S()), pid, v)
  {
    ghost var was := table.S();
    table.Apart();
    var head', mem';
    p, head', mem', v := Place(vars, start, head, mem, size, u, r0[pid], table.heapEnd[pid]);
    assert table.mmu.phys.Valid();
    assert table.S() == was;
    WriteBack(table, pid, vars, start, head', mem', mem, v, Touched(u, size), r0);
  }

  /** After growth, or without: the heap is u with room for the request. */
  lemma IsGrown(u: User, mem: seq<Byte>, size: nat, n: nat, end: nat)
    requires UserOk(u) && size < SIGNED_LIMIT && (u.blocks == [] ==> u.start + HEADER + size <= u.End())
    requires |u.mem| <= |mem| && mem[..|u.mem|] == u.mem && n == Growth(u.blocks, u.End(), size)
    requires HEAP_START + |mem| == (if n == 0 then u.End() else end * PAGE) && HEAP_START + |mem| < ADDRESSES
    requires RoomFor(u.blocks, HEAP_START + |mem|, size)
    ensures HasGrown(u, mem, size)
  {
    if n != 0 {
      WholePages(end, |mem|);
    }
  }

  /** The walk of alloc_allocate and the test of heap.end. */
  method TestRoom(start: nat, head: nat, mem: seq<Byte>, size: nat, ghost u: User) returns (ok: bool)
    requires UserOk(u) && start == u.start && head == u.Head() && mem == u.mem && size < SIGNED_LIMIT
    ensures ok == RoomFor(u.blocks, u.End(), size)
  {
    var heap := new Heap.Loaded(HEAP_START, mem, start, HEAP_START + |mem|, head, u.blocks);
    ok := heap.HasRoom(size);
  }

  /** alloc_increase_memory, which believes the break that sbrk returns; then the rest of
      alloc_allocate. */
  method GrowAndServe(table: VM.ProcessTable, pid: int, vars: nat, start: nat, head: nat, size: nat, ghost u: User, ghost r0: CW.Images,
                      ghost ends: map<int, nat>)
      returns (p: nat, ghost v: User, ghost mid: CW.Images)
    requires Has(table, pid, u) && vars == u.vars && start == u.start && head == u.Head() && CanServe(table, pid, u, size)
    requires !RoomFor(u.blocks, u.End(), size) && PM.Reads(table.S()) == r0 && table.heapEnd == ends
    modifies table`heapEnd, table.mmu, table.mmu.phys.allocations
    ensures unchanged(table`dirs, table`stackFrames) && table.Valid()
    ensures Grew(r0, mid, ends, table.heapEnd, pid, VM.PagesFor(TotalSize(size)))
    ensures Rewrote(mid, PM.Reads(table.S()), pid, v) && Served(u, v, size) && IsPayload(v, u, size, p)
    ensures v.End() == table.heapEnd[pid] * PAGE
  {
    table.Apart();
    var brk := GrowTable(table, pid, TotalSize(size), Touched(u, size));
    mid := PM.Reads(table.S());
    ghost var ends' := table.heapEnd;
    GrewEncodes(r0, mid, ends, ends', pid, VM.PagesFor(TotalSize(size)), u);
    var mem := LoadBytes(table, pid, brk - HEAP_START, ends'[pid]);
    RoomAfter(u, mem, size, mid[pid], ends[pid], ends'[pid]);
    p, v := Serve(table, pid, vars, start, head, mem, size, u, mid);
  }

  lemma RoomAfter(u: User, mem: seq<Byte>, size: nat, image: CW.Image, was: nat, end: nat)
    requires UserOk(u) && size < SIGNED_LIMIT && (u.blocks == [] ==> u.start + HEADER + size <= u.End())
    requires !RoomFor(u.blocks, u.End(), size) && u.End() <= was * PAGE && end == was + VM.PagesFor(TotalSize(size)) && end <= VM.LAST_PAGE
    requires HEAP_START + |mem| == end * PAGE && HoldsBytes(image, mem) && Encodes(image, u)
    ensures HasGrown(u, mem, size)
  {
    PagesForIsGrown(TotalSize(size));
    LastBelow(u);
    GrowthMakesRoom(u.blocks, u.End(), size);
    Prefix(image, u.mem, mem);
    IsGrown(u, mem, size, VM.PagesFor(TotalSize(size)), end);
  }

  lemma LastBelow(u: User)
    requires UserOk(u) && u.blocks != []
    ensures u.blocks[|u.blocks| - 1].End() <= u.End()
  {
    assert Represented(u.mem, HEAP_START, u.blocks, |u.blocks| - 1);
  }

  /** alloc_allocate for the allocator u in the memory of pid: the kernel maps n pages, after which
      everybody reads mid; then v is there, and p is handed out. */
  method AllocateIn(table: VM.ProcessTable, pid: int, vars: nat, size: nat, ghost u: User, ghost r0: CW.Images, ghost ends: map<int, nat>)
      returns (p: nat, ghost v: User, ghost n: nat, ghost mid: CW.Images)
    requires Has(table, pid, u) && vars == u.vars && CanServe(table, pid, u, size) && PM.Reads(table.S()) == r0 && table.heapEnd == ends
    modifies table`heapEnd, table.mmu, table.mmu.phys.allocations
    ensures unchanged(table`dirs, table`stackFrames) && table.Valid()
    ensures Grew(r0, mid, ends, table.heapEnd, pid, n)
    ensures Rewrote(mid, PM.Reads(table.S()), pid, v) && Served(u, v, size) && IsPayload(v, u, size, p)
    ensures v.End() == (if n == 0 then u.End() else table.heapEnd[pid] * PAGE) && n == Growth(u.blocks, u.End(), size)
  {
    var start, head := LoadVar(table, pid, vars, 0, u), LoadVar(table, pid, vars, 2, u);
    var mem := LoadBytes(table, pid, LoadVar(table, pid, vars, 1, u) - HEAP_START, ends[pid]);
    SameBytes(r0[pid], mem, u.mem);
    p, v, n, mid := AllocateWith(table, pid, vars, start, head, mem, size, u, r0, ends);
  }

  lemma SomePages(size: nat)
    ensures VM.PagesFor(TotalSize(size)) > 0
  {
  }

  lemma RoomThere(u: User, size: nat)
    requires UserOk(u) && size < SIGNED_LIMIT && (u.blocks == [] ==> u.start + HEADER + size <= u.End()) && RoomFor(u.blocks, u.End(), size)
    ensures HasGrown(u, u.mem, size)
  {
  }

  method AllocateWith(table: VM.ProcessTable, pid: int, vars: nat, start: nat, head: nat, mem: seq<Byte>, size: nat, ghost u: User,
                      ghost r0: CW.Images, ghost ends: map<int, nat>)
      returns (p: nat, ghost v: User, ghost n: nat, ghost mid: CW.Images)
    requires Has(table, pid, u) && vars == u.vars && CanServe(table, pid, u, size) && PM.Reads(table.S()) == r0 && table.heapEnd == ends
    requires start == u.start && head == u.Head() && mem == u.mem
    modifies table`heapEnd, table.mmu, table.mmu.phys.allocations
    ensures unchanged(table`dirs, table`stackFrames) && table.Valid()
    ensures Grew(r0, mid, ends, table.heapEnd, pid, n)
    ensures Rewrote(mid, PM.Reads(table.S()), pid, v) && Served(u, v, size) && IsPayload(v, u, size, p)
    ensures v.End() == (if n == 0 then u.End() else table.heapEnd[pid] * PAGE) && n == Growth(u.blocks, u.End(), size)
  {
    ghost var was, free := table.S(), table.Free();
    table.Apart();
    var ok := TestRoom(start, head, mem, size, u);
    assert table.mmu.phys.Valid();
    assert table.S() == was;
    assert table.heapEnd == ends;
    assert table.Free() == free && PM.Reads(table.S()) == r0;
    p, v, n, mid := AllocateAs(table, pid, vars, start, head, mem, size, ok, u, r0, ends);
  }

  method AllocateAs(table: VM.ProcessTable, pid: int, vars: nat, start: nat, head: nat, mem: seq<Byte>, size: nat, ok: bool, ghost u: User,
                    ghost r0: CW.Images, ghost ends: map<int, nat>)
      returns (p: nat, ghost v: User, ghost n: nat, ghost mid: CW.Images)
    requires Has(table, pid, u) && vars == u.vars && CanServe(table, pid, u, size) && PM.Reads(table.S()) == r0 && table.heapEnd == ends
    requires start == u.start && head == u.Head() && mem == u.mem && ok == RoomFor(u.blocks, u.End(), size)
    modifies table`heapEnd, table.mmu, table.mmu.phys.allocations
    ensures unchanged(table`dirs, table`stackFrames) && table.Valid()
    ensures Grew(r0, mid, ends, table.heapEnd, pid, n)
    ensures Rewrote(mid, PM.Reads(table.S()), pid, v) && Served(u, v, size) && IsPayload(v, u, size, p)
    ensures v.End() == (if n == 0 then u.End() else table.heapEnd[pid] * PAGE) && n == Growth(u.blocks, u.End(), size)
  {
    if ok {
      n, mid := 0, r0;
      GrewNothing(r0, ends, pid);
      RoomThere(u, size);
      NoNeeds(table, pid);
      p, v := Serve(table, pid, vars, start, head, mem, size, u, r0);
    } else {
      n := VM.PagesFor(TotalSize(size));
      SomePages(size);
      p, v, mid := GrowAndServe(table, pid, vars, start, head, size, u, r0, ends);
    }
  }

  // ----- freeing -----

  /** alloc_free, on the bytes of the heap. */
  method FreeIn(start: nat, head: nat, mem: seq<Byte>, p: nat, ghost k: nat, ghost u: User) returns (mem': seq<Byte>, ghost v: User)
    requires UserOk(u) && start == u.start && head == u.Head() && mem == u.mem && k < |u.blocks| && p == u.blocks[k].Payload()
    ensures v == u.(blocks := Free(u.blocks, k), mem := mem') && Freed(u, v, k) && VarsOk(v) && |mem'| == |mem|
    ensures ChangesIn(mem', mem, {(p - 1) / PAGE})
  {
    var heap := new Heap.Loaded(HEAP_START, mem, start, HEAP_START + |mem|, head, u.blocks);
    heap.Release(p, k);
    mem' := heap.mem;
    v := u.(blocks := Free(u.blocks, k), mem := mem');
  }

  lemma SameVars(image: CW.Image, u: User, v: User, pages: set<int>)
    requires Encodes(image, u) && v.vars == u.vars && v.start == u.start && v.End() == u.End() && v.Head() == u.Head()
    ensures VarsIn(image, v, pages)
  {
  }

  /** The block at p is free afterwards; there is a frame if its header lies in a page that is still
      shared. */
  method ReleaseIn(table: VM.ProcessTable, pid: int, vars: nat, p: nat, ghost k: nat, ghost u: User, ghost r0: CW.Images) returns (ghost v: User)
    requires Has(table, pid, u) && vars == u.vars && PM.Reads(table.S()) == r0 && k < |u.blocks| && p == u.blocks[k].Payload()
    requires Affords(table, pid, {(p - 1) / PAGE})
    modifies table.mmu, table.mmu.phys.allocations
    ensures unchanged(table`dirs, table`stackFrames, table`heapEnd) && table.Valid()
    ensures Freed(u, v, k) && Rewrote(r0, PM.Reads(table.S()), pid, v)
  {
    var start, head := LoadVar(table, pid, vars, 0, u), LoadVar(table, pid, vars, 2, u);
    var mem := LoadBytes(table, pid, LoadVar(table, pid, vars, 1, u) - HEAP_START, table.heapEnd[pid]);
    SameBytes(r0[pid], mem, u.mem);
    v := ReleaseWith(table, pid, vars, start, head, mem, p, k, u, r0);
  }

  method ReleaseWith(table: VM.ProcessTable, pid: int, vars: nat, start: nat, head: nat, mem: seq<Byte>, p: nat, ghost k: nat, ghost u: User,
                     ghost r0: CW.Images)
      returns (ghost v: User)
    requires Open(table, pid, {(p - 1) / PAGE}, r0) && UserOk(u) && Encodes(r0[pid], u) && k < |u.blocks| && p == u.blocks[k].Payload()
    requires vars == u.vars && start == u.start && head == u.Head() && mem == u.mem
    modifies table.mmu, table.mmu.phys.allocations
    ensures unchanged(table`dirs, table`stackFrames, table`heapEnd) && table.Valid()
    ensures Freed(u, v, k) && Rewrote(r0, PM.Reads(table.S()), pid, v)
  {
    ghost var was, free := table.S(), table.Free();
    table.Apart();
    var mem';
    mem', v := FreeIn(start, head, mem, p, k, u);
    SameVars(r0[pid], u, v, {(p - 1) / PAGE});
    assert table.mmu.phys.Valid();
    assert table.S() == was;
    assert table.Free() == free && PM.Reads(table.S()) == r0;
    WriteBack(table, pid, vars, start, head, mem', mem, v, {(p - 1) / PAGE}, r0);
  }

  // ----- a new program -----

  /** Where a program has its allocator's variables: below the heap. */
  predicate Linked(vars: nat) {
    vars % 4 == 0 && vars + 16 <= HEAP_START
  }

  ghost function VarPages(vars: nat): set<int> {
    {VarAt(vars, 0) / PAGE, VarAt(vars, 1) / PAGE, VarAt(vars, 2) / PAGE}
  }

  ghost predicate VarsMapped(image: CW.Image, vars: nat) {
    VarAt(vars, 0) / PAGE in image && VarAt(vars, 1) / PAGE in image && VarAt(vars, 2) / PAGE in image
  }

  lemma NoCopiesAffords(table: VM.ProcessTable, pid: int, pages: set<int>)
    requires pid in table.dirs && CN.NoCopies(table.mmu.H(), table.dirs[pid])
    ensures Affords(table, pid, pages)
  {
    assert CN.Copies(table.mmu.H(), table.dirs[pid], pages) == {};
  }

  /** An allocator without blocks on one page of heap. */
  ghost predicate Fresh(v: User, vars: nat, used: nat, mem: seq<Byte>) {
    v.vars == vars && v.start == HEAP_START + used && v.blocks == [] && v.mem == mem && UserOk(v) && VarsOk(v) && |mem| == PAGE
  }

  lemma FreshUser(image: CW.Image, vars: nat, used: nat, mem: seq<Byte>) returns (v: User, pages: set<int>)
    requires Linked(vars) && used <= |mem| == PAGE && VarsMapped(image, vars)
    ensures Fresh(v, vars, used, mem) && VarsIn(image, v, pages)
  {
    v, pages := User(vars, HEAP_START + used, [], mem), VarPages(vars);
  }

  /** What the program finds in the second and third of the words on top of its stack. */
  function EndOnStack(table: VM.ProcessTable, pid: int, ghost used: nat, ghost argc: nat): (end: nat)
    requires table.Valid() && pid in table.dirs && PR.TopIs(PM.Reads(table.S())[pid], used, argc)
    reads table`dirs, table.mmu, table.mmu.phys, table.mmu.phys.allocations, table.mmu.phys.freeList
    ensures end == HEAP_START + PAGE
  {
    PE.Encode(table.ReadWord(pid, PR.STACK_TOP, 1021))
  }

  function LengthOnStack(table: VM.ProcessTable, pid: int, ghost used: nat, ghost argc: nat): (length: nat)
    requires table.Valid() && pid in table.dirs && PR.TopIs(PM.Reads(table.S())[pid], used, argc)
    reads table`dirs, table.mmu, table.mmu.phys, table.mmu.phys.allocations, table.mmu.phys.freeList
    ensures length == used
  {
    PE.Encode(table.ReadWord(pid, PR.STACK_TOP, 1022))
  }

  lemma OnePage(end: nat)
    ensures end == VM.HEAP_PAGE + 1 ==> end * PAGE == HEAP_START + PAGE
  {
  }

  /** bootstrap and alloc_initialise: the program finds the end of its heap and the length of its argument
      strings on its stack; the allocator starts behind the strings and takes the rest of their page. */
  method StartIn(table: VM.ProcessTable, pid: int, vars: nat, ghost used: nat, ghost argc: nat, ghost r0: CW.Images) returns (ghost v: User)
    requires table.Valid() && table.HeapMapped(pid) && table.heapEnd[pid] == VM.HEAP_PAGE + 1 && PM.Reads(table.S()) == r0
    requires pid in table.dirs && CN.NoCopies(table.mmu.H(), table.dirs[pid])
    requires Linked(vars) && used <= PAGE && VarsMapped(r0[pid], vars) && PR.TopIs(r0[pid], used, argc)
    modifies table.mmu, table.mmu.phys.allocations
    ensures unchanged(table`dirs, table`stackFrames, table`heapEnd) && table.Valid()
    ensures Fresh(v, vars, used, v.mem) && HoldsBytes(r0[pid], v.mem)
    ensures Rewrote(r0, PM.Reads(table.S()), pid, v)
  {
    var n, taken := EndOnStack(table, pid, used, argc) - HEAP_START, LengthOnStack(table, pid, used, argc);
    OnePage(table.heapEnd[pid]);
    var mem := LoadBytes(table, pid, n, table.heapEnd[pid]);
    ghost var pages;
    v, pages := FreshUser(r0[pid], vars, used, mem);
    NoCopiesAffords(table, pid, pages);
    WriteBack(table, pid, vars, HEAP_START + taken, 0, mem, mem, v, pages, r0);
  }

  ghost predicate ProgramOk(headers: seq<EL.Phdr>, file: seq<Byte>, args: seq<PE.Word>, argLength: nat, argc: nat) {
    EL.AllPlaced(headers, file) && PR.ArgsOk(args, argLength, argc)
  }

  /** The program is linked so that its allocator's variables are in its image, and the arguments fit in
      their page. */
  ghost predicate ImageOk(pages: seq<VM.PageInit>, vars: nat, argLength: nat) {
    && Linked(vars) && argLength <= PAGE
    && VM.Listed(pages, VarAt(vars, 0) / PAGE) && VM.Listed(pages, VarAt(vars, 1) / PAGE) && VM.Listed(pages, VarAt(vars, 2) / PAGE)
  }

  ghost predicate CanExec(table: VM.ProcessTable, pid: int, vars: nat, headers: seq<EL.Phdr>, file: seq<Byte>, args: seq<PE.Word>, argLength: nat, argc: nat)
    reads table, table.mmu, table.mmu.phys, table.mmu.phys.allocations, table.mmu.phys.freeList
  {
    && table.Valid() && table.StacksOk() && pid in table.dirs && ProgramOk(headers, file, args, argLength, argc)
    && ImageOk(PR.ExecPages(headers, file, args, argLength, argc), vars, argLength)
    && table.FreeAfterClear(pid) >= VM.FramesFor({}, PR.ExecPages(headers, file, args, argLength, argc), 0)
  }

  ghost predicate CanSpawn(table: VM.ProcessTable, pid: int, current: nat, vars: nat, headers: seq<EL.Phdr>, file: seq<Byte>, args: seq<PE.Word>,
                           argLength: nat, argc: nat)
    reads table, table.mmu, table.mmu.phys, table.mmu.phys.allocations, table.mmu.phys.freeList
  {
    && table.Valid() && table.StacksOk() && pid !in table.dirs && ProgramOk(headers, file, args, argLength, argc)
    && current < |table.mmu.mem| && PT.Held(table.mmu.H(), current)
    && ImageOk(PR.SpawnPages(headers, file, args, argLength, argc), vars, argLength) && !PR.CoveredBy(headers, PR.STACK_TOP)
    && table.Free() >= VM.FramesFor({}, PR.SpawnPages(headers, file, args, argLength, argc), 0) + 1
  }

  /** The kernel laid out an image for pid on top of r, and everybody reads r'. */
  ghost predicate LaidOut(r: CW.Images, r': CW.Images, pid: int, pages: seq<VM.PageInit>, vars: nat) {
    VM.Laid(r, r', pid, pages) && VM.Listed(pages, VM.HEAP_PAGE) && VarsMapped(r'[pid], vars)
  }

  lemma IsLaidOut(r: CW.Images, r': CW.Images, pid: int, pages: seq<VM.PageInit>, vars: nat, argLength: nat)
    requires VM.Laid(r, r', pid, pages) && ImageOk(pages, vars, argLength) && pages != [] && pages[|pages| - 1].page == VM.HEAP_PAGE
    ensures LaidOut(r, r', pid, pages, vars)
  {
    assert VM.Listed(pages, VM.HEAP_PAGE);
  }

  /** The kernel's part of loader_exec. */
  method ExecTable(table: VM.ProcessTable, pid: int, vars: nat, headers: seq<EL.Phdr>, file: seq<Byte>, args: seq<PE.Word>, argLength: nat, argc: nat,
                   ghost r: CW.Images, ghost ends: map<int, nat>)
    requires CanExec(table, pid, vars, headers, file, args, argLength, argc)
    requires CW.Eager(PM.Reads(table.S()), CW.Step.Clear(pid)) == r && table.heapEnd == ends
    modifies table`heapEnd, table`stackFrames, table.mmu, table.mmu.phys.allocations
    ensures table.Valid() && table.StacksOk() && unchanged(table`dirs) && table.stackFrames.Keys == old(table.stackFrames.Keys) + {pid}
    ensures table.HeapMapped(pid) && table.heapEnd == ends[pid := VM.HEAP_PAGE + 1] && CN.NoCopies(table.mmu.H(), table.dirs[pid])
    ensures LaidOut(r, PM.Reads(table.S()), pid, PR.ExecPages(headers, file, args, argLength, argc), vars)
    ensures PR.TopIs(PM.Reads(table.S())[pid], argLength, argc)
  {
    table.Apart();
    PR.Exec(table, pid, headers, file, args, argLength, argc);
    AddedKey(old(table.stackFrames), pid, table.stackFrames[pid]);
    IsLaidOut(r, PM.Reads(table.S()), pid, PR.ExecPages(headers, file, args, argLength, argc), vars, argLength);
  }

  /** The kernel's part of loader_spawn. */
  method SpawnTable(table: VM.ProcessTable, pid: int, current: nat, vars: nat, headers: seq<EL.Phdr>, file: seq<Byte>, args: seq<PE.Word>, argLength: nat,
                    argc: nat, ghost r: CW.Images, ghost ends: map<int, nat>)
    requires CanSpawn(table, pid, current, vars, headers, file, args, argLength, argc)
    requires CW.Eager(PM.Reads(table.S()), CW.Step.Create(pid)) == r && table.heapEnd == ends
    modifies table, table.mmu, table.mmu.phys.allocations
    ensures table.Valid() && table.StacksOk() && pid in table.dirs
    ensures table.dirs.Keys == old(table.dirs.Keys) + {pid} && table.stackFrames.Keys == old(table.stackFrames.Keys) + {pid}
    ensures table.HeapMapped(pid) && table.heapEnd == ends[pid := VM.HEAP_PAGE + 1] && CN.NoCopies(table.mmu.H(), table.dirs[pid])
    ensures LaidOut(r, PM.Reads(table.S()), pid, PR.SpawnPages(headers, file, args, argLength, argc), vars)
    ensures PR.TopIs(PM.Reads(table.S())[pid], argLength, argc)
  {
    PR.Spawn(table, pid, current, headers, file, args, argLength, argc);
    IsLaidOut(r, PM.Reads(table.S()), pid, PR.SpawnPages(headers, file, args, argLength, argc), vars, argLength);
  }

  lemma AddedKey<V>(m: map<int, V>, k: int, v: V)
    ensures m[k := v].Keys == m.Keys + {k}
  {
  }

  /** proc_clone. */
  method ForkTable(table: VM.ProcessTable, parent: int, child: int, ghost r0: CW.Images, ghost ends: map<int, nat>)
    requires table.Valid() && table.StacksOk() && child !in table.dirs && parent in table.heapEnd
    requires parent in table.dirs && parent in table.stackFrames && PM.Reads(table.S()) == r0 && table.heapEnd == ends
    requires PG.RoomToFork(table.mmu.H(), table.dirs[parent], table.stackFrames[parent])
    modifies table, table.mmu, table.mmu.phys.allocations
    ensures table.Valid() && table.StacksOk()
    ensures table.dirs.Keys == old(table.dirs.Keys) + {child} && table.stackFrames.Keys == old(table.stackFrames.Keys) + {child}
    ensures PM.Reads(table.S()) == CW.Eager(r0, CW.Step.Fork(parent, child)) && table.heapEnd == ends[child := ends[parent]]
  {
    table.Fork(parent, child);
    AddedKey(old(table.dirs), child, table.dirs[child]);
    AddedKey(old(table.stackFrames), child, old(table.stackFrames)[parent]);
  }

  method DestroyTable(table: VM.ProcessTable, pid: int, ghost r0: CW.Images, ghost ends: map<int, nat>)
    requires table.Valid() && table.StacksOk() && pid in table.dirs && PM.Reads(table.S()) == r0 && table.heapEnd == ends
    modifies table, table.mmu, table.mmu.phys.allocations
    ensures table.Valid() && table.StacksOk()
    ensures table.dirs.Keys == old(table.dirs.Keys) - {pid} && table.stackFrames.Keys == old(table.stackFrames.Keys) - {pid}
    ensures PM.Reads(table.S()) == CW.Eager(r0, CW.Step.Destroy(pid)) && table.heapEnd == ends - {pid}
  {
    table.Destroy(pid);
  }

  method StoreTable(table: VM.ProcessTable, pid: int, p: nat, j: nat, w: PE.Word, ghost r0: CW.Images) returns (killed: bool)
    requires table.Valid() && pid in table.dirs && p < PT.USER_PAGES && j < PE.ENTRIES && PM.Reads(table.S()) == r0
    requires PG.NeedsCopy(table.mmu.H(), table.dirs[pid], p) ==> table.Free() >= 1
    modifies table.mmu, table.mmu.phys.allocations
    ensures unchanged(table`dirs, table`stackFrames, table`heapEnd) && table.Valid()
    ensures PM.Reads(table.S()) == CW.Eager(r0, CW.Step.Write(pid, p, j, w))
    ensures killed <==> p !in r0[pid]
  {
    table.Apart();
    killed := table.UserWrite(pid, p, j, w);
  }

  /** The state of the whole is s when the tables are these. */
  ghost predicate Is(table: VM.ProcessTable, s: Sys)
    reads table, table.mmu, table.mmu.phys.allocations
  {
    s.seen == PM.Reads(table.S()) && s.brk == table.heapEnd
  }

  /** A step of the whole, after which all agree. */
  ghost predicate Stepped(s: Sys, s': Sys, act: Action) {
    Acts(s, s', act) && AllAgree(s') && (AllInStep(s) && !BehindTheBack(act) ==> AllInStep(s'))
  }

  /** The same processes have allocators, with their variables at the same addresses. */
  ghost predicate SamePlaces(users: map<int, User>, users': map<int, User>) {
    users'.Keys == users.Keys && forall q :: q in users ==> users'[q].vars == users[q].vars
  }

  lemma IsNext(s: Sys, s': Sys, act: Action)
    requires AllAgree(s) && Acts(s, s', act)
    ensures Stepped(s, s', act)
  {
    NextAll(s, s', act);
  }

  lemma IsSamePlaces(users: map<int, User>, users': map<int, User>, pid: int)
    requires pid in users && pid in users' && users' == users[pid := users'[pid]] && users'[pid].vars == users[pid].vars
    ensures SamePlaces(users, users')
  {
  }

  lemma IsStarted(s: Sys, s': Sys, r: CW.Images, mid: CW.Images, pid: int, pages: seq<VM.PageInit>, vars: nat, used: nat)
    requires LaidOut(r, mid, pid, pages, vars) && s'.brk == s.brk[pid := VM.HEAP_PAGE + 1]
    requires pid in s'.users && s'.users == s.users[pid := s'.users[pid]]
    requires Fresh(s'.users[pid], vars, used, s'.users[pid].mem) && HoldsBytes(mid[pid], s'.users[pid].mem)
    requires Rewrote(mid, s'.seen, pid, s'.users[pid])
    ensures Started(s, s', r, pid, vars, used)
  {
  }

  /** The new program's first step, in the address space that the kernel laid out for it. */
  method StartStep(table: VM.ProcessTable, pid: int, vars: nat, ghost used: nat, ghost argc: nat, ghost before: Sys, ghost r: CW.Images, ghost pages: seq<VM.PageInit>)
      returns (ghost after: Sys)
    requires table.Valid() && table.StacksOk() && pid in table.dirs && table.HeapMapped(pid)
    requires table.heapEnd == before.brk[pid := VM.HEAP_PAGE + 1] && CN.NoCopies(table.mmu.H(), table.dirs[pid])
    requires LaidOut(r, PM.Reads(table.S()), pid, pages, vars) && Linked(vars) && used <= PAGE && PR.TopIs(PM.Reads(table.S())[pid], used, argc)
    modifies table.mmu, table.mmu.phys.allocations
    ensures unchanged(table`dirs, table`stackFrames) && table.Valid() && table.StacksOk() && Is(table, after)
    ensures Started(before, after, r, pid, vars, used) && pid in after.users
    ensures after.users == before.users[pid := after.users[pid]] && after.users[pid].vars == vars
  {
    table.Apart();
    ghost var mid := PM.Reads(table.S());
    ghost var v := StartIn(table, pid, vars, used, argc, mid);
    after := Sys(PM.Reads(table.S()), table.heapEnd, before.users[pid := v]);
    IsStarted(before, after, r, mid, pid, pages, vars, used);
  }

  lemma ExecActs(s: Sys, s': Sys, r: CW.Images, pid: int, vars: nat, used: nat)
    requires pid in s.seen && r == CW.Eager(s.seen, CW.Step.Clear(pid)) && Started(s, s', r, pid, vars, used)
    ensures Acts(s, s', Action.Exec(pid, vars, used))
  {
  }

  lemma SpawnActs(s: Sys, s': Sys, r: CW.Images, pid: int, vars: nat, used: nat)
    requires pid !in s.seen && pid !in s.users && r == CW.Eager(s.seen, CW.Step.Create(pid)) && Started(s, s', r, pid, vars, used)
    ensures Acts(s, s', Action.Spawn(pid, vars, used))
  {
  }

  method AllocateFor(table: VM.ProcessTable, pid: int, vars: nat, size: nat, ghost before: Sys) returns (p: nat, ghost after: Sys)
    requires Is(table, before) && table.StacksOk() && pid in before.users && before.users[pid].vars == vars && AllAgree(before)
    requires Has(table, pid, before.users[pid]) && CanServe(table, pid, before.users[pid], size)
    modifies table`heapEnd, table.mmu, table.mmu.phys.allocations
    ensures unchanged(table`dirs, table`stackFrames) && table.Valid() && table.StacksOk() && Is(table, after)
    ensures Stepped(before, after, Action.Allocate(pid, size)) && SamePlaces(before.users, after.users)
    ensures pid in after.users && GaveOut(before, after, pid, size, p)
  {
    table.Apart();
    ghost var v, n, mid;
    p, v, n, mid := AllocateIn(table, pid, vars, size, before.users[pid], before.seen, before.brk);
    after := Sys(PM.Reads(table.S()), table.heapEnd, before.users[pid := v]);
    IsAllocated(before, after, pid, size, n, mid);
    IsNext(before, after, Action.Allocate(pid, size));
    IsSamePlaces(before.users, after.users, pid);
    ServedGives(before, after, pid, size, n, mid, p);
  }

  /** The block that p was handed out for, its zeros as the process reads them, and the new break: as
      before if there was room, or further by the least number of pages that holds the request. */
  ghost predicate GaveOut(s: Sys, s': Sys, pid: int, size: nat, p: nat) {
    && pid in s.users && pid in s'.users && pid in s.brk && pid in s'.brk && pid in s'.seen
    && Handed(s.users[pid].blocks, s'.users[pid].blocks, s.users[pid].start, size, p)
    && (forall x: nat :: p <= x < p + size ==> ByteIs(s'.seen[pid], x, 0))
    && s'.brk[pid] == s.brk[pid] + Growth(s.users[pid].blocks, s.users[pid].End(), size)
  }

  lemma ServedGives(s: Sys, s': Sys, pid: int, size: nat, n: nat, mid: CW.Images, p: nat)
    requires Allocated(s, s', pid, size, n, mid) && IsPayload(s'.users[pid], s.users[pid], size, p)
    ensures GaveOut(s, s', pid, size, p)
  {
    var u, v := s.users[pid], s'.users[pid];
    MallocHands(u.blocks, u.start, size);
    var i := MallocIndex(u.blocks, size);
    MallocLong(u.blocks, u.start, size);
    forall x: nat | p <= x < p + size ensures ByteIs(s'.seen[pid], x, 0) {
      assert v.mem[x - HEAP_START] == 0;
      assert ByteIs(s'.seen[pid], HEAP_START + (x - HEAP_START), v.mem[x - HEAP_START]);
    }
  }

  lemma MallocLong(bs: seq<Block>, start: nat, size: nat)
    ensures var bs', i := Malloc(bs, start, size), MallocIndex(bs, size); i < |bs'| && bs'[i].size >= size
  {
  }

  method ReleaseFor(table: VM.ProcessTable, pid: int, vars: nat, p: nat, ghost k: nat, ghost before: Sys) returns (ghost after: Sys)
    requires Is(table, before) && AllAgree(before) && table.StacksOk() && pid in before.users && before.users[pid].vars == vars
    requires Has(table, pid, before.users[pid]) && k < |before.users[pid].blocks| && p == before.users[pid].blocks[k].Payload()
    requires Affords(table, pid, {(p - 1) / PAGE})
    modifies table.mmu, table.mmu.phys.allocations
    ensures unchanged(table`dirs, table`stackFrames) && table.Valid() && table.StacksOk() && Is(table, after)
    ensures Stepped(before, after, Action.Release(pid, k)) && pid in after.users
    ensures SamePlaces(before.users, after.users)
  {
    table.Apart();
    ghost var v := ReleaseIn(table, pid, vars, p, k, before.users[pid], before.seen);
    after := Sys(PM.Reads(table.S()), table.heapEnd, before.users[pid := v]);
    IsNext(before, after, Action.Release(pid, k));
    IsSamePlaces(before.users, after.users, pid);
  }

  method SbrkFor(table: VM.ProcessTable, pid: int, bytes: int, ghost before: Sys) returns (brk: nat, ghost after: Sys)
    requires Is(table, before) && AllAgree(before) && table.Valid() && table.StacksOk() && table.HeapMapped(pid)
    requires CanGrow(table, pid, VM.PagesFor(bytes), {})
    modifies table`heapEnd, table.mmu, table.mmu.phys.allocations
    ensures unchanged(table`dirs, table`stackFrames) && table.Valid() && table.StacksOk() && Is(table, after)
    ensures Stepped(before, after, Action.Sbrk(pid, bytes)) && after.users == before.users && pid in after.brk && brk == after.brk[pid] * PAGE
    ensures AllInStep(before) ==> (AllInStep(after) <==> bytes <= 0 || pid !in after.users)
  {
    table.Apart();
    brk := GrowTable(table, pid, bytes, {});
    after := Sys(PM.Reads(table.S()), table.heapEnd, before.users);
    if AllInStep(before) {
      SbrkInStep(before, after, pid, bytes);
    }
    IsNext(before, after, Action.Sbrk(pid, bytes));
  }

  method StoreFor(table: VM.ProcessTable, pid: int, p: nat, j: nat, w: PE.Word, ghost before: Sys) returns (killed: bool, ghost after: Sys)
    requires Is(table, before) && AllAgree(before) && table.Valid() && table.StacksOk() && pid in table.dirs && p < PT.USER_PAGES && j < PE.ENTRIES
    requires PG.NeedsCopy(table.mmu.H(), table.dirs[pid], p) ==> table.Free() >= 1
    modifies table.mmu, table.mmu.phys.allocations
    ensures unchanged(table`dirs, table`stackFrames) && table.Valid() && table.StacksOk() && Is(table, after)
    ensures Stepped(before, after, Action.Store(pid, p, j, w)) && after.users == AfterStore(before.users, pid, p, j, w)
    ensures killed <==> p !in before.seen[pid]
  {
    table.Apart();
    killed := StoreTable(table, pid, p, j, w, before.seen);
    after := Sys(PM.Reads(table.S()), table.heapEnd, AfterStore(before.users, pid, p, j, w));
    IsNext(before, after, Action.Store(pid, p, j, w));
  }

  method ForkFor(table: VM.ProcessTable, parent: int, child: int, ghost before: Sys) returns (ghost after: Sys)
    requires Is(table, before) && AllAgree(before) && table.Valid() && table.StacksOk() && child !in table.dirs && child !in before.users
    requires parent in table.heapEnd && parent in table.dirs && parent in table.stackFrames
    requires PG.RoomToFork(table.mmu.H(), table.dirs[parent], table.stackFrames[parent])
    modifies table, table.mmu, table.mmu.phys.allocations
    ensures table.Valid() && table.StacksOk() && Is(table, after)
    ensures table.dirs.Keys == old(table.dirs.Keys) + {child} && table.stackFrames.Keys == old(table.stackFrames.Keys) + {child}
    ensures Stepped(before, after, Action.Fork(parent, child))
    ensures after.users == if parent in before.users then before.users[child := before.users[parent]] else before.users
  {
    ForkTable(table, parent, child, before.seen, before.brk);
    after := Sys(PM.Reads(table.S()), table.heapEnd, if parent in before.users then before.users[child := before.users[parent]] else before.users);
    IsNext(before, after, Action.Fork(parent, child));
  }

  method DestroyFor(table: VM.ProcessTable, pid: int, ghost before: Sys) returns (ghost after: Sys)
    requires Is(table, before) && AllAgree(before) && table.Valid() && table.StacksOk() && pid in table.dirs
    modifies table, table.mmu, table.mmu.phys.allocations
    ensures table.Valid() && table.StacksOk() && Is(table, after)
    ensures table.dirs.Keys == old(table.dirs.Keys) - {pid} && table.stackFrames.Keys == old(table.stackFrames.Keys) - {pid}
    ensures Stepped(before, after, Action.Destroy(pid)) && after.users == before.users - {pid}
  {
    DestroyTable(table, pid, before.seen, before.brk);
    after := Sys(PM.Reads(table.S()), table.heapEnd, before.users - {pid});
    IsNext(before, after, Action.Destroy(pid));
  }

  method ExecFor(table: VM.ProcessTable, pid: int, vars: nat, headers: seq<EL.Phdr>, file: seq<Byte>, args: seq<PE.Word>, argLength: nat, argc: nat,
                  ghost before: Sys)
      returns (ghost after: Sys)
    requires Is(table, before) && AllAgree(before) && CanExec(table, pid, vars, headers, file, args, argLength, argc)
    modifies table`heapEnd, table`stackFrames, table.mmu, table.mmu.phys.allocations
    ensures table.Valid() && table.StacksOk() && Is(table, after)
    ensures unchanged(table`dirs) && table.stackFrames.Keys == old(table.stackFrames.Keys) + {pid}
    ensures Stepped(before, after, Action.Exec(pid, vars, argLength)) && pid in after.users
    ensures after.users == before.users[pid := after.users[pid]] && after.users[pid].vars == vars
  {
    table.Apart();
    ghost var r := CW.Eager(before.seen, CW.Step.Clear(pid));
    ExecTable(table, pid, vars, headers, file, args, argLength, argc, r, before.brk);
    after := StartStep(table, pid, vars, argLength, argc, before, r, PR.ExecPages(headers, file, args, argLength, argc));
    ExecActs(before, after, r, pid, vars, argLength);
    IsNext(before, after, Action.Exec(pid, vars, argLength));
  }

  method SpawnFor(table: VM.ProcessTable, pid: int, current: nat, vars: nat, headers: seq<EL.Phdr>, file: seq<Byte>, args: seq<PE.Word>, argLength: nat,
                   argc: nat, ghost before: Sys)
      returns (ghost after: Sys)
    requires Is(table, before) && AllAgree(before) && CanSpawn(table, pid, current, vars, headers, file, args, argLength, argc) && pid !in before.users
    modifies table, table.mmu, table.mmu.phys.allocations
    ensures table.Valid() && table.StacksOk() && Is(table, after)
    ensures table.dirs.Keys == old(table.dirs.Keys) + {pid} && table.stackFrames.Keys == old(table.stackFrames.Keys) + {pid}
    ensures Stepped(before, after, Action.Spawn(pid, vars, argLength)) && pid in after.users
    ensures after.users == before.users[pid := after.users[pid]] && after.users[pid].vars == vars
  {
    table.Apart();
    ghost var r := CW.Eager(before.seen, CW.Step.Create(pid));
    SpawnTable(table, pid, current, vars, headers, file, args, argLength, argc, r, before.brk);
    after := StartStep(table, pid, vars, argLength, argc, before, r, PR.SpawnPages(headers, file, args, argLength, argc));
    SpawnActs(before, after, r, pid, vars, argLength);
    IsNext(before, after, Action.Spawn(pid, vars, argLength));
  }

  /** The allocator's variables of each process are where its program has them. */
  ghost predicate InPlace(users: map<int, User>, vars: map<int, nat>) {
    forall q :: q in users ==> q in vars && vars[q] == users[q].vars
  }

  lemma StillInPlace(users: map<int, User>, users': map<int, User>, vars: map<int, nat>)
    requires SamePlaces(users, users') && InPlace(users, vars)
    ensures users'.Keys == users.Keys && InPlace(users', vars)
  {
  }

  lemma MoreInPlace(users: map<int, User>, users': map<int, User>, pid: int, vars: map<int, nat>, at: nat)
    requires pid in users' && users' == users[pid := users'[pid]] && users'[pid].vars == at && InPlace(users, vars)
    ensures users'.Keys == users.Keys + {pid} && InPlace(users', vars[pid := at])
  {
  }

  lemma ForkInPlace(users: map<int, User>, parent: int, child: int, vars: map<int, nat>)
    requires InPlace(users, vars) && child !in users
    ensures var users' := if parent in users then users[child := users[parent]] else users;
            users'.Keys <= users.Keys + {child} && InPlace(users', if parent in vars then vars[child := vars[parent]] else vars)
  {
  }

  lemma StoreInPlace(users: map<int, User>, pid: int, p: int, j: int, w: PE.Word, vars: map<int, nat>)
    requires InPlace(users, vars)
    ensures AfterStore(users, pid, p, j, w).Keys <= users.Keys && InPlace(AfterStore(users, pid, p, j, w), vars)
  {
  }

  /** In step exactly for increments that are not positive. */
  lemma SbrkInStep(s: Sys, s': Sys, pid: int, bytes: int)
    requires Acts(s, s', Action.Sbrk(pid, bytes)) && AllInStep(s)
    ensures AllInStep(s') <==> bytes <= 0 || pid !in s'.users
  {
    if bytes > 0 && pid in s'.users {
      assert InStep(s, pid);
      assert !InStep(s', pid);
    } else {
      forall q | q in s'.users ensures InStep(s', q) {
        assert InStep(s, q);
      }
    }
  }

  // ----- all processes -----

  class System {
    const table: VM.ProcessTable
    var vars: map<int, nat>         // where the program of each process has its allocator's variables
    ghost var state: Sys            // what every process reads, its break, and its allocator

    /** Every process whose memory is an allocator has an address space and a stack. */
    ghost predicate Running(users: map<int, User>, vars: map<int, nat>)
      reads table`dirs, table`stackFrames
    {
      users.Keys <= table.dirs.Keys && users.Keys <= table.stackFrames.Keys && InPlace(users, vars)
    }

    ghost predicate Valid()
      reads this, table, table.mmu, table.mmu.phys, table.mmu.phys.allocations, table.mmu.phys.freeList
    {
      table.Valid() && table.StacksOk() && Is(table, state) && AllAgree(state) && Running(state.users, vars)
    }

    constructor (table: VM.ProcessTable)
      requires table.Valid() && table.StacksOk()
      ensures this.table == table && state.users == map[] && Valid() && AllInStep(state)
    {
      this.table := table;
      vars, state := map[], Sys(PM.Reads(table.S()), table.heapEnd, map[]);
    }

    /** The whole is none of the objects that its operations change besides itself. */
    lemma Apart()
      ensures this as object != table as object && this as object != table.mmu as object
      ensures this as object != table.mmu.phys.allocations as object
    {
    }

    lemma HasHere(pid: int)
      requires Valid() && pid in state.users
      ensures Has(table, pid, state.users[pid]) && pid in vars && vars[pid] == state.users[pid].vars
    {
      assert Agrees(state, pid);
    }

    /** alloc_allocate in one process. */
    method Allocate(pid: int, size: nat) returns (p: nat)
      requires Valid() && pid in state.users && CanServe(table, pid, state.users[pid], size)
      modifies this, table`heapEnd, table.mmu, table.mmu.phys.allocations
      ensures Valid() && Stepped(old(state), state, Action.Allocate(pid, size))
      ensures pid in state.users && GaveOut(old(state), state, pid, size, p)
    {
      ghost var before, after := state, state;
      Apart();
      HasHere(pid);
      p, after := AllocateFor(table, pid, vars[pid], size, before);
      StillInPlace(before.users, after.users, vars);
      Become(vars, after);
    }

    /** alloc_free in one process. */
    method Release(pid: int, p: nat, ghost k: nat)
      requires Valid() && pid in state.users && k < |state.users[pid].blocks| && p == state.users[pid].blocks[k].Payload()
      requires Affords(table, pid, {(p - 1) / PAGE})
      modifies this, table.mmu, table.mmu.phys.allocations
      ensures Valid() && Stepped(old(state), state, Action.Release(pid, k))
    {
      ghost var before, after := state, state;
      Apart();
      HasHere(pid);
      after := ReleaseFor(table, pid, vars[pid], p, k, before);
      StillInPlace(before.users, after.users, vars);
      Become(vars, after);
    }

    /** A program calls sbrk itself. */
    method Sbrk(pid: int, bytes: int) returns (brk: nat)
      requires Valid() && table.HeapMapped(pid) && CanGrow(table, pid, VM.PagesFor(bytes), {})
      modifies this, table`heapEnd, table.mmu, table.mmu.phys.allocations
      ensures Valid() && Stepped(old(state), state, Action.Sbrk(pid, bytes))
      ensures pid in state.brk && brk == state.brk[pid] * PAGE
      ensures old(AllInStep(state)) ==> (AllInStep(state) <==> bytes <= 0 || pid !in state.users)
    {
      ghost var before, after := state, state;
      Apart();
      brk, after := SbrkFor(table, pid, bytes, before);
      Become(vars, after);
    }

    /** A store by a program, wherever it likes, with the fault it may cause. */
    method Store(pid: int, p: nat, j: nat, w: PE.Word) returns (killed: bool)
      requires Valid() && pid in table.dirs && p < PT.USER_PAGES && j < PE.ENTRIES
      requires PG.NeedsCopy(table.mmu.H(), table.dirs[pid], p) ==> table.Free() >= 1
      modifies this, table.mmu, table.mmu.phys.allocations
      ensures Valid() && Stepped(old(state), state, Action.Store(pid, p, j, w))
      ensures killed <==> p !in old(state).seen[pid]
    {
      ghost var before, after := state, state;
      Apart();
      killed, after := StoreFor(table, pid, p, j, w, before);
      StoreInPlace(before.users, pid, p, j, w, vars);
      Become(vars, after);
    }

    /** proc_clone: the child's memory is its parent's, allocator included. */
    method Fork(parent: int, child: int)
      requires Valid() && child !in table.dirs && parent in table.heapEnd && parent in table.dirs && parent in table.stackFrames
      requires PG.RoomToFork(table.mmu.H(), table.dirs[parent], table.stackFrames[parent])
      modifies this, table, table.mmu, table.mmu.phys.allocations
      ensures Valid() && Stepped(old(state), state, Action.Fork(parent, child))
    {
      ghost var before, after := state, state;
      Apart();
      after := ForkFor(table, parent, child, before);
      ForkInPlace(before.users, parent, child, vars);
      Become(if parent in vars then vars[child := vars[parent]] else vars, after);
    }

    /** proc_destroy. */
    method Destroy(pid: int)
      requires Valid() && pid in table.dirs
      modifies this, table, table.mmu, table.mmu.phys.allocations
      ensures Valid() && Stepped(old(state), state, Action.Destroy(pid))
    {
      ghost var before, after := state, state;
      Apart();
      after := DestroyFor(table, pid, before);
      Become(vars, after);
    }

    /** loader_exec, and the start of the new program's allocator in place of what was there. */
    method Exec(pid: int, at: nat, headers: seq<EL.Phdr>, file: seq<Byte>, args: seq<PE.Word>, argLength: nat, argc: nat)
      requires Valid() && CanExec(table, pid, at, headers, file, args, argLength, argc)
      modifies this, table`heapEnd, table`stackFrames, table.mmu, table.mmu.phys.allocations
      ensures Valid() && Stepped(old(state), state, Action.Exec(pid, at, argLength))
    {
      ghost var before, after := state, state;
      Apart();
      after := ExecFor(table, pid, at, headers, file, args, argLength, argc, before);
      MoreInPlace(before.users, after.users, pid, vars, at);
      Become(vars[pid := at], after);
    }

    /** loader_spawn, and the start of the new program's allocator. */
    method Spawn(pid: int, current: nat, at: nat, headers: seq<EL.Phdr>, file: seq<Byte>, args: seq<PE.Word>, argLength: nat, argc: nat)
      requires Valid() && CanSpawn(table, pid, current, at, headers, file, args, argLength, argc)
      modifies this, table, table.mmu, table.mmu.phys.allocations
      ensures Valid() && Stepped(old(state), state, Action.Spawn(pid, at, argLength))
    {
      ghost var before, after := state, state;
      Apart();
      after := SpawnFor(table, pid, current, at, headers, file, args, argLength, argc, before);
      MoreInPlace(before.users, after.users, pid, vars, at);
      Become(vars[pid := at], after);
    }

    /** The state of the whole is what a step made of it. */
    method Become(vars': map<int, nat>, ghost after: Sys)
      requires table.Valid() && table.StacksOk() && AllAgree(after) && Is(table, after) && Running(after.users, vars')
      modifies this
      ensures Valid() && state == after
    {
      ghost var was := table.S();
      vars := vars';
      state := after;
      assert table.mmu.phys.Valid() && table.S() == was;
    }
  }

  lemma IsAllocated(s: Sys, s': Sys, pid: int, size: nat, n: nat, mid: CW.Images)
    requires Allocated(s, s', pid, size, n, mid)
    ensures Acts(s, s', Action.Allocate(pid, size))
  {
  }
}
