/** The allocators of all processes. An allocator has no state outside the memory of its process: its
    variables are words there, and its block list is what the header bytes in the heap's pages spell
    out. What each step keeps of that for every process, what every run keeps, and which stores of a
    program destroy it. */
module ProcessHeaps {
  import opened Machine
  import opened Runs
  import opened PageEntries
  import opened Bytes
  import opened HeapBlocks
  import opened HeapAllocator
  import opened CopyOnWrite
  import opened VirtualMemory

  const HEAP_START := 0x5000_0000

  /** An allocator: where its variables are, heap.start, the block list and the bytes from the bottom
      of the heap up to heap.end. */
  datatype User = User(vars: nat, start: nat, blocks: seq<Block>, mem: seq<Byte>) {
    function End(): nat { HEAP_START + |mem| }
    function Head(): nat { if blocks == [] then 0 else start }
  }

  /** What every process reads, the kernel's breaks in pages, and the allocators. */
  datatype Sys = Sys(seen: Images, brk: map<int, nat>, users: map<int, User>)

  datatype Action =
    | Spawn(pid: int, vars: nat, used: nat)
    | Exec(pid: int, vars: nat, used: nat)
    | Fork(parent: int, child: int)
    | Allocate(pid: int, size: nat)
    | Release(pid: int, block: nat)
    | Sbrk(pid: int, bytes: int)
    | Store(pid: int, page: int, offset: int, word: Word)
    | Destroy(pid: int)

  /** The four variables are below the heap; the bytes spell out a list that tiles it. */
  ghost predicate UserOk(u: User) {
    && u.vars % 4 == 0 && u.vars + 16 <= HEAP_START && |u.mem| % PAGE == 0
    && HEAP_START <= u.start <= u.End() < ADDRESSES
    && Tiled(u.blocks, u.start) && Represents(u.mem, HEAP_START, u.blocks)
  }

  // ----- bytes and words of a process -----

  ghost predicate ByteIs(image: Image, a: nat, b: Byte) {
    a / PAGE in image && ReadByte(image[a / PAGE], a % PAGE) == b
  }

  ghost predicate WordIs(image: Image, a: nat, v: nat) {
    a / PAGE in image && Encode(image[a / PAGE][a % PAGE / 4]) == v
  }

  /** The bytes of the heap as the process reads them. */
  ghost predicate HoldsBytes(image: Image, mem: seq<Byte>) {
    forall x :: 0 <= x < |mem| ==> ByteIs(image, HEAP_START + x, mem[x])
  }

  /** heap.start, heap.end and heap.head. */
  ghost predicate HoldsVars(image: Image, u: User) {
    WordIs(image, u.vars + 4, u.start) && WordIs(image, u.vars + 8, u.End()) && WordIs(image, u.vars + 12, u.Head())
  }

  /** The memory of the process is the allocator u. */
  ghost predicate Encodes(image: Image, u: User) {
    HoldsBytes(image, u.mem) && HoldsVars(image, u)
  }

  function WordAddr(p: int, j: int): int {
    p * PAGE + 4 * j
  }

  predicate InWord(a: int, p: int, j: int) {
    WordAddr(p, j) <= a < WordAddr(p, j) + 4
  }

  lemma InWordIff(a: nat, p: nat, j: nat)
    requires j < ENTRIES
    ensures InWord(a, p, j) <==> a / PAGE == p && a % PAGE / 4 == j
    ensures InWord(a, p, j) ==> a % PAGE % 4 == a - WordAddr(p, j)
  {
    var x := a % PAGE;
    assert a == a / PAGE * PAGE + x && x == x / 4 * 4 + x % 4;
  }

  // ----- agreement -----

  /** The memory of q is an allocator, which believes in no more memory than the kernel has mapped up
      to the break of q. */
  ghost predicate Agrees(s: Sys, q: int) {
    && q in s.users && q in s.brk && HeapIn(s.seen, q, s.brk[q])
    && UserOk(s.users[q]) && Encodes(s.seen[q], s.users[q]) && s.users[q].End() <= s.brk[q] * PAGE
  }

  ghost predicate AllAgree(s: Sys) {
    forall q :: q in s.users ==> Agrees(s, q)
  }

  /** The allocator of q and the kernel have the same end of the heap. */
  ghost predicate InStep(s: Sys, q: int) {
    q in s.users && q in s.brk && s.users[q].End() == s.brk[q] * PAGE
  }

  ghost predicate AllInStep(s: Sys) {
    forall q :: q in s.users ==> InStep(s, q)
  }

  // ----- steps -----

  /** The kernel mapped n pages at the break of pid. */
  ghost predicate Grew(r: Images, r': Images, brk: map<int, nat>, brk': map<int, nat>, pid: int, n: nat) {
    && pid in brk && brk[pid] + n <= LAST_PAGE
    && brk' == brk[pid := brk[pid] + n]
    && Laid(r, r', pid, Consecutive(brk[pid], n))
  }

  /** A word of the heap of u or one of its variables. */
  predicate OwnWord(u: User, p: int, j: int) {
    HEAP_START <= WordAddr(p, j) < u.End() || u.vars <= WordAddr(p, j) < u.vars + 16
  }

  /** Stores of pid changed nothing but words of the allocator u'. */
  ghost predicate Wrote(r: Images, r': Images, pid: int, u': User) {
    && pid in r && pid in r' && OthersSame(r, r', pid) && r'[pid].Keys == r[pid].Keys
    && (forall p, j :: p in r[pid] && 0 <= j < ENTRIES && !OwnWord(u', p, j) ==> r'[pid][p][j] == r[pid][p][j])
  }

  /** And they made the memory that allocator. */
  ghost predicate Rewrote(r: Images, r': Images, pid: int, u': User) {
    Wrote(r, r', pid, u') && Encodes(r'[pid], u')
  }

  ghost predicate OthersSame(r: Images, r': Images, pid: int) {
    r'.Keys == r.Keys && forall q :: q in r && q != pid ==> r'[q] == r[q]
  }

  /** What an allocation does to the allocator: the list is that of the value-level allocation, the
      bytes that it leaves alone are as they were, and the block handed out is zeroed. */
  ghost predicate Served(u: User, u': User, size: nat) {
    && u'.vars == u.vars && u'.start == u.start && u'.blocks == Malloc(u.blocks, u.start, size) && UserOk(u')
    && |u.mem| <= |u'.mem|
    && (forall x :: 0 <= x < |u.mem| && Untouched(u.blocks, u.start, size, HEAP_START + x) ==> u'.mem[x] == u.mem[x])
    && Zeroed(u', MallocIndex(u.blocks, size))
  }

  ghost predicate Zeroed(u: User, i: nat) {
    && i < |u.blocks| && HEAP_START <= u.blocks[i].addr && u.blocks[i].End() <= u.End()
    && forall x :: u.blocks[i].Payload() - HEAP_START <= x < u.blocks[i].End() - HEAP_START ==> u.mem[x] == 0
  }

  /** How many pages an allocation asks the kernel for. */
  function Growth(bs: seq<Block>, end: nat, size: nat): nat {
    if RoomFor(bs, end, size) then 0 else PagesFor(TotalSize(size))
  }

  /** The kernel maps n pages, unless there was room, and the process writes. */
  ghost predicate Allocated(s: Sys, s': Sys, pid: int, size: nat, n: nat, mid: Images) {
    && pid in s.users && pid in s'.users && s'.users == s.users[pid := s'.users[pid]]
    && Grew(s.seen, mid, s.brk, s'.brk, pid, n) && Rewrote(mid, s'.seen, pid, s'.users[pid])
    && Served(s.users[pid], s'.users[pid], size) && n == Growth(s.users[pid].blocks, s.users[pid].End(), size)
    && s'.users[pid].End() == if n == 0 then s.users[pid].End() else s'.brk[pid] * PAGE
  }

  /** One bit of one header. */
  ghost predicate Freed(u: User, u': User, k: nat) {
    && k < |u.blocks| && u' == u.(blocks := Free(u.blocks, k), mem := u'.mem) && UserOk(u') && |u'.mem| == |u.mem|
    && forall x :: 0 <= x < |u.mem| && HEAP_START + x != u.blocks[k].addr + 8 ==> u'.mem[x] == u.mem[x]
  }

  /** pid has a new allocator without blocks, whose heap is one page. */
  ghost predicate StartedUser(s: Sys, s': Sys, pid: int, vars: nat, used: nat) {
    && s'.brk == s.brk[pid := HEAP_PAGE + 1] && pid in s'.users && s'.users == s.users[pid := s'.users[pid]]
    && s'.users[pid] == User(vars, HEAP_START + used, [], s'.users[pid].mem) && |s'.users[pid].mem| == PAGE
  }

  /** A fresh address space for pid on top of r, whose heap is the argument page, and the variables
      of a new allocator behind the arguments; the argument page is as the kernel left it. */
  ghost predicate Started(s: Sys, s': Sys, r: Images, pid: int, vars: nat, used: nat) {
    && StartedUser(s, s', pid, vars, used) && UserOk(s'.users[pid])
    && exists mid: Images, pages: seq<PageInit> ::
         && Laid(r, mid, pid, pages) && Listed(pages, HEAP_PAGE)
         && HoldsBytes(mid[pid], s'.users[pid].mem) && Rewrote(mid, s'.seen, pid, s'.users[pid])
  }

  /** The byte at a, which was b, after a store of w to word j of page p. */
  function StoredByte(a: nat, b: Byte, p: int, j: int, w: Word): Byte {
    if InWord(a, p, j) then ByteOf(w, a - WordAddr(p, j)) else b
  }

  /** The heap after that store. */
  function StoredMem(mem: seq<Byte>, p: int, j: int, w: Word): (r: seq<Byte>)
    ensures |r| == |mem| && forall x :: 0 <= x < |mem| ==> r[x] == StoredByte(HEAP_START + x, mem[x], p, j, w)
  {
    seq<Byte>(|mem|, x requires 0 <= x < |mem| => StoredByte(HEAP_START + x, mem[x], p, j, w))
  }

  /** The word shares a byte with the header of b. */
  predicate MeetsHeader(b: Block, p: int, j: int) {
    WordAddr(p, j) < b.addr + HEADER && b.addr < WordAddr(p, j) + 4
  }

  ghost predicate HitsHeader(u: User, p: int, j: int) {
    exists k :: 0 <= k < |u.blocks| && MeetsHeader(u.blocks[k], p, j)
  }

  /** The word is one of the variables that the allocator reads. */
  predicate HitsVars(u: User, p: int, j: int) {
    u.vars + 4 <= WordAddr(p, j) < u.vars + 16
  }

  /** The word keeps the header of b: its size, its next field and its bit. */
  ghost predicate KeepsHeader(u: User, b: Block, p: int, j: int, w: Word) {
    && HEAP_START <= b.addr && b.addr + HEADER <= u.End()
    && HeaderAt(StoredMem(u.mem, p, j, w), b.addr - HEAP_START) == HeaderAt(u.mem, b.addr - HEAP_START)
  }

  /** The word is not the variable at a, or is the value that this has already. */
  predicate KeepsVar(a: nat, v: nat, p: int, j: int, w: Word) {
    WordAddr(p, j) == a ==> Encode(w) == v
  }

  predicate KeepsVars(u: User, p: int, j: int, w: Word) {
    KeepsVar(u.vars + 4, u.start, p, j, w) && KeepsVar(u.vars + 8, u.End(), p, j, w) && KeepsVar(u.vars + 12, u.Head(), p, j, w)
  }

  ghost predicate Harmless(u: User, p: int, j: int, w: Word) {
    KeepsVars(u, p, j, w) && forall k :: 0 <= k < |u.blocks| ==> KeepsHeader(u, u.blocks[k], p, j, w)
  }

  /** A store that changes a header or a variable ends the allocator of its process: from there on
      nothing is said about it, and what its functions do to the memory is more stores and calls of
      sbrk. */
  ghost function AfterStore(users: map<int, User>, pid: int, p: int, j: int, w: Word): map<int, User> {
    if pid !in users then users
    else if Harmless(users[pid], p, j, w) then users[pid := users[pid].(mem := StoredMem(users[pid].mem, p, j, w))]
    else users - {pid}
  }

  ghost predicate Acts(s: Sys, s': Sys, act: Action) {
    match act
    case Spawn(pid, vars, used) => pid !in s.seen && pid !in s.users && Started(s, s', Eager(s.seen, Step.Create(pid)), pid, vars, used)
    case Exec(pid, vars, used) => pid in s.seen && Started(s, s', Eager(s.seen, Step.Clear(pid)), pid, vars, used)
    case Fork(parent, child) =>
      && parent in s.seen && parent in s.brk && child !in s.seen && child !in s.users && s'.seen == Eager(s.seen, Step.Fork(parent, child))
      && s'.brk == s.brk[child := s.brk[parent]]
      && s'.users == if parent in s.users then s.users[child := s.users[parent]] else s.users
    case Allocate(pid, size) => exists n: nat, mid: Images :: Allocated(s, s', pid, size, n, mid)
    case Release(pid, k) =>
      && s'.brk == s.brk && pid in s.users && pid in s'.users && s'.users == s.users[pid := s'.users[pid]]
      && Freed(s.users[pid], s'.users[pid], k) && Rewrote(s.seen, s'.seen, pid, s'.users[pid])
    case Sbrk(pid, bytes) => Grew(s.seen, s'.seen, s.brk, s'.brk, pid, PagesFor(bytes)) && s'.users == s.users
    case Store(pid, p, j, w) =>
      && 0 <= p && 0 <= j < ENTRIES && s'.seen == Eager(s.seen, Step.Write(pid, p, j, w)) && s'.brk == s.brk
      && s'.users == AfterStore(s.users, pid, p, j, w)
    case Destroy(pid) =>
      s'.seen == Eager(s.seen, Step.Destroy(pid)) && s'.brk == s.brk - {pid} && s'.users == s.users - {pid}
  }

  // ----- a store into the memory of the process -----

  function StoredIn(image: Image, p: int, j: int, w: Word): Image
    requires p in image && 0 <= j < ENTRIES
  {
    WithPage(image, p, WithEntry(image[p], j, w))
  }

  lemma ByteAfterStore(image: Image, p: nat, j: nat, w: Word, a: nat, b: Byte)
    requires p in image && j < ENTRIES && ByteIs(image, a, b)
    ensures ByteIs(StoredIn(image, p, j, w), a, StoredByte(a, b, p, j, w))
  {
    InWordIff(a, p, j);
    if a / PAGE == p {
      ReadAfterStore(image[p], j, w, a % PAGE);
    }
  }

  lemma WordAfterStore(image: Image, p: nat, j: nat, w: Word, a: nat, v: nat)
    requires p in image && j < ENTRIES && WordIs(image, a, v) && a % 4 == 0
    ensures WordIs(StoredIn(image, p, j, w), a, if a == WordAddr(p, j) then Encode(w) else v)
  {
    InWordIff(a, p, j);
  }

  /** A store is seen in the bytes of the heap. */
  lemma BytesAfterStore(image: Image, mem: seq<Byte>, p: nat, j: nat, w: Word)
    requires p in image && j < ENTRIES && HoldsBytes(image, mem)
    ensures HoldsBytes(StoredIn(image, p, j, w), StoredMem(mem, p, j, w))
  {
    forall x | 0 <= x < |mem| ensures ByteIs(StoredIn(image, p, j, w), HEAP_START + x, StoredMem(mem, p, j, w)[x]) {
      ByteAfterStore(image, p, j, w, HEAP_START + x, mem[x]);
    }
  }

  lemma VarsAfterStore(image: Image, u: User, p: nat, j: nat, w: Word)
    requires p in image && j < ENTRIES && HoldsVars(image, u) && u.vars % 4 == 0 && KeepsVars(u, p, j, w)
    ensures HoldsVars(StoredIn(image, p, j, w), u)
  {
    WordAfterStore(image, p, j, w, u.vars + 4, u.start);
    WordAfterStore(image, p, j, w, u.vars + 8, u.End());
    WordAfterStore(image, p, j, w, u.vars + 12, u.Head());
  }

  /** Headers that a store keeps still spell out the list. */
  lemma ListAfterStore(u: User, p: nat, j: nat, w: Word)
    requires UserOk(u) && Harmless(u, p, j, w)
    ensures UserOk(u.(mem := StoredMem(u.mem, p, j, w)))
  {
    var m := StoredMem(u.mem, p, j, w);
    forall k | 0 <= k < |u.blocks| ensures Represented(m, HEAP_START, u.blocks, k) {
      assert Represented(u.mem, HEAP_START, u.blocks, k) && KeepsHeader(u, u.blocks[k], p, j, w);
    }
  }

  // ----- an allocator writes -----

  /** Stores of pid changed nothing but words of its heap up to end. */
  ghost predicate WroteHeap(r: Images, r': Images, pid: int, end: nat) {
    && pid in r && pid in r' && OthersSame(r, r', pid) && r'[pid].Keys == r[pid].Keys
    && forall p, j :: p in r[pid] && 0 <= j < ENTRIES && !(HEAP_START <= WordAddr(p, j) < end) ==> r'[pid][p][j] == r[pid][p][j]
  }

  lemma WroteNone(r: Images, pid: int, end: nat)
    requires pid in r
    ensures WroteHeap(r, r, pid, end)
  {
  }

  lemma WroteHeapMore(r0: Images, r: Images, pid: int, end: nat, p: nat, j: nat, w: Word)
    requires WroteHeap(r0, r, pid, end) && p in r[pid] && j < ENTRIES && HEAP_START <= WordAddr(p, j) < end
    ensures var r' := Eager(r, Step.Write(pid, p, j, w)); pid in r' && r'[pid] == StoredIn(r[pid], p, j, w) && WroteHeap(r0, r', pid, end)
  {
  }

  /** A word below the heap is as it was. */
  lemma WordBelow(r: Images, r': Images, pid: int, end: nat, a: nat, v: nat)
    requires WroteHeap(r, r', pid, end) && a % 4 == 0 && a < HEAP_START
    ensures WordIs(r[pid], a, v) ==> WordIs(r'[pid], a, v)
  {
    WordAddrOf(a);
  }

  lemma WroteMore(r0: Images, r: Images, pid: int, u: User, p: nat, j: nat, w: Word)
    requires Wrote(r0, r, pid, u) && p in r[pid] && j < ENTRIES && OwnWord(u, p, j)
    ensures var r' := Eager(r, Step.Write(pid, p, j, w)); pid in r' && r'[pid] == StoredIn(r[pid], p, j, w) && Wrote(r0, r', pid, u)
  {
  }

  /** The first n bytes of the heap are those of mem, the others still those of was. */
  ghost predicate Partly(image: Image, mem: seq<Byte>, was: seq<Byte>, n: nat) {
    |mem| == |was| && forall x :: 0 <= x < |mem| ==> ByteIs(image, HEAP_START + x, if x < n then mem[x] else was[x])
  }

  /** The word of the heap that starts at byte 4 * k. */
  function HeapWord(mem: seq<Byte>, k: nat): Word
    requires 4 * k + 4 <= |mem|
  {
    WordOf(mem[4 * k], mem[4 * k + 1], mem[4 * k + 2], mem[4 * k + 3])
  }

  function HeapWordPage(k: nat): nat { (HEAP_START + 4 * k) / PAGE }
  function HeapWordOffset(k: nat): nat { (HEAP_START + 4 * k) % PAGE / 4 }

  lemma HeapWordAddr(k: nat)
    ensures HeapWordOffset(k) < ENTRIES && WordAddr(HeapWordPage(k), HeapWordOffset(k)) == HEAP_START + 4 * k
  {
  }

  lemma ByteOfHeapWord(mem: seq<Byte>, k: nat, i: nat)
    requires 4 * k + 4 <= |mem| && i < 4
    ensures ByteOf(HeapWord(mem, k), i) == mem[4 * k + i]
  {
    ByteOfWord(mem[4 * k], mem[4 * k + 1], mem[4 * k + 2], mem[4 * k + 3], i);
  }

  lemma PartlyMore(image: Image, mem: seq<Byte>, was: seq<Byte>, k: nat)
    requires Partly(image, mem, was, 4 * k) && 4 * k + 4 <= |mem| && HeapWordPage(k) in image && HeapWordOffset(k) < ENTRIES
    ensures Partly(StoredIn(image, HeapWordPage(k), HeapWordOffset(k), HeapWord(mem, k)), mem, was, 4 * k + 4)
  {
    var p, j, w := HeapWordPage(k), HeapWordOffset(k), HeapWord(mem, k);
    HeapWordAddr(k);
    forall x | 0 <= x < |mem| ensures ByteIs(StoredIn(image, p, j, w), HEAP_START + x, if x < 4 * k + 4 then mem[x] else was[x]) {
      ByteAfterStore(image, p, j, w, HEAP_START + x, if x < 4 * k then mem[x] else was[x]);
      if 4 * k <= x < 4 * k + 4 {
        ByteOfHeapWord(mem, k, x - 4 * k);
      }
    }
  }

  /** Where the word is not there yet, a byte differs. */
  lemma WordDiffers(image: Image, mem: seq<Byte>, was: seq<Byte>, k: nat) returns (x: nat)
    requires Partly(image, mem, was, 4 * k) && 4 * k + 4 <= |mem| && HeapWordPage(k) in image && HeapWordOffset(k) < ENTRIES
    requires image[HeapWordPage(k)][HeapWordOffset(k)] != HeapWord(mem, k)
    ensures 4 * k <= x < 4 * k + 4 && mem[x] != was[x] && (HEAP_START + x) / PAGE == HeapWordPage(k)
  {
    var p, j := HeapWordPage(k), HeapWordOffset(k);
    HeapWordAddr(k);
    x := 4 * k;
    while x < 4 * k + 4 && mem[x] == was[x]
      invariant 4 * k <= x <= 4 * k + 4 && forall y :: 4 * k <= y < x ==> mem[y] == was[y]
    {
      x := x + 1;
    }
    if x == 4 * k + 4 {
      SameWord(image, mem, was, k);
      assert false;
    }
    InWordIff(HEAP_START + x, p, j);
  }

  lemma SameWord(image: Image, mem: seq<Byte>, was: seq<Byte>, k: nat)
    requires Partly(image, mem, was, 4 * k) && 4 * k + 4 <= |mem| && HeapWordPage(k) in image && HeapWordOffset(k) < ENTRIES
    requires forall y :: 4 * k <= y < 4 * k + 4 ==> mem[y] == was[y]
    ensures image[HeapWordPage(k)][HeapWordOffset(k)] == HeapWord(mem, k)
  {
    var p, j := HeapWordPage(k), HeapWordOffset(k);
    HeapWordAddr(k);
    forall i | 0 <= i < 4 ensures ByteOf(image[p][j], i) == mem[4 * k + i] {
      var a := HEAP_START + (4 * k + i);
      InWordIff(a, p, j);
      assert ByteIs(image, a, was[4 * k + i]);
    }
    WordOfBytes(image[p][j]);
  }

  /** A variable of the allocator, which lies below the heap, gets a new value. */
  lemma VarStored(image: Image, mem: seq<Byte>, a: nat, v: nat, b: nat, x: nat)
    requires a % 4 == 0 && a + 4 <= HEAP_START && a / PAGE in image && v < ADDRESSES && HoldsBytes(image, mem)
    ensures a % PAGE / 4 < ENTRIES && WordAddr(a / PAGE, a % PAGE / 4) == a
    ensures var image' := StoredIn(image, a / PAGE, a % PAGE / 4, Decode(v));
            && HoldsBytes(image', mem) && WordIs(image', a, v)
            && (b % 4 == 0 && b != a && WordIs(image, b, x) ==> WordIs(image', b, x))
  {
    var p, j, w := a / PAGE, a % PAGE / 4, Decode(v);
    EncodeAfterDecode(v);
    WordAddrOf(a);
    WordAfterStore(image, p, j, w, a, Encode(image[p][j]));
    if b % 4 == 0 && b != a && WordIs(image, b, x) {
      WordAfterStore(image, p, j, w, b, x);
    }
    BytesAfterStore(image, mem, p, j, w);
    assert StoredMem(mem, p, j, w) == mem;
  }

  lemma WordAddrOf(a: nat)
    requires a % 4 == 0
    ensures a % PAGE / 4 < ENTRIES && WordAddr(a / PAGE, a % PAGE / 4) == a
  {
    var x := a % PAGE;
    assert a == a / PAGE * PAGE + x && x % 4 == 0;
  }

  // ----- which stores destroy an allocator -----

  /** The memory is still this allocator, with whatever bytes in its heap. */
  ghost predicate StillThere(image: Image, u: User) {
    exists m: seq<Byte> :: |m| == |u.mem| && UserOk(u.(mem := m)) && Encodes(image, u.(mem := m))
  }

  /** A store leaves the allocator there if and only if it keeps every header and every variable. */
  lemma HarmlessIff(image: Image, u: User, p: nat, j: nat, w: Word)
    requires UserOk(u) && Encodes(image, u) && p in image && j < ENTRIES
    ensures Harmless(u, p, j, w) <==> StillThere(StoredIn(image, p, j, w), u)
  {
    if Harmless(u, p, j, w) {
      HarmlessKeeps(image, u, p, j, w);
    }
    if StillThere(StoredIn(image, p, j, w), u) {
      ThereHarmless(image, u, p, j, w);
    }
  }

  lemma HarmlessKeeps(image: Image, u: User, p: nat, j: nat, w: Word)
    requires UserOk(u) && Encodes(image, u) && p in image && j < ENTRIES && Harmless(u, p, j, w)
    ensures var u' := u.(mem := StoredMem(u.mem, p, j, w)); UserOk(u') && Encodes(StoredIn(image, p, j, w), u')
    ensures StillThere(StoredIn(image, p, j, w), u)
  {
    var image', m := StoredIn(image, p, j, w), StoredMem(u.mem, p, j, w);
    ListAfterStore(u, p, j, w);
    BytesAfterStore(image, u.mem, p, j, w);
    VarsAfterStore(image, u, p, j, w);
    IsStillThere(image', u, m);
  }

  lemma IsStillThere(image: Image, u: User, m: seq<Byte>)
    requires |m| == |u.mem| && UserOk(u.(mem := m)) && HoldsBytes(image, m) && HoldsVars(image, u)
    ensures Encodes(image, u.(mem := m)) && StillThere(image, u)
  {
    assert HoldsVars(image, u.(mem := m));
  }

  lemma ThereHarmless(image: Image, u: User, p: nat, j: nat, w: Word)
    requires UserOk(u) && Encodes(image, u) && p in image && j < ENTRIES && StillThere(StoredIn(image, p, j, w), u)
    ensures Harmless(u, p, j, w)
  {
    var m := ThereMem(StoredIn(image, p, j, w), u);
    ThereStored(image, u.mem, p, j, w, m);
    ThereHeaders(u, p, j, w);
    ThereVars(image, u, p, j, w);
  }

  lemma ThereMem(image: Image, u: User) returns (m: seq<Byte>)
    requires StillThere(image, u)
    ensures |m| == |u.mem| && UserOk(u.(mem := m)) && HoldsBytes(image, m) && HoldsVars(image, u)
  {
    m :| |m| == |u.mem| && UserOk(u.(mem := m)) && Encodes(image, u.(mem := m));
    assert HoldsVars(image, u.(mem := m));
  }

  lemma ThereStored(image: Image, mem: seq<Byte>, p: nat, j: nat, w: Word, m: seq<Byte>)
    requires p in image && j < ENTRIES && HoldsBytes(image, mem) && HoldsBytes(StoredIn(image, p, j, w), m) && |m| == |mem|
    ensures m == StoredMem(mem, p, j, w)
  {
    BytesAfterStore(image, mem, p, j, w);
    SameBytes(StoredIn(image, p, j, w), m, StoredMem(mem, p, j, w));
  }

  lemma ThereHeaders(u: User, p: nat, j: nat, w: Word)
    requires UserOk(u) && UserOk(u.(mem := StoredMem(u.mem, p, j, w)))
    ensures forall k :: 0 <= k < |u.blocks| ==> KeepsHeader(u, u.blocks[k], p, j, w)
  {
    forall k | 0 <= k < |u.blocks| ensures KeepsHeader(u, u.blocks[k], p, j, w) {
      assert Represented(u.mem, HEAP_START, u.blocks, k) && Represented(StoredMem(u.mem, p, j, w), HEAP_START, u.blocks, k);
    }
  }

  lemma ThereVars(image: Image, u: User, p: nat, j: nat, w: Word)
    requires p in image && j < ENTRIES && u.vars % 4 == 0 && HoldsVars(image, u) && HoldsVars(StoredIn(image, p, j, w), u)
    ensures KeepsVars(u, p, j, w)
  {
    WordAfterStore(image, p, j, w, u.vars + 4, u.start);
    WordAfterStore(image, p, j, w, u.vars + 8, u.End());
    WordAfterStore(image, p, j, w, u.vars + 12, u.Head());
  }

  /** So a store is safe whatever it writes if and only if its word meets no header and is none of the
      variables. */
  lemma AnyWordIff(image: Image, u: User, p: nat, j: nat)
    requires UserOk(u) && Encodes(image, u) && p in image && j < ENTRIES
    ensures !HitsHeader(u, p, j) && !HitsVars(u, p, j) <==> forall w: Word :: Harmless(u, p, j, w)
  {
    if HitsVars(u, p, j) {
      VarLost(image, u, p, j);
      var w: Word :| !KeepsVars(u, p, j, w);
      assert !Harmless(u, p, j, w);
    } else if HitsHeader(u, p, j) {
      var k :| 0 <= k < |u.blocks| && MeetsHeader(u.blocks[k], p, j);
      HeaderLost(image, u, p, j, k);
    } else {
      forall w: Word ensures Harmless(u, p, j, w) {
        MissesAll(u, p, j, w);
      }
    }
  }

  lemma MissesAll(u: User, p: nat, j: nat, w: Word)
    requires UserOk(u) && !HitsHeader(u, p, j) && !HitsVars(u, p, j)
    ensures Harmless(u, p, j, w)
  {
    forall k | 0 <= k < |u.blocks| ensures KeepsHeader(u, u.blocks[k], p, j, w) {
      assert Represented(u.mem, HEAP_START, u.blocks, k) && !MeetsHeader(u.blocks[k], p, j);
      HeaderFrame(u.mem, StoredMem(u.mem, p, j, w), u.blocks[k].addr - HEAP_START);
    }
  }

  /** What a program is free to do: a store that changes no byte but such of one block's payload is
      harmless, also where its word reaches into a header. */
  lemma PayloadHarmless(image: Image, u: User, p: nat, j: nat, w: Word, b: nat)
    requires UserOk(u) && Encodes(image, u) && p in image && j < ENTRIES && b < |u.blocks|
    requires ChangesOnly(image[p][j], w, WordAddr(p, j), u.blocks[b])
    ensures Harmless(u, p, j, w)
  {
    forall k | 0 <= k < |u.blocks| ensures KeepsHeader(u, u.blocks[k], p, j, w) {
      PayloadKeepsHeader(image, u, p, j, w, b, k);
    }
    assert Represented(u.mem, HEAP_START, u.blocks, b);
    PayloadKeepsVars(image, u, p, j, w, b);
  }

  /** The bytes at a in which two words differ are payload of b. */
  ghost predicate ChangesOnly(was: Word, w: Word, a: int, b: Block) {
    forall i :: 0 <= i < 4 && ByteOf(w, i) != ByteOf(was, i) ==> b.Payload() <= a + i < b.End()
  }

  lemma PayloadKeepsHeader(image: Image, u: User, p: nat, j: nat, w: Word, b: nat, k: nat)
    requires UserOk(u) && HoldsBytes(image, u.mem) && p in image && j < ENTRIES && b < |u.blocks| && k < |u.blocks|
    requires ChangesOnly(image[p][j], w, WordAddr(p, j), u.blocks[b])
    ensures KeepsHeader(u, u.blocks[k], p, j, w)
  {
    assert Represented(u.mem, HEAP_START, u.blocks, k);
    var at := u.blocks[k].addr - HEAP_START;
    forall x | at <= x < at + HEADER ensures StoredMem(u.mem, p, j, w)[x] == u.mem[x] {
      HeaderNoPayload(u, b, k, HEAP_START + x);
      SameByte(image, u.mem, p, j, w, x);
    }
    HeaderFrame(u.mem, StoredMem(u.mem, p, j, w), at);
  }

  lemma PayloadKeepsVars(image: Image, u: User, p: nat, j: nat, w: Word, b: nat)
    requires u.vars % 4 == 0 && u.vars + 16 <= HEAP_START && HoldsVars(image, u) && p in image && j < ENTRIES && b < |u.blocks|
    requires HEAP_START <= u.blocks[b].addr && ChangesOnly(image[p][j], w, WordAddr(p, j), u.blocks[b])
    ensures KeepsVars(u, p, j, w)
  {
    if HitsVars(u, p, j) {
      VarAddr(u.vars, p, j);
      SameWords(w, image[p][j]);
      InWordIff(WordAddr(p, j), p, j);
    }
  }

  lemma SameWords(w: Word, v: Word)
    requires forall i :: 0 <= i < 4 ==> ByteOf(w, i) == ByteOf(v, i)
    ensures w == v
  {
    WordOfBytes(w);
    WordOfBytes(v);
  }

  /** A byte of the heap that the word has already. */
  lemma SameByte(image: Image, mem: seq<Byte>, p: nat, j: nat, w: Word, x: nat)
    requires p in image && j < ENTRIES && HoldsBytes(image, mem) && x < |mem|
    requires var i := HEAP_START + x - WordAddr(p, j); 0 <= i < 4 ==> ByteOf(w, i) == ByteOf(image[p][j], i)
    ensures StoredMem(mem, p, j, w)[x] == mem[x]
  {
    InWordIff(HEAP_START + x, p, j);
    assert ByteIs(image, HEAP_START + x, mem[x]);
  }

  /** A byte of one header lies in no payload. */
  lemma HeaderNoPayload(u: User, b: nat, k: nat, x: nat)
    requires UserOk(u) && b < |u.blocks| && k < |u.blocks| && u.blocks[k].addr <= x < u.blocks[k].Payload()
    ensures !(u.blocks[b].Payload() <= x < u.blocks[b].End())
  {
    if b < k {
      TiledOrder(u.blocks, u.start, b, k);
    } else if k < b {
      TiledOrder(u.blocks, u.start, k, b);
    }
  }

  /** Another value in a variable. */
  lemma VarLost(image: Image, u: User, p: nat, j: nat)
    requires u.vars % 4 == 0 && HoldsVars(image, u) && p in image && j < ENTRIES && HitsVars(u, p, j)
    ensures exists w: Word :: !KeepsVars(u, p, j, w)
  {
    var was := image[p][j];
    VarAddr(u.vars, p, j);
    InWordIff(WordAddr(p, j), p, j);
    var w := was.(present := !was.present);
    assert Encode(w) != Encode(was);
    assert !KeepsVars(u, p, j, w);
  }

  lemma VarAddr(vars: nat, p: nat, j: nat)
    requires vars % 4 == 0 && vars + 4 <= WordAddr(p, j) < vars + 16
    ensures WordAddr(p, j) % 4 == 0 && (WordAddr(p, j) == vars + 4 || WordAddr(p, j) == vars + 8 || WordAddr(p, j) == vars + 12)
  {
  }

  function Flip(b: Byte): Byte {
    if b % 2 == 0 then b + 1 else b - 1
  }

  /** A header with one byte flipped is another header. */
  lemma HeaderDiffers(m: seq<Byte>, m': seq<Byte>, at: nat, i: nat)
    requires at + HEADER <= |m| && |m'| == |m| && i < HEADER
    requires forall x :: at <= x < at + HEADER ==> m'[x] == if x == at + i then Flip(m[x]) else m[x]
    ensures HeaderAt(m', at) != HeaderAt(m, at)
  {
    if i < 4 {
      assert Word32(m', at) != Word32(m, at);
    } else if i < 8 {
      assert Word32(m', at + 4) != Word32(m, at + 4);
    }
  }

  /** The same word but for one flipped byte. */
  function Flipped(w: Word, i: nat): Word
    requires i < 4
  {
    WordOf(if i == 0 then Flip(ByteOf(w, 0)) else ByteOf(w, 0), if i == 1 then Flip(ByteOf(w, 1)) else ByteOf(w, 1),
           if i == 2 then Flip(ByteOf(w, 2)) else ByteOf(w, 2), if i == 3 then Flip(ByteOf(w, 3)) else ByteOf(w, 3))
  }

  lemma ByteOfFlipped(w: Word, i: nat, k: nat)
    requires i < 4 && k < 4
    ensures ByteOf(Flipped(w, i), k) == if k == i then Flip(ByteOf(w, k)) else ByteOf(w, k)
  {
    ByteOfWord(if i == 0 then Flip(ByteOf(w, 0)) else ByteOf(w, 0), if i == 1 then Flip(ByteOf(w, 1)) else ByteOf(w, 1),
               if i == 2 then Flip(ByteOf(w, 2)) else ByteOf(w, 2), if i == 3 then Flip(ByteOf(w, 3)) else ByteOf(w, 3), k);
  }

  /** Flipping byte i of the word flips the byte at its address and no other. */
  lemma FlipInHeap(image: Image, mem: seq<Byte>, p: nat, j: nat, i: nat, x: nat)
    requires p in image && j < ENTRIES && i < 4 && HoldsBytes(image, mem) && x < |mem|
    ensures StoredMem(mem, p, j, Flipped(image[p][j], i))[x] == if HEAP_START + x == WordAddr(p, j) + i then Flip(mem[x]) else mem[x]
  {
    var a := HEAP_START + x;
    InWordIff(a, p, j);
    assert ByteIs(image, a, mem[x]);
    if InWord(a, p, j) {
      ByteOfFlipped(image[p][j], i, a - WordAddr(p, j));
    }
  }

  /** What a process reads determines the bytes. */
  lemma SameBytes(image: Image, m: seq<Byte>, m': seq<Byte>)
    requires HoldsBytes(image, m) && HoldsBytes(image, m') && |m| == |m'|
    ensures m == m'
  {
    forall x | 0 <= x < |m| ensures m[x] == m'[x] {
      assert ByteIs(image, HEAP_START + x, m[x]) && ByteIs(image, HEAP_START + x, m'[x]);
    }
  }

  lemma HeaderLost(image: Image, u: User, p: nat, j: nat, k: nat)
    requires UserOk(u) && Encodes(image, u) && p in image && j < ENTRIES && k < |u.blocks| && MeetsHeader(u.blocks[k], p, j)
    ensures exists w: Word :: !Harmless(u, p, j, w)
  {
    var b := u.blocks[k];
    assert Represented(u.mem, HEAP_START, u.blocks, k);
    var a := if WordAddr(p, j) < b.addr then b.addr else WordAddr(p, j);
    var i, at := a - WordAddr(p, j), b.addr - HEAP_START;
    var w := Flipped(image[p][j], i);
    var m' := StoredMem(u.mem, p, j, w);
    forall x | 0 <= x < |u.mem| ensures m'[x] == if x == a - HEAP_START then Flip(u.mem[x]) else u.mem[x] {
      FlipInHeap(image, u.mem, p, j, i, x);
    }
    HeaderDiffers(u.mem, m', at, a - b.addr);
    assert !KeepsHeader(u, b, p, j, w);
    assert !Harmless(u, p, j, w);
  }

  lemma WordOfMem(m: seq<Byte>, i: nat, w: Word)
    requires i + 4 <= |m| && forall k :: 0 <= k < 4 ==> m[i + k] == ByteOf(w, k)
    ensures Word32(m, i) == Encode(w)
  {
    assert m[i + 0] == ByteOf(w, 0) && m[i + 1] == ByteOf(w, 1) && m[i + 2] == ByteOf(w, 2) && m[i + 3] == ByteOf(w, 3);
    EncodeOfBytes(w);
  }

  /** Another size in the first header, and no list of blocks that tile the heap is spelled out any
      more: the next header is not where the first block ends. */
  lemma SizeStoreLosesAll(u: User, p: nat, j: nat, w: Word, bs: seq<Block>)
    requires UserOk(u) && |u.blocks| >= 2 && WordAddr(p, j) == u.start && Encode(w) != u.blocks[0].size
    requires bs != [] && Tiled(bs, u.start)
    ensures !Represents(StoredMem(u.mem, p, j, w), HEAP_START, bs)
  {
    FirstHeaderStored(u, p, j, w);
    NotTiled(StoredMem(u.mem, p, j, w), u.start, bs);
    assert !Represented(StoredMem(u.mem, p, j, w), HEAP_START, bs, 0);
  }

  lemma FirstHeaderStored(u: User, p: nat, j: nat, w: Word)
    requires UserOk(u) && |u.blocks| >= 2 && WordAddr(p, j) == u.start
    ensures u.start + HEADER <= u.End()
    ensures var h := HeaderAt(StoredMem(u.mem, p, j, w), u.start - HEAP_START); h.size == Encode(w) && h.next == u.blocks[1].addr
  {
    var m, at := StoredMem(u.mem, p, j, w), u.start - HEAP_START;
    assert Represented(u.mem, HEAP_START, u.blocks, 0);
    forall k | 0 <= k < 4 ensures m[at + k] == ByteOf(w, k) {
    }
    WordOfMem(m, at, w);
    assert Word32(m, at + 4) == Word32(u.mem, at + 4);
  }

  /** A header whose next field is not where its block ends is the first of no tiling. */
  lemma NotTiled(m: seq<Byte>, start: nat, bs: seq<Block>)
    requires HEAP_START <= start && start + HEADER <= HEAP_START + |m| && bs != [] && Tiled(bs, start)
    requires var h := HeaderAt(m, start - HEAP_START); h.next != 0 && h.next != start + HEADER + h.size
    ensures !Represented(m, HEAP_START, bs, 0)
  {
    if |bs| > 1 {
      assert bs[0 + 1].addr == bs[0].End();
    }
  }

  // ----- every step keeps it for every process -----

  /** Agreement rests on what the process reads, its break and its allocator alone. */
  lemma AgreesFrame(s: Sys, s': Sys, q: int)
    requires Agrees(s, q) && q in s'.users && s'.users[q] == s.users[q] && q in s'.brk && s'.brk[q] == s.brk[q]
    requires q in s'.seen && s'.seen[q] == s.seen[q]
    ensures Agrees(s', q)
  {
  }

  /** Pages mapped above its heap change nothing of an allocator. */
  lemma LaidEncodes(r: Images, r': Images, pid: int, pages: seq<PageInit>, u: User, end: nat)
    requires Laid(r, r', pid, pages) && Encodes(r[pid], u) && u.vars + 16 <= HEAP_START <= u.End() <= end * PAGE
    requires forall p :: Listed(pages, p) ==> end <= p
    ensures Encodes(r'[pid], u)
  {
    forall x | 0 <= x < |u.mem| ensures ByteIs(r'[pid], HEAP_START + x, u.mem[x]) {
      assert ByteIs(r[pid], HEAP_START + x, u.mem[x]);
      BelowEnd(HEAP_START + x, end);
    }
    BelowEnd(u.vars + 4, end);
    BelowEnd(u.vars + 8, end);
    BelowEnd(u.vars + 12, end);
  }

  lemma BelowEnd(a: nat, end: nat)
    requires a < end * PAGE
    ensures a / PAGE < end
  {
  }

  /** So does growth at the break. */
  lemma GrewEncodes(r: Images, r': Images, brk: map<int, nat>, brk': map<int, nat>, pid: int, n: nat, u: User)
    requires Grew(r, r', brk, brk', pid, n) && pid in r && Encodes(r[pid], u)
    requires u.vars + 16 <= HEAP_START <= u.End() <= brk[pid] * PAGE
    ensures pid in r' && Encodes(r'[pid], u)
  {
    LaidEncodes(r, r', pid, Consecutive(brk[pid], n), u, brk[pid]);
  }

  lemma GrewKeeps(s: Sys, s': Sys, pid: int, n: nat, q: int)
    requires Grew(s.seen, s'.seen, s.brk, s'.brk, pid, n) && Agrees(s, q) && q in s'.users && s'.users[q] == s.users[q]
    ensures Agrees(s', q)
  {
    var pages := Consecutive(s.brk[pid], n);
    LaidKeepsHeaps(s.seen, s'.seen, pid, pages, q, s.brk[q]);
    if q == pid {
      LaidConsecutive(s.seen, s'.seen, pid, s.brk[pid], n);
      LaidEncodes(s.seen, s'.seen, pid, pages, s.users[q], s.brk[q]);
    }
  }

  lemma RewroteHeap(r: Images, r': Images, pid: int, u: User, q: int, end: nat)
    requires Rewrote(r, r', pid, u) && HeapIn(r, q, end)
    ensures HeapIn(r', q, end)
  {
  }

  lemma AllocatedKeeps(s: Sys, s': Sys, pid: int, size: nat, n: nat, mid: Images, q: int)
    requires AllAgree(s) && Allocated(s, s', pid, size, n, mid) && q in s'.users
    ensures Agrees(s', q)
  {
    var t := Sys(mid, s'.brk, s.users);
    assert Agrees(s, q);
    GrewKeeps(s, t, pid, n, q);
    RewroteHeap(mid, s'.seen, pid, s'.users[pid], q, s'.brk[q]);
    if q != pid {
      AgreesFrame(t, s', q);
    }
  }

  lemma ForkKeeps(s: Sys, s': Sys, parent: int, child: int, q: int)
    requires AllAgree(s) && Acts(s, s', Action.Fork(parent, child)) && q in s'.users
    ensures Agrees(s', q)
  {
    assert Agrees(s, if q == child then parent else q);
  }

  lemma ReleaseKeeps(s: Sys, s': Sys, pid: int, k: nat, q: int)
    requires AllAgree(s) && Acts(s, s', Action.Release(pid, k)) && q in s'.users
    ensures Agrees(s', q)
  {
    assert Agrees(s, q);
    RewroteHeap(s.seen, s'.seen, pid, s'.users[pid], q, s.brk[q]);
  }

  lemma StartedKeeps(s: Sys, s': Sys, r: Images, pid: int, vars: nat, used: nat, q: int)
    requires Started(s, s', r, pid, vars, used) && q in s'.users
    requires q != pid ==> Agrees(s, q) && q in r && r[q] == s.seen[q]
    ensures Agrees(s', q)
  {
    var mid: Images, pages: seq<PageInit> :|
      && Laid(r, mid, pid, pages) && Listed(pages, HEAP_PAGE)
      && HoldsBytes(mid[pid], s'.users[pid].mem) && Rewrote(mid, s'.seen, pid, s'.users[pid]);
    if q != pid {
      AgreesFrame(s, s', q);
    } else {
      FreshAgrees(r, mid, s', pid, pages);
    }
  }

  lemma FreshAgrees(r: Images, mid: Images, s': Sys, pid: int, pages: seq<PageInit>)
    requires Laid(r, mid, pid, pages) && Listed(pages, HEAP_PAGE) && pid in s'.users && Rewrote(mid, s'.seen, pid, s'.users[pid])
    requires pid in s'.brk && s'.brk[pid] == HEAP_PAGE + 1 && UserOk(s'.users[pid]) && |s'.users[pid].mem| == PAGE
    ensures Agrees(s', pid)
  {
  }

  lemma StoreKeeps(s: Sys, s': Sys, pid: int, p: int, j: int, w: Word)
    requires Agrees(s, pid) && Acts(s, s', Action.Store(pid, p, j, w)) && Harmless(s.users[pid], p, j, w)
    ensures Agrees(s', pid)
  {
    HeapSurvives(s.seen, Step.Write(pid, p, j, w), pid, s.brk[pid]);
    StoredEncodes(s.seen[pid], s'.seen[pid], s.users[pid], p, j, w);
  }

  lemma StoredEncodes(image: Image, image': Image, u: User, p: nat, j: nat, w: Word)
    requires UserOk(u) && Encodes(image, u) && j < ENTRIES && Harmless(u, p, j, w)
    requires image' == if p in image then StoredIn(image, p, j, w) else image
    ensures var u' := u.(mem := StoredMem(u.mem, p, j, w)); UserOk(u') && Encodes(image', u')
  {
    if p in image {
      HarmlessKeeps(image, u, p, j, w);
    } else {
      Unmapped(image, u.mem, p, j, w);
      assert u.(mem := u.mem) == u;
    }
  }

  /** A store to a page that is not there meets no byte of the heap. */
  lemma Unmapped(image: Image, mem: seq<Byte>, p: nat, j: nat, w: Word)
    requires HoldsBytes(image, mem) && p !in image && j < ENTRIES
    ensures StoredMem(mem, p, j, w) == mem
  {
    forall x | 0 <= x < |mem| ensures StoredMem(mem, p, j, w)[x] == mem[x] {
      assert ByteIs(image, HEAP_START + x, mem[x]);
      InWordIff(HEAP_START + x, p, j);
    }
  }

  /** Whatever one process does, the memory of every process that has not destroyed its own allocator
      goes on being that allocator, in agreement with the kernel. */
  lemma NextKeeps(s: Sys, s': Sys, act: Action, q: int)
    requires AllAgree(s) && Acts(s, s', act) && q in s'.users
    ensures Agrees(s', q)
  {
    match act
    case Spawn(pid, vars, used) =>
      assert q != pid ==> Agrees(s, q);
      StartedKeeps(s, s', Eager(s.seen, Step.Create(pid)), pid, vars, used, q);
    case Exec(pid, vars, used) =>
      assert q != pid ==> Agrees(s, q);
      StartedKeeps(s, s', Eager(s.seen, Step.Clear(pid)), pid, vars, used, q);
    case Fork(parent, child) => ForkKeeps(s, s', parent, child, q);
    case Allocate(pid, size) =>
      var n: nat, mid: Images :| Allocated(s, s', pid, size, n, mid);
      AllocatedKeeps(s, s', pid, size, n, mid, q);
    case Release(pid, k) =>
      ReleaseKeeps(s, s', pid, k, q);
    case Sbrk(pid, bytes) =>
      assert Agrees(s, q);
      GrewKeeps(s, s', pid, PagesFor(bytes), q);
    case Store(pid, p, j, w) =>
      assert Agrees(s, q);
      if q == pid {
        StoreKeeps(s, s', pid, p, j, w);
      } else {
        AgreesFrame(s, s', q);
      }
    case Destroy(pid) =>
      assert Agrees(s, q);
  }

  /** A program called sbrk itself, and for more. */
  predicate BehindTheBack(act: Action) {
    act.Sbrk? && act.bytes > 0
  }

  lemma StartedInStep(s: Sys, s': Sys, pid: int, vars: nat, used: nat, q: int)
    requires StartedUser(s, s', pid, vars, used) && q in s'.users && (q != pid ==> InStep(s, q))
    ensures InStep(s', q)
  {
  }

  lemma AllocatedInStep(s: Sys, s': Sys, pid: int, size: nat, n: nat, mid: Images, q: int)
    requires Allocated(s, s', pid, size, n, mid) && q in s'.users && InStep(s, q)
    ensures InStep(s', q)
  {
  }

  lemma StoredInStep(users: map<int, User>, pid: int, p: int, j: int, w: Word, q: int)
    requires q in AfterStore(users, pid, p, j, w)
    ensures q in users && AfterStore(users, pid, p, j, w)[q].End() == users[q].End()
  {
  }

  /** No step but such a call puts any allocator out of step with the kernel. */
  lemma NextInStep(s: Sys, s': Sys, act: Action, q: int)
    requires AllInStep(s) && Acts(s, s', act) && !BehindTheBack(act) && q in s'.users
    ensures InStep(s', q)
  {
    match act
    case Spawn(pid, vars, used) =>
      assert q != pid ==> InStep(s, q);
      StartedInStep(s, s', pid, vars, used, q);
    case Exec(pid, vars, used) =>
      assert q != pid ==> InStep(s, q);
      StartedInStep(s, s', pid, vars, used, q);
    case Fork(parent, child) => assert InStep(s, if q == child then parent else q);
    case Allocate(pid, size) =>
      var n: nat, mid: Images :| Allocated(s, s', pid, size, n, mid);
      assert InStep(s, q);
      AllocatedInStep(s, s', pid, size, n, mid, q);
    case Release(pid, k) => assert InStep(s, q);
    case Sbrk(pid, bytes) => assert InStep(s, q);
    case Store(pid, p, j, w) =>
      StoredInStep(s.users, pid, p, j, w, q);
      assert InStep(s, q);
    case Destroy(pid) => assert InStep(s, q);
  }

  // ----- every run -----

  /** At every point of every run the memory of each process that has not destroyed its own allocator
      is that allocator, in agreement with the kernel; and if nobody calls sbrk behind its allocator's back,
      all of them have the kernel's end of the heap. */
  lemma {:induction false} RunAgrees(states: seq<Sys>, acts: seq<Action>, i: nat)
    requires IsRun((s, s', act) => Acts(s, s', act), states, acts) && AllAgree(states[0]) && i < |states|
    ensures AllAgree(states[i])
    ensures AllInStep(states[0]) && (forall j :: 0 <= j < i ==> !BehindTheBack(acts[j])) ==> AllInStep(states[i])
    decreases i
  {
    if i > 0 {
      RunAgrees(states, acts, i - 1);
      assert Acts(states[i - 1], states[i], acts[i - 1]);
      NextAll(states[i - 1], states[i], acts[i - 1]);
    }
  }

  lemma NextAll(s: Sys, s': Sys, act: Action)
    requires AllAgree(s) && Acts(s, s', act)
    ensures AllAgree(s')
    ensures AllInStep(s) && !BehindTheBack(act) ==> AllInStep(s')
  {
    forall q | q in s'.users ensures Agrees(s', q) {
      NextKeeps(s, s', act, q);
    }
    if AllInStep(s) && !BehindTheBack(act) {
      forall q | q in s'.users ensures InStep(s', q) {
        NextInStep(s, s', act, q);
      }
    }
  }

  /** Every address of every block of every process is in a page that the kernel has mapped for it. */
  lemma BlockMapped(s: Sys, q: int, k: nat, x: nat)
    requires AllAgree(s) && q in s.users && k < |s.users[q].blocks|
    requires s.users[q].blocks[k].addr <= x < s.users[q].blocks[k].End()
    ensures q in s.seen && x / PAGE in s.seen[q]
  {
    assert Agrees(s, q);
    var u := s.users[q];
    assert Represented(u.mem, HEAP_START, u.blocks, k);
    assert ByteIs(s.seen[q], HEAP_START + (x - HEAP_START), u.mem[x - HEAP_START]);
  }

  // ----- what one process does to the memory of another -----

  /** No step of another process changes a byte that q reads, or its allocator. */
  lemma OthersKeepBytes(s: Sys, s': Sys, act: Action, q: int)
    requires AllAgree(s) && Acts(s, s', act) && q in s.users && Actor(act) != q
    ensures q in s'.users && s'.users[q] == s.users[q] && q in s'.seen && s'.seen[q] == s.seen[q]
  {
    assert Agrees(s, q);
    match act
    case Spawn(pid, vars, used) =>
    case Exec(pid, vars, used) =>
    case Fork(parent, child) =>
    case Allocate(pid, size) =>
      var n: nat, mid: Images :| Allocated(s, s', pid, size, n, mid);
      OthersAllocated(s, s', pid, size, n, mid, q);
    case Release(pid, k) =>
    case Sbrk(pid, bytes) =>
    case Store(pid, p, j, w) =>
    case Destroy(pid) =>
  }

  lemma OthersAllocated(s: Sys, s': Sys, pid: int, size: nat, n: nat, mid: Images, q: int)
    requires Allocated(s, s', pid, size, n, mid) && q in s.users && q in s.seen && q != pid
    ensures q in s'.users && s'.users[q] == s.users[q] && q in s'.seen && s'.seen[q] == s.seen[q]
  {
  }

  /** The process whose memory the step changes: for a fork, the new one. */
  function Actor(act: Action): int {
    match act
    case Fork(parent, child) => child
    case _ => act.pid
  }

  /** A forked child reads its parent's allocator byte for byte, because the kernel shares the pages
      and copies them on the first store. */
  lemma ForkSharesBytes(s: Sys, s': Sys, parent: int, child: int)
    requires AllAgree(s) && Acts(s, s', Action.Fork(parent, child)) && parent in s.users
    ensures child in s'.seen && Encodes(s'.seen[child], s.users[parent]) && Encodes(s'.seen[parent], s.users[parent])
  {
    assert Agrees(s, parent);
  }

  // ----- what an allocation is good for -----

  /** The process gives up its memory. */
  predicate Ends(act: Action, q: int) {
    (act.Exec? || act.Destroy?) && act.pid == q
  }

  /** The byte at a in the memory of q, which was b, after the step. */
  function ByteAfter(act: Action, q: int, a: nat, b: Byte): Byte {
    if act.Store? && act.pid == q then StoredByte(a, b, act.page, act.offset, act.word) else b
  }

  /** A byte in a live block changes only by a store of its own process to it, and then to what is
      stored: no allocation, free, growth or fork, and no step of another process, changes it. */
  lemma PayloadStays(s: Sys, s': Sys, act: Action, q: int, k: nat, x: nat)
    requires AllAgree(s) && Acts(s, s', act) && q in s.users && k < |s.users[q].blocks| && !Ends(act, q)
    requires s.users[q].blocks[k].live && s.users[q].blocks[k].Payload() <= x < s.users[q].blocks[k].End()
    ensures HEAP_START <= x < s.users[q].End() && q in s'.seen
    ensures ByteIs(s'.seen[q], x, ByteAfter(act, q, x, s.users[q].mem[x - HEAP_START]))
  {
    assert Agrees(s, q);
    var u := s.users[q];
    assert Represented(u.mem, HEAP_START, u.blocks, k);
    var y := x - HEAP_START;
    assert ByteIs(s.seen[q], HEAP_START + y, u.mem[y]);
    if Actor(act) != q {
      OthersKeepBytes(s, s', act, q);
    } else {
      OwnPayload(s, s', act, q, k, y);
    }
  }

  lemma OwnPayload(s: Sys, s': Sys, act: Action, q: int, k: nat, y: nat)
    requires AllAgree(s) && Agrees(s, q) && Acts(s, s', act) && k < |s.users[q].blocks| && !Ends(act, q) && Actor(act) == q
    requires s.users[q].blocks[k].live && s.users[q].blocks[k].Payload() <= HEAP_START + y < s.users[q].blocks[k].End()
    requires y < |s.users[q].mem| && ByteIs(s.seen[q], HEAP_START + y, s.users[q].mem[y])
    ensures q in s'.seen && ByteIs(s'.seen[q], HEAP_START + y, ByteAfter(act, q, HEAP_START + y, s.users[q].mem[y]))
  {
    var u := s.users[q];
    match act
    case Allocate(pid, size) =>
      var n: nat, mid: Images :| Allocated(s, s', pid, size, n, mid);
      OthersUntouched(u.blocks, u.start, size, k, HEAP_START + y);
      assert ByteIs(s'.seen[q], HEAP_START + y, s'.users[q].mem[y]);
    case Release(pid, b) =>
      PayloadNoHeader(u, k, b, HEAP_START + y);
      assert ByteIs(s'.seen[q], HEAP_START + y, s'.users[q].mem[y]);
    case Sbrk(pid, bytes) =>
      GrewKeeps(s, s', pid, PagesFor(bytes), q);
      assert ByteIs(s'.seen[q], HEAP_START + y, s'.users[q].mem[y]);
    case Store(pid, p, j, w) =>
      if p in s.seen[q] {
        ByteAfterStore(s.seen[q], p, j, w, HEAP_START + y, u.mem[y]);
      } else {
        InWordIff(HEAP_START + y, p, j);
      }
  }

  lemma PayloadNoHeader(u: User, k: nat, b: nat, x: nat)
    requires UserOk(u) && k < |u.blocks| && b < |u.blocks| && u.blocks[k].Payload() <= x < u.blocks[k].End()
    ensures x != u.blocks[b].addr + 8
  {
    if x == u.blocks[b].addr + 8 {
      HeaderNoPayload(u, k, b, x);
    }
  }
}
