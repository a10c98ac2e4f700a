/** The segment loader of kernel/process/elf.c, on the page tables of the process: its two loops over
    the pages of each segment, and which segments it gets right. */
module Elf {
  import opened Machine
  import opened PageEntries
  import opened Bytes
  import opened PageTables
  import opened CopyOnWrite
  import PM = ProcessMemory
  import VM = VirtualMemory

  const WORD := 0x1_0000_0000
  const PT_LOAD := 1

  /** The fields of a program header that the loader reads. */
  datatype Phdr = Phdr(kind: nat, offset: nat, vaddr: nat, filesz: nat, memsz: nat)

  predicate Loadable(p: Phdr) {
    p.vaddr != 0 && p.kind == PT_LOAD
  }

  /** What the loader takes for granted: the segment lies in the file, is not larger there than in
      memory, does not wrap around the address space, and the file leaves the last page below
      4 GiB free, where the offset of the copy loop would wrap. */
  ghost predicate Fits(p: Phdr, file: seq<Byte>) {
    p.filesz <= p.memsz && p.offset + p.filesz <= |file| <= WORD - PAGE && p.vaddr + p.memsz < WORD
  }

  function PageCount(p: Phdr): nat {
    if p.memsz % PAGE != 0 then p.memsz / PAGE + 1 else p.memsz / PAGE
  }

  /** The fewest whole pages that hold p_memsz bytes. */
  lemma PageCountIs(p: Phdr)
    ensures var n := PageCount(p); p.memsz <= n * PAGE && (n > 0 ==> (n - 1) * PAGE < p.memsz)
  {
    assert p.memsz == p.memsz / PAGE * PAGE + p.memsz % PAGE;
  }

  /** Byte k of the segment: from the file, or zero behind it. */
  function Content(p: Phdr, file: seq<Byte>, k: nat): Byte
    requires p.offset + p.filesz <= |file|
  {
    if k < p.filesz then file[p.offset + k] else 0
  }

  /** Page i of a segment. */
  function SegmentPage(p: Phdr, file: seq<Byte>, i: nat): (r: seq<Byte>)
    requires p.offset + p.filesz <= |file|
    ensures |r| == PAGE && forall j :: 0 <= j < PAGE ==> r[j] == Content(p, file, i * PAGE + j)
  {
    seq<Byte>(PAGE, j requires 0 <= j < PAGE => Content(p, file, i * PAGE + j))
  }

  /** The segment uses this page. */
  predicate Covers(p: Phdr, q: nat) {
    Loadable(p) && p.vaddr / PAGE <= q < p.vaddr / PAGE + PageCount(p)
  }

  /** The segment lies in the file and in the user half of the address space. */
  ghost predicate Placed(p: Phdr, file: seq<Byte>) {
    Loadable(p) ==> Fits(p, file) && p.vaddr / PAGE + PageCount(p) <= USER_PAGES
  }

  ghost predicate AllPlaced(headers: seq<Phdr>, file: seq<Byte>) {
    forall i :: 0 <= i < |headers| ==> Placed(headers[i], file)
  }

  // ----- the pages of a program -----

  /** The pages of a segment, of which the first n are copied and the others still clear. */
  function Filling(p: Phdr, file: seq<Byte>, n: nat): (r: seq<VM.PageInit>)
    requires p.offset + p.filesz <= |file|
    ensures |r| == PageCount(p)
    ensures forall i :: 0 <= i < |r| ==>
              r[i] == VM.PageInit(p.vaddr / PAGE + i, if i < n then Words(SegmentPage(p, file, i)) else Blank())
  {
    seq(PageCount(p), i requires 0 <= i < PageCount(p) =>
      VM.PageInit(p.vaddr / PAGE + i, if i < n then Words(SegmentPage(p, file, i)) else Blank()))
  }

  function SegmentPages(p: Phdr, file: seq<Byte>): (r: seq<VM.PageInit>)
    requires p.offset + p.filesz <= |file|
    ensures |r| == PageCount(p)
    ensures forall i :: 0 <= i < |r| ==> r[i] == VM.PageInit(p.vaddr / PAGE + i, Words(SegmentPage(p, file, i)))
  {
    Filling(p, file, PageCount(p))
  }

  /** What elf_load_executable maps, in order. */
  function Code(headers: seq<Phdr>, file: seq<Byte>): (r: seq<VM.PageInit>)
    requires AllPlaced(headers, file)
    ensures forall k :: 0 <= k < |r| ==> r[k].page < USER_PAGES && |r[k].words| == ENTRIES
  {
    if headers == [] then []
    else
      var rest := headers[..|headers| - 1];
      var p := headers[|headers| - 1];
      assert Placed(p, file) && forall i :: 0 <= i < |rest| ==> rest[i] == headers[i];
      Code(rest, file) + (if Loadable(p) then SegmentPages(p, file) else [])
  }

  /** A header after the first i + 1 of these takes this page too. */
  ghost predicate TakenAfter(headers: seq<Phdr>, i: nat, q: nat) {
    exists h :: i < h < |headers| && Covers(headers[h], q)
  }

  lemma TakenInPrefix(headers: seq<Phdr>, i: nat, q: nat)
    requires headers != [] && TakenAfter(headers[..|headers| - 1], i, q)
    ensures TakenAfter(headers, i, q)
  {
    var h :| i < h < |headers| - 1 && Covers(headers[..|headers| - 1][h], q);
    assert Covers(headers[h], q);
  }

  lemma TakenLast(headers: seq<Phdr>, file: seq<Byte>, i: nat, q: nat, l: nat)
    requires i + 1 < |headers| && Loadable(headers[|headers| - 1]) && Placed(headers[|headers| - 1], file)
    requires var more := SegmentPages(headers[|headers| - 1], file); l < |more| && more[l].page == q
    ensures TakenAfter(headers, i, q)
  {
    assert Covers(headers[|headers| - 1], q);
  }

  /** Where page q of segment i is in the list; what comes behind it for the same page is of a later
      segment. */
  lemma {:induction false} CodeHas(headers: seq<Phdr>, file: seq<Byte>, i: nat, q: nat) returns (k: nat)
    requires AllPlaced(headers, file) && i < |headers| && Covers(headers[i], q) && Placed(headers[i], file)
    ensures var p, code := headers[i], Code(headers, file);
            && k < |code| && code[k] == VM.PageInit(q, Words(SegmentPage(p, file, q - p.vaddr / PAGE)))
            && forall l :: k < l < |code| && code[l].page == q ==> TakenAfter(headers, i, q)
    decreases |headers|
  {
    var rest, p := headers[..|headers| - 1], headers[|headers| - 1];
    assert Placed(p, file);
    var more: seq<VM.PageInit> := if Loadable(p) then SegmentPages(p, file) else [];
    if i == |rest| {
      k := |Code(rest, file)| + q - p.vaddr / PAGE;
    } else {
      k := CodeHas(rest, file, i, q);
      var before := Code(rest, file);
      forall l | k < l < |before + more| && (before + more)[l].page == q ensures TakenAfter(headers, i, q) {
        if l < |before| {
          assert before[l].page == q;
          TakenInPrefix(headers, i, q);
        } else {
          TakenLast(headers, file, i, q, l - |before|);
        }
      }
    }
  }

  lemma {:induction false} CodePrefix(headers: seq<Phdr>, file: seq<Byte>, h: nat)
    requires AllPlaced(headers, file) && h <= |headers|
    ensures AllPlaced(headers[..h], file) && Code(headers[..h], file) <= Code(headers, file)
    decreases |headers|
  {
    if h == |headers| {
      assert headers[..h] == headers;
    } else {
      var rest := headers[..|headers| - 1];
      assert Placed(headers[|headers| - 1], file);
      CodePrefix(rest, file, h);
      assert rest[..h] == headers[..h];
    }
  }

  /** One more header, whose pages come next. */
  lemma CodeNext(headers: seq<Phdr>, file: seq<Byte>, h: nat)
    requires AllPlaced(headers, file) && h < |headers|
    ensures AllPlaced(headers[..h], file) && AllPlaced(headers[..h + 1], file) && Placed(headers[h], file)
    ensures Code(headers[..h + 1], file)
         == if Loadable(headers[h]) then Code(headers[..h], file) + SegmentPages(headers[h], file) else Code(headers[..h], file)
    ensures Code(headers[..h + 1], file) <= Code(headers, file)
  {
    CodePrefix(headers, file, h + 1);
    assert headers[..h + 1][..h] == headers[..h];
    assert Placed(headers[..h + 1][h], file);
  }

  // ----- the words of a page -----

  /** The page once the first j words are copied to a clear one. */
  function Copied(page: Page, j: nat): (r: Page)
    ensures forall x :: 0 <= x < ENTRIES ==> r[x] == if x < j then page[x] else ZERO
  {
    seq(ENTRIES, x requires 0 <= x < ENTRIES => if x < j then page[x] else ZERO)
  }

  lemma CopiedMore(page: Page, j: nat)
    requires j < ENTRIES
    ensures WithEntry(Copied(page, j), j, page[j]) == Copied(page, j + 1)
  {
  }

  lemma ZeroBytes()
    ensures WordOf(0, 0, 0, 0) == ZERO && forall k :: 0 <= k < 4 ==> ByteOf(ZERO, k) == 0
  {
  }

  lemma CopiedAll(page: Page, bytes: seq<Byte>, j: nat)
    requires Starts(page, bytes) && 4 * j >= |bytes|
    ensures Copied(page, j) == page
  {
  }

  lemma NothingCopied(page: Page)
    ensures Copied(page, 0) == Blank()
  {
  }

  /** A word of the file, filled up with what the frame had there. */
  function PartWord(bytes: seq<Byte>, j: nat, was: Word): Word {
    WordOf(PartByte(bytes, 4 * j, ByteOf(was, 0)), PartByte(bytes, 4 * j + 1, ByteOf(was, 1)),
           PartByte(bytes, 4 * j + 2, ByteOf(was, 2)), PartByte(bytes, 4 * j + 3, ByteOf(was, 3)))
  }

  function PartByte(bytes: seq<Byte>, x: nat, was: Byte): Byte {
    if x < |bytes| then bytes[x] else was
  }

  /** What the file has for page i. */
  function Piece(p: Phdr, file: seq<Byte>, i: nat): (s: seq<Byte>)
    requires p.offset + p.filesz <= |file| && i * PAGE < p.filesz
    ensures |s| == if p.filesz - i * PAGE > PAGE then PAGE else p.filesz - i * PAGE
    ensures forall x :: 0 <= x < |s| ==> s[x] == Content(p, file, i * PAGE + x)
  {
    if p.filesz - i * PAGE > PAGE then file[p.offset + i * PAGE..p.offset + i * PAGE + PAGE]
    else file[p.offset + i * PAGE..p.offset + p.filesz]
  }

  lemma PartWordIs(p: Phdr, file: seq<Byte>, i: nat, j: nat)
    requires p.offset + p.filesz <= |file| && i * PAGE < p.filesz && j < ENTRIES
    ensures PartWord(Piece(p, file, i), j, ZERO) == Words(SegmentPage(p, file, i))[j]
  {
    ZeroBytes();
    PartByteIs(p, file, i, 4 * j);
    PartByteIs(p, file, i, 4 * j + 1);
    PartByteIs(p, file, i, 4 * j + 2);
    PartByteIs(p, file, i, 4 * j + 3);
    var bytes, page := Piece(p, file, i), SegmentPage(p, file, i);
    assert PartWord(bytes, j, ZERO) == WordOf(page[4 * j], page[4 * j + 1], page[4 * j + 2], page[4 * j + 3]);
  }

  lemma PartByteIs(p: Phdr, file: seq<Byte>, i: nat, x: nat)
    requires p.offset + p.filesz <= |file| && i * PAGE < p.filesz && x < PAGE
    ensures PartByte(Piece(p, file, i), x, 0) == SegmentPage(p, file, i)[x]
  {
  }

  lemma NextPiece(p: Phdr, file: seq<Byte>, i: nat, cur: nat, size: nat)
    requires Fits(p, file) && cur == p.offset + i * PAGE < p.offset + p.filesz
    requires size == if p.offset + p.filesz - cur > PAGE then PAGE else p.offset + p.filesz - cur
    ensures i < PageCount(p) && file[cur..cur + size] == Piece(p, file, i)
    ensures (cur + PAGE) % WORD == p.offset + (i + 1) * PAGE < p.offset + p.filesz + PAGE
  {
  }

  // ----- elf_load_executable -----

  /** The pages of a segment are where its frames are mapped. */
  ghost predicate MapsAll(s: PM.Vm, pid: int, p: Phdr, physicals: seq<nat>) {
    && pid in s.dirs && s.dirs[pid] < |s.h.mem| && p.vaddr / PAGE + PageCount(p) <= USER_PAGES && |physicals| <= PageCount(p)
    && forall i :: 0 <= i < |physicals| ==> VM.MapsTo(s.h, s.dirs[pid], p.vaddr / PAGE + i, physicals[i])
  }

  /** A page of each segment page, still clear. */
  ghost predicate AllClear(clear: seq<VM.PageInit>, p: Phdr) {
    |clear| == PageCount(p) && forall i :: 0 <= i < |clear| ==> clear[i] == VM.PageInit(p.vaddr / PAGE + i, Blank())
  }

  /** The first loop: take a frame, clear it and map it, for each page; physicals are the frames. */
  method MapPages(table: VM.ProcessTable, pid: int, p: Phdr, ghost clear: seq<VM.PageInit>, ghost plan: VM.Plan, ghost done: seq<VM.PageInit>, ghost k: nat,
                  ghost end: nat)
      returns (physicals: seq<nat>)
    requires table.Laying(pid, plan, done, k) && VM.PlanOk(plan) && VM.HasAt(plan.layout, k, clear) && AllClear(clear, p)
    requires p.vaddr + p.memsz < WORD && p.vaddr / PAGE + PageCount(p) <= USER_PAGES && end == k + PageCount(p)
    modifies table.mmu`window, table.mmu`mem, table.mmu.phys.allocations
    ensures table.Laying(pid, plan, done + clear, end)
    ensures |physicals| == PageCount(p) && MapsAll(table.S(), pid, p, physicals)
  {
    physicals := [];
    var pages := PageCount(p);
    ghost var now, at := done, k;
    var i := 0;
    while i < pages
      invariant 0 <= i <= pages && now == done + clear[..i] && at == k + i
      invariant table.Laying(pid, plan, now, at)
      invariant |physicals| == i && MapsAll(table.S(), pid, p, physicals)
    {
      VM.NextOf(done, clear, i);
      assert VM.IsAt(plan.layout, k, i, clear[i]);
      physicals, now, at := MapOne(table, pid, p, i, physicals, plan, now, at, clear[i], k);
      i := i + 1;
    }
    assert i == pages && at == end;
    assert clear[..i] == clear;
  }

  method MapOne(table: VM.ProcessTable, pid: int, p: Phdr, i: nat, physicals: seq<nat>, ghost plan: VM.Plan, ghost now: seq<VM.PageInit>, ghost at: nat,
                ghost init: VM.PageInit, ghost k: nat)
      returns (more: seq<nat>, ghost next: seq<VM.PageInit>, ghost next_at: nat)
    requires table.Laying(pid, plan, now, at) && VM.PlanOk(plan) && VM.IsAt(plan.layout, k, i, init) && at == k + i
    requires i < PageCount(p) && |physicals| == i && MapsAll(table.S(), pid, p, physicals)
    requires init == VM.PageInit(p.vaddr / PAGE + i, Blank()) && p.vaddr + p.memsz < WORD
    modifies table.mmu`window, table.mmu`mem, table.mmu.phys.allocations
    ensures next == now + [init] && next_at == at + 1 && table.Laying(pid, plan, next, next_at)
    ensures |more| == i + 1 && MapsAll(table.S(), pid, p, more)
  {
    table.Apart();
    var page := (p.vaddr + i * PAGE) % WORD / PAGE;
    PageAddress(p, i, page);
    ghost var s := table.S();
    assert VM.PageInit(page, Blank()) == init;
    var f;
    f, next, next_at := table.MapNext(pid, VM.PageInit(page, Blank()), plan, now, at);
    assert VM.MapsKept(s.h, table.S().h, s.dirs[pid], page) && VM.MapsTo(table.S().h, s.dirs[pid], page, f);
    MapsMore(s, table.S(), pid, p, physicals, f, page);
    more := physicals + [f];
  }

  lemma PageAddress(p: Phdr, i: nat, page: nat)
    requires i < PageCount(p) && p.vaddr + p.memsz < WORD && page == (p.vaddr + i * PAGE) % WORD / PAGE
    ensures page == p.vaddr / PAGE + i
  {
  }

  lemma MapsMore(s: PM.Vm, s': PM.Vm, pid: int, p: Phdr, physicals: seq<nat>, f: nat, q: nat)
    requires MapsAll(s, pid, p, physicals) && q == p.vaddr / PAGE + |physicals| && |physicals| < PageCount(p) && s'.dirs == s.dirs && s'.dirs[pid] < |s'.h.mem|
    requires VM.MapsKept(s.h, s'.h, s.dirs[pid], q) && VM.MapsTo(s'.h, s.dirs[pid], q, f)
    ensures MapsAll(s', pid, p, physicals + [f])
  {
  }

  /** The second loop: copy the file's part of each page into its frame. */
  method CopyPages(table: VM.ProcessTable, pid: int, p: Phdr, file: seq<Byte>, physicals: seq<nat>, ghost plan: VM.Plan,
                   ghost done: seq<VM.PageInit>, ghost k: nat, ghost mapped: seq<VM.PageInit>)
    requires Loadable(p) && Placed(p, file) && mapped == done + Filling(p, file, 0) && table.Laying(pid, plan, mapped, k)
    requires |physicals| == PageCount(p) && MapsAll(table.S(), pid, p, physicals)
    modifies table.mmu`window, table.mmu`mem
    ensures table.Laying(pid, plan, done + SegmentPages(p, file), k)
  {
    table.Apart();
    var file_end := p.offset + p.filesz;
    var cur := p.offset;
    var i := 0;
    while cur < file_end
      invariant 0 <= i <= PageCount(p) && cur == p.offset + i * PAGE < p.offset + p.filesz + PAGE
      invariant table.Laying(pid, plan, done + Filling(p, file, i), k) && MapsAll(table.S(), pid, p, physicals)
      decreases file_end + PAGE - cur
    {
      var left := file_end - cur;
      var size := if left > PAGE then PAGE else left;
      NextPiece(p, file, i, cur, size);
      CopyPage(table, pid, p, file, file[cur..cur + size], i, physicals, plan, done, k);
      i := i + 1;
      cur := (cur + PAGE) % WORD;
    }
    FilledAll(p, file, i);
  }

  /** Pages behind the file's part are zero already. */
  lemma FilledAll(p: Phdr, file: seq<Byte>, i: nat)
    requires p.offset + p.filesz <= |file| && p.filesz <= i * PAGE && i <= PageCount(p)
    ensures Filling(p, file, i) == SegmentPages(p, file)
  {
    ZeroBytes();
    forall x | i <= x < PageCount(p) ensures Words(SegmentPage(p, file, x)) == Blank() {
    }
  }

  /** read_from_vfs_node for one page, into its frame. */
  method CopyPage(table: VM.ProcessTable, pid: int, p: Phdr, ghost file: seq<Byte>, bytes: seq<Byte>, i: nat, physicals: seq<nat>,
                  ghost plan: VM.Plan, ghost done: seq<VM.PageInit>, ghost k: nat)
    requires Loadable(p) && Placed(p, file) && i < PageCount(p) == |physicals| && i * PAGE < p.filesz && bytes == Piece(p, file, i)
    requires table.Laying(pid, plan, done + Filling(p, file, i), k) && MapsAll(table.S(), pid, p, physicals)
    modifies table.mmu`window, table.mmu`mem
    ensures table.Laying(pid, plan, done + Filling(p, file, i + 1), k) && MapsAll(table.S(), pid, p, physicals)
  {
    table.Apart();
    ghost var s := table.S();
    ghost var page := Words(SegmentPage(p, file, i));
    var q := p.vaddr / PAGE + i;
    ClearYet(plan.r0, PM.Reads(s), pid, p, file, done, i);
    PieceStarts(p, file, i);
    CopyWords(table, pid, q, physicals[i], bytes, page);
    PageCopied(s, table.S(), pid, p, file, physicals, plan, done, k, i);
  }

  lemma PageCopied(s: PM.Vm, s': PM.Vm, pid: int, p: Phdr, file: seq<Byte>, physicals: seq<nat>, plan: VM.Plan, done: seq<VM.PageInit>, k: nat, i: nat)
    requires p.offset + p.filesz <= |file| && i < PageCount(p) && VM.LaidUpTo(s, pid, plan, done + Filling(p, file, i), k) && MapsAll(s, pid, p, physicals)
    requires s'.dirs == s.dirs && VM.SameDir(s.h, s'.h, s.dirs[pid])
    requires PM.Reads(s') == Eager(PM.Reads(s), Map(pid, p.vaddr / PAGE + i, Words(SegmentPage(p, file, i))))
    ensures VM.LaidUpTo(s', pid, plan, done + Filling(p, file, i + 1), k) && MapsAll(s', pid, p, physicals)
  {
    Refilled(plan.r0, PM.Reads(s), PM.Reads(s'), pid, p, file, done, i);
    VM.SameDirCopies(s.h, s'.h, s.dirs[pid]);
    VM.FewerStill(plan.h0, s.h, s'.h, s.dirs[pid]);
    VM.StaySame(plan.h0, s.h, s'.h, s.dirs[pid], done + Filling(p, file, i), done + Filling(p, file, i + 1), plan.base);
    forall x | 0 <= x < |physicals| ensures VM.MapsTo(s'.h, s.dirs[pid], p.vaddr / PAGE + x, physicals[x]) {
      VM.SameDirMaps(s.h, s'.h, s.dirs[pid], p.vaddr / PAGE + x, physicals[x]);
    }
  }

  /** The page starts with these bytes and is zero behind them. */
  ghost predicate Starts(page: Page, bytes: seq<Byte>) {
    |bytes| <= PAGE && forall j :: 0 <= j < ENTRIES ==> page[j] == if 4 * j < |bytes| then PartWord(bytes, j, ZERO) else ZERO
  }

  lemma PieceStarts(p: Phdr, file: seq<Byte>, i: nat)
    requires p.offset + p.filesz <= |file| && i * PAGE < p.filesz
    ensures Starts(Words(SegmentPage(p, file, i)), Piece(p, file, i))
  {
    forall j | 0 <= j < ENTRIES
      ensures Words(SegmentPage(p, file, i))[j] == if 4 * j < |Piece(p, file, i)| then PartWord(Piece(p, file, i), j, ZERO) else ZERO
    {
      PartWordIs(p, file, i, j);
      if 4 * j >= |Piece(p, file, i)| {
        ZeroBytes();
      }
    }
  }

  /** Word by word; what the file has no byte for stays as it is. */
  method CopyWords(table: VM.ProcessTable, pid: int, q: nat, f: nat, bytes: seq<Byte>, ghost page: Page)
    requires table.Valid() && pid in table.dirs && table.dirs[pid] < |table.mmu.mem| && q < USER_PAGES && Starts(page, bytes)
    requires VM.MapsTo(table.mmu.H(), table.dirs[pid], q, f)
    requires q in PM.Reads(table.S())[pid] && PM.Reads(table.S())[pid][q] == Blank()
    modifies table.mmu`window, table.mmu`mem
    ensures table.Valid() && VM.SameDir(old(table.mmu.H()), table.mmu.H(), table.dirs[pid])
    ensures PM.Reads(table.S()) == Eager(old(PM.Reads(table.S())), Map(pid, q, page))
  {
    table.Apart();
    ghost var h, r := table.mmu.H(), PM.Reads(table.S());
    var j := 0;
    Unmoved(r, pid, q, page);
    while 4 * j < |bytes|
      invariant 0 <= 4 * j < |bytes| + 4
      invariant table.Valid() && VM.SameDir(h, table.mmu.H(), table.dirs[pid])
      invariant PM.Reads(table.S()) == WithCopied(r, pid, q, page, j)
    {
      CopyTurn(table, pid, q, f, j, bytes, page, h, r);
      j := j + 1;
    }
    CopiedAll(page, bytes, j);
  }

  method CopyTurn(table: VM.ProcessTable, pid: int, q: nat, f: nat, j: nat, bytes: seq<Byte>, ghost page: Page, ghost h: Phys, ghost r: Images)
    requires table.Valid() && pid in table.dirs && table.dirs[pid] < |h.mem| && q < USER_PAGES && 4 * j < |bytes| && Starts(page, bytes)
    requires VM.MapsTo(h, table.dirs[pid], q, f) && VM.SameDir(h, table.mmu.H(), table.dirs[pid])
    requires pid in r && PM.Reads(table.S()) == WithCopied(r, pid, q, page, j)
    modifies table.mmu`window, table.mmu`mem
    ensures table.Valid() && VM.SameDir(h, table.mmu.H(), table.dirs[pid])
    ensures PM.Reads(table.S()) == WithCopied(r, pid, q, page, j + 1)
  {
    table.Apart();
    VM.SameDirMaps(h, table.mmu.H(), table.dirs[pid], q, f);
    CopyWord(table, pid, q, f, j, bytes, WithCopied(r, pid, q, page, j));
    WordWritten(r, pid, q, page, bytes, j);
  }

  method CopyWord(table: VM.ProcessTable, pid: int, q: nat, f: nat, j: nat, bytes: seq<Byte>, ghost r: Images)
    requires table.Valid() && pid in table.dirs && table.dirs[pid] < |table.mmu.mem| && q < USER_PAGES && j < ENTRIES
    requires VM.MapsTo(table.mmu.H(), table.dirs[pid], q, f)
    requires PM.Reads(table.S()) == r && q in r[pid]
    modifies table.mmu`window, table.mmu`mem
    ensures table.Valid() && VM.SameDir(old(table.mmu.H()), table.mmu.H(), table.dirs[pid])
    ensures PM.Reads(table.S()) == Eager(r, Write(pid, q, j, PartWord(bytes, j, r[pid][q][j])))
  {
    table.Apart();
    var was := table.Peek(pid, q, f, j);
    table.Poke(pid, q, f, j, PartWord(bytes, j, was));
  }

  /** What everybody reads once the first j words of the page are there. */
  function WithCopied(r: Images, pid: int, q: int, page: Page, j: nat): (r': Images)
    ensures pid in r ==> pid in r' && q in r'[pid] && r'[pid][q] == Copied(page, j)
  {
    Eager(r, Map(pid, q, Copied(page, j)))
  }

  lemma Unmoved(r: Images, pid: int, q: int, page: Page)
    requires pid in r && q in r[pid] && r[pid][q] == Blank()
    ensures WithCopied(r, pid, q, page, 0) == r
  {
    NothingCopied(page);
    assert WithPage(r[pid], q, r[pid][q]) == r[pid];
  }

  lemma WordWritten(r: Images, pid: int, q: int, page: Page, bytes: seq<Byte>, j: nat)
    requires pid in r && 4 * j < |bytes| && Starts(page, bytes)
    ensures var now := WithCopied(r, pid, q, page, j);
            Eager(now, Write(pid, q, j, PartWord(bytes, j, now[pid][q][j]))) == WithCopied(r, pid, q, page, j + 1)
  {
    CopiedMore(page, j);
    assert WithPage(WithPage(r[pid], q, Copied(page, j)), q, Copied(page, j + 1)) == WithPage(r[pid], q, Copied(page, j + 1));
  }

  /** Page i is clear until it is copied. */
  lemma ClearYet(r0: Images, r: Images, pid: int, p: Phdr, file: seq<Byte>, done: seq<VM.PageInit>, i: nat)
    requires p.offset + p.filesz <= |file| && i < PageCount(p) && VM.Laid(r0, r, pid, done + Filling(p, file, i))
    ensures var q := p.vaddr / PAGE + i; q in r[pid] && r[pid][q] == Blank()
  {
    var pages, at := done + Filling(p, file, i), |done| + i;
    NotAgain(done, p, file, i, i);
    assert pages[at] == Filling(p, file, i)[i];
    assert VM.Listed(pages, pages[at].page);
    assert forall j :: 0 <= j < ENTRIES ==> r[pid][pages[at].page][j] == Blank()[j];
  }

  /** The pages of a segment are different pages. */
  lemma NotAgain(done: seq<VM.PageInit>, p: Phdr, file: seq<Byte>, n: nat, i: nat)
    requires p.offset + p.filesz <= |file| && i < PageCount(p)
    ensures !VM.Listed((done + Filling(p, file, n))[|done| + i + 1..], p.vaddr / PAGE + i)
  {
    var rest := (done + Filling(p, file, n))[|done| + i + 1..];
    forall k | 0 <= k < |rest| ensures rest[k].page != p.vaddr / PAGE + i {
      assert rest[k] == Filling(p, file, n)[i + 1 + k];
    }
  }

  lemma Refilled(r0: Images, r: Images, r': Images, pid: int, p: Phdr, file: seq<Byte>, done: seq<VM.PageInit>, i: nat)
    requires p.offset + p.filesz <= |file| && i < PageCount(p) && VM.Laid(r0, r, pid, done + Filling(p, file, i))
    requires r' == Eager(r, Map(pid, p.vaddr / PAGE + i, Words(SegmentPage(p, file, i))))
    ensures VM.Laid(r0, r', pid, done + Filling(p, file, i + 1))
  {
    var pages, at, page := done + Filling(p, file, i), |done| + i, Words(SegmentPage(p, file, i));
    NotAgain(done, p, file, i, i);
    VM.LaidRefilled(r0, r, r', pid, pages, at, page);
    assert pages[at := VM.PageInit(pages[at].page, page)] == done + Filling(p, file, i + 1);
  }

  /** One segment: map, then copy. */
  method LoadSegment(table: VM.ProcessTable, pid: int, p: Phdr, file: seq<Byte>, ghost plan: VM.Plan, ghost done: seq<VM.PageInit>, ghost k: nat,
                     ghost end: nat)
    requires table.Laying(pid, plan, done, k) && Loadable(p) && Placed(p, file) && VM.PlanOk(plan) && VM.HasAt(plan.layout, k, Filling(p, file, 0))
    requires end == k + PageCount(p)
    modifies table.mmu`window, table.mmu`mem, table.mmu.phys.allocations
    ensures table.Laying(pid, plan, done + SegmentPages(p, file), end)
  {
    ghost var clear := Filling(p, file, 0);
    var physicals := MapPages(table, pid, p, clear, plan, done, k, end);
    CopyPages(table, pid, p, file, physicals, plan, done, end, done + clear);
  }

  /** elf_load_executable over the program headers; segments may share pages. */
  method LoadAll(table: VM.ProcessTable, pid: int, headers: seq<Phdr>, file: seq<Byte>, ghost plan: VM.Plan, ghost done: seq<VM.PageInit>, ghost k: nat,
                 ghost all: seq<VM.PageInit>, ghost end: nat)
    requires AllPlaced(headers, file) && all == done + Code(headers, file) && end == k + |Code(headers, file)| && table.Laying(pid, plan, done, k) && VM.PlanOk(plan) && VM.HasAt(plan.layout, k, Code(headers, file))
    modifies table.mmu`window, table.mmu`mem, table.mmu.phys.allocations
    ensures table.Laying(pid, plan, all, end)
  {
    table.Apart();
    var h := 0;
    ghost var now, at := done, k;
    NoCode(headers, file, done);
    while h < |headers|
      invariant 0 <= h <= |headers| && Reached(headers, file, h, done, k, now, at)
      invariant table.Laying(pid, plan, now, at)
    {
      now, at := LoadTurn(table, pid, headers, file, h, plan, done, k, now, at);
      h := h + 1;
    }
    assert h == |headers|;
    ReachedAll(headers, file, h, done, k, now, at);
  }

  /** The list so far when the first h headers are done. */
  ghost predicate Reached(headers: seq<Phdr>, file: seq<Byte>, h: nat, done: seq<VM.PageInit>, k: nat, now: seq<VM.PageInit>, at: nat) {
    h <= |headers| && AllPlaced(headers[..h], file) && now == done + Code(headers[..h], file) && at == k + |Code(headers[..h], file)|
  }

  lemma ReachedAll(headers: seq<Phdr>, file: seq<Byte>, h: nat, done: seq<VM.PageInit>, k: nat, now: seq<VM.PageInit>, at: nat)
    requires Reached(headers, file, h, done, k, now, at) && h == |headers| && AllPlaced(headers, file)
    ensures now == done + Code(headers, file) && at == k + |Code(headers, file)|
  {
    assert headers[..h] == headers;
  }

  method LoadTurn(table: VM.ProcessTable, pid: int, headers: seq<Phdr>, file: seq<Byte>, h: nat, ghost plan: VM.Plan, ghost done: seq<VM.PageInit>,
                  ghost k: nat, ghost now: seq<VM.PageInit>, ghost at: nat) returns (ghost next: seq<VM.PageInit>, ghost next_at: nat)
    requires h < |headers| && AllPlaced(headers, file) && VM.PlanOk(plan) && VM.HasAt(plan.layout, k, Code(headers, file))
    requires Reached(headers, file, h, done, k, now, at) && table.Laying(pid, plan, now, at)
    modifies table.mmu`window, table.mmu`mem, table.mmu.phys.allocations
    ensures Reached(headers, file, h + 1, done, k, next, next_at) && table.Laying(pid, plan, next, next_at)
  {
    table.Apart();
    next, next_at := MoreCode(plan.layout, k, headers, file, h, done, now, at);
    LoadHeader(table, pid, headers[h], file, plan, now, at, next, next_at);
  }

  /** Headers of other kinds, and segments at address 0, are passed over. */
  method LoadHeader(table: VM.ProcessTable, pid: int, p: Phdr, file: seq<Byte>, ghost plan: VM.Plan, ghost done: seq<VM.PageInit>, ghost k: nat,
                    ghost now: seq<VM.PageInit>, ghost at: nat)
    requires table.Laying(pid, plan, done, k) && Placed(p, file) && VM.PlanOk(plan) && (Loadable(p) ==> VM.HasAt(plan.layout, k, Filling(p, file, 0)))
    requires if Loadable(p) then now == done + SegmentPages(p, file) && at == k + PageCount(p) else now == done && at == k
    modifies table.mmu`window, table.mmu`mem, table.mmu.phys.allocations
    ensures table.Laying(pid, plan, now, at)
  {
    table.Apart();
    if Loadable(p) {
      LoadSegment(table, pid, p, file, plan, done, k, at);
    }
  }

  lemma NoCode(headers: seq<Phdr>, file: seq<Byte>, done: seq<VM.PageInit>)
    requires AllPlaced(headers, file)
    ensures AllPlaced(headers[..0], file) && Code(headers[..0], file) == [] && done + Code(headers[..0], file) == done
  {
  }

  lemma MoreCode(layout: seq<VM.PageInit>, k: nat, headers: seq<Phdr>, file: seq<Byte>, h: nat, done: seq<VM.PageInit>, now: seq<VM.PageInit>, at: nat)
      returns (next: seq<VM.PageInit>, next_at: nat)
    requires AllPlaced(headers, file) && h < |headers| && VM.HasAt(layout, k, Code(headers, file)) && Reached(headers, file, h, done, k, now, at)
    ensures Reached(headers, file, h + 1, done, k, next, next_at) && Placed(headers[h], file)
    ensures if Loadable(headers[h]) then
              && VM.HasAt(layout, at, Filling(headers[h], file, 0))
              && next == now + SegmentPages(headers[h], file) && next_at == at + PageCount(headers[h])
            else next == now && next_at == at
  {
    CodeNext(headers, file, h);
    next, next_at := now, at;
    if Loadable(headers[h]) {
      var before, pages := Code(headers[..h], file), SegmentPages(headers[h], file);
      SegmentComes(layout, k, Code(headers, file), before, headers[h], file, done);
      next, next_at := now + pages, at + |pages|;
      assert next == done + (before + pages);
    }
  }

  lemma SegmentComes(layout: seq<VM.PageInit>, k: nat, all: seq<VM.PageInit>, before: seq<VM.PageInit>, p: Phdr, file: seq<Byte>,
                     done: seq<VM.PageInit>)
    requires p.offset + p.filesz <= |file| && VM.HasAt(layout, k, all) && before + SegmentPages(p, file) <= all
    ensures VM.HasAt(layout, k + |before|, Filling(p, file, 0))
    ensures done + (before + SegmentPages(p, file)) == done + before + SegmentPages(p, file)
  {
    var pages := SegmentPages(p, file);
    forall i | 0 <= i < |pages| ensures pages[i].page == all[|before| + i].page {
      assert all[|before| + i] == (before + pages)[|before| + i];
    }
    VM.HasPart(layout, k, all, before, Filling(p, file, 0), k + |before|);
  }

  // ----- which segments are right -----

  /** The byte that the process reads at a. */
  function ByteAt(m: Image, a: nat): Byte
    requires a / PAGE in m
  {
    ReadByte(m[a / PAGE], a % PAGE)
  }

  /** The segment's pages hold its contents, from the start of its first page on. */
  ghost predicate Present(m: Image, p: Phdr, file: seq<Byte>) {
    && p.offset + p.filesz <= |file|
    && forall q: nat :: Covers(p, q) ==> q in m && m[q] == Words(SegmentPage(p, file, q - p.vaddr / PAGE))
  }

  /** Where the bytes of a loaded segment are: byte k + (vaddr mod 4096) of it at vaddr + k. */
  lemma ByteOfSegment(m: Image, p: Phdr, file: seq<Byte>, k: nat)
    requires Loadable(p) && Present(m, p, file) && p.vaddr % PAGE + k < PageCount(p) * PAGE
    ensures (p.vaddr + k) / PAGE in m && ByteAt(m, p.vaddr + k) == Content(p, file, p.vaddr % PAGE + k)
  {
    var q := (p.vaddr + k) / PAGE;
    assert p.vaddr == p.vaddr / PAGE * PAGE + p.vaddr % PAGE;
    assert q - p.vaddr / PAGE == (p.vaddr % PAGE + k) / PAGE;
    assert Covers(p, q);
    assert (p.vaddr + k) % PAGE == (p.vaddr % PAGE + k) % PAGE;
    ByteOfPage(SegmentPage(p, file, q - p.vaddr / PAGE), (p.vaddr + k) % PAGE);
  }

  /** For a page-aligned segment: the file's bytes first, then zeros up to its size in memory, as
      the System V ABI asks for in the section on program headers. */
  lemma AlignedSegment(m: Image, p: Phdr, file: seq<Byte>, k: nat)
    requires Loadable(p) && Present(m, p, file) && p.vaddr % PAGE == 0 && k < p.memsz
    ensures (p.vaddr + k) / PAGE in m
    ensures ByteAt(m, p.vaddr + k) == if k < p.filesz then file[p.offset + k] else 0
  {
    ByteOfSegment(m, p, file, k);
  }

  /** Every byte of the segment, up to its size in memory, is mapped and what it should be. */
  ghost predicate AllRight(m: Image, p: Phdr, file: seq<Byte>) {
    && p.offset + p.filesz <= |file|
    && forall k: nat :: k < p.memsz ==> ByteRight(m, p, file, k)
  }

  ghost predicate ByteRight(m: Image, p: Phdr, file: seq<Byte>, k: nat)
    requires p.offset + p.filesz <= |file|
  {
    (p.vaddr + k) / PAGE in m && ByteAt(m, p.vaddr + k) == Content(p, file, k)
  }

  /** When the loader gets a segment right: it has no bytes; or it is not at address 0, where the loader
      passes it over, and starts on a page boundary, or takes nothing from the file and ends in the last
      page that its size alone asks for. */
  predicate WellPlaced(p: Phdr) {
    p.memsz == 0
    || (p.vaddr != 0 && (p.vaddr % PAGE == 0 || (p.filesz == 0 && p.vaddr % PAGE + p.memsz <= PageCount(p) * PAGE)))
  }

  lemma WellPlacedRight(m: Image, p: Phdr, file: seq<Byte>)
    requires p.kind == PT_LOAD && p.filesz <= p.memsz && Present(m, p, file) && WellPlaced(p)
    ensures AllRight(m, p, file)
  {
    forall k: nat | k < p.memsz ensures ByteRight(m, p, file, k) {
      InLastPage(p, k);
      ByteOfSegment(m, p, file, k);
    }
  }

  lemma InLastPage(p: Phdr, k: nat)
    requires WellPlaced(p) && k < p.memsz
    ensures p.vaddr % PAGE + k < PageCount(p) * PAGE
  {
  }

  /** A segment is right for all contents of the file, and whatever was mapped before, if and only if
      it is well placed. */
  lemma RightIffPlaced(p: Phdr, size: nat)
    requires p.kind == PT_LOAD && p.filesz <= p.memsz && p.offset + p.filesz <= size
    ensures WellPlaced(p) <==>
            forall m, file {:trigger AllRight(m, p, file)} :: |file| == size && Present(m, p, file) ==> AllRight(m, p, file)
  {
    if WellPlaced(p) {
      forall m, file | |file| == size && Present(m, p, file) ensures AllRight(m, p, file) {
        WellPlacedRight(m, p, file);
      }
    } else {
      var file := seq(size, i => if i == p.offset then 1 else 0);
      var m := Sample(p, file);
      if p.vaddr == 0 {
        assert !ByteRight(m, p, file, 0);
      } else if p.filesz > 0 {
        Misplaced(m, p, file);
      } else {
        HalfMapped(m, p, file);
      }
      assert !AllRight(m, p, file);
    }
  }

  /** The first byte of the file comes too early. */
  lemma Misplaced(m: Image, p: Phdr, file: seq<Byte>)
    requires Loadable(p) && Present(m, p, file) && p.vaddr % PAGE != 0 && 0 < p.filesz <= p.memsz
    requires forall i :: 0 <= i < |file| ==> (file[i] == 1 <==> i == p.offset)
    ensures !ByteRight(m, p, file, 0)
  {
    ByteOfSegment(m, p, file, 0);
  }

  /** The last byte lies in a page that nobody mapped. */
  lemma HalfMapped(m: Image, p: Phdr, file: seq<Byte>)
    requires Loadable(p) && Present(m, p, file) && 0 < p.memsz && p.vaddr % PAGE + p.memsz > PageCount(p) * PAGE
    requires forall q :: q in m ==> q < p.vaddr / PAGE + PageCount(p)
    ensures !ByteRight(m, p, file, p.memsz - 1)
  {
    var first := p.vaddr / PAGE;
    assert p.vaddr + p.memsz - 1 >= (first + PageCount(p)) * PAGE;
    assert (p.vaddr + p.memsz - 1) / PAGE >= first + PageCount(p);
  }

  function Minus(q: nat, first: nat): nat {
    if first <= q then q - first else 0
  }

  /** An image that holds the segment alone. */
  lemma Sample(p: Phdr, file: seq<Byte>) returns (m: Image)
    requires p.offset + p.filesz <= |file|
    ensures Present(m, p, file) && forall q :: q in m ==> p.vaddr != 0 && q < p.vaddr / PAGE + PageCount(p)
  {
    var first, n := p.vaddr / PAGE, if p.vaddr != 0 then PageCount(p) else 0;
    m := map q: int | first <= q < first + n :: Words(SegmentPage(p, file, Minus(q, first)));
  }
}
