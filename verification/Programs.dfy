/** loader_exec and loader_spawn of kernel/process/loader.c: from an ELF file to what the process
    reads. */
module Programs {
  import opened Machine
  import opened Elf
  import opened PageEntries
  import opened Bytes
  import opened PageTables
  import opened CopyOnWrite
  import opened ProcessMemory
  import opened Paging
  import opened CopyNeeds
  import VM = VirtualMemory

  // ----- what the process reads -----

  /** Page q shows segment i: it is the last of the segments there, and what is mapped after the
      segments leaves the page alone. */
  ghost predicate ShownIn(headers: seq<Phdr>, i: nat, q: nat, later: seq<VM.PageInit>) {
    i < |headers| && Covers(headers[i], q) && !TakenAfter(headers, i, q) && !VM.Listed(later, q)
  }

  /** The byte at x is the one that the segment has there. */
  ghost predicate ShowsByte(image: Image, p: Phdr, file: seq<Byte>, x: nat)
    requires p.offset + p.filesz <= |file| && p.vaddr / PAGE <= x / PAGE
  {
    x / PAGE in image &&
    ReadByte(image[x / PAGE], x % PAGE) == Content(p, file, x - p.vaddr / PAGE * PAGE)
  }

  /** The page of the segment is in the process's memory. */
  lemma SegmentShown(r: Images, r': Images, pid: int, first: seq<VM.PageInit>, later: seq<VM.PageInit>,
                     headers: seq<Phdr>, file: seq<Byte>, i: nat, q: nat)
    requires AllPlaced(headers, file) && VM.Laid(r, r', pid, first + Code(headers, file) + later)
    requires ShownIn(headers, i, q, later) && Placed(headers[i], file)
    ensures q in r'[pid] && r'[pid][q] == Words(SegmentPage(headers[i], file, q - headers[i].vaddr / PAGE))
  {
    var k := CodeHas(headers, file, i, q);
    OnlyThere(first, Code(headers, file), later, k, q);
    var pages, at := first + Code(headers, file) + later, |first| + k;
    assert pages[at] == Code(headers, file)[k];
    LastPageRead(r, r', pid, pages, at);
  }

  lemma LastPageRead(r: Images, r': Images, pid: int, pages: seq<VM.PageInit>, at: nat)
    requires VM.Laid(r, r', pid, pages) && at < |pages| && |pages[at].words| == ENTRIES && !VM.Listed(pages[at + 1..], pages[at].page)
    ensures pages[at].page in r'[pid] && r'[pid][pages[at].page] == pages[at].words
  {
    assert VM.Listed(pages, pages[at].page);
  }

  /** So the bytes of the file are. */
  lemma BytesShown(image: Image, p: Phdr, file: seq<Byte>, x: nat)
    requires p.offset + p.filesz <= |file| && p.vaddr / PAGE <= x / PAGE && x / PAGE in image
    requires image[x / PAGE] == Words(SegmentPage(p, file, x / PAGE - p.vaddr / PAGE))
    ensures ShowsByte(image, p, file, x)
  {
    var page := SegmentPage(p, file, x / PAGE - p.vaddr / PAGE);
    ByteOfPage(page, x % PAGE);
    OffsetInPage(x, p.vaddr / PAGE);
  }

  lemma OffsetInPage(x: nat, first: nat)
    ensures (x / PAGE - first) * PAGE + x % PAGE == x - first * PAGE
  {
  }

  lemma OnlyThere(first: seq<VM.PageInit>, code: seq<VM.PageInit>, later: seq<VM.PageInit>, k: nat, q: nat)
    requires k < |code| && code[k].page == q && !VM.Listed(later, q)
    requires forall l :: k < l < |code| ==> code[l].page != q
    ensures !VM.Listed((first + code + later)[|first| + k + 1..], q)
  {
    var rest := (first + code + later)[|first| + k + 1..];
    forall l | 0 <= l < |rest| ensures rest[l].page != q {
      var at := k + 1 + l;
      assert rest[l] == if at < |code| then code[at] else later[at - |code|];
    }
  }

  /** A segment none of whose pages is mapped again is present as a whole. */
  lemma SegmentPresent(r: Images, r': Images, pid: int, first: seq<VM.PageInit>, later: seq<VM.PageInit>,
                       headers: seq<Phdr>, file: seq<Byte>, i: nat)
    requires AllPlaced(headers, file) && VM.Laid(r, r', pid, first + Code(headers, file) + later)
    requires i < |headers| && Loadable(headers[i])
    requires forall q: nat :: Covers(headers[i], q) ==> !TakenAfter(headers, i, q) && !VM.Listed(later, q)
    ensures Present(r'[pid], headers[i], file)
  {
    assert Placed(headers[i], file);
    forall q: nat | Covers(headers[i], q)
      ensures q in r'[pid] && r'[pid][q] == Words(SegmentPage(headers[i], file, q - headers[i].vaddr / PAGE))
    {
      SegmentShown(r, r', pid, first, later, headers, file, i, q);
    }
  }

  // ----- loader_exec and loader_spawn -----

  predicate ArgsOk(args: seq<Word>, argLength: nat, argc: nat) {
    |args| <= ENTRIES && argLength < VM.WORDS && argc + 1 < VM.WORDS
  }

  const STACK_TOP := VM.STACK_PAGE + VM.STACK_PAGES - 1

  /** The top page of the stack: zeros, and at its end a magic value, the end of the heap, the length of
      the arguments and their number, the program's name included. */
  ghost predicate TopIs(image: Image, argLength: nat, argc: nat) {
    && STACK_TOP in image
    && Encode(image[STACK_TOP][1020]) == 0xDB05DB05 && Encode(image[STACK_TOP][1021]) == 0x5000_1000
    && Encode(image[STACK_TOP][1022]) == argLength && Encode(image[STACK_TOP][1023]) == argc + 1
    && forall j :: 0 <= j < 1020 ==> Encode(image[STACK_TOP][j]) == 0
  }

  ghost predicate ClearAt(image: Image, q: int) {
    q in image && forall j :: 0 <= j < ENTRIES ==> Encode(image[q][j]) == 0
  }

  /** The argument page starts with these words. */
  ghost predicate ArgsAt(image: Image, args: seq<Word>) {
    VM.HEAP_PAGE in image && forall j :: 0 <= j < |args| && j < ENTRIES ==> image[VM.HEAP_PAGE][j] == args[j]
  }

  /** The pages of a program: its segments', five of stack at 0x4000_0000, and one at 0x5000_0000. */
  ghost predicate JustThese(image: Image, headers: seq<Phdr>) {
    forall q: nat :: q in image <==>
      CoveredBy(headers, q) || 0x4000_0000 <= q * PAGE < 0x4000_5000 || q * PAGE == 0x5000_0000
  }

  ghost predicate CoveredBy(headers: seq<Phdr>, q: nat) {
    exists i :: 0 <= i < |headers| && Covers(headers[i], q)
  }

  function ExecPages(headers: seq<Phdr>, file: seq<Byte>, args: seq<Word>, argLength: nat, argc: nat): seq<VM.PageInit>
    requires AllPlaced(headers, file) && ArgsOk(args, argLength, argc)
  {
    VM.ExecLayout(Code(headers, file), args, argLength, argc)
  }

  function SpawnPages(headers: seq<Phdr>, file: seq<Byte>, args: seq<Word>, argLength: nat, argc: nat): seq<VM.PageInit>
    requires AllPlaced(headers, file) && ArgsOk(args, argLength, argc)
  {
    VM.SpawnLayout(Code(headers, file), args, argLength, argc)
  }

  /** loader_exec from the file on: the segments, then the stack, then the page of arguments. The process
      reads the bytes of its segments, except where the stack or that page came on top of them. */
  method Exec(table: VM.ProcessTable, pid: int, headers: seq<Phdr>, file: seq<Byte>, args: seq<Word>, argLength: nat, argc: nat)
    requires table.Valid() && table.StacksOk() && pid in table.dirs && AllPlaced(headers, file) && ArgsOk(args, argLength, argc)
    requires table.FreeAfterClear(pid) >= VM.FramesFor({}, ExecPages(headers, file, args, argLength, argc), 0)
    modifies table`heapEnd, table`stackFrames, table.mmu, table.mmu.phys.allocations
    ensures table.Valid() && table.StacksOk() && table.HeapMapped(pid) && unchanged(table`dirs)
    ensures table.heapEnd == old(table.heapEnd)[pid := VM.HEAP_PAGE + 1]
    ensures pid in table.stackFrames && table.stackFrames == old(table.stackFrames)[pid := table.stackFrames[pid]]
    ensures VM.Laid(Eager(old(Reads(table.S())), Step.Clear(pid)), Reads(table.S()), pid, ExecPages(headers, file, args, argLength, argc))
    ensures NoCopies(table.mmu.H(), table.dirs[pid])
    ensures AllShown(Reads(table.S())[pid], headers, file, VM.StackPages(argLength, argc) + [VM.PageInit(VM.HEAP_PAGE, args)])
    ensures var image := Reads(table.S())[pid];
            && TopIs(image, argLength, argc) && ArgsAt(image, args) && JustThese(image, headers)
            && forall q :: VM.STACK_PAGE <= q < STACK_TOP ==> ClearAt(image, q)
    ensures |table.stackFrames[pid]| == 5
    ensures forall k :: 0 <= k < 5 ==> VM.MapsTo(table.mmu.H(), table.dirs[pid], VM.STACK_PAGE + k, table.stackFrames[pid][k])
  {
    table.Apart();
    ghost var r := Eager(Reads(table.S()), Step.Clear(pid));
    table.Clear(pid);
    FillExec(table, pid, headers, file, args, argLength, argc, r);
    ExecShows(r, Reads(table.S()), pid, headers, file, args, argLength, argc);
    ExecHas(r, Reads(table.S()), pid, headers, file, args, argLength, argc);
  }

  lemma ExecHas(r: Images, r': Images, pid: int, headers: seq<Phdr>, file: seq<Byte>, args: seq<Word>, argLength: nat, argc: nat)
    requires AllPlaced(headers, file) && ArgsOk(args, argLength, argc) && pid in r && r[pid] == map[]
    requires VM.Laid(r, r', pid, ExecPages(headers, file, args, argLength, argc))
    ensures TopIs(r'[pid], argLength, argc) && ArgsAt(r'[pid], args) && JustThese(r'[pid], headers)
    ensures forall q :: VM.STACK_PAGE <= q < STACK_TOP ==> ClearAt(r'[pid], q)
  {
    var pages, code, stack := ExecPages(headers, file, args, argLength, argc), Code(headers, file), VM.StackPages(argLength, argc);
    var top := [VM.PageInit(VM.HEAP_PAGE, args)];
    assert pages == code + stack + top;
    StackReads(r, r', pid, code, top, argLength, argc);
    forall q | VM.STACK_PAGE <= q <= STACK_TOP ensures !VM.Listed(top, q) {
    }
    ArgsShown(r, r', pid, code + stack, args);
    CodeIsCode(headers, file);
    ListedIff(headers, code, stack, top, pages);
  }

  ghost predicate StackPageIs(image: Image, k: int, argLength: nat, argc: nat)
    requires 0 <= k < VM.STACK_PAGES && argLength < VM.WORDS && argc + 1 < VM.WORDS
  {
    VM.STACK_PAGE + k in image && image[VM.STACK_PAGE + k] == VM.StackPages(argLength, argc)[k].words
  }

  lemma StackShown(r: Images, r': Images, pid: int, first: seq<VM.PageInit>, later: seq<VM.PageInit>, k: int, argLength: nat, argc: nat)
    requires 0 <= k < VM.STACK_PAGES && argLength < VM.WORDS && argc + 1 < VM.WORDS
    requires VM.Laid(r, r', pid, first + VM.StackPages(argLength, argc) + later) && !VM.Listed(later, VM.STACK_PAGE + k)
    ensures StackPageIs(r'[pid], k, argLength, argc)
  {
    var stack := VM.StackPages(argLength, argc);
    OnlyThere(first, stack, later, k, VM.STACK_PAGE + k);
    assert (first + stack + later)[|first| + k] == stack[k];
    LastPageRead(r, r', pid, first + stack + later, |first| + k);
  }

  /** The stack, where nothing came on top of it. */
  lemma StackReads(r: Images, r': Images, pid: int, first: seq<VM.PageInit>, later: seq<VM.PageInit>, argLength: nat, argc: nat)
    requires argLength < VM.WORDS && argc + 1 < VM.WORDS && VM.Laid(r, r', pid, first + VM.StackPages(argLength, argc) + later)
    ensures !VM.Listed(later, STACK_TOP) ==> TopIs(r'[pid], argLength, argc)
    ensures forall q: nat :: VM.STACK_PAGE <= q < STACK_TOP && !VM.Listed(later, q) ==> ClearAt(r'[pid], q)
  {
    forall q: nat | VM.STACK_PAGE <= q <= STACK_TOP && !VM.Listed(later, q)
      ensures if q == STACK_TOP then TopIs(r'[pid], argLength, argc) else ClearAt(r'[pid], q)
    {
      StackPageReads(r, r', pid, first, later, q, argLength, argc);
    }
  }

  lemma StackPageReads(r: Images, r': Images, pid: int, first: seq<VM.PageInit>, later: seq<VM.PageInit>, q: nat, argLength: nat, argc: nat)
    requires VM.STACK_PAGE <= q <= STACK_TOP && !VM.Listed(later, q)
    requires argLength < VM.WORDS && argc + 1 < VM.WORDS && VM.Laid(r, r', pid, first + VM.StackPages(argLength, argc) + later)
    ensures if q == STACK_TOP then TopIs(r'[pid], argLength, argc) else ClearAt(r'[pid], q)
  {
    StackShown(r, r', pid, first, later, q - VM.STACK_PAGE, argLength, argc);
    StackPageClear(r'[pid], q - VM.STACK_PAGE, argLength, argc);
  }

  lemma StackPageClear(image: Image, k: int, argLength: nat, argc: nat)
    requires 0 <= k < VM.STACK_PAGES && argLength < VM.WORDS && argc + 1 < VM.WORDS && StackPageIs(image, k, argLength, argc)
    ensures if k == VM.STACK_PAGES - 1 then TopIs(image, argLength, argc) else ClearAt(image, VM.STACK_PAGE + k)
  {
    if k == VM.STACK_PAGES - 1 {
      TopWordsAt(argLength, argc);
    }
  }

  lemma TopWordsAt(argLength: nat, argc: nat)
    requires argLength < VM.WORDS && argc + 1 < VM.WORDS
    ensures var last := VM.StackPages(argLength, argc)[VM.STACK_PAGES - 1].words;
            && Encode(last[1020]) == 0xDB05DB05 && Encode(last[1021]) == 0x5000_1000
            && Encode(last[1022]) == argLength && Encode(last[1023]) == argc + 1
            && forall j :: 0 <= j < 1020 ==> last[j] == ZERO
  {
    var words := VM.TopWords(argLength, argc);
    Encodes(words[0], 0xDB05DB05);
    Encodes(words[1], 0x5000_1000);
    Encodes(words[2], argLength);
    Encodes(words[3], argc + 1);
  }

  lemma Encodes(w: Word, v: nat)
    requires v < 0x1_0000_0000 && w == Decode(v)
    ensures Encode(w) == v
  {
    EncodeAfterDecode(v);
  }

  lemma ArgsShown(r: Images, r': Images, pid: int, first: seq<VM.PageInit>, args: seq<Word>)
    requires VM.Laid(r, r', pid, first + [VM.PageInit(VM.HEAP_PAGE, args)])
    ensures ArgsAt(r'[pid], args)
  {
    var pages := first + [VM.PageInit(VM.HEAP_PAGE, args)];
    assert pages[|first|] == VM.PageInit(VM.HEAP_PAGE, args) && pages[|first| + 1..] == [];
    assert VM.Listed(pages, VM.HEAP_PAGE) && !VM.Listed(pages[|first| + 1..], VM.HEAP_PAGE);
  }

  ghost predicate AreCode(code: seq<VM.PageInit>, headers: seq<Phdr>) {
    forall q: nat :: VM.Listed(code, q) <==> CoveredBy(headers, q)
  }

  lemma CodeIsCode(headers: seq<Phdr>, file: seq<Byte>)
    requires AllPlaced(headers, file)
    ensures AreCode(Code(headers, file), headers)
  {
    forall q: nat ensures VM.Listed(Code(headers, file), q) <==> CoveredBy(headers, q) {
      CodeCovers(headers, file, q);
    }
  }

  lemma ListedIff(headers: seq<Phdr>, code: seq<VM.PageInit>, stack: seq<VM.PageInit>, top: seq<VM.PageInit>, pages: seq<VM.PageInit>)
    requires AreCode(code, headers) && StackAt(stack) && |top| == 1 && top[0].page == VM.HEAP_PAGE
    requires pages == code + stack + top || pages == stack + code + top
    ensures forall q: nat :: VM.Listed(pages, q) <==>
              CoveredBy(headers, q) || 0x4000_0000 <= q * PAGE < 0x4000_5000 || q * PAGE == 0x5000_0000
  {
    forall q: nat ensures VM.Listed(pages, q) <==>
      CoveredBy(headers, q) || 0x4000_0000 <= q * PAGE < 0x4000_5000 || q * PAGE == 0x5000_0000
    {
      ListedIn(code, stack, top, pages, q);
      assert VM.Listed(code, q) <==> CoveredBy(headers, q);
      StackCovers(stack, q);
      if q == VM.HEAP_PAGE {
        assert top[0].page == q;
      }
    }
  }

  /** The pages start with those of the stack. */
  ghost predicate StackAt(stack: seq<VM.PageInit>) {
    |stack| == VM.STACK_PAGES && forall k :: 0 <= k < VM.STACK_PAGES ==> stack[k].page == VM.STACK_PAGE + k
  }

  lemma StackCovers(stack: seq<VM.PageInit>, q: nat)
    requires StackAt(stack)
    ensures VM.Listed(stack, q) <==> 0x4000_0000 <= q * PAGE < 0x4000_5000
  {
    if 0x4000_0000 <= q * PAGE < 0x4000_5000 {
      assert stack[q - VM.STACK_PAGE].page == q;
    }
  }

  lemma ListedIn(code: seq<VM.PageInit>, stack: seq<VM.PageInit>, top: seq<VM.PageInit>, pages: seq<VM.PageInit>, q: nat)
    requires pages == code + stack + top || pages == stack + code + top
    ensures VM.Listed(pages, q) <==> VM.Listed(code, q) || VM.Listed(stack, q) || VM.Listed(top, q)
  {
    ListedEither(code, stack, q);
    ListedEither(stack, code, q);
    ListedEither(code + stack, top, q);
    ListedEither(stack + code, top, q);
  }

  lemma ListedEither(a: seq<VM.PageInit>, b: seq<VM.PageInit>, q: nat)
    ensures VM.Listed(a + b, q) <==> VM.Listed(a, q) || VM.Listed(b, q)
  {
    if k :| 0 <= k < |a| && a[k].page == q {
      assert (a + b)[k].page == q;
    }
    if k :| 0 <= k < |b| && b[k].page == q {
      assert (a + b)[|a| + k].page == q;
    }
  }

  /** The pages of the program are those of its segments. */
  lemma {:induction false} CodeCovers(headers: seq<Phdr>, file: seq<Byte>, q: nat)
    requires AllPlaced(headers, file)
    ensures VM.Listed(Code(headers, file), q) <==> CoveredBy(headers, q)
    decreases |headers|
  {
    if headers != [] {
      var rest, p := headers[..|headers| - 1], headers[|headers| - 1];
      assert Placed(p, file);
      CodeCovers(rest, file, q);
      CoveredMore(headers, q);
      var more: seq<VM.PageInit> := if Loadable(p) then SegmentPages(p, file) else [];
      ListedEither(Code(rest, file), more, q);
      if Loadable(p) {
        SegmentCovers(p, file, q);
      }
    }
  }

  lemma CoveredMore(headers: seq<Phdr>, q: nat)
    requires headers != []
    ensures CoveredBy(headers, q) <==> CoveredBy(headers[..|headers| - 1], q) || Covers(headers[|headers| - 1], q)
  {
    var rest := headers[..|headers| - 1];
    if i :| 0 <= i < |rest| && Covers(rest[i], q) {
      assert Covers(headers[i], q);
    }
    if i :| 0 <= i < |headers| && Covers(headers[i], q) {
      assert i < |rest| ==> Covers(rest[i], q);
    }
  }

  lemma SegmentCovers(p: Phdr, file: seq<Byte>, q: nat)
    requires Loadable(p) && p.offset + p.filesz <= |file|
    ensures VM.Listed(SegmentPages(p, file), q) <==> Covers(p, q)
  {
    if Covers(p, q) {
      assert SegmentPages(p, file)[q - p.vaddr / PAGE].page == q;
    }
  }

  /** These are the frames of the stack. */
  ghost predicate StackUnder(h: Phys, d: nat, stack: seq<nat>) {
    d < |h.mem| && |stack| == 5 && forall k :: 0 <= k < 5 ==> VM.MapsTo(h, d, VM.STACK_PAGE + k, stack[k])
  }

  /** The new address space, and the record of its stack and its break. */
  method FillExec(table: VM.ProcessTable, pid: int, headers: seq<Phdr>, file: seq<Byte>, args: seq<Word>, argLength: nat, argc: nat, ghost r: Images)
    requires table.Valid() && table.StacksOk() && pid in table.dirs && AllPlaced(headers, file) && ArgsOk(args, argLength, argc)
    requires Reads(table.S()) == r && NoCopies(table.mmu.H(), table.dirs[pid])
    requires table.Free() >= VM.FramesFor({}, ExecPages(headers, file, args, argLength, argc), 0)
    modifies table`heapEnd, table`stackFrames, table.mmu, table.mmu.phys.allocations
    ensures table.Valid() && table.StacksOk() && table.HeapMapped(pid) && unchanged(table`dirs)
    ensures table.heapEnd == old(table.heapEnd)[pid := VM.HEAP_PAGE + 1]
    ensures pid in table.stackFrames && table.stackFrames == old(table.stackFrames)[pid := table.stackFrames[pid]]
    ensures VM.Laid(r, Reads(table.S()), pid, ExecPages(headers, file, args, argLength, argc)) && NoCopies(table.mmu.H(), table.dirs[pid])
    ensures StackUnder(table.mmu.H(), table.dirs[pid], table.stackFrames[pid])
  {
    table.Apart();
    ghost var h0 := table.mmu.H();
    var stack := LayExec(table, pid, headers, file, args, argLength, argc);
    VM.NoCopiesStill(h0, table.mmu.H(), table.dirs[pid]);
    Note(table, pid, stack, ExecPages(headers, file, args, argLength, argc), r);
  }

  /** The record of the stack frames, and the break behind the argument page. */
  method Note(table: VM.ProcessTable, pid: int, stack: seq<nat>, ghost pages: seq<VM.PageInit>, ghost r: Images)
    requires table.Valid() && table.StacksOk() && VM.Known(table.mmu.phys.lower, table.mmu.phys.allocations.Length, stack)
    requires pages != [] && pages[|pages| - 1].page == VM.HEAP_PAGE && VM.Laid(r, Reads(table.S()), pid, pages)
    modifies table`stackFrames, table`heapEnd
    ensures table.Valid() && table.StacksOk() && table.HeapMapped(pid) && table.S() == old(table.S()) && table.mmu.H() == old(table.mmu.H())
    ensures table.heapEnd == old(table.heapEnd)[pid := VM.HEAP_PAGE + 1] && table.stackFrames == old(table.stackFrames)[pid := stack]
  {
    VM.LayoutHeap(r, Reads(table.S()), pid, pages);
    table.Inherit(pid, stack, VM.HEAP_PAGE + 1);
  }

  method LayExec(table: VM.ProcessTable, pid: int, headers: seq<Phdr>, file: seq<Byte>, args: seq<Word>, argLength: nat, argc: nat)
      returns (stack: seq<nat>)
    requires table.Valid() && pid in table.dirs && table.dirs[pid] < |table.mmu.mem| && AllPlaced(headers, file) && ArgsOk(args, argLength, argc)
    requires table.Free() >= VM.FramesFor({}, ExecPages(headers, file, args, argLength, argc), 0)
    modifies table.mmu, table.mmu.phys.allocations
    ensures table.Valid() && VM.Known(table.mmu.phys.lower, table.mmu.phys.allocations.Length, stack)
    ensures VM.Laid(old(Reads(table.S())), Reads(table.S()), pid, ExecPages(headers, file, args, argLength, argc))
    ensures FewerCopies(old(table.mmu.H()), table.mmu.H(), table.dirs[pid]) && StackUnder(table.mmu.H(), table.dirs[pid], stack)
  {
    table.Apart();
    var top := VM.StackPages(argLength, argc) + [VM.PageInit(VM.HEAP_PAGE, args)];
    ghost var pages, code := ExecPages(headers, file, args, argLength, argc), Code(headers, file);
    VM.FewerFrames({}, Tables(table.mmu.mem[table.dirs[pid]]), pages, 0);
    ghost var plan := table.StartLaying(pid, pages, 0);
    ExecParts(headers, file, args, argLength, argc);
    LoadAll(table, pid, headers, file, plan, [], 0, code, |code|);
    var frames := table.MapSome(pid, top, plan, code, |code|, pages, |pages|);
    stack := frames[..VM.STACK_PAGES];
    StackOf(table.mmu.H(), table.dirs[pid], top, frames, stack);
  }

  lemma StackOf(h: Phys, d: nat, top: seq<VM.PageInit>, frames: seq<nat>, stack: seq<nat>)
    requires |top| == |frames| == VM.STACK_PAGES + 1 && stack == frames[..VM.STACK_PAGES] && StackAt(top[..VM.STACK_PAGES])
    requires VM.Under(h, d, top, frames)
    ensures StackUnder(h, d, stack)
  {
    forall k | 0 <= k < 5 ensures VM.MapsTo(h, d, VM.STACK_PAGE + k, stack[k]) {
      assert top[..VM.STACK_PAGES][k] == top[k] && VM.MapsTo(h, d, top[k].page, frames[k]);
    }
  }

  lemma ExecParts(headers: seq<Phdr>, file: seq<Byte>, args: seq<Word>, argLength: nat, argc: nat)
    requires AllPlaced(headers, file) && ArgsOk(args, argLength, argc)
    ensures var pages, code := ExecPages(headers, file, args, argLength, argc), Code(headers, file);
            var top := VM.StackPages(argLength, argc) + [VM.PageInit(VM.HEAP_PAGE, args)];
            && VM.HasAt(pages, 0, code) && VM.HasAt(pages, |code|, top) && code == [] + code && pages == code + top
            && VM.Distinct(top) && StackAt(top[..VM.STACK_PAGES])
            && forall i :: 0 <= i < |top| ==> top[i].page < USER_PAGES && |top[i].words| <= ENTRIES
  {
    var pages, code := ExecPages(headers, file, args, argLength, argc), Code(headers, file);
    var top := VM.StackPages(argLength, argc) + [VM.PageInit(VM.HEAP_PAGE, args)];
    assert pages == code + top;
    ThreeParts([], code, top, pages);
  }

  lemma ThreeParts(a: seq<VM.PageInit>, b: seq<VM.PageInit>, c: seq<VM.PageInit>, pages: seq<VM.PageInit>)
    requires pages == a + b + c
    ensures VM.HasAt(pages, 0, a) && VM.HasAt(pages, |a|, b) && VM.HasAt(pages, |a| + |b|, c)
  {
    VM.HasSelf(pages);
    VM.HasPart(pages, 0, pages, [], a, 0);
    VM.HasPart(pages, 0, pages, a, b, |a|);
    VM.HasPart(pages, 0, pages, a + b, c, |a| + |b|);
  }

  /** All segments are there, each where it is the last, under the pages that came later. */
  ghost predicate AllShown(image: Image, headers: seq<Phdr>, file: seq<Byte>, later: seq<VM.PageInit>)
    requires AllPlaced(headers, file)
  {
    forall i: nat, x: nat :: ShownIn(headers, i, x / PAGE, later) ==> Placed(headers[i], file) && ShowsByte(image, headers[i], file, x)
  }

  lemma ExecShows(r: Images, r': Images, pid: int, headers: seq<Phdr>, file: seq<Byte>, args: seq<Word>, argLength: nat, argc: nat)
    requires AllPlaced(headers, file) && ArgsOk(args, argLength, argc)
    requires VM.Laid(r, r', pid, ExecPages(headers, file, args, argLength, argc))
    ensures AllShown(r'[pid], headers, file, VM.StackPages(argLength, argc) + [VM.PageInit(VM.HEAP_PAGE, args)])
  {
    var later := VM.StackPages(argLength, argc) + [VM.PageInit(VM.HEAP_PAGE, args)];
    assert ExecPages(headers, file, args, argLength, argc) == [] + Code(headers, file) + later;
    forall i: nat, x: nat | ShownIn(headers, i, x / PAGE, later)
      ensures Placed(headers[i], file) && ShowsByte(r'[pid], headers[i], file, x)
    {
      SegmentShown(r, r', pid, [], later, headers, file, i, x / PAGE);
      BytesShown(r'[pid], headers[i], file, x);
    }
  }

  /** loader_spawn from the file on: a new process gets its stack first, so here the segments come on top
      of the stack. */
  method Spawn(table: VM.ProcessTable, pid: int, current: nat, headers: seq<Phdr>, file: seq<Byte>, args: seq<Word>, argLength: nat, argc: nat)
    requires table.Valid() && table.StacksOk() && pid !in table.dirs && current < |table.mmu.mem| && Held(table.mmu.H(), current)
    requires AllPlaced(headers, file) && ArgsOk(args, argLength, argc)
    requires table.Free() >= VM.FramesFor({}, SpawnPages(headers, file, args, argLength, argc), 0) + 1
    modifies table, table.mmu, table.mmu.phys.allocations
    ensures table.Valid() && table.StacksOk() && table.HeapMapped(pid) && table.dirs.Keys == old(table.dirs.Keys) + {pid}
    ensures table.heapEnd == old(table.heapEnd)[pid := VM.HEAP_PAGE + 1]
    ensures pid in table.stackFrames && table.stackFrames == old(table.stackFrames)[pid := table.stackFrames[pid]]
    ensures VM.Laid(Eager(old(Reads(table.S())), Step.Create(pid)), Reads(table.S()), pid, SpawnPages(headers, file, args, argLength, argc))
    ensures pid in table.dirs && NoCopies(table.mmu.H(), table.dirs[pid])
    ensures AllShown(Reads(table.S())[pid], headers, file, [VM.PageInit(VM.HEAP_PAGE, args)])
    ensures var image := Reads(table.S())[pid];
            && (!CoveredBy(headers, STACK_TOP) ==> TopIs(image, argLength, argc)) && ArgsAt(image, args) && JustThese(image, headers)
            && forall q: nat :: VM.STACK_PAGE <= q < STACK_TOP && !CoveredBy(headers, q) ==> ClearAt(image, q)
    ensures |table.stackFrames[pid]| == 5
    ensures forall k :: 0 <= k < 5 && !CoveredBy(headers, VM.STACK_PAGE + k) ==>
              VM.MapsTo(table.mmu.H(), table.dirs[pid], VM.STACK_PAGE + k, table.stackFrames[pid][k])
  {
    table.Apart();
    ghost var r := Eager(Reads(table.S()), Step.Create(pid));
    table.Create(pid, current);
    FillSpawn(table, pid, headers, file, args, argLength, argc, r);
    SpawnShows(r, Reads(table.S()), pid, headers, file, args, argLength, argc);
    SpawnHas(r, Reads(table.S()), pid, headers, file, args, argLength, argc);
  }

  lemma SpawnHas(r: Images, r': Images, pid: int, headers: seq<Phdr>, file: seq<Byte>, args: seq<Word>, argLength: nat, argc: nat)
    requires AllPlaced(headers, file) && ArgsOk(args, argLength, argc) && pid in r && r[pid] == map[]
    requires VM.Laid(r, r', pid, SpawnPages(headers, file, args, argLength, argc))
    ensures !CoveredBy(headers, STACK_TOP) ==> TopIs(r'[pid], argLength, argc)
    ensures ArgsAt(r'[pid], args) && JustThese(r'[pid], headers)
    ensures forall q: nat :: VM.STACK_PAGE <= q < STACK_TOP && !CoveredBy(headers, q) ==> ClearAt(r'[pid], q)
  {
    var pages, code, stack := SpawnPages(headers, file, args, argLength, argc), Code(headers, file), VM.StackPages(argLength, argc);
    var top := [VM.PageInit(VM.HEAP_PAGE, args)];
    assert pages == stack + code + top && pages == [] + stack + (code + top);
    StackReads(r, r', pid, [], code + top, argLength, argc);
    forall q: nat | VM.STACK_PAGE <= q <= STACK_TOP && !CoveredBy(headers, q) ensures !VM.Listed(code + top, q) {
      CodeCovers(headers, file, q);
      ListedEither(code, top, q);
    }
    ArgsShown(r, r', pid, stack + code, args);
    CodeIsCode(headers, file);
    ListedIff(headers, code, stack, top, pages);
  }

  method FillSpawn(table: VM.ProcessTable, pid: int, headers: seq<Phdr>, file: seq<Byte>, args: seq<Word>, argLength: nat, argc: nat, ghost r: Images)
    requires table.Valid() && table.StacksOk() && pid in table.dirs && AllPlaced(headers, file) && ArgsOk(args, argLength, argc)
    requires Reads(table.S()) == r && NoCopies(table.mmu.H(), table.dirs[pid])
    requires table.Free() >= VM.FramesFor({}, SpawnPages(headers, file, args, argLength, argc), 0)
    modifies table`heapEnd, table`stackFrames, table.mmu, table.mmu.phys.allocations
    ensures table.Valid() && table.StacksOk() && table.HeapMapped(pid) && unchanged(table`dirs)
    ensures table.heapEnd == old(table.heapEnd)[pid := VM.HEAP_PAGE + 1]
    ensures pid in table.stackFrames && table.stackFrames == old(table.stackFrames)[pid := table.stackFrames[pid]]
    ensures VM.Laid(r, Reads(table.S()), pid, SpawnPages(headers, file, args, argLength, argc)) && NoCopies(table.mmu.H(), table.dirs[pid])
    ensures UncoveredUnder(table.mmu.H(), table.dirs[pid], table.stackFrames[pid], headers)
  {
    table.Apart();
    ghost var h0 := table.mmu.H();
    var stack := LaySpawn(table, pid, headers, file, args, argLength, argc);
    VM.NoCopiesStill(h0, table.mmu.H(), table.dirs[pid]);
    Note(table, pid, stack, SpawnPages(headers, file, args, argLength, argc), r);
  }

  method LaySpawn(table: VM.ProcessTable, pid: int, headers: seq<Phdr>, file: seq<Byte>, args: seq<Word>, argLength: nat, argc: nat)
      returns (stack: seq<nat>)
    requires table.Valid() && pid in table.dirs && table.dirs[pid] < |table.mmu.mem| && AllPlaced(headers, file) && ArgsOk(args, argLength, argc)
    requires table.Free() >= VM.FramesFor({}, SpawnPages(headers, file, args, argLength, argc), 0)
    modifies table.mmu, table.mmu.phys.allocations
    ensures table.Valid() && VM.Known(table.mmu.phys.lower, table.mmu.phys.allocations.Length, stack)
    ensures VM.Laid(old(Reads(table.S())), Reads(table.S()), pid, SpawnPages(headers, file, args, argLength, argc))
    ensures FewerCopies(old(table.mmu.H()), table.mmu.H(), table.dirs[pid]) && UncoveredUnder(table.mmu.H(), table.dirs[pid], stack, headers)
  {
    table.Apart();
    var below, top := VM.StackPages(argLength, argc), [VM.PageInit(VM.HEAP_PAGE, args)];
    ghost var pages, code := SpawnPages(headers, file, args, argLength, argc), Code(headers, file);
    VM.FewerFrames({}, Tables(table.mmu.mem[table.dirs[pid]]), pages, 0);
    ghost var plan := table.StartLaying(pid, pages, 0);
    SpawnParts(headers, file, args, argLength, argc);
    ghost var h0 := table.mmu.H();
    stack := table.MapSome(pid, below, plan, [], 0, below, |below|);
    ghost var h1 := table.mmu.H();
    ghost var from := table.Resumed(pid, plan, below, |below|);
    LoadAll(table, pid, headers, file, from, below, |below|, below + code, |below| + |code|);
    var frames := table.MapSome(pid, top, from, below + code, |below| + |code|, pages, |pages|);
    VM.FewerStill(h0, h1, table.mmu.H(), table.dirs[pid]);
    CodeIsCode(headers, file);
    StackStays(h1, table.mmu.H(), table.dirs[pid], headers, below, code, top, pages, stack);
  }

  ghost predicate UncoveredUnder(h: Phys, d: nat, stack: seq<nat>, headers: seq<Phdr>) {
    && d < |h.mem| && |stack| == 5
    && forall k :: 0 <= k < 5 && !CoveredBy(headers, VM.STACK_PAGE + k) ==> VM.MapsTo(h, d, VM.STACK_PAGE + k, stack[k])
  }

  lemma StackStays(h: Phys, h': Phys, d: nat, headers: seq<Phdr>, below: seq<VM.PageInit>, code: seq<VM.PageInit>,
                   top: seq<VM.PageInit>, pages: seq<VM.PageInit>, stack: seq<nat>)
    requires AreCode(code, headers) && |top| == 1 && top[0].page == VM.HEAP_PAGE && pages == below + code + top
    requires StackAt(below) && |stack| == 5 && VM.Under(h, d, below, stack) && VM.MapsStay(h, h', d, pages, |below|)
    ensures UncoveredUnder(h', d, stack, headers)
  {
    forall k | 0 <= k < 5 && !CoveredBy(headers, VM.STACK_PAGE + k) ensures VM.MapsTo(h', d, VM.STACK_PAGE + k, stack[k]) {
      assert !VM.Listed(code, VM.STACK_PAGE + k);
      ListedEither(code, top, VM.STACK_PAGE + k);
      assert pages[|below|..] == code + top;
      assert VM.MapsTo(h, d, below[k].page, stack[k]);
    }
  }

  lemma StackIsStack(argLength: nat, argc: nat)
    requires argLength < VM.WORDS && argc + 1 < VM.WORDS
    ensures var stack := VM.StackPages(argLength, argc);
            StackAt(stack) && VM.Distinct(stack) && forall i :: 0 <= i < |stack| ==> stack[i].page < USER_PAGES && |stack[i].words| <= ENTRIES
  {
  }

  lemma SpawnParts(headers: seq<Phdr>, file: seq<Byte>, args: seq<Word>, argLength: nat, argc: nat)
    requires AllPlaced(headers, file) && ArgsOk(args, argLength, argc)
    ensures var pages, code := SpawnPages(headers, file, args, argLength, argc), Code(headers, file);
            var below, top := VM.StackPages(argLength, argc), [VM.PageInit(VM.HEAP_PAGE, args)];
            && VM.HasAt(pages, 0, below) && VM.HasAt(pages, |below|, code) && VM.HasAt(pages, |below| + |code|, top)
            && below == [] + below && pages == below + code + top && VM.Distinct(below) && StackAt(below)
            && (forall i :: 0 <= i < |below| ==> below[i].page < USER_PAGES && |below[i].words| <= ENTRIES)
            && forall i :: 0 <= i < |top| ==> top[i].page < USER_PAGES && |top[i].words| <= ENTRIES
  {
    var pages, code := SpawnPages(headers, file, args, argLength, argc), Code(headers, file);
    var below, top := VM.StackPages(argLength, argc), [VM.PageInit(VM.HEAP_PAGE, args)];
    ThreeParts(below, code, top, pages);
    StackIsStack(argLength, argc);
  }

  lemma SpawnShows(r: Images, r': Images, pid: int, headers: seq<Phdr>, file: seq<Byte>, args: seq<Word>, argLength: nat, argc: nat)
    requires AllPlaced(headers, file) && ArgsOk(args, argLength, argc)
    requires VM.Laid(r, r', pid, SpawnPages(headers, file, args, argLength, argc))
    ensures AllShown(r'[pid], headers, file, [VM.PageInit(VM.HEAP_PAGE, args)])
  {
    var later := [VM.PageInit(VM.HEAP_PAGE, args)];
    forall i: nat, x: nat | ShownIn(headers, i, x / PAGE, later)
      ensures Placed(headers[i], file) && ShowsByte(r'[pid], headers[i], file, x)
    {
      SegmentShown(r, r', pid, VM.StackPages(argLength, argc), later, headers, file, i, x / PAGE);
      BytesShown(r'[pid], headers[i], file, x);
    }
  }
}
