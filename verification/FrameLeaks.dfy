/** By how much a frame is counted more often than it is mapped: what every step adds to that, exactly,
    and what becomes of a frame with such an excess. Two steps add to it: a fork, which counts the
    recorded stack frames twice, and the mapping of a page over one that is there. No step takes
    away from it, so such a frame is never handed out again, whoever is destroyed. */
module FrameLeaks {
  import opened PhysicalFrames
  import opened PageEntries
  import opened PageTables
  import opened Paging
  import opened CopyOnWrite
  import opened AddressSpaces
  import opened ProcessMemory
  import opened Runs

  ghost predicate NoTable(h: Phys, dirs: Dirs, f: nat)
    requires DirsInMem(h, dirs)
  {
    forall b :: b in dirs ==> !InStruct(h.mem, dirs[b], f)
  }

  /** The frame at slot t holds no table and is counted k times more than it is mapped. */
  ghost predicate Excess(h: Phys, dirs: Dirs, t: nat, k: nat) {
    && DirsInMem(h, dirs) && t < |h.counts| && h.counts[t] == |Refs(SpacesOf(h, dirs), t)| + k
    && NoTable(h, dirs, FrameOf(h.lower, t))
  }

  /** The same, and the frame is in use. */
  ghost predicate InUse(h: Phys, dirs: Dirs, t: nat, k: nat) {
    Excess(h, dirs, t, k) && h.counts[t] > 0
  }

  lemma ExcessHeld(h: Phys, dirs: Dirs, t: nat, k: nat)
    requires PhysOk(h) && InUse(h, dirs, t, k)
    ensures Slot(h.lower, FrameOf(h.lower, t)) == t && Held(h, FrameOf(h.lower, t))
  {
    IndexRoundTrip(h.lower, t);
  }

  // ----- one step -----

  /** Tables, mappings and the count as before. */
  lemma ExcessKept(h: Phys, h': Phys, dirs: Dirs, t: nat, k: nat)
    requires StructInv(h, dirs) && TablesKept(h, h', dirs) && InUse(h, dirs, t, k) && h'.counts[t] == h.counts[t]
    ensures InUse(h', dirs, t, k)
  {
    TablesKeptInv(h, h', dirs);
  }

  lemma NoTableSet(h: Phys, h': Phys, dirs: Dirs, a: int, p: int, w: Word, f: nat)
    requires StructInv(h, dirs) && a in dirs && 0 <= p < USER_PAGES && Held(h, f) && NoTable(h, dirs, f)
    requires EntrySet(h, h', dirs[a], p, w, true) && Settable(h, dirs, w)
    ensures DirsInMem(h', dirs) && NoTable(h', dirs, f)
  {
    forall b | b in dirs ensures !InStruct(h'.mem, dirs[b], f) {
      if b == a {
        EntrySetAvoids(h, h', dirs[a], p, w, f);
      } else {
        EntrySetOther(h, h', dirs, a, b, p, w);
      }
    }
  }

  /** Page p of a maps the frame at slot t. */
  ghost predicate MapsAt(h: Phys, dirs: Dirs, a: int, p: int, t: nat) {
    var spaces := SpacesOf(h, dirs); a in spaces && p in spaces[a] && spaces[a][p].slot == t
  }

  /** A page is mapped to a frame that no other page maps; the frame that it led to before loses a
      mapping. */
  lemma ExcessSet(h: Phys, h': Phys, dirs: Dirs, a: int, p: int, n: FrameNumber, t: nat)
    requires StructInv(h, dirs) && a in dirs && 0 <= p < USER_PAGES && t < |h.counts|
    requires EntrySet(h, h', dirs[a], p, UserEntry(n), true) && Settable(h, dirs, UserEntry(n))
    requires OnlyAt(SpacesOf(h, dirs), Slot(h.lower, n), a, p) && Held(h, FrameOf(h.lower, t)) && NoTable(h, dirs, FrameOf(h.lower, t))
    requires Slot(h.lower, FrameOf(h.lower, t)) == t
    ensures DirsInMem(h', dirs) && NoTable(h', dirs, FrameOf(h.lower, t)) && h'.counts[t] == h.counts[t]
    ensures |Refs(SpacesOf(h', dirs), t)|
         == if t == Slot(h.lower, n) then 1 else |Refs(SpacesOf(h, dirs), t)| - (if MapsAt(h, dirs, a, p, t) then 1 else 0)
  {
    EntrySetSpaces(h, h', dirs, a, p, UserEntry(n));
    RefsMapped(SpacesOf(h, dirs), a, p, Pte(Slot(h.lower, n), true), t);
    NoTableSet(h, h', dirs, a, p, UserEntry(n), FrameOf(h.lower, t));
  }

  lemma ExcessClaimed(h: Phys, h': Phys, dirs: Dirs, n: nat, fill: Page, t: nat, k: nat)
    requires Inv(h, dirs) && Claimed(h, h', n, fill) && InUse(h, dirs, t, k)
    ensures InUse(h', dirs, t, k) && t != Slot(h.lower, n)
  {
    ClaimedTables(h, h', dirs, n, fill);
    ExcessKept(h, h', dirs, t, k);
  }

  /** A page mapped over another one leaves the count of that one's frame as it was. */
  lemma ExcessMap(h: Phys, h': Phys, dirs: Dirs, a: int, p: int, fill: Page, t: nat, k: nat)
    requires Inv(h, dirs) && a in dirs && 0 <= p < USER_PAGES && FreshMapped(h, h', dirs[a], p, fill) && InUse(h, dirs, t, k)
    ensures Excess(h', dirs, t, k + if MapsAt(h, dirs, a, p, t) then 1 else 0)
  {
    var n: FrameNumber, h1: Phys :| Claimed(h, h1, n, fill) && EntrySet(h1, h', dirs[a], p, UserEntry(n), true);
    ClaimedKeeps(h, h1, dirs, n, fill);
    ExcessClaimed(h, h1, dirs, n, fill, t, k);
    ExcessHeld(h1, dirs, t, k);
    ExcessSet(h1, h', dirs, a, p, n, t);
  }

  lemma ExcessFault(h: Phys, h': Phys, dirs: Dirs, a: int, p: int, t: nat, k: nat)
    requires Inv(h, dirs) && a in dirs && 0 <= p < USER_PAGES && EntryAt(h.mem, dirs[a], p).present
    requires Faulted(h, h', dirs[a], p) && InUse(h, dirs, t, k)
    ensures InUse(h', dirs, t, k)
  {
    var f := EntryAt(h.mem, dirs[a], p).frame;
    if h.counts[Slot(h.lower, f)] == 1 {
      ExcessOwned(h, h', dirs, a, p, f, t, k);
    } else {
      var n: FrameNumber, h1: Phys, h2: Phys :|
        CountLowered(h, h1, f) && Claimed(h1, h2, n, h.mem[f]) && EntrySet(h2, h', dirs[a], p, UserEntry(n), true);
      ExcessCopied(h, h1, h2, h', dirs, a, p, f, n, t, k);
    }
  }

  lemma ExcessOwned(h: Phys, h': Phys, dirs: Dirs, a: int, p: int, f: FrameNumber, t: nat, k: nat)
    requires Inv(h, dirs) && a in dirs && 0 <= p < USER_PAGES && EntryAt(h.mem, dirs[a], p).present && f == EntryAt(h.mem, dirs[a], p).frame
    requires Slot(h.lower, f) >= 0 && Slot(h.lower, f) < |h.counts| && h.counts[Slot(h.lower, f)] == 1
    requires EntrySet(h, h', dirs[a], p, UserEntry(f), true) && InUse(h, dirs, t, k)
    ensures InUse(h', dirs, t, k)
  {
    SlotContent(h, dirs, a, p);
    ExcessHeld(h, dirs, t, k);
    CountOneIsSole(h.counts, SpacesOf(h, dirs), a, p);
    if t == Slot(h.lower, f) {
      assert Ref(a, p) in Refs(SpacesOf(h, dirs), t);
    }
    ExcessSet(h, h', dirs, a, p, f, t);
  }

  lemma ExcessCopied(h: Phys, h1: Phys, h2: Phys, h': Phys, dirs: Dirs, a: int, p: int, f: nat, n: FrameNumber, t: nat, k: nat)
    requires Inv(h, dirs) && a in dirs && 0 <= p < USER_PAGES && EntryAt(h.mem, dirs[a], p).present
    requires f == EntryAt(h.mem, dirs[a], p).frame && f < |h.mem| && InUse(h, dirs, t, k)
    requires CountLowered(h, h1, f) && Claimed(h1, h2, n, h.mem[f]) && EntrySet(h2, h', dirs[a], p, UserEntry(n), true)
    ensures InUse(h', dirs, t, k)
  {
    SlotContent(h, dirs, a, p);
    var hc := ClaimFirst(h, h1, h2, f, n, h.mem[f]);
    FaultMid(h, hc, h2, dirs, f, n, h.mem[f]);
    ExcessMid(h, hc, h2, dirs, f, n, h.mem[f], t, k);
    assert MapsAt(h2, dirs, a, p, t) <==> t == Slot(h.lower, f);
    ExcessSet(h2, h', dirs, a, p, n, t);
  }

  /** Between the copy and the remapping: the count of f is short by one, all else stands. */
  lemma ExcessMid(h: Phys, hc: Phys, h2: Phys, dirs: Dirs, f: nat, n: nat, fill: Page, t: nat, k: nat)
    requires Inv(h, dirs) && Claimed(h, hc, n, fill) && CountLowered(hc, h2, f) && InUse(h, dirs, t, k)
    ensures t != Slot(h.lower, n) && Slot(h.lower, FrameOf(h.lower, t)) == t && Held(h2, FrameOf(h.lower, t))
    ensures DirsInMem(h2, dirs) && NoTable(h2, dirs, FrameOf(h.lower, t)) && SpacesOf(h2, dirs) == SpacesOf(h, dirs)
    ensures h2.counts[t] + (if t == Slot(h.lower, f) then 1 else 0) == |Refs(SpacesOf(h, dirs), t)| + k && h2.counts[t] > 0
  {
    ExcessClaimed(h, hc, dirs, n, fill, t, k);
    ExcessHeld(h, dirs, t, k);
    ClaimedKeeps(h, hc, dirs, n, fill);
    LoweredHeld(hc, h2, f);
    HeldTables(hc, h2, dirs);
    TablesKeptInv(hc, h2, dirs);
  }

  lemma ExcessStore(h: Phys, h': Phys, dirs: Dirs, a: int, p: int, j: int, w: Word, t: nat, k: nat)
    requires Inv(h, dirs) && a in dirs && 0 <= p < USER_PAGES && 0 <= j < ENTRIES
    requires EntryAt(h.mem, dirs[a], p).present && Stored(h, h', dirs[a], p, j, w) && InUse(h, dirs, t, k)
    ensures InUse(h', dirs, t, k)
  {
    var d := dirs[a];
    var h1: Phys :|
      && (if UserWritable(h.mem, d, p) then h1 == h else Faulted(h, h1, d, p))
      && PhysOk(h1) && ZeroHeld(h1) && d < |h1.mem| && UserWritable(h1.mem, d, p) && EntryAt(h1.mem, d, p).frame < |h1.mem|
      && h' == h1.(mem := h1.mem[EntryAt(h1.mem, d, p).frame := WithEntry(h1.mem[EntryAt(h1.mem, d, p).frame], j, w)]);
    if !UserWritable(h.mem, d, p) {
      FaultInvisible(h, h1, dirs, a, p);
      ExcessFault(h, h1, dirs, a, p, t, k);
    }
    ExcessWritten(h1, h', dirs, a, p, j, w, t, k);
  }

  lemma ExcessWritten(h: Phys, h': Phys, dirs: Dirs, a: int, p: int, j: int, w: Word, t: nat, k: nat)
    requires StructInv(h, dirs) && a in dirs && 0 <= p < USER_PAGES && EntryAt(h.mem, dirs[a], p).present
    requires FrameWritten(h, h', EntryAt(h.mem, dirs[a], p).frame, j, w) && InUse(h, dirs, t, k)
    ensures InUse(h', dirs, t, k)
  {
    WriteTables(h, h', dirs, a, p, j, w);
    ExcessKept(h, h', dirs, t, k);
  }

  lemma ExcessCreate(h: Phys, h': Phys, dirs: Dirs, a: int, nd: nat, dir: Page, t: nat, k: nat)
    requires Inv(h, dirs) && a !in dirs && Claimed(h, h', nd, dir) && InUse(h, dirs, t, k)
    requires forall i :: 0 <= i < USER_TABLES ==> dir[i] == ZERO
    ensures Excess(h', dirs[a := nd], t, k)
  {
    ClaimedKeeps(h, h', dirs, nd, dir);
    ExcessClaimed(h, h', dirs, nd, dir, t, k);
    EmptyDirectory(h', nd);
    ExcessAdded(h', dirs, a, nd, t, k);
  }

  lemma ExcessAdded(h: Phys, dirs: Dirs, a: int, nd: nat, t: nat, k: nat)
    requires PhysOk(h) && a !in dirs && nd < |h.mem| && FlatOf(h, nd) == map[] && InUse(h, dirs, t, k) && t != Slot(h.lower, nd)
    requires forall f: nat :: InStruct(h.mem, nd, f) <==> f == nd
    ensures Excess(h, dirs[a := nd], t, k)
  {
    ExcessHeld(h, dirs, t, k);
    CreateSpaces(h, dirs, a, nd);
    assert Refs(SpacesOf(h, dirs)[a := map[]], t) == Refs(SpacesOf(h, dirs), t);
  }

  lemma RefsForked(spaces: Spaces, a: int, c: int, t: int)
    requires a in spaces && c !in spaces
    ensures |Refs(Forked(spaces, a, c), t)| == |Refs(spaces, t)| + |PagesAt(spaces[a], t)|
  {
    PagesAtShared(spaces[a], t);
    RefsReplace(spaces, a, Shared(spaces[a]), t);
    RefsReplace(spaces[a := Shared(spaces[a])], c, Shared(spaces[a]), t);
  }

  /** A clone: the count rises by the new mappings, and once more for each time the frame is recorded
      as a stack frame. */
  lemma ExcessFork(h: Phys, h': Phys, dirs: Dirs, a: int, c: int, nd: nat, stack: seq<nat>, t: nat, k: nat)
    requires Inv(h, dirs) && a in dirs && c !in dirs && ForkedDir(h, h', dirs[a], nd, stack) && PhysOk(h') && ZeroHeld(h')
    requires InUse(h, dirs, t, k)
    ensures Excess(h', dirs[c := nd], t, k + Times(h.lower, stack, t))
  {
    var h1: Phys :| Cloned(h, h1, dirs[a], nd, USER_TABLES) && PhysOk(h1) && ZeroHeld(h1) && SharedEach(h1, h', stack);
    ExcessHeld(h, dirs, t, k);
    CountCloned(h, h1, dirs, a, nd, t);
    NoTableCloned(h, h1, dirs, a, c, nd, FrameOf(h.lower, t));
    ClonedSpaces(h, h1, dirs, a, c, nd);
    RefsForked(SpacesOf(h, dirs), a, c, t);
    SameSpaces(h1, h', dirs[c := nd]);
  }

  lemma SameSpaces(h: Phys, h': Phys, dirs: Dirs)
    requires h'.mem == h.mem && h'.lower == h.lower
    ensures SpacesOf(h', dirs) == SpacesOf(h, dirs)
  {
    forall b | b in dirs ensures FlatOf(h', dirs[b]) == FlatOf(h, dirs[b]) {
    }
  }

  lemma CountCloned(h: Phys, h': Phys, dirs: Dirs, a: int, nd: nat, t: nat)
    requires StructInv(h, dirs) && a in dirs && Cloned(h, h', dirs[a], nd, USER_TABLES) && t < |h.counts|
    requires Held(h, FrameOf(h.lower, t)) && Slot(h.lower, FrameOf(h.lower, t)) == t
    ensures h'.counts[t] == h.counts[t] + |PagesAt(SpacesOf(h, dirs)[a], t)|
  {
    PagesAtIsPagesOf(h, dirs[a], t);
    ClonedAvoids(h, h', dirs[a], nd, FrameOf(h.lower, t));
  }

  lemma NoTableCloned(h: Phys, h': Phys, dirs: Dirs, a: int, c: int, nd: nat, f: nat)
    requires StructInv(h, dirs) && a in dirs && c !in dirs && Cloned(h, h', dirs[a], nd, USER_TABLES)
    requires Held(h, f) && NoTable(h, dirs, f)
    ensures DirsInMem(h', dirs[c := nd]) && NoTable(h', dirs[c := nd], f)
  {
    ClonedAvoids(h, h', dirs[a], nd, f);
    ClonedNew(h, h', dirs[a], nd);
    ClonedSource(h, h', dirs[a], nd);
    forall b | b in dirs && b != a ensures !InStruct(h'.mem, dirs[b], f) {
      ClonedOther(h, h', dirs, a, b, nd);
    }
  }

  lemma ExcessClear(h: Phys, h': Phys, dirs: Dirs, a: int, t: nat, k: nat)
    requires Inv(h, dirs) && a in dirs && DropProgress(h, h', dirs[a], USER_TABLES, true) && PhysOk(h') && InUse(h, dirs, t, k)
    ensures Excess(h', dirs, t, k)
  {
    ExcessHeld(h, dirs, t, k);
    EmptiedDropped(h, h', dirs[a]);
    DropKeeps(h, h', dirs, a, FrameOf(h.lower, t));
    EmptiedSpaces(h, h', dirs, a);
    RefsReplace(SpacesOf(h, dirs), a, map[], t);
    assert PagesAt(map[], t) == {};
    EmptiedSpace(h, h', dirs[a]);
    assert InStruct(h.mem, dirs[a], dirs[a]);
    forall b | b in dirs && b != a ensures !InStruct(h'.mem, dirs[b], FrameOf(h.lower, t)) {
      DropOther(h, h', dirs, a, b);
    }
  }

  lemma ExcessDestroy(h: Phys, h': Phys, dirs: Dirs, a: int, t: nat, k: nat)
    requires Inv(h, dirs) && a in dirs && Nuked(h, h', dirs[a]) && PhysOk(h') && InUse(h, dirs, t, k)
    ensures Excess(h', dirs - {a}, t, k)
  {
    ExcessHeld(h, dirs, t, k);
    NukedDropped(h, h', dirs[a]);
    DropKeeps(h, h', dirs, a, FrameOf(h.lower, t));
    NukedSpaces(h, h', dirs, a);
    RefsRemove(SpacesOf(h, dirs), a, t);
  }

  // ----- what every step adds -----

  /** What a step adds to the excess of the frame at slot t: a fork, once for each time the frame is
      recorded as a stack frame; a mapping, one if it goes over a page on that frame; any other
      step, nothing. */
  ghost predicate Adds(s: Vm, s': Vm, step: Step, t: nat, n: nat) {
    match step
    case Fork(a, c) =>
      exists nd: nat, stack: seq<nat> ::
        && a in s.dirs && s.dirs[a] < |s.h.mem| && s'.dirs == s.dirs[c := nd] && ForkedDir(s.h, s'.h, s.dirs[a], nd, stack)
        && n == Times(s.h.lower, stack, t)
    case Map(a, p, fill) => n == if MapsAt(s.h, s.dirs, a, p, t) then 1 else 0
    case _ => n == 0
  }

  lemma AddsSomething(s: Vm, s': Vm, step: Step, t: nat) returns (n: nat)
    requires Transition(s, s', step)
    ensures Adds(s, s', step, t, n)
  {
    match step
    case Fork(a, c) =>
      var nd: nat, stack: seq<nat> :| a in s.dirs && s'.dirs == s.dirs[c := nd] && ForkedDir(s.h, s'.h, s.dirs[a], nd, stack);
      n := Times(s.h.lower, stack, t);
    case Map(a, p, fill) => n := if MapsAt(s.h, s.dirs, a, p, t) then 1 else 0;
    case _ => n := 0;
  }

  /** The exact law: the excess of a data frame in use grows by just that in every step, the
      destruction of a process included. */
  lemma StepAddsExcess(s: Vm, s': Vm, step: Step, t: nat, k: nat, n: nat)
    requires VmInv(s) && Transition(s, s', step) && InUse(s.h, s.dirs, t, k) && Adds(s, s', step, t, n)
    ensures Excess(s'.h, s'.dirs, t, k + n)
  {
    var h, h', dirs := s.h, s'.h, s.dirs;
    match step
    case Create(a) =>
      var nd: nat, dir: Page :|
        && a !in dirs && s'.dirs == dirs[a := nd] && Claimed(h, h', nd, dir)
        && (forall i :: 0 <= i < USER_TABLES ==> dir[i] == ZERO);
      ExcessCreate(h, h', dirs, a, nd, dir, t, k);
    case Fork(a, c) =>
      var nd: nat, stack: seq<nat> :|
        && a in dirs && s'.dirs == dirs[c := nd] && ForkedDir(h, h', dirs[a], nd, stack)
        && n == Times(h.lower, stack, t);
      ExcessFork(h, h', dirs, a, c, nd, stack, t, k);
    case Write(a, p, j, w) =>
      if EntryAt(h.mem, dirs[a], p).present {
        ExcessStore(h, h', dirs, a, p, j, w, t, k);
      }
    case Map(a, p, fill) => ExcessMap(h, h', dirs, a, p, fill, t, k);
    case Clear(a) => ExcessClear(h, h', dirs, a, t, k);
    case Destroy(a) => ExcessDestroy(h, h', dirs, a, t, k);
  }

  // ----- frames that are taken -----

  /** The frame at slot t was free and is a data frame in use. */
  ghost predicate Taken(h: Phys, h': Phys, dirs: Dirs, t: nat) {
    && t < |h.counts| == |h'.counts| && h.counts[t] == 0 && h'.counts[t] > 0 && h'.lower == h.lower
    && DirsInMem(h', dirs) && NoTable(h', dirs, FrameOf(h.lower, t))
  }

  /** A page is mapped to the fresh frame n: only that one is taken, and it is mapped once. */
  lemma TakenSet(h: Phys, h1: Phys, h': Phys, dirs: Dirs, a: int, p: int, n: FrameNumber, t: nat)
    requires StructInv(h1, dirs) && a in dirs && 0 <= p < USER_PAGES && Taken(h, h', dirs, t) && h1.lower == h.lower
    requires EntrySet(h1, h', dirs[a], p, UserEntry(n), true) && Settable(h1, dirs, UserEntry(n))
    requires OnlyAt(SpacesOf(h1, dirs), Slot(h.lower, n), a, p) && |h1.counts| == |h.counts|
    requires t == Slot(h.lower, n) ==> h1.counts[t] == 1
    requires t != Slot(h.lower, n) ==> h1.counts[t] == 0
    ensures Excess(h', dirs, t, 0)
  {
    IndexRoundTrip(h.lower, t);
    if t != Slot(h.lower, n) {
      assert false;
    } else {
      SlotsDiffer(h1, n, FrameOf(h.lower, t));
      ExcessSet(h1, h', dirs, a, p, n, t);
    }
  }

  lemma TakenMap(h: Phys, h': Phys, dirs: Dirs, a: int, p: int, fill: Page, t: nat)
    requires Inv(h, dirs) && a in dirs && 0 <= p < USER_PAGES && FreshMapped(h, h', dirs[a], p, fill) && Taken(h, h', dirs, t)
    ensures Excess(h', dirs, t, 0)
  {
    var n: FrameNumber, h1: Phys :| Claimed(h, h1, n, fill) && EntrySet(h1, h', dirs[a], p, UserEntry(n), true);
    ClaimedKeeps(h, h1, dirs, n, fill);
    TakenSet(h, h1, h', dirs, a, p, n, t);
  }

  lemma TakenFault(h: Phys, h': Phys, dirs: Dirs, a: int, p: int, t: nat)
    requires Inv(h, dirs) && a in dirs && 0 <= p < USER_PAGES && EntryAt(h.mem, dirs[a], p).present
    requires Faulted(h, h', dirs[a], p) && Taken(h, h', dirs, t)
    ensures Excess(h', dirs, t, 0)
  {
    var f := EntryAt(h.mem, dirs[a], p).frame;
    SlotContent(h, dirs, a, p);
    if h.counts[Slot(h.lower, f)] == 1 {
      CountOneIsSole(h.counts, SpacesOf(h, dirs), a, p);
      TakenSet(h, h, h', dirs, a, p, f, t);
    } else {
      var n: FrameNumber, h1: Phys, h2: Phys :|
        CountLowered(h, h1, f) && Claimed(h1, h2, n, h.mem[f]) && EntrySet(h2, h', dirs[a], p, UserEntry(n), true);
      var hc := ClaimFirst(h, h1, h2, f, n, h.mem[f]);
      FaultMid(h, hc, h2, dirs, f, n, h.mem[f]);
      TakenSet(h, h2, h', dirs, a, p, n, t);
    }
  }

  lemma TakenBefore(h: Phys, h1: Phys, h': Phys, dirs: Dirs, a: int, p: int, j: int, w: Word, t: nat)
    requires StructInv(h1, dirs) && a in dirs && 0 <= p < USER_PAGES && EntryAt(h1.mem, dirs[a], p).present
    requires FrameWritten(h1, h', EntryAt(h1.mem, dirs[a], p).frame, j, w) && Taken(h, h', dirs, t)
    ensures Taken(h, h1, dirs, t)
  {
    WriteTables(h1, h', dirs, a, p, j, w);
    TablesKeptInv(h1, h', dirs);
  }

  lemma TakenStore(h: Phys, h': Phys, dirs: Dirs, a: int, p: int, j: int, w: Word, t: nat)
    requires Inv(h, dirs) && a in dirs && 0 <= p < USER_PAGES && 0 <= j < ENTRIES
    requires EntryAt(h.mem, dirs[a], p).present && Stored(h, h', dirs[a], p, j, w) && Taken(h, h', dirs, t)
    ensures Excess(h', dirs, t, 0)
  {
    var d := dirs[a];
    var h1: Phys :|
      && (if UserWritable(h.mem, d, p) then h1 == h else Faulted(h, h1, d, p))
      && PhysOk(h1) && ZeroHeld(h1) && d < |h1.mem| && UserWritable(h1.mem, d, p) && EntryAt(h1.mem, d, p).frame < |h1.mem|
      && h' == h1.(mem := h1.mem[EntryAt(h1.mem, d, p).frame := WithEntry(h1.mem[EntryAt(h1.mem, d, p).frame], j, w)]);
    FaultInvisible(h, h1, dirs, a, p);
    TakenBefore(h, h1, h', dirs, a, p, j, w, t);
    TakenFault(h, h1, dirs, a, p, t);
    ExcessWritten(h1, h', dirs, a, p, j, w, t, 0);
  }

  /** A clone takes frames for its directory and its tables only. */
  lemma CloneTakes(h: Phys, h': Phys, src: nat, nd: nat, stack: seq<nat>, t: nat)
    requires PhysOk(h) && SpaceOk(h, src) && ForkedDir(h, h', src, nd, stack)
    requires t < |h.counts| == |h'.counts| && h.counts[t] == 0 && h'.counts[t] > 0
    ensures nd < |h'.mem| && InStruct(h'.mem, nd, FrameOf(h.lower, t))
  {
    var h1: Phys :| Cloned(h, h1, src, nd, USER_TABLES) && PhysOk(h1) && ZeroHeld(h1) && SharedEach(h1, h', stack);
    ClonedNew(h, h1, src, nd);
    assert h1.counts[t] > 0;
    assert IsNew(h1.mem, nd, USER_TABLES, FrameOf(h.lower, t));
  }

  lemma CreateTakes(h: Phys, h': Phys, nd: nat, dir: Page, t: nat)
    requires PhysOk(h) && Claimed(h, h', nd, dir) && t < |h.counts| && h.counts[t] == 0 && h'.counts[t] > 0
    ensures nd == FrameOf(h.lower, t)
  {
    IndexRoundTrip(h.lower, t);
    SlotsDiffer(h, nd, FrameOf(h.lower, t));
  }

  lemma NoNewStruct(h': Phys, dirs: Dirs, c: int, nd: nat, f: nat)
    requires DirsInMem(h', dirs[c := nd]) && NoTable(h', dirs[c := nd], f) && nd < |h'.mem|
    ensures !InStruct(h'.mem, nd, f)
  {
    assert dirs[c := nd][c] == nd;
  }

  /** A data frame that a step takes has no excess. */
  lemma TakenHasNone(s: Vm, s': Vm, step: Step, t: nat)
    requires VmInv(s) && Transition(s, s', step) && Taken(s.h, s'.h, s'.dirs, t)
    ensures Excess(s'.h, s'.dirs, t, 0)
  {
    var h, h', dirs := s.h, s'.h, s.dirs;
    match step
    case Create(a) =>
      var nd: nat, dir: Page :|
        && a !in dirs && s'.dirs == dirs[a := nd] && Claimed(h, h', nd, dir)
        && (forall i :: 0 <= i < USER_TABLES ==> dir[i] == ZERO);
      NoNewStruct(h', dirs, a, nd, FrameOf(h.lower, t));
      CreateTakes(h, h', nd, dir, t);
      assert false;
    case Fork(a, c) =>
      var nd: nat, stack: seq<nat> :| a in dirs && c !in dirs && s'.dirs == dirs[c := nd] && ForkedDir(h, h', dirs[a], nd, stack);
      NoNewStruct(h', dirs, c, nd, FrameOf(h.lower, t));
      CloneTakes(h, h', dirs[a], nd, stack, t);
      assert false;
    case Write(a, p, j, w) =>
      TakenStore(h, h', dirs, a, p, j, w, t);
    case Map(a, p, fill) => TakenMap(h, h', dirs, a, p, fill, t);
  }

  /** A data frame is free if and only if nobody maps it and it has no excess. */
  lemma FreeIff(s: Vm, t: nat, k: nat)
    requires Excess(s.h, s.dirs, t, k)
    ensures t in FreeSlots(s.h.counts) <==> Refs(SpacesOf(s.h, s.dirs), t) == {} && k == 0
  {
  }

  // ----- every run -----

  function Sum(ns: seq<nat>): nat {
    if ns == [] then 0 else Sum(ns[..|ns| - 1]) + ns[|ns| - 1]
  }

  /** ns is what the steps of a run add to the excess of the frame. */
  ghost predicate AddsAll(states: seq<Vm>, steps: seq<Step>, t: nat, ns: seq<nat>) {
    |states| == |steps| + 1 && |ns| == |steps| && forall j :: 0 <= j < |steps| ==> Adds(states[j], states[j + 1], steps[j], t, ns[j])
  }

  ghost predicate HasExcess(s: Vm, t: nat, k: nat) {
    VmInv(s) && Excess(s.h, s.dirs, t, k)
  }

  lemma StepHasExcess(s: Vm, s': Vm, step: Step, t: nat, k: nat, n: nat, m: nat)
    requires m == k + n && HasExcess(s, t, k) && t !in FreeSlots(s.h.counts) && Transition(s, s', step) && Adds(s, s', step, t, n)
    ensures HasExcess(s', t, m)
  {
    StepRefines(s, s', step);
    StepAddsExcess(s, s', step, t, k, n);
  }

  /** Over every run in which the frame stays in use, its excess grows by what the steps add in all;
      so, once nobody maps it, it is free if and only if it had none and no step added any. */
  lemma {:induction false} RunAddsExcess(states: seq<Vm>, steps: seq<Step>, ns: seq<nat>, i: nat, t: nat, k: nat)
    requires IsRun(Transition, states, steps) && AddsAll(states, steps, t, ns) && i < |states| && HasExcess(states[0], t, k)
    requires forall j :: 0 <= j < i ==> t !in FreeSlots(states[j].h.counts)
    ensures HasExcess(states[i], t, k + Sum(ns[..i]))
    ensures Refs(SpacesOf(states[i].h, states[i].dirs), t) == {} ==>
              (t in FreeSlots(states[i].h.counts) <==> k == 0 && Sum(ns[..i]) == 0)
    decreases i
  {
    if i > 0 {
      var s, s', n := states[i - 1], states[i], ns[i - 1];
      SumNext(ns, i);
      RunAddsExcess(states, steps, ns, i - 1, t, k);
      assert Transition(s, s', steps[i - 1]) && Adds(s, s', steps[i - 1], t, n);
      StepHasExcess(s, s', steps[i - 1], t, k + Sum(ns[..i - 1]), n, k + Sum(ns[..i]));
    }
    FreeIff(states[i], t, k + Sum(ns[..i]));
  }

  lemma SumNext(ns: seq<nat>, i: nat)
    requires 0 < i <= |ns|
    ensures Sum(ns[..i]) == Sum(ns[..i - 1]) + ns[i - 1]
  {
    assert ns[..i][..i - 1] == ns[..i - 1];
  }

  /** The frame has an excess of k or more. */
  ghost predicate Lost(s: Vm, t: nat, k: nat) {
    VmInv(s) && k > 0 && exists m: nat :: m >= k && Excess(s.h, s.dirs, t, m)
  }

  lemma StepKeepsLost(s: Vm, s': Vm, step: Step, t: nat, k: nat)
    requires Lost(s, t, k) && Transition(s, s', step)
    ensures Lost(s', t, k)
  {
    var m: nat :| m >= k && Excess(s.h, s.dirs, t, m);
    StepRefines(s, s', step);
    var n := AddsSomething(s, s', step, t);
    StepAddsExcess(s, s', step, t, m, n);
  }

  /** In every run such a frame keeps its excess and is never free, so it is never handed out again. */
  lemma NeverFreeAgain(states: seq<Vm>, steps: seq<Step>, i: nat, t: nat, k: nat)
    requires IsRun(Transition, states, steps) && i < |states| && Lost(states[0], t, k)
    ensures Lost(states[i], t, k) && t !in FreeSlots(states[i].h.counts)
  {
    forall s, s', step | Lost(s, t, k) && Transition(s, s', step) ensures Lost(s', t, k) {
      StepKeepsLost(s, s', step, t, k);
    }
    Simulation(Transition, s => Lost(s, t, k), s => 0, (n: int, step) => 0, states, steps, i);
  }

  // ----- the two ways to lose a frame -----

  /** The frame under a page is a data frame in use. */
  lemma MappedInUse(s: Vm, a: int, p: int) returns (t: nat, k: nat)
    requires VmInv(s) && a in s.dirs && 0 <= p < USER_PAGES && EntryAt(s.h.mem, s.dirs[a], p).present
    ensures t == Slot(s.h.lower, EntryAt(s.h.mem, s.dirs[a], p).frame) && InUse(s.h, s.dirs, t, k) && MapsAt(s.h, s.dirs, a, p, t)
  {
    SlotContent(s.h, s.dirs, a, p);
    t := Slot(s.h.lower, EntryAt(s.h.mem, s.dirs[a], p).frame);
    k := s.h.counts[t] - |Refs(SpacesOf(s.h, s.dirs), t)|;
    assert Ref(a, p) in Refs(SpacesOf(s.h, s.dirs), t);
  }

  /** A fork loses every frame that is recorded as a stack frame of the parent and that the parent
      maps: it is never free again, even when parent and child are destroyed. */
  lemma ForkLosesStack(s: Vm, s': Vm, a: int, c: int, nd: nat, stack: seq<nat>, p: int)
    requires VmInv(s) && a in s.dirs && c !in s.dirs && s'.dirs == s.dirs[c := nd] && 0 <= p < USER_PAGES
    requires ForkedDir(s.h, s'.h, s.dirs[a], nd, stack) && PhysOk(s'.h) && ZeroHeld(s'.h)
    requires EntryAt(s.h.mem, s.dirs[a], p).present && EntryAt(s.h.mem, s.dirs[a], p).frame in stack
    ensures var t := Slot(s.h.lower, EntryAt(s.h.mem, s.dirs[a], p).frame); t >= 0 && Lost(s', t, 1)
  {
    var t, k := MappedInUse(s, a, p);
    TimesOfMember(s.h.lower, stack, EntryAt(s.h.mem, s.dirs[a], p).frame);
    StepRefines(s, s', Fork(a, c));
    ExcessFork(s.h, s'.h, s.dirs, a, c, nd, stack, t, k);
  }

  /** And so does a page mapped over one that is there: the frame below is lost. */
  lemma MapLosesFrame(s: Vm, s': Vm, a: int, p: int, fill: Page)
    requires VmInv(s) && Transition(s, s', Map(a, p, fill)) && EntryAt(s.h.mem, s.dirs[a], p).present
    ensures var t := Slot(s.h.lower, EntryAt(s.h.mem, s.dirs[a], p).frame); t >= 0 && Lost(s', t, 1)
  {
    var t, k := MappedInUse(s, a, p);
    StepRefines(s, s', Map(a, p, fill));
    ExcessMap(s.h, s'.h, s.dirs, a, p, fill, t, k);
  }

  lemma {:induction false} TimesOfMember(lower: nat, stack: seq<nat>, f: nat)
    requires f in stack
    ensures Times(lower, stack, Slot(lower, f)) >= 1
    decreases |stack|
  {
    var rest := stack[..|stack| - 1];
    if stack[|stack| - 1] != f {
      assert stack == rest + [stack[|stack| - 1]];
      TimesOfMember(lower, rest, f);
    }
  }
}
