/** The steps processes take on memory, each as the effect its code has on frames, counts and
    tables, and the theorem that every run of them reads like a machine whose fork copies
    all pages at once. */
module ProcessMemory {
  import opened PhysicalFrames
  import opened PageEntries
  import opened PageTables
  import opened Paging
  import opened CopyOnWrite
  import opened AddressSpaces
  import opened Sets
  import opened Runs

  /** Physical memory together with the page directory of each process. */
  datatype Vm = Vm(h: Phys, dirs: Dirs)

  ghost predicate Transition(s: Vm, s': Vm, step: Step) {
    && DirsInMem(s.h, s.dirs) && PhysOk(s'.h) && ZeroHeld(s'.h)
    && match step
       case Create(a) =>
         exists nd: nat, dir: Page ::
           && a !in s.dirs && s'.dirs == s.dirs[a := nd] && Claimed(s.h, s'.h, nd, dir)
           && (forall i :: 0 <= i < USER_TABLES ==> dir[i] == ZERO)
       case Fork(a, c) =>
         exists nd: nat, stack: seq<nat> ::
           a in s.dirs && c !in s.dirs && s'.dirs == s.dirs[c := nd] && ForkedDir(s.h, s'.h, s.dirs[a], nd, stack)
       case Write(a, p, j, w) =>
         && a in s.dirs && 0 <= p < USER_PAGES && 0 <= j < ENTRIES && s'.dirs == s.dirs
         && if EntryAt(s.h.mem, s.dirs[a], p).present then Stored(s.h, s'.h, s.dirs[a], p, j, w) else s'.h == s.h
       case Map(a, p, fill) =>
         a in s.dirs && 0 <= p < USER_PAGES && s'.dirs == s.dirs && FreshMapped(s.h, s'.h, s.dirs[a], p, fill)
       case Clear(a) =>
         a in s.dirs && s'.dirs == s.dirs && DropProgress(s.h, s'.h, s.dirs[a], USER_TABLES, true)
       case Destroy(a) =>
         a in s.dirs && s'.dirs == s.dirs - {a} && Nuked(s.h, s'.h, s.dirs[a])
  }

  // ----- each effect keeps the invariant and reads as the eager step -----

  lemma RaisedKeeps(h: Phys, h': Phys, dirs: Dirs)
    requires Inv(h, dirs) && CountsRaised(h, h') && PhysOk(h') && ZeroHeld(h')
    ensures Inv(h', dirs) && View(h', dirs) == View(h, dirs)
  {
    RaisedTables(h, h', dirs);
    TablesKeptInv(h, h', dirs);
    ImagesKept(h, h', SpacesOf(h, dirs));
  }

  lemma RaisedTables(h: Phys, h': Phys, dirs: Dirs)
    requires Inv(h, dirs) && CountsRaised(h, h') && PhysOk(h') && ZeroHeld(h')
    ensures TablesKept(h, h', dirs)
  {
    forall a, f: nat | a in dirs && InStruct(h.mem, dirs[a], f) ensures Held(h', f) {
      RaisedHeld(h, h', f);
    }
    forall a, p | a in dirs && 0 <= p < USER_PAGES && EntryAt(h.mem, dirs[a], p).present
      ensures Held(h', EntryAt(h.mem, dirs[a], p).frame) {
      RaisedHeld(h, h', EntryAt(h.mem, dirs[a], p).frame);
    }
  }

  lemma RaisedHeld(h: Phys, h': Phys, f: nat)
    requires CountsRaised(h, h') && Held(h, f)
    ensures Held(h', f)
  {
  }

  lemma ClaimedTables(h: Phys, h': Phys, dirs: Dirs, f: nat, fill: Page)
    requires Inv(h, dirs) && Claimed(h, h', f, fill)
    ensures TablesKept(h, h', dirs)
  {
    FreeIsUnused(h, dirs, f);
    HeldTables(h, h', dirs);
  }

  lemma ClaimedView(h: Phys, h': Phys, dirs: Dirs, f: nat, fill: Page)
    requires Inv(h, dirs) && Claimed(h, h', f, fill)
    ensures ImagesOf(h', SpacesOf(h, dirs)) == ImagesOf(h, SpacesOf(h, dirs))
  {
    var spaces: Spaces := SpacesOf(h, dirs);
    forall b, q | b in spaces && q in spaces[b]
      ensures ContentAt(h', spaces[b][q].slot) == ContentAt(h, spaces[b][q].slot)
    {
      SlotContent(h, dirs, b, q);
    }
    ImagesKept(h, h', spaces);
  }

  /** Claiming a free frame disturbs no process. */
  lemma ClaimedKeeps(h: Phys, h': Phys, dirs: Dirs, f: nat, fill: Page)
    requires Inv(h, dirs) && Claimed(h, h', f, fill)
    ensures Inv(h', dirs) && SpacesOf(h', dirs) == SpacesOf(h, dirs) && View(h', dirs) == View(h, dirs)
    ensures forall b :: b in dirs ==> !InStruct(h'.mem, dirs[b], f)
    ensures Unmapped(SpacesOf(h', dirs), Slot(h.lower, f))
  {
    FreeIsUnused(h, dirs, f);
    ClaimedTables(h, h', dirs, f, fill);
    TablesKeptInv(h, h', dirs);
    ClaimedView(h, h', dirs, f, fill);
  }

  /** No process maps the frame at slot s. */
  ghost predicate Unmapped(spaces: Spaces, s: int) {
    forall b, q :: b in spaces && q in spaces[b] ==> spaces[b][q].slot != s
  }

  /** At most page p of process a maps the frame at slot s. */
  ghost predicate OnlyAt(spaces: Spaces, s: int, a: int, p: int) {
    forall b, q :: b in spaces && q in spaces[b] && spaces[b][q].slot == s ==> b == a && q == p
  }

  lemma ImagesMapped(h: Phys, spaces: Spaces, a: int, p: int, e: Pte)
    requires a in spaces
    ensures ImagesOf(h, Mapped(spaces, a, p, e)) == Eager(ImagesOf(h, spaces), Map(a, p, ContentAt(h, e.slot)))
  {
    assert ImageOf(h, spaces[a][p := e]) == WithPage(ImageOf(h, spaces[a]), p, ContentAt(h, e.slot));
  }

  /** The counts cover rc, except that the frame page p leads to may be short by one. */
  ghost predicate ShortByOne(rc: seq<nat>, rc': seq<nat>, space: Space, p: int, s: int) {
    |rc'| == |rc| && forall t :: 0 <= t < |rc| && t != s ==>
      rc'[t] + (if p in space && space[p].slot == t then 1 else 0) >= rc[t]
  }

  lemma SetInv(rc: seq<nat>, h: Phys, h': Phys, dirs: Dirs, a: int, p: int, f: FrameNumber)
    requires StructInv(h, dirs) && a in dirs && 0 <= p < USER_PAGES && PhysOk(h') && ZeroHeld(h')
    requires EntrySet(h, h', dirs[a], p, UserEntry(f), true) && Settable(h, dirs, UserEntry(f))
    requires Counted(rc, SpacesOf(h, dirs)) && SoleWriter(SpacesOf(h, dirs)) && OnlyAt(SpacesOf(h, dirs), Slot(h.lower, f), a, p)
    requires ShortByOne(rc, h.counts, SpacesOf(h, dirs)[a], p, Slot(h.lower, f))
    ensures Inv(h', dirs)
  {
    EntrySetStructInv(h, h', dirs, a, p, UserEntry(f));
    EntrySetSpaces(h, h', dirs, a, p, UserEntry(f));
    MapKeeps(rc, h'.counts, SpacesOf(h, dirs), a, p, Pte(Slot(h.lower, f), true));
  }

  lemma SetView(h: Phys, h': Phys, dirs: Dirs, a: int, p: int, f: FrameNumber)
    requires StructInv(h, dirs) && a in dirs && 0 <= p < USER_PAGES
    requires EntrySet(h, h', dirs[a], p, UserEntry(f), true) && Settable(h, dirs, UserEntry(f))
    ensures View(h', dirs) == Eager(View(h, dirs), Map(a, p, ContentAt(h, Slot(h.lower, f))))
  {
    var spaces: Spaces := SpacesOf(h, dirs);
    var e := Pte(Slot(h.lower, f), true);
    var spaces': Spaces := Mapped(spaces, a, p, e);
    EntrySetSpaces(h, h', dirs, a, p, UserEntry(f));
    forall b, q | b in spaces' && q in spaces'[b]
      ensures ContentAt(h', spaces'[b][q].slot) == ContentAt(h, spaces'[b][q].slot)
    {
      if b == a && q == p {
        EntrySetAvoids(h, h', dirs[a], p, UserEntry(f), f);
      } else {
        SlotContent(h, dirs, b, q);
        EntrySetAvoids(h, h', dirs[a], p, UserEntry(f), EntryAt(h.mem, dirs[b], q).frame);
      }
    }
    ImagesKept(h, h', spaces');
    ImagesMapped(h, spaces, a, p, e);
  }

  lemma MapRefines(h: Phys, h': Phys, dirs: Dirs, a: int, p: int, fill: Page)
    requires Inv(h, dirs) && a in dirs && 0 <= p < USER_PAGES && PhysOk(h') && ZeroHeld(h')
    requires FreshMapped(h, h', dirs[a], p, fill)
    ensures Inv(h', dirs) && View(h', dirs) == Eager(View(h, dirs), Map(a, p, fill))
  {
    var f: FrameNumber, h1: Phys :| Claimed(h, h1, f, fill) && EntrySet(h1, h', dirs[a], p, UserEntry(f), true);
    ClaimedKeeps(h, h1, dirs, f, fill);
    SetInv(h1.counts, h1, h', dirs, a, p, f);
    SetView(h1, h', dirs, a, p, f);
    assert ContentAt(h1, Slot(h.lower, f)) == fill;
  }

  // ----- page faults and stores -----

  /** Frames in use stay in use and tables keep their contents. */
  lemma HeldTables(h: Phys, h': Phys, dirs: Dirs)
    requires StructInv(h, dirs) && PhysOk(h') && ZeroHeld(h')
    requires h'.lower == h.lower && |h'.mem| == |h.mem| && |h'.counts| == |h.counts|
    requires forall f: nat :: Held(h, f) ==> Held(h', f)
    requires forall a, f: nat :: a in dirs && InStruct(h.mem, dirs[a], f) && f < |h.mem| ==> h'.mem[f] == h.mem[f]
    ensures TablesKept(h, h', dirs)
  {
  }

  lemma LoweredHeld(h: Phys, h': Phys, f: nat)
    requires PhysOk(h) && ZeroHeld(h) && CountLowered(h, h', f)
    ensures PhysOk(h') && ZeroHeld(h') && forall g: nat :: Held(h, g) ==> Held(h', g)
  {
  }

  /** The state between the copy and the remapping: one count short, nothing visible changed. */
  lemma FaultMid(h: Phys, hc: Phys, h2: Phys, dirs: Dirs, f: nat, n: nat, fill: Page)
    requires Inv(h, dirs) && Claimed(h, hc, n, fill) && CountLowered(hc, h2, f)
    ensures StructInv(h2, dirs) && SpacesOf(h2, dirs) == SpacesOf(h, dirs) && View(h2, dirs) == View(h, dirs)
    ensures Counted(hc.counts, SpacesOf(h, dirs)) && Unmapped(SpacesOf(h, dirs), Slot(h.lower, n))
    ensures forall b :: b in dirs ==> !InStruct(h2.mem, dirs[b], n)
  {
    ClaimedKeeps(h, hc, dirs, n, fill);
    LoweredHeld(hc, h2, f);
    HeldTables(hc, h2, dirs);
    TablesKeptInv(hc, h2, dirs);
    ImagesKept(hc, h2, SpacesOf(h, dirs));
  }

  lemma FaultCopies(h: Phys, h1: Phys, h2: Phys, h': Phys, dirs: Dirs, a: int, p: int, n: FrameNumber)
    requires Inv(h, dirs) && a in dirs && 0 <= p < USER_PAGES && EntryAt(h.mem, dirs[a], p).present
    requires PhysOk(h') && ZeroHeld(h')
    requires var f := EntryAt(h.mem, dirs[a], p).frame;
      f < |h.mem| && CountLowered(h, h1, f) && Claimed(h1, h2, n, h.mem[f])
    requires EntrySet(h2, h', dirs[a], p, UserEntry(n), true)
    ensures Inv(h', dirs) && View(h', dirs) == View(h, dirs)
  {
    var f := EntryAt(h.mem, dirs[a], p).frame;
    var hc := ClaimFirst(h, h1, h2, f, n, h.mem[f]);
    FaultMaps(h, hc, h2, h', dirs, a, p, n, f);
    FaultContent(h, h2, dirs, a, p, n);
  }

  /** The copy, mapped in place of the frame f, and nothing else. */
  lemma FaultMaps(h: Phys, hc: Phys, h2: Phys, h': Phys, dirs: Dirs, a: int, p: int, n: FrameNumber, f: nat)
    requires Inv(h, dirs) && a in dirs && 0 <= p < USER_PAGES && p in SpacesOf(h, dirs)[a] && SpacesOf(h, dirs)[a][p].slot == Slot(h.lower, f)
    requires PhysOk(h') && ZeroHeld(h') && f < |h.mem| && Claimed(h, hc, n, h.mem[f]) && CountLowered(hc, h2, f)
    requires 0 <= Slot(h2.lower, f) < |hc.counts| && hc.counts[Slot(h2.lower, f)] > 1
    requires h2.counts == hc.counts[Slot(h2.lower, f) := hc.counts[Slot(h2.lower, f)] - 1]
    requires EntrySet(h2, h', dirs[a], p, UserEntry(n), true)
    ensures Inv(h', dirs) && View(h', dirs) == Eager(View(h, dirs), Map(a, p, ContentAt(h2, Slot(h2.lower, n))))
  {
    FaultMid(h, hc, h2, dirs, f, n, h.mem[f]);
    FaultLast(hc.counts, h2, h', dirs, a, p, n, f);
  }

  /** Lowering one count and claiming another frame commute. */
  lemma ClaimFirst(h: Phys, h1: Phys, h2: Phys, f: nat, n: nat, fill: Page) returns (hc: Phys)
    requires CountLowered(h, h1, f) && Claimed(h1, h2, n, fill)
    ensures Claimed(h, hc, n, fill) && CountLowered(hc, h2, f)
    ensures 0 <= Slot(h2.lower, f) < |hc.counts| && hc.counts[Slot(h2.lower, f)] > 1
    ensures h2.counts == hc.counts[Slot(h2.lower, f) := hc.counts[Slot(h2.lower, f)] - 1]
  {
    hc := Phys(h.lower, h.mem[n := fill], h.counts[Slot(h.lower, n) := 1]);
    assert h2.counts == hc.counts[Slot(h.lower, f) := hc.counts[Slot(h.lower, f)] - 1];
  }

  lemma FaultContent(h: Phys, h2: Phys, dirs: Dirs, a: int, p: int, n: nat)
    requires StructInv(h, dirs) && a in dirs && p in FlatOf(h, dirs[a])
    requires h2.lower == h.lower && Managed(h.lower, |h.counts|, n) && n < |h2.mem|
    requires EntryAt(h.mem, dirs[a], p).frame < |h.mem| && h2.mem[n] == h.mem[EntryAt(h.mem, dirs[a], p).frame]
    ensures Eager(View(h, dirs), Map(a, p, ContentAt(h2, Slot(h.lower, n)))) == View(h, dirs)
  {
    SlotContent(h, dirs, a, p);
    Unchanged(View(h, dirs), a, p);
  }

  lemma FaultLast(rc: seq<nat>, h2: Phys, h': Phys, dirs: Dirs, a: int, p: int, n: FrameNumber, f: nat)
    requires StructInv(h2, dirs) && a in dirs && 0 <= p < USER_PAGES && PhysOk(h') && ZeroHeld(h')
    requires Counted(rc, SpacesOf(h2, dirs)) && SoleWriter(SpacesOf(h2, dirs)) && Unmapped(SpacesOf(h2, dirs), Slot(h2.lower, n))
    requires p in SpacesOf(h2, dirs)[a] && SpacesOf(h2, dirs)[a][p].slot == Slot(h2.lower, f)
    requires 0 <= Slot(h2.lower, f) < |rc| && rc[Slot(h2.lower, f)] > 1
    requires h2.counts == rc[Slot(h2.lower, f) := rc[Slot(h2.lower, f)] - 1]
    requires Held(h2, n) && n != 0 && forall b :: b in dirs ==> !InStruct(h2.mem, dirs[b], n)
    requires EntrySet(h2, h', dirs[a], p, UserEntry(n), true)
    ensures Inv(h', dirs) && View(h', dirs) == Eager(View(h2, dirs), Map(a, p, ContentAt(h2, Slot(h2.lower, n))))
  {
    SetInv(rc, h2, h', dirs, a, p, n);
    SetView(h2, h', dirs, a, p, n);
  }

  lemma Unchanged(s: Images, a: int, p: int)
    requires a in s && p in s[a]
    ensures Eager(s, Map(a, p, s[a][p])) == s
  {
    assert WithPage(s[a], p, s[a][p]) == s[a];
  }

  lemma FaultReowns(h: Phys, h': Phys, dirs: Dirs, a: int, p: int)
    requires Inv(h, dirs) && a in dirs && 0 <= p < USER_PAGES && EntryAt(h.mem, dirs[a], p).present
    requires PhysOk(h') && ZeroHeld(h')
    requires h.counts[Slot(h.lower, EntryAt(h.mem, dirs[a], p).frame)] == 1
    requires EntrySet(h, h', dirs[a], p, UserEntry(EntryAt(h.mem, dirs[a], p).frame), true)
    ensures Inv(h', dirs) && View(h', dirs) == View(h, dirs)
  {
    var f := EntryAt(h.mem, dirs[a], p).frame;
    SlotContent(h, dirs, a, p);
    CountOneIsSole(h.counts, SpacesOf(h, dirs), a, p);
    SetInv(h.counts, h, h', dirs, a, p, f);
    SetView(h, h', dirs, a, p, f);
    Unchanged(View(h, dirs), a, p);
  }

  /** The page fault handler changes nothing that any process can read. */
  lemma FaultInvisible(h: Phys, h': Phys, dirs: Dirs, a: int, p: int)
    requires Inv(h, dirs) && a in dirs && 0 <= p < USER_PAGES && EntryAt(h.mem, dirs[a], p).present
    requires Faulted(h, h', dirs[a], p) && PhysOk(h') && ZeroHeld(h')
    ensures Inv(h', dirs) && View(h', dirs) == View(h, dirs) && UserWritable(h'.mem, dirs[a], p)
  {
    var f := EntryAt(h.mem, dirs[a], p).frame;
    if h.counts[Slot(h.lower, f)] == 1 {
      FaultReowns(h, h', dirs, a, p);
    } else {
      var n: FrameNumber, h1: Phys, h2: Phys :|
        CountLowered(h, h1, f) && Claimed(h1, h2, n, h.mem[f]) && EntrySet(h2, h', dirs[a], p, UserEntry(n), true);
      FaultCopies(h, h1, h2, h', dirs, a, p, n);
    }
  }

  lemma ImagesWritten(h: Phys, h': Phys, spaces: Spaces, a: int, p: int, j: int, w: Word)
    requires a in spaces && p in spaces[a] && 0 <= j < ENTRIES
    requires OnlyAt(spaces, spaces[a][p].slot, a, p)
    requires ContentAt(h', spaces[a][p].slot) == WithEntry(ContentAt(h, spaces[a][p].slot), j, w)
    requires forall b, q :: b in spaces && q in spaces[b] && spaces[b][q].slot != spaces[a][p].slot ==>
      ContentAt(h', spaces[b][q].slot) == ContentAt(h, spaces[b][q].slot)
    ensures ImagesOf(h', spaces) == Eager(ImagesOf(h, spaces), Write(a, p, j, w))
  {
    forall b | b in spaces
      ensures ImageOf(h', spaces[b]) ==
        if b == a then WithPage(ImageOf(h, spaces[a]), p, WithEntry(ContentAt(h, spaces[a][p].slot), j, w)) else ImageOf(h, spaces[b])
    {
      var space: Space := spaces[b];
      forall q | q in space && !(b == a && q == p) ensures ContentAt(h', space[q].slot) == ContentAt(h, space[q].slot) {
      }
    }
  }

  ghost predicate FrameWritten(h: Phys, h': Phys, f: nat, j: int, w: Word) {
    f < |h.mem| && 0 <= j < ENTRIES && h' == h.(mem := h.mem[f := WithEntry(h.mem[f], j, w)])
  }

  lemma WriteTables(h: Phys, h': Phys, dirs: Dirs, a: int, p: int, j: int, w: Word)
    requires StructInv(h, dirs) && a in dirs && p in FlatOf(h, dirs[a])
    requires FrameWritten(h, h', EntryAt(h.mem, dirs[a], p).frame, j, w)
    ensures TablesKept(h, h', dirs)
  {
    SlotContent(h, dirs, a, p);
    HeldTables(h, h', dirs);
  }

  lemma WriteContent(h: Phys, h': Phys, dirs: Dirs, a: int, p: int, j: int, w: Word, b: int, q: int)
    requires StructInv(h, dirs) && a in dirs && p in FlatOf(h, dirs[a]) && b in dirs && q in FlatOf(h, dirs[b])
    requires FrameWritten(h, h', EntryAt(h.mem, dirs[a], p).frame, j, w)
    ensures var s, t := FlatOf(h, dirs[a])[p].slot, FlatOf(h, dirs[b])[q].slot;
      ContentAt(h', t) == if s == t then WithEntry(ContentAt(h, t), j, w) else ContentAt(h, t)
  {
    SlotContent(h, dirs, a, p);
    SlotContent(h, dirs, b, q);
  }

  /** A store to a page the user may write is seen by its owner alone. */
  lemma WriteRefines(h: Phys, h': Phys, dirs: Dirs, a: int, p: int, j: int, w: Word)
    requires Inv(h, dirs) && a in dirs && 0 <= p < USER_PAGES && UserWritable(h.mem, dirs[a], p)
    requires FrameWritten(h, h', EntryAt(h.mem, dirs[a], p).frame, j, w)
    ensures Inv(h', dirs) && View(h', dirs) == Eager(View(h, dirs), Write(a, p, j, w))
  {
    var spaces: Spaces := SpacesOf(h, dirs);
    WriteTables(h, h', dirs, a, p, j, w);
    TablesKeptInv(h, h', dirs);
    forall b, q | b in spaces && q in spaces[b]
      ensures ContentAt(h', spaces[b][q].slot) ==
        if spaces[b][q].slot == spaces[a][p].slot then WithEntry(ContentAt(h, spaces[b][q].slot), j, w)
        else ContentAt(h, spaces[b][q].slot)
    {
      WriteContent(h, h', dirs, a, p, j, w, b, q);
    }
    WriteSole(spaces, a, p);
    ImagesWritten(h, h', spaces, a, p, j, w);
  }

  lemma WriteSole(spaces: Spaces, a: int, p: int)
    requires SoleWriter(spaces) && a in spaces && p in spaces[a] && spaces[a][p].writable
    ensures OnlyAt(spaces, spaces[a][p].slot, a, p)
  {
  }

  lemma StoredRefines(h: Phys, h': Phys, dirs: Dirs, a: int, p: int, j: int, w: Word)
    requires Inv(h, dirs) && a in dirs && 0 <= p < USER_PAGES && 0 <= j < ENTRIES
    requires EntryAt(h.mem, dirs[a], p).present && Stored(h, h', dirs[a], p, j, w)
    ensures Inv(h', dirs) && View(h', dirs) == Eager(View(h, dirs), Write(a, p, j, w))
  {
    var d := dirs[a];
    var h1: Phys :|
      && (if UserWritable(h.mem, d, p) then h1 == h else Faulted(h, h1, d, p))
      && PhysOk(h1) && ZeroHeld(h1) && d < |h1.mem| && UserWritable(h1.mem, d, p) && EntryAt(h1.mem, d, p).frame < |h1.mem|
      && h' == h1.(mem := h1.mem[EntryAt(h1.mem, d, p).frame := WithEntry(h1.mem[EntryAt(h1.mem, d, p).frame], j, w)]);
    if !UserWritable(h.mem, d, p) {
      FaultInvisible(h, h1, dirs, a, p);
    }
    WriteRefines(h1, h', dirs, a, p, j, w);
  }

  // ----- a new process -----

  lemma EmptyDirectory(h: Phys, nd: nat)
    requires PhysOk(h) && 0 < nd < |h.mem| && Held(h, nd) && forall i :: 0 <= i < USER_TABLES ==> h.mem[nd][i] == ZERO
    ensures SpaceOk(h, nd) && FlatOf(h, nd) == map[]
    ensures forall f: nat :: InStruct(h.mem, nd, f) <==> f == nd
  {
    assert forall i :: 0 <= i < USER_TABLES ==> !h.mem[nd][i].present;
  }

  lemma ImagesCreated(h: Phys, spaces: Spaces, a: int)
    requires a !in spaces
    ensures ImagesOf(h, spaces[a := map[]]) == Eager(ImagesOf(h, spaces), Create(a))
  {
    assert ImageOf(h, map[]) == map[];
  }

  lemma CreateRefines(h: Phys, h': Phys, dirs: Dirs, a: int, nd: nat, dir: Page)
    requires Inv(h, dirs) && a !in dirs && Claimed(h, h', nd, dir)
    requires forall i :: 0 <= i < USER_TABLES ==> dir[i] == ZERO
    ensures Inv(h', dirs[a := nd]) && View(h', dirs[a := nd]) == Eager(View(h, dirs), Create(a))
  {
    ClaimedKeeps(h, h', dirs, nd, dir);
    EmptyDirectory(h', nd);
    CreateStructInv(h', dirs, a, nd);
    CreateSpaces(h', dirs, a, nd);
    CreateCounted(h'.counts, SpacesOf(h', dirs), a);
    ImagesCreated(h', SpacesOf(h', dirs), a);
  }

  lemma CreateSpaces(h: Phys, dirs: Dirs, a: int, nd: nat)
    requires a !in dirs && FlatOf(h, nd) == map[]
    ensures SpacesOf(h, dirs[a := nd]) == SpacesOf(h, dirs)[a := map[]]
  {
  }

  lemma CreateCounted(rc: seq<nat>, spaces: Spaces, a: int)
    requires Counted(rc, spaces) && SoleWriter(spaces) && a !in spaces
    ensures Counted(rc, spaces[a := map[]]) && SoleWriter(spaces[a := map[]])
  {
    forall s | 0 <= s < |rc| ensures |Refs(spaces[a := map[]], s)| <= rc[s] {
      assert Refs(spaces[a := map[]], s) == Refs(spaces, s);
    }
  }

  lemma CreateStructInv(h: Phys, dirs: Dirs, a: int, nd: nat)
    requires StructInv(h, dirs) && a !in dirs && nd < |h.mem| && SpaceOk(h, nd) && FlatOf(h, nd) == map[]
    requires forall f: nat :: InStruct(h.mem, nd, f) <==> f == nd
    requires forall b :: b in dirs ==> !InStruct(h.mem, dirs[b], nd)
    requires Unmapped(SpacesOf(h, dirs), Slot(h.lower, nd))
    ensures StructInv(h, dirs[a := nd])
  {
    var dirs' := dirs[a := nd];
    forall p | 0 <= p < USER_PAGES ensures !EntryAt(h.mem, nd, p).present {
      assert p !in FlatOf(h, nd);
    }
    forall x, y | x in dirs' && y in dirs' ensures Apart(h, dirs'[x], dirs'[y]) {
      CreateApart(h, dirs, a, nd, x, y);
    }
    forall b | b in dirs ensures dirs[b] != nd {
      assert InStruct(h.mem, dirs[b], dirs[b]);
    }
  }

  lemma CreateApart(h: Phys, dirs: Dirs, a: int, nd: nat, x: int, y: int)
    requires StructInv(h, dirs) && nd < |h.mem|
    requires forall f: nat :: InStruct(h.mem, nd, f) <==> f == nd
    requires forall p :: 0 <= p < USER_PAGES ==> !EntryAt(h.mem, nd, p).present
    requires forall b :: b in dirs ==> !InStruct(h.mem, dirs[b], nd)
    requires Unmapped(SpacesOf(h, dirs), Slot(h.lower, nd))
    requires x in dirs[a := nd] && y in dirs[a := nd]
    ensures Apart(h, dirs[a := nd][x], dirs[a := nd][y])
  {
    if x != a && y != a {
      assert Apart(h, dirs[x], dirs[y]);
    } else if x != a {
      forall p | 0 <= p < USER_PAGES && EntryAt(h.mem, dirs[x], p).present ensures EntryAt(h.mem, dirs[x], p).frame != nd {
        assert p in SpacesOf(h, dirs)[x];
        assert SpacesOf(h, dirs)[x][p].slot != Slot(h.lower, nd);
      }
    }
  }

  // ----- every step, every run -----

  ghost predicate VmInv(s: Vm) { Inv(s.h, s.dirs) }

  ghost function Reads(s: Vm): Images { View(s.h, s.dirs) }

  /** Every step keeps the invariant and reads as the same step of the machine that copies
      eagerly. */
  lemma StepRefines(s: Vm, s': Vm, step: Step)
    requires VmInv(s) && Transition(s, s', step)
    ensures VmInv(s') && Reads(s') == Eager(Reads(s), step)
  {
    var h, h', dirs := s.h, s'.h, s.dirs;
    match step
    case Create(a) =>
      var nd: nat, dir: Page :|
        && a !in dirs && s'.dirs == dirs[a := nd] && Claimed(h, h', nd, dir)
        && (forall i :: 0 <= i < USER_TABLES ==> dir[i] == ZERO);
      CreateRefines(h, h', dirs, a, nd, dir);
    case Fork(a, c) =>
      var nd: nat, stack: seq<nat> :| a in dirs && c !in dirs && s'.dirs == dirs[c := nd] && ForkedDir(h, h', dirs[a], nd, stack);
      var h1: Phys :| Cloned(h, h1, dirs[a], nd, USER_TABLES) && PhysOk(h1) && ZeroHeld(h1) && SharedEach(h1, h', stack);
      SharedIsRaised(h1, h', stack);
      ClonedInv(h, h1, dirs, a, c, nd);
      ClonedView(h, h1, dirs, a, c, nd);
      RaisedKeeps(h1, h', dirs[c := nd]);
    case Write(a, p, j, w) =>
      if EntryAt(h.mem, dirs[a], p).present {
        StoredRefines(h, h', dirs, a, p, j, w);
      }
    case Map(a, p, fill) =>
      MapRefines(h, h', dirs, a, p, fill);
    case Clear(a) =>
      EmptiedInv(h, h', dirs, a);
      EmptiedView(h, h', dirs, a);
    case Destroy(a) =>
      NukedInv(h, h', dirs, a);
      NukedView(h, h', dirs, a);
  }

  /** Copy-on-write is invisible: at every point of every run the invariant holds and each
      process reads exactly what it would read had every fork copied all pages. */
  lemma RunRefines(states: seq<Vm>, steps: seq<Step>, i: int)
    requires IsRun(Transition, states, steps) && VmInv(states[0]) && 0 <= i < |states|
    ensures VmInv(states[i]) && Reads(states[i]) == Fold(Eager, Reads(states[0]), steps[..i])
  {
    forall s, s', step | VmInv(s) && Transition(s, s', step)
      ensures VmInv(s') && Reads(s') == Eager(Reads(s), step)
    {
      StepRefines(s, s', step);
    }
    Simulation(Transition, VmInv, Reads, Eager, states, steps, i);
  }
}
