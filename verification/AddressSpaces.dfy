/** The page directories of all processes together: their tables read as flat address spaces,
    the invariant that ties tables, counts and sharing, and how each operation of Paging
    changes the flat spaces. */
module AddressSpaces {
  import opened Machine
  import opened PhysicalFrames
  import opened PageEntries
  import opened PageTables
  import opened Paging
  import opened CopyOnWrite
  import opened Sets

  ghost function FlatOf(h: Phys, d: nat): Space {
    map p | 0 <= p < USER_PAGES && d < |h.mem| && EntryAt(h.mem, d, p).present ::
      Pte(Slot(h.lower, EntryAt(h.mem, d, p).frame), UserWritable(h.mem, d, p))
  }

  /** The page directory frame of each process. */
  type Dirs = map<int, nat>

  ghost predicate DirsInMem(h: Phys, dirs: Dirs) {
    forall a :: a in dirs ==> dirs[a] < |h.mem|
  }

  ghost function SpacesOf(h: Phys, dirs: Dirs): Spaces {
    map a | a in dirs :: FlatOf(h, dirs[a])
  }

  function ContentAt(h: Phys, slot: int): Page {
    if 0 <= slot && FrameOf(h.lower, slot) < |h.mem| then h.mem[FrameOf(h.lower, slot)] else Blank()
  }

  function ImageOf(h: Phys, space: Space): Image {
    map p | p in space :: ContentAt(h, space[p].slot)
  }

  function ImagesOf(h: Phys, spaces: Spaces): Images {
    map a | a in spaces :: ImageOf(h, spaces[a])
  }

  /** What every process reads: the contents of the frames its tables lead to. */
  ghost function View(h: Phys, dirs: Dirs): Images {
    ImagesOf(h, SpacesOf(h, dirs))
  }

  // ----- the invariant -----

  /** One directory: well formed, its frames in use, its tables open to user mode, and every
      page mapped to a frame that is in use. */
  ghost predicate SpaceOk(h: Phys, d: nat) {
    && DirOk(h.mem, d) && StructHeld(h, d)
    && (forall i :: 0 <= i < USER_TABLES && h.mem[d][i].present ==> h.mem[d][i].writable && h.mem[d][i].user)
    && (forall p :: 0 <= p < USER_PAGES && EntryAt(h.mem, d, p).present ==>
          Held(h, EntryAt(h.mem, d, p).frame) && EntryAt(h.mem, d, p).frame != 0 && EntryAt(h.mem, d, p).user)
  }

  /** No frame holds the structure of two directories, or structure and user data at once. */
  ghost predicate Apart(h: Phys, d: nat, d': nat)
    requires d < |h.mem| && d' < |h.mem|
  {
    && (d != d' ==> forall f: nat :: !(InStruct(h.mem, d, f) && InStruct(h.mem, d', f)))
    && (forall p :: 0 <= p < USER_PAGES && EntryAt(h.mem, d, p).present ==> !InStruct(h.mem, d', EntryAt(h.mem, d, p).frame))
  }

  ghost predicate StructInv(h: Phys, dirs: Dirs) {
    && PhysOk(h) && ZeroHeld(h) && DirsInMem(h, dirs)
    && (forall a :: a in dirs ==> SpaceOk(h, dirs[a]))
    && (forall a, b :: a in dirs && b in dirs && a != b ==> dirs[a] != dirs[b])
    && (forall a, b :: a in dirs && b in dirs ==> Apart(h, dirs[a], dirs[b]))
  }

  ghost predicate Inv(h: Phys, dirs: Dirs) {
    && StructInv(h, dirs)
    && Counted(h.counts, SpacesOf(h, dirs))
    && SoleWriter(SpacesOf(h, dirs))
  }

  // ----- framing -----

  /** A directory depends only on the frames of its own structure. */
  lemma FlatFrame(h: Phys, h': Phys, d: nat)
    requires DirOk(h.mem, d) && |h'.mem| == |h.mem| && h'.lower == h.lower
    requires forall f: nat :: f < |h.mem| && InStruct(h.mem, d, f) ==> h'.mem[f] == h.mem[f]
    ensures DirOk(h'.mem, d) && FlatOf(h', d) == FlatOf(h, d)
    ensures forall f: nat :: InStruct(h'.mem, d, f) <==> InStruct(h.mem, d, f)
    ensures forall p :: 0 <= p < USER_PAGES ==> EntryAt(h'.mem, d, p) == EntryAt(h.mem, d, p)
    ensures h'.mem[d] == h.mem[d]
  {
    assert InStruct(h.mem, d, d);
    forall p | 0 <= p < USER_PAGES ensures EntryAt(h'.mem, d, p) == EntryAt(h.mem, d, p) {
      var e := h.mem[d][p / ENTRIES];
      if e.present {
        assert InStruct(h.mem, d, e.frame);
      }
    }
  }

  /** The slot of a managed frame determines the frame. */
  lemma SlotsDiffer(h: Phys, f: nat, g: nat)
    requires Managed(h.lower, |h.counts|, f) && Managed(h.lower, |h.counts|, g)
    ensures Slot(h.lower, f) == Slot(h.lower, g) ==> f == g
  {
  }

  lemma SpaceSurvives(h: Phys, h': Phys, d: nat)
    requires SpaceOk(h, d) && |h'.mem| == |h.mem| && h'.lower == h.lower && |h'.counts| == |h.counts|
    requires forall f: nat :: f < |h.mem| && InStruct(h.mem, d, f) ==> h'.mem[f] == h.mem[f]
    requires forall f: nat :: InStruct(h.mem, d, f) ==> h'.counts[Slot(h.lower, f)] >= 1
    requires forall p :: 0 <= p < USER_PAGES && EntryAt(h.mem, d, p).present ==>
      h'.counts[Slot(h.lower, EntryAt(h.mem, d, p).frame)] >= 1
    ensures SpaceOk(h', d)
  {
    FlatFrame(h, h', d);
  }

  // ----- set_page_table_entry -----

  ghost predicate Settable(h: Phys, dirs: Dirs, w: Word)
    requires DirsInMem(h, dirs)
  {
    && w.present && w.writable && w.user && Held(h, w.frame) && w.frame != 0
    && (forall b :: b in dirs ==> !InStruct(h.mem, dirs[b], w.frame))
  }

  lemma EntrySetStruct(h: Phys, h': Phys, d: nat, p: int, w: Word)
    requires DirOk(h.mem, d) && 0 <= p < USER_PAGES && EntrySet(h, h', d, p, w, true)
    ensures h.mem[d][p / ENTRIES].present ==> forall f: nat :: InStruct(h'.mem, d, f) <==> InStruct(h.mem, d, f)
    ensures !h.mem[d][p / ENTRIES].present ==>
      forall f: nat :: InStruct(h'.mem, d, f) <==> InStruct(h.mem, d, f) || f == h'.mem[d][p / ENTRIES].frame
  {
    var i := p / ENTRIES;
    if !h.mem[d][i].present {
      var t := h'.mem[d][i].frame;
      forall f: nat ensures InStruct(h'.mem, d, f) <==> InStruct(h.mem, d, f) || f == t {
        if f == t {
          assert h'.mem[d][i].present;
        }
        if k :| 0 <= k < USER_TABLES && h.mem[d][k].present && h.mem[d][k].frame == f {
          assert h'.mem[d][k] == h.mem[d][k];
        }
      }
    }
  }

  /** A frame in use is not taken for the new table. */
  lemma EntrySetAvoids(h: Phys, h': Phys, d: nat, p: int, w: Word, f: nat)
    requires DirOk(h.mem, d) && 0 <= p < USER_PAGES && EntrySet(h, h', d, p, w, true)
    requires Held(h, f) && !InStruct(h.mem, d, f)
    ensures !InStruct(h'.mem, d, f) && Held(h', f)
    ensures f < |h.mem| ==> h'.mem[f] == h.mem[f]
  {
    EntrySetStruct(h, h', d, p, w);
  }

  lemma EntrySetFlat(h: Phys, h': Phys, d: nat, p: int, w: Word)
    requires SpaceOk(h, d) && 0 <= p < USER_PAGES && EntrySet(h, h', d, p, w, true)
    requires w.present && w.writable && w.user
    ensures FlatOf(h', d) == FlatOf(h, d)[p := Pte(Slot(h.lower, w.frame), true)]
  {
    forall q | 0 <= q < USER_PAGES && q != p && EntryAt(h.mem, d, q).present
      ensures UserWritable(h'.mem, d, q) == UserWritable(h.mem, d, q)
    {
    }
  }

  lemma EntrySetSpaceOk(h: Phys, h': Phys, d: nat, p: int, w: Word)
    requires PhysOk(h) && SpaceOk(h, d) && 0 <= p < USER_PAGES && EntrySet(h, h', d, p, w, true)
    requires w.present && w.user && Held(h, w.frame) && w.frame != 0
    ensures SpaceOk(h', d)
  {
    EntrySetStruct(h, h', d, p, w);
  }

  lemma EntrySetOther(h: Phys, h': Phys, dirs: Dirs, a: int, b: int, p: int, w: Word)
    requires StructInv(h, dirs) && a in dirs && b in dirs && a != b
    requires 0 <= p < USER_PAGES && EntrySet(h, h', dirs[a], p, w, true)
    ensures SpaceOk(h', dirs[b]) && FlatOf(h', dirs[b]) == FlatOf(h, dirs[b])
    ensures forall f: nat :: InStruct(h'.mem, dirs[b], f) <==> InStruct(h.mem, dirs[b], f)
    ensures forall q :: 0 <= q < USER_PAGES ==> EntryAt(h'.mem, dirs[b], q) == EntryAt(h.mem, dirs[b], q)
  {
    forall f: nat | InStruct(h.mem, dirs[b], f)
      ensures f < |h.mem| ==> h'.mem[f] == h.mem[f]
      ensures Held(h', f)
    {
      assert Apart(h, dirs[a], dirs[b]);
      EntrySetAvoids(h, h', dirs[a], p, w, f);
    }
    FlatFrame(h, h', dirs[b]);
    SpaceSurvives(h, h', dirs[b]);
  }

  /** After set_page_table_entry on one process, its flat space has exactly that page changed
      and every other space is as it was. */
  lemma EntrySetSpaces(h: Phys, h': Phys, dirs: Dirs, a: int, p: int, w: Word)
    requires StructInv(h, dirs) && a in dirs && 0 <= p < USER_PAGES
    requires EntrySet(h, h', dirs[a], p, w, true) && Settable(h, dirs, w)
    ensures SpacesOf(h', dirs) == Mapped(SpacesOf(h, dirs), a, p, Pte(Slot(h.lower, w.frame), true))
  {
    EntrySetFlat(h, h', dirs[a], p, w);
    forall b | b in dirs && b != a ensures FlatOf(h', dirs[b]) == FlatOf(h, dirs[b]) {
      EntrySetOther(h, h', dirs, a, b, p, w);
    }
  }

  lemma EntrySetApart(h: Phys, h': Phys, dirs: Dirs, a: int, b: int, p: int, w: Word)
    requires StructInv(h, dirs) && a in dirs && b in dirs && 0 <= p < USER_PAGES
    requires EntrySet(h, h', dirs[a], p, w, true) && Settable(h, dirs, w)
    ensures Apart(h', dirs[a], dirs[b]) && Apart(h', dirs[b], dirs[a])
  {
    var d, d' := dirs[a], dirs[b];
    EntrySetStruct(h, h', d, p, w);
    assert Apart(h, d, d') && Apart(h, d', d) && Apart(h, d, d);
    if a != b {
      EntrySetOther(h, h', dirs, a, b, p, w);
    }
    forall q | 0 <= q < USER_PAGES && EntryAt(h'.mem, d, q).present
      ensures !InStruct(h'.mem, d', EntryAt(h'.mem, d, q).frame)
    {
      if a == b { EntrySetAvoids(h, h', d, p, w, EntryAt(h'.mem, d, q).frame); }
    }
    forall q | 0 <= q < USER_PAGES && EntryAt(h'.mem, d', q).present
      ensures !InStruct(h'.mem, d, EntryAt(h'.mem, d', q).frame)
    {
      EntrySetAvoids(h, h', d, p, w, EntryAt(h'.mem, d', q).frame);
    }
  }

  lemma EntrySetStructInv(h: Phys, h': Phys, dirs: Dirs, a: int, p: int, w: Word)
    requires StructInv(h, dirs) && a in dirs && 0 <= p < USER_PAGES
    requires EntrySet(h, h', dirs[a], p, w, true) && Settable(h, dirs, w)
    requires PhysOk(h') && ZeroHeld(h')
    ensures StructInv(h', dirs)
  {
    EntrySetSpaceOk(h, h', dirs[a], p, w);
    forall b | b in dirs ensures SpaceOk(h', dirs[b]) && Apart(h', dirs[a], dirs[b]) && Apart(h', dirs[b], dirs[a]) {
      EntrySetApart(h, h', dirs, a, b, p, w);
      if b != a { EntrySetOther(h, h', dirs, a, b, p, w); }
    }
    forall b, c | b in dirs && c in dirs && b != a && c != a ensures Apart(h', dirs[b], dirs[c]) {
      assert Apart(h, dirs[b], dirs[c]);
      EntrySetOther(h, h', dirs, a, b, p, w);
      EntrySetOther(h, h', dirs, a, c, p, w);
    }
  }

  // ----- clone_page_structures -----

  lemma PagesAtIsPagesOf(h: Phys, d: nat, s: int)
    requires DirOk(h.mem, d)
    ensures |PagesAt(FlatOf(h, d), s)| == SpaceCount(h.lower, h.mem, d, USER_TABLES, s)
  {
    assert PagesAt(FlatOf(h, d), s) == PagesOf(h.lower, h.mem, d, USER_PAGES, s);
    SpaceCountIsCardinality(h.lower, h.mem, d, USER_TABLES, s);
  }

  lemma ClonedSource(h: Phys, h': Phys, src: nat, nd: nat)
    requires PhysOk(h) && SpaceOk(h, src) && Cloned(h, h', src, nd, USER_TABLES)
    ensures DirOk(h'.mem, src)
    ensures forall f: nat :: InStruct(h'.mem, src, f) <==> InStruct(h.mem, src, f)
    ensures forall p :: 0 <= p < USER_PAGES ==> EntryAt(h'.mem, src, p) == Protect(EntryAt(h.mem, src, p))
    ensures FlatOf(h', src) == Shared(FlatOf(h, src))
  {
    forall p | 0 <= p < USER_PAGES ensures EntryAt(h'.mem, src, p) == Protect(EntryAt(h.mem, src, p)) {
      assert EntryCloned(h, h', src, nd, p / ENTRIES);
    }
  }

  lemma ClonedNew(h: Phys, h': Phys, src: nat, nd: nat)
    requires PhysOk(h) && DirOk(h.mem, src) && Cloned(h, h', src, nd, USER_TABLES)
    ensures DirOk(h'.mem, nd)
    ensures forall f: nat :: InStruct(h'.mem, nd, f) <==> IsNew(h'.mem, nd, USER_TABLES, f)
    ensures forall p :: 0 <= p < USER_PAGES ==>
      EntryAt(h'.mem, nd, p) == if EntryAt(h.mem, src, p).present then Protect(EntryAt(h.mem, src, p)) else ZERO
    ensures FlatOf(h', nd) == Shared(FlatOf(h, src))
  {
    forall i | 0 <= i < USER_TABLES
      ensures if h'.mem[nd][i].present then 0 < h'.mem[nd][i].frame < |h'.mem| && h'.mem[nd][i].frame != nd
              else h'.mem[nd][i].frame == 0
    {
      assert EntryCloned(h, h', src, nd, i);
    }
    forall p | 0 <= p < USER_PAGES
      ensures EntryAt(h'.mem, nd, p) == if EntryAt(h.mem, src, p).present then Protect(EntryAt(h.mem, src, p)) else ZERO
    {
      assert EntryCloned(h, h', src, nd, p / ENTRIES);
    }
  }

  /** A frame in use keeps its contents, stays in use and is no part of the new directory. */
  lemma ClonedAvoids(h: Phys, h': Phys, src: nat, nd: nat, f: nat)
    requires PhysOk(h) && SpaceOk(h, src) && Cloned(h, h', src, nd, USER_TABLES)
    requires Held(h, f)
    ensures !IsNew(h'.mem, nd, USER_TABLES, f) && Held(h', f)
    ensures f < |h.mem| && !InStruct(h.mem, src, f) ==> h'.mem[f] == h.mem[f]
  {
    IndexRoundTrip(h.lower, Slot(h.lower, f));
  }

  lemma ClonedSpacesOk(h: Phys, h': Phys, src: nat, nd: nat)
    requires PhysOk(h) && SpaceOk(h, src) && Cloned(h, h', src, nd, USER_TABLES)
    ensures SpaceOk(h', src) && SpaceOk(h', nd)
  {
    ClonedSource(h, h', src, nd);
    ClonedNew(h, h', src, nd);
    forall f: nat | InStruct(h.mem, src, f) ensures Held(h', f) {
      ClonedAvoids(h, h', src, nd, f);
    }
    forall p | 0 <= p < USER_PAGES && EntryAt(h.mem, src, p).present ensures Held(h', EntryAt(h.mem, src, p).frame) {
      ClonedAvoids(h, h', src, nd, EntryAt(h.mem, src, p).frame);
    }
    forall i | 0 <= i < USER_TABLES && h'.mem[nd][i].present ensures h'.mem[nd][i].writable && h'.mem[nd][i].user {
      assert EntryCloned(h, h', src, nd, i);
    }
  }

  lemma ClonedOther(h: Phys, h': Phys, dirs: Dirs, a: int, b: int, nd: nat)
    requires StructInv(h, dirs) && a in dirs && b in dirs && a != b && Cloned(h, h', dirs[a], nd, USER_TABLES)
    ensures SpaceOk(h', dirs[b]) && FlatOf(h', dirs[b]) == FlatOf(h, dirs[b])
    ensures forall f: nat :: InStruct(h'.mem, dirs[b], f) <==> InStruct(h.mem, dirs[b], f)
    ensures forall q :: 0 <= q < USER_PAGES ==> EntryAt(h'.mem, dirs[b], q) == EntryAt(h.mem, dirs[b], q)
  {
    forall f: nat | InStruct(h.mem, dirs[b], f)
      ensures f < |h.mem| ==> h'.mem[f] == h.mem[f]
      ensures Held(h', f)
    {
      assert Apart(h, dirs[a], dirs[b]);
      ClonedAvoids(h, h', dirs[a], nd, f);
    }
    forall p | 0 <= p < USER_PAGES && EntryAt(h.mem, dirs[b], p).present ensures Held(h', EntryAt(h.mem, dirs[b], p).frame) {
      ClonedAvoids(h, h', dirs[a], nd, EntryAt(h.mem, dirs[b], p).frame);
    }
    FlatFrame(h, h', dirs[b]);
    SpaceSurvives(h, h', dirs[b]);
  }

  /** How one directory of the cloned state relates to the state before: nd stands for src. */
  lemma ClonedEntries(h: Phys, h': Phys, dirs: Dirs, a: int, c: int, nd: nat, b: int)
    requires StructInv(h, dirs) && a in dirs && c !in dirs && Cloned(h, h', dirs[a], nd, USER_TABLES)
    requires b in dirs[c := nd]
    ensures var d := dirs[c := nd][b]; var o := dirs[if b == c then a else b];
      && SpaceOk(h', d)
      && (forall f: nat :: InStruct(h'.mem, d, f) <==> if b == c then IsNew(h'.mem, nd, USER_TABLES, f) else InStruct(h.mem, d, f))
      && (forall p :: 0 <= p < USER_PAGES ==>
            EntryAt(h'.mem, d, p).present == EntryAt(h.mem, o, p).present &&
            (EntryAt(h.mem, o, p).present ==> EntryAt(h'.mem, d, p).frame == EntryAt(h.mem, o, p).frame))
  {
    ClonedSource(h, h', dirs[a], nd);
    ClonedNew(h, h', dirs[a], nd);
    ClonedSpacesOk(h, h', dirs[a], nd);
    if b != c && b != a {
      ClonedOther(h, h', dirs, a, b, nd);
    }
  }

  lemma ClonedApart(h: Phys, h': Phys, dirs: Dirs, a: int, c: int, nd: nat, x: int, y: int)
    requires StructInv(h, dirs) && a in dirs && c !in dirs && Cloned(h, h', dirs[a], nd, USER_TABLES)
    requires x in dirs[c := nd] && y in dirs[c := nd]
    requires DirsInMem(h', dirs[c := nd])
    ensures Apart(h', dirs[c := nd][x], dirs[c := nd][y])
  {
    var d, d' := dirs[c := nd][x], dirs[c := nd][y];
    var o, o' := dirs[if x == c then a else x], dirs[if y == c then a else y];
    ClonedEntries(h, h', dirs, a, c, nd, x);
    ClonedEntries(h, h', dirs, a, c, nd, y);
    assert Apart(h, o, o');
    forall p | 0 <= p < USER_PAGES && EntryAt(h'.mem, d, p).present
      ensures !InStruct(h'.mem, d', EntryAt(h'.mem, d, p).frame)
    {
      ClonedAvoids(h, h', dirs[a], nd, EntryAt(h.mem, o, p).frame);
    }
    if d != d' {
      forall f: nat ensures !(InStruct(h'.mem, d, f) && InStruct(h'.mem, d', f)) {
        if x != c && InStruct(h.mem, d, f) { ClonedAvoids(h, h', dirs[a], nd, f); }
        if y != c && InStruct(h.mem, d', f) { ClonedAvoids(h, h', dirs[a], nd, f); }
      }
    }
  }

  lemma ClonedStructInv(h: Phys, h': Phys, dirs: Dirs, a: int, c: int, nd: nat)
    requires StructInv(h, dirs) && a in dirs && c !in dirs && Cloned(h, h', dirs[a], nd, USER_TABLES)
    requires PhysOk(h') && ZeroHeld(h')
    ensures StructInv(h', dirs[c := nd])
  {
    var dirs' := dirs[c := nd];
    forall b | b in dirs' ensures SpaceOk(h', dirs'[b]) {
      ClonedEntries(h, h', dirs, a, c, nd, b);
    }
    forall b | b in dirs ensures dirs[b] != nd {
      assert InStruct(h.mem, dirs[b], dirs[b]);
      ClonedAvoids(h, h', dirs[a], nd, dirs[b]);
    }
    forall x, y | x in dirs' && y in dirs' ensures Apart(h', dirs'[x], dirs'[y]) {
      ClonedApart(h, h', dirs, a, c, nd, x, y);
    }
  }

  lemma ClonedSpace(h: Phys, h': Phys, dirs: Dirs, a: int, c: int, nd: nat, b: int)
    requires StructInv(h, dirs) && a in dirs && c !in dirs && Cloned(h, h', dirs[a], nd, USER_TABLES)
    requires b in dirs[c := nd]
    ensures FlatOf(h', dirs[c := nd][b]) ==
      if b == a || b == c then Shared(FlatOf(h, dirs[a])) else FlatOf(h, dirs[b])
  {
    if b == a {
      ClonedSource(h, h', dirs[a], nd);
    } else if b == c {
      ClonedNew(h, h', dirs[a], nd);
    } else {
      ClonedOther(h, h', dirs, a, b, nd);
    }
  }

  lemma ClonedSpaces(h: Phys, h': Phys, dirs: Dirs, a: int, c: int, nd: nat)
    requires StructInv(h, dirs) && a in dirs && c !in dirs && Cloned(h, h', dirs[a], nd, USER_TABLES)
    ensures SpacesOf(h', dirs[c := nd]) == Forked(SpacesOf(h, dirs), a, c)
  {
    var spaces, spaces' := SpacesOf(h, dirs), Forked(SpacesOf(h, dirs), a, c);
    forall b | b in dirs[c := nd] ensures FlatOf(h', dirs[c := nd][b]) == spaces'[b] {
      ClonedSpace(h, h', dirs, a, c, nd, b);
    }
  }

  /** Cloning keeps the whole invariant. */
  lemma ClonedInv(h: Phys, h': Phys, dirs: Dirs, a: int, c: int, nd: nat)
    requires Inv(h, dirs) && a in dirs && c !in dirs && Cloned(h, h', dirs[a], nd, USER_TABLES)
    requires PhysOk(h') && ZeroHeld(h')
    ensures Inv(h', dirs[c := nd])
  {
    ClonedStructInv(h, h', dirs, a, c, nd);
    ClonedSpaces(h, h', dirs, a, c, nd);
    var spaces := SpacesOf(h, dirs);
    forall s | 0 <= s < |h.counts| && h.counts[s] > 0
      ensures h'.counts[s] >= h.counts[s] + |PagesAt(spaces[a], s)|
    {
      PagesAtIsPagesOf(h, dirs[a], s);
      IndexRoundTrip(h.lower, s);
      assert Held(h, FrameOf(h.lower, s));
      ClonedAvoids(h, h', dirs[a], nd, FrameOf(h.lower, s));
    }
    ForkKeeps(h.counts, h'.counts, spaces, a, c);
  }

  // ----- remove_address_space and nuke_page_directory -----

  /** What the drop of directory d does to any frame that is neither free nor part of d. */
  lemma DropKeeps(h: Phys, h': Phys, dirs: Dirs, a: int, f: nat)
    requires Inv(h, dirs) && a in dirs && Dropped(h, h', dirs[a])
    requires Held(h, f) && !InStruct(h.mem, dirs[a], f)
    ensures f < |h.mem| ==> h'.mem[f] == h.mem[f]
    ensures |PagesAt(FlatOf(h, dirs[a]), Slot(h.lower, f))| + h'.counts[Slot(h.lower, f)] == h.counts[Slot(h.lower, f)]
  {
    var s := Slot(h.lower, f);
    PagesAtIsPagesOf(h, dirs[a], s);
    CountCovers(h.counts, SpacesOf(h, dirs), a, s);
  }

  /** Common to both: frames outside d keep their contents and lose one reference per mapping. */
  ghost predicate Dropped(h: Phys, h': Phys, d: nat)
    requires d < |h.mem|
  {
    && h'.lower == h.lower && |h'.mem| == |h.mem| && |h'.counts| == |h.counts|
    && (forall f: nat :: f < |h.mem| && !InStruct(h.mem, d, f) ==> h'.mem[f] == h.mem[f])
    && (forall s :: 0 <= s < |h.counts| && !InStruct(h.mem, d, FrameOf(h.lower, s)) ==>
          h'.counts[s] == Lowered(h.counts[s], SpaceCount(h.lower, h.mem, d, USER_TABLES, s)))
  }

  /** A frame that another process maps keeps a positive count through the drop. */
  lemma DropKeepsMapped(h: Phys, h': Phys, dirs: Dirs, a: int, b: int, p: int)
    requires Inv(h, dirs) && a in dirs && b in dirs && a != b && Dropped(h, h', dirs[a])
    requires 0 <= p < USER_PAGES && EntryAt(h.mem, dirs[b], p).present
    ensures Held(h', EntryAt(h.mem, dirs[b], p).frame)
  {
    assert Apart(h, dirs[b], dirs[a]);
    DropKeeps(h, h', dirs, a, EntryAt(h.mem, dirs[b], p).frame);
    OthersRemain(h.counts, SpacesOf(h, dirs), a, b, p);
  }

  lemma DropKeepsStruct(h: Phys, h': Phys, dirs: Dirs, a: int, b: int, f: nat)
    requires Inv(h, dirs) && a in dirs && b in dirs && a != b && Dropped(h, h', dirs[a])
    requires InStruct(h.mem, dirs[b], f)
    ensures Held(h', f) && (f < |h.mem| ==> h'.mem[f] == h.mem[f])
  {
    var s := Slot(h.lower, f);
    assert Apart(h, dirs[a], dirs[b]);
    DropKeeps(h, h', dirs, a, f);
    var ps := PagesAt(FlatOf(h, dirs[a]), s);
    if ps != {} {
      var p := Pick(ps);
      SlotsDiffer(h, f, EntryAt(h.mem, dirs[a], p).frame);
      assert false;
    }
  }

  lemma DropOther(h: Phys, h': Phys, dirs: Dirs, a: int, b: int)
    requires Inv(h, dirs) && a in dirs && b in dirs && a != b && Dropped(h, h', dirs[a])
    ensures SpaceOk(h', dirs[b]) && FlatOf(h', dirs[b]) == FlatOf(h, dirs[b])
    ensures forall f: nat :: InStruct(h'.mem, dirs[b], f) <==> InStruct(h.mem, dirs[b], f)
    ensures forall q :: 0 <= q < USER_PAGES ==> EntryAt(h'.mem, dirs[b], q) == EntryAt(h.mem, dirs[b], q)
  {
    forall f: nat | InStruct(h.mem, dirs[b], f)
      ensures Held(h', f) && (f < |h.mem| ==> h'.mem[f] == h.mem[f])
    {
      DropKeepsStruct(h, h', dirs, a, b, f);
    }
    forall p | 0 <= p < USER_PAGES && EntryAt(h.mem, dirs[b], p).present ensures Held(h', EntryAt(h.mem, dirs[b], p).frame) {
      DropKeepsMapped(h, h', dirs, a, b, p);
    }
    FlatFrame(h, h', dirs[b]);
    SpaceSurvives(h, h', dirs[b]);
  }

  lemma DropCounted(h: Phys, h': Phys, dirs: Dirs, a: int)
    requires Inv(h, dirs) && a in dirs && Dropped(h, h', dirs[a])
    ensures var spaces := SpacesOf(h, dirs);
      && Counted(h'.counts, spaces - {a}) && SoleWriter(spaces - {a})
      && Counted(h'.counts, spaces[a := map[]]) && SoleWriter(spaces[a := map[]])
  {
    var spaces := SpacesOf(h, dirs);
    forall s | 0 <= s < |h.counts| && h.counts[s] > 0 && Refs(spaces, s) != {}
      ensures h'.counts[s] >= h.counts[s] - |PagesAt(spaces[a], s)|
    {
      var r := Pick(Refs(spaces, s));
      var f := EntryAt(h.mem, dirs[r.pid], r.page).frame;
      assert Apart(h, dirs[r.pid], dirs[a]);
      DropKeeps(h, h', dirs, a, f);
    }
    RemoveKeeps(h.counts, h'.counts, spaces, a);
  }

  lemma DropZeroHeld(h: Phys, h': Phys, dirs: Dirs, a: int)
    requires Inv(h, dirs) && a in dirs && Dropped(h, h', dirs[a])
    ensures ZeroHeld(h')
  {
    if |h.counts| > 0 && h.lower >= PAGE {
      assert Held(h, 0);
      DropKeeps(h, h', dirs, a, 0);
      var ps := PagesAt(FlatOf(h, dirs[a]), 0);
      if ps != {} {
        var p := Pick(ps);
        SlotsDiffer(h, 0, EntryAt(h.mem, dirs[a], p).frame);
        assert false;
      }
    }
  }

  lemma NukedDropped(h: Phys, h': Phys, d: nat)
    requires d < |h.mem| && Nuked(h, h', d)
    ensures Dropped(h, h', d)
  {
  }

  lemma NukedStructInv(h: Phys, h': Phys, dirs: Dirs, a: int)
    requires Inv(h, dirs) && a in dirs && Nuked(h, h', dirs[a]) && PhysOk(h')
    ensures StructInv(h', dirs - {a})
  {
    NukedDropped(h, h', dirs[a]);
    DropZeroHeld(h, h', dirs, a);
    forall b | b in dirs && b != a ensures SpaceOk(h', dirs[b]) {
      DropOther(h, h', dirs, a, b);
    }
    forall b, c | b in dirs && c in dirs ensures Apart(h', dirs[b], dirs[c]) {
      assert Apart(h, dirs[b], dirs[c]);
    }
  }

  /** Memory is untouched, so the remaining spaces read as before. */
  lemma NukedSpaces(h: Phys, h': Phys, dirs: Dirs, a: int)
    requires h'.mem == h.mem && h'.lower == h.lower && a in dirs
    ensures SpacesOf(h', dirs - {a}) == SpacesOf(h, dirs) - {a}
  {
    forall b | b in dirs ensures FlatOf(h', dirs[b]) == FlatOf(h, dirs[b]) {
    }
  }

  /** Dropping one process's directory leaves the others intact. */
  lemma NukedInv(h: Phys, h': Phys, dirs: Dirs, a: int)
    requires Inv(h, dirs) && a in dirs && Nuked(h, h', dirs[a]) && PhysOk(h')
    ensures Inv(h', dirs - {a})
    ensures SpacesOf(h', dirs - {a}) == SpacesOf(h, dirs) - {a}
  {
    NukedDropped(h, h', dirs[a]);
    NukedStructInv(h, h', dirs, a);
    NukedSpaces(h, h', dirs, a);
    DropCounted(h, h', dirs, a);
  }

  lemma EmptiedDropped(h: Phys, h': Phys, d: nat)
    requires PhysOk(h) && SpaceOk(h, d) && DropProgress(h, h', d, USER_TABLES, true)
    ensures Dropped(h, h', d)
  {
  }

  /** The user half of a directory after remove_address_space. */
  lemma EmptiedSpace(h: Phys, h': Phys, d: nat)
    requires SpaceOk(h, d) && DropProgress(h, h', d, USER_TABLES, true)
    ensures DirOk(h'.mem, d) && FlatOf(h', d) == map[]
    ensures forall f: nat :: InStruct(h'.mem, d, f) <==> f == d
    ensures forall p :: 0 <= p < USER_PAGES ==> !EntryAt(h'.mem, d, p).present
  {
    forall i | 0 <= i < USER_TABLES ensures !h'.mem[d][i].present && h'.mem[d][i].frame == 0 {
    }
  }

  lemma EmptiedSpaceOk(h: Phys, h': Phys, dirs: Dirs, a: int)
    requires Inv(h, dirs) && a in dirs && DropProgress(h, h', dirs[a], USER_TABLES, true)
    ensures SpaceOk(h', dirs[a])
  {
    var d := dirs[a];
    EmptiedSpace(h, h', d);
    assert InStruct(h.mem, d, d) && Held(h, d);
    PagesAtIsPagesOf(h, d, Slot(h.lower, d));
    var ps := PagesAt(FlatOf(h, d), Slot(h.lower, d));
    if ps != {} {
      var p := Pick(ps);
      assert Apart(h, d, d);
      SlotsDiffer(h, d, EntryAt(h.mem, d, p).frame);
      assert false;
    }
    assert !IsTable(h.mem, d, USER_TABLES, d);
  }

  lemma EmptiedStructInv(h: Phys, h': Phys, dirs: Dirs, a: int)
    requires Inv(h, dirs) && a in dirs && DropProgress(h, h', dirs[a], USER_TABLES, true) && PhysOk(h')
    ensures StructInv(h', dirs)
  {
    EmptiedDropped(h, h', dirs[a]);
    EmptiedSpace(h, h', dirs[a]);
    EmptiedSpaceOk(h, h', dirs, a);
    DropZeroHeld(h, h', dirs, a);
    forall b | b in dirs && b != a ensures SpaceOk(h', dirs[b]) {
      DropOther(h, h', dirs, a, b);
    }
    forall b, c | b in dirs && c in dirs ensures Apart(h', dirs[b], dirs[c]) {
      EmptiedApart(h, h', dirs, a, b, c);
    }
  }

  lemma EmptiedApart(h: Phys, h': Phys, dirs: Dirs, a: int, b: int, c: int)
    requires Inv(h, dirs) && a in dirs && DropProgress(h, h', dirs[a], USER_TABLES, true)
    requires b in dirs && c in dirs
    ensures Apart(h', dirs[b], dirs[c])
  {
    EmptiedDropped(h, h', dirs[a]);
    EmptiedSpace(h, h', dirs[a]);
    assert Apart(h, dirs[b], dirs[c]);
    assert InStruct(h.mem, dirs[a], dirs[a]);
    if b != a { DropOther(h, h', dirs, a, b); }
    if c != a { DropOther(h, h', dirs, a, c); }
  }

  lemma EmptiedSpaces(h: Phys, h': Phys, dirs: Dirs, a: int)
    requires Inv(h, dirs) && a in dirs && DropProgress(h, h', dirs[a], USER_TABLES, true)
    ensures SpacesOf(h', dirs) == SpacesOf(h, dirs)[a := map[]]
  {
    EmptiedDropped(h, h', dirs[a]);
    EmptiedSpace(h, h', dirs[a]);
    forall b | b in dirs && b != a ensures FlatOf(h', dirs[b]) == FlatOf(h, dirs[b]) {
      DropOther(h, h', dirs, a, b);
    }
  }

  /** Emptying one process's user half leaves the others intact. */
  lemma EmptiedInv(h: Phys, h': Phys, dirs: Dirs, a: int)
    requires Inv(h, dirs) && a in dirs && DropProgress(h, h', dirs[a], USER_TABLES, true) && PhysOk(h')
    ensures Inv(h', dirs)
    ensures SpacesOf(h', dirs) == SpacesOf(h, dirs)[a := map[]]
  {
    EmptiedDropped(h, h', dirs[a]);
    EmptiedStructInv(h, h', dirs, a);
    EmptiedSpaces(h, h', dirs, a);
    DropCounted(h, h', dirs, a);
  }

  // ----- changes that no table sees: counts, and the contents of data frames -----

  /** The tables of every process are as they were and every frame they lead to is in use. */
  ghost predicate TablesKept(h: Phys, h': Phys, dirs: Dirs)
    requires DirsInMem(h, dirs)
  {
    && h'.lower == h.lower && |h'.mem| == |h.mem| && |h'.counts| == |h.counts|
    && PhysOk(h') && ZeroHeld(h')
    && (forall a, f: nat :: a in dirs && InStruct(h.mem, dirs[a], f) ==> Held(h', f) && (f < |h.mem| ==> h'.mem[f] == h.mem[f]))
    && (forall a, p :: a in dirs && 0 <= p < USER_PAGES && EntryAt(h.mem, dirs[a], p).present ==>
          Held(h', EntryAt(h.mem, dirs[a], p).frame))
  }

  lemma TablesKeptInv(h: Phys, h': Phys, dirs: Dirs)
    requires StructInv(h, dirs) && TablesKept(h, h', dirs)
    ensures StructInv(h', dirs) && SpacesOf(h', dirs) == SpacesOf(h, dirs)
    ensures forall a, f: nat :: a in dirs ==> (InStruct(h'.mem, dirs[a], f) <==> InStruct(h.mem, dirs[a], f))
  {
    forall a | a in dirs
      ensures SpaceOk(h', dirs[a]) && FlatOf(h', dirs[a]) == FlatOf(h, dirs[a])
      ensures forall f: nat :: InStruct(h'.mem, dirs[a], f) <==> InStruct(h.mem, dirs[a], f)
      ensures forall p :: 0 <= p < USER_PAGES ==> EntryAt(h'.mem, dirs[a], p) == EntryAt(h.mem, dirs[a], p)
    {
      FlatFrame(h, h', dirs[a]);
      SpaceSurvives(h, h', dirs[a]);
    }
    forall a, b | a in dirs && b in dirs ensures Apart(h', dirs[a], dirs[b]) {
      assert Apart(h, dirs[a], dirs[b]);
    }
  }

  /** A free frame is no part of any table and nobody maps it. */
  lemma FreeIsUnused(h: Phys, dirs: Dirs, f: nat)
    requires Inv(h, dirs) && Managed(h.lower, |h.counts|, f) && h.counts[Slot(h.lower, f)] == 0
    ensures forall a :: a in dirs ==> !InStruct(h.mem, dirs[a], f)
    ensures forall a, p :: a in SpacesOf(h, dirs) && p in SpacesOf(h, dirs)[a] ==> SpacesOf(h, dirs)[a][p].slot != Slot(h.lower, f)
  {
    forall a, p | a in SpacesOf(h, dirs) && p in SpacesOf(h, dirs)[a]
      ensures SpacesOf(h, dirs)[a][p].slot != Slot(h.lower, f)
    {
      MappedIsCounted(h.counts, SpacesOf(h, dirs), a, p);
    }
  }

  // ----- what processes read -----

  /** Each mapping's slot leads back to the frame in its entry, which is outside all tables. */
  lemma SlotContent(h: Phys, dirs: Dirs, a: int, p: int)
    requires StructInv(h, dirs) && a in dirs && p in FlatOf(h, dirs[a])
    ensures var f := EntryAt(h.mem, dirs[a], p).frame; var s := FlatOf(h, dirs[a])[p].slot;
      && s == Slot(h.lower, f) && FrameOf(h.lower, s) == f && f < |h.mem| && Held(h, f)
      && ContentAt(h, s) == h.mem[f]
      && (forall b :: b in dirs ==> !InStruct(h.mem, dirs[b], f))
  {
    forall b | b in dirs ensures !InStruct(h.mem, dirs[b], EntryAt(h.mem, dirs[a], p).frame) {
      assert Apart(h, dirs[a], dirs[b]);
    }
  }

  lemma ImagesKept(h: Phys, h': Phys, spaces: Spaces)
    requires forall a, p :: a in spaces && p in spaces[a] ==> ContentAt(h', spaces[a][p].slot) == ContentAt(h, spaces[a][p].slot)
    ensures ImagesOf(h', spaces) == ImagesOf(h, spaces)
  {
    forall a | a in spaces ensures ImageOf(h', spaces[a]) == ImageOf(h, spaces[a]) {
      var space := spaces[a];
      forall p | p in space ensures ContentAt(h', space[p].slot) == ContentAt(h, space[p].slot) {
      }
    }
  }

  lemma ImagesRemoved(h: Phys, spaces: Spaces, a: int)
    requires a in spaces
    ensures ImagesOf(h, spaces - {a}) == Eager(ImagesOf(h, spaces), Destroy(a))
    ensures ImagesOf(h, spaces[a := map[]]) == Eager(ImagesOf(h, spaces), Clear(a))
  {
    assert ImageOf(h, map[]) == map[];
  }

  lemma ImagesForked(h: Phys, spaces: Spaces, a: int, c: int)
    requires a in spaces && c !in spaces
    ensures ImagesOf(h, Forked(spaces, a, c)) == Eager(ImagesOf(h, spaces), Fork(a, c))
  {
    assert ImageOf(h, Shared(spaces[a])) == ImageOf(h, spaces[a]);
  }

  /** Fork reads as an eager copy: the child sees the parent's pages, nobody else's change. */
  lemma ClonedView(h: Phys, h': Phys, dirs: Dirs, a: int, c: int, nd: nat)
    requires Inv(h, dirs) && a in dirs && c !in dirs && Cloned(h, h', dirs[a], nd, USER_TABLES)
    ensures View(h', dirs[c := nd]) == Eager(View(h, dirs), Fork(a, c))
  {
    var spaces := SpacesOf(h, dirs);
    ClonedSpaces(h, h', dirs, a, c, nd);
    forall b, p | b in Forked(spaces, a, c) && p in Forked(spaces, a, c)[b]
      ensures ContentAt(h', Forked(spaces, a, c)[b][p].slot) == ContentAt(h, Forked(spaces, a, c)[b][p].slot)
    {
      var o := if b == c then a else b;
      SlotContent(h, dirs, o, p);
      ClonedAvoids(h, h', dirs[a], nd, EntryAt(h.mem, dirs[o], p).frame);
    }
    ImagesKept(h, h', Forked(spaces, a, c));
    ImagesForked(h, spaces, a, c);
  }

  lemma NukedView(h: Phys, h': Phys, dirs: Dirs, a: int)
    requires Inv(h, dirs) && a in dirs && Nuked(h, h', dirs[a]) && PhysOk(h')
    ensures View(h', dirs - {a}) == Eager(View(h, dirs), Destroy(a))
  {
    NukedSpaces(h, h', dirs, a);
    var spaces := SpacesOf(h, dirs);
    forall b, p | b in spaces - {a} && p in (spaces - {a})[b]
      ensures ContentAt(h', (spaces - {a})[b][p].slot) == ContentAt(h, (spaces - {a})[b][p].slot)
    {
    }
    ImagesKept(h, h', spaces - {a});
    ImagesRemoved(h, spaces, a);
  }

  lemma EmptiedView(h: Phys, h': Phys, dirs: Dirs, a: int)
    requires Inv(h, dirs) && a in dirs && DropProgress(h, h', dirs[a], USER_TABLES, true) && PhysOk(h')
    ensures View(h', dirs) == Eager(View(h, dirs), Clear(a))
  {
    var spaces := SpacesOf(h, dirs);
    var spaces': Spaces := spaces[a := map[]];
    EmptiedDropped(h, h', dirs[a]);
    EmptiedSpaces(h, h', dirs, a);
    forall b, p | b in spaces' && p in spaces'[b]
      ensures ContentAt(h', spaces'[b][p].slot) == ContentAt(h, spaces'[b][p].slot)
    {
      SlotContent(h, dirs, b, p);
    }
    ImagesKept(h, h', spaces');
    ImagesRemoved(h, spaces, a);
  }

  // ----- clone and nuke are inverse on counts -----

  /** A fresh clone can itself be dropped. */
  lemma ClonedDroppable(h: Phys, h': Phys, src: nat, nd: nat)
    requires PhysOk(h) && DirOk(h.mem, src) && SpaceCovered(h, src) && Cloned(h, h', src, nd, USER_TABLES)
    ensures DirOk(h'.mem, nd) && StructHeld(h', nd) && SpaceCovered(h', nd)
  {
    ClonedNew(h, h', src, nd);
    forall i | 0 <= i < USER_TABLES && h'.mem[nd][i].present ensures EntriesCovered(h', h'.mem[h'.mem[nd][i].frame]) {
      assert EntryCloned(h, h', src, nd, i);
      assert EntriesCovered(h, h.mem[h.mem[src][i].frame]);
    }
  }

  lemma ClonedCount(h: Phys, h': Phys, src: nat, nd: nat, s: int)
    requires PhysOk(h) && DirOk(h.mem, src) && Cloned(h, h', src, nd, USER_TABLES)
    ensures SpaceCount(h'.lower, h'.mem, nd, USER_TABLES, s) == SpaceCount(h.lower, h.mem, src, USER_TABLES, s)
  {
    ClonedNew(h, h', src, nd);
    PagesAtIsPagesOf(h, src, s);
    PagesAtIsPagesOf(h', nd, s);
    PagesAtShared(FlatOf(h, src), s);
  }

  /** Dropping a clone right after it was made gives back every reference count exactly,
      whatever the tables of the source contain. */
  lemma CloneThenNukeRestores(h: Phys, h1: Phys, h2: Phys, src: nat, nd: nat)
    requires PhysOk(h) && DirOk(h.mem, src) && Cloned(h, h1, src, nd, USER_TABLES) && Nuked(h1, h2, nd)
    ensures h2.counts == h.counts
  {
    ClonedNew(h, h1, src, nd);
    forall s | 0 <= s < |h.counts| ensures h2.counts[s] == h.counts[s] {
      ClonedCount(h, h1, src, nd, s);
      IndexRoundTrip(h.lower, s);
    }
  }
}
