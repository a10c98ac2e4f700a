/** Address spaces as flat maps from user pages to counted frames, and the reference machine
    in which fork copies every page at once. The invariant kept by sharing, and the steps
    that keep it. */
module CopyOnWrite {
  import opened PageEntries
  import opened Sets

  /** A mapping: the frame's slot in the allocator's byte map and whether a user may write. */
  datatype Pte = Pte(slot: int, writable: bool)

  type Space = map<int, Pte>
  type Spaces = map<int, Space>

  datatype Ref = Ref(pid: int, page: int)

  /** All mappings of a frame. */
  ghost function Refs(spaces: Spaces, s: int): (r: set<Ref>)
    ensures forall x :: x in r <==> x.pid in spaces && x.page in spaces[x.pid] && spaces[x.pid][x.page].slot == s
  {
    set a, p | a in spaces && p in spaces[a] && spaces[a][p].slot == s :: Ref(a, p)
  }

  ghost function PagesAt(space: Space, s: int): set<int> {
    set p | p in space && space[p].slot == s
  }

  /** Every count covers the mappings of its frame; it may exceed them. */
  ghost predicate Counted(rc: seq<nat>, spaces: Spaces) {
    && (forall a, p :: a in spaces && p in spaces[a] ==> 0 <= spaces[a][p].slot < |rc|)
    && (forall s :: 0 <= s < |rc| ==> |Refs(spaces, s)| <= rc[s])
  }

  /** A writable mapping is the only mapping of its frame. */
  ghost predicate SoleWriter(spaces: Spaces) {
    forall a, p, b, q ::
      (a in spaces && p in spaces[a] && b in spaces && q in spaces[b] &&
       spaces[a][p].writable && spaces[a][p].slot == spaces[b][q].slot) ==> a == b && p == q
  }

  // ----- steps on mappings -----

  function Shared(space: Space): Space {
    map p | p in space :: space[p].(writable := false)
  }

  function Forked(spaces: Spaces, a: int, c: int): Spaces
    requires a in spaces
  {
    spaces[a := Shared(spaces[a])][c := Shared(spaces[a])]
  }

  function Mapped(spaces: Spaces, a: int, p: int, e: Pte): Spaces
    requires a in spaces
  {
    spaces[a := spaces[a][p := e]]
  }

  // ----- counting -----

  ghost function Pairs(a: int, ps: set<int>): (r: set<Ref>)
    ensures forall x: Ref :: x in r <==> x.pid == a && x.page in ps
  {
    set p | p in ps :: Ref(a, p)
  }

  lemma {:induction false} PairCard(a: int, ps: set<int>)
    ensures |Pairs(a, ps)| == |ps|
  {
    if ps == {} {
      assert Pairs(a, ps) == {};
    } else {
      var p := Pick(ps);
      PairCard(a, ps - {p});
      assert Pairs(a, ps) == Pairs(a, ps - {p}) + {Ref(a, p)};
    }
  }

  lemma RefsRemove(spaces: Spaces, a: int, s: int)
    requires a in spaces
    ensures |Refs(spaces - {a}, s)| == |Refs(spaces, s)| - |PagesAt(spaces[a], s)|
  {
    var gone := Pairs(a, PagesAt(spaces[a], s));
    assert Refs(spaces, s) == Refs(spaces - {a}, s) + gone;
    assert Refs(spaces - {a}, s) !! gone;
    PairCard(a, PagesAt(spaces[a], s));
  }

  /** Replacing one space replaces its pairs in every reference set. */
  lemma RefsReplace(spaces: Spaces, a: int, space: Space, s: int)
    ensures |Refs(spaces[a := space], s)|
         == |Refs(spaces, s)| - (if a in spaces then |PagesAt(spaces[a], s)| else 0) + |PagesAt(space, s)|
  {
    RefsRemove(spaces[a := space], a, s);
    assert spaces[a := space] - {a} == spaces - {a};
    if a in spaces {
      RefsRemove(spaces, a, s);
    } else {
      assert spaces - {a} == spaces;
    }
  }

  lemma PagesAtShared(space: Space, s: int)
    ensures PagesAt(Shared(space), s) == PagesAt(space, s)
  {
  }

  /** Fork keeps the invariant when every count rises by the parent's mappings of its frame. */
  lemma ForkKeeps(rc: seq<nat>, rc': seq<nat>, spaces: Spaces, a: int, c: int)
    requires Counted(rc, spaces) && SoleWriter(spaces)
    requires a in spaces && c !in spaces && |rc'| == |rc|
    requires forall s :: 0 <= s < |rc| && rc[s] > 0 ==> rc'[s] >= rc[s] + |PagesAt(spaces[a], s)|
    ensures Counted(rc', Forked(spaces, a, c)) && SoleWriter(Forked(spaces, a, c))
  {
    var spaces' := Forked(spaces, a, c);
    var mid := spaces[a := Shared(spaces[a])];
    forall s | 0 <= s < |rc| ensures |Refs(spaces', s)| <= rc'[s] {
      PagesAtShared(spaces[a], s);
      RefsReplace(spaces, a, Shared(spaces[a]), s);
      RefsReplace(mid, c, Shared(spaces[a]), s);
      Subset(Pairs(a, PagesAt(spaces[a], s)), Refs(spaces, s));
      PairCard(a, PagesAt(spaces[a], s));
    }
  }

  lemma RefsMapped(spaces: Spaces, a: int, p: int, e: Pte, s: int)
    requires a in spaces
    requires forall b, q :: b in spaces && q in spaces[b] && spaces[b][q].slot == e.slot ==> b == a && q == p
    ensures s == e.slot ==> |Refs(Mapped(spaces, a, p, e), s)| == 1
    ensures s != e.slot ==>
      |Refs(Mapped(spaces, a, p, e), s)| + (if p in spaces[a] && spaces[a][p].slot == s then 1 else 0) == |Refs(spaces, s)|
  {
    var r, r' := Refs(spaces, s), Refs(Mapped(spaces, a, p, e), s);
    if s == e.slot {
      assert r' == {Ref(a, p)};
    } else if p in spaces[a] && spaces[a][p].slot == s {
      assert Ref(a, p) in r && Ref(a, p) !in r';
      assert r == r' + {Ref(a, p)};
    } else {
      assert r' == r;
    }
  }

  /** Mapping a page to a frame that nothing else maps keeps the invariant. */
  lemma MapKeeps(rc: seq<nat>, rc': seq<nat>, spaces: Spaces, a: int, p: int, e: Pte)
    requires Counted(rc, spaces) && SoleWriter(spaces) && a in spaces && |rc'| == |rc|
    requires 0 <= e.slot < |rc| && rc'[e.slot] >= 1
    requires forall b, q :: b in spaces && q in spaces[b] && spaces[b][q].slot == e.slot ==> b == a && q == p
    requires forall s :: 0 <= s < |rc| && s != e.slot ==>
      rc'[s] + (if p in spaces[a] && spaces[a][p].slot == s then 1 else 0) >= rc[s]
    ensures Counted(rc', Mapped(spaces, a, p, e)) && SoleWriter(Mapped(spaces, a, p, e))
  {
    forall s | 0 <= s < |rc| ensures |Refs(Mapped(spaces, a, p, e), s)| <= rc'[s] {
      RefsMapped(spaces, a, p, e, s);
    }
  }

  /** Taking a space away keeps the invariant when counts fall by no more than its mappings. */
  lemma RemoveKeeps(rc: seq<nat>, rc': seq<nat>, spaces: Spaces, a: int)
    requires Counted(rc, spaces) && SoleWriter(spaces) && a in spaces && |rc'| == |rc|
    requires forall s :: 0 <= s < |rc| && rc[s] > 0 && Refs(spaces, s) != {} ==> rc'[s] >= rc[s] - |PagesAt(spaces[a], s)|
    ensures Counted(rc', spaces - {a}) && SoleWriter(spaces - {a})
    ensures Counted(rc', spaces[a := map[]]) && SoleWriter(spaces[a := map[]])
  {
    forall s | 0 <= s < |rc|
      ensures |Refs(spaces - {a}, s)| <= rc'[s] && |Refs(spaces[a := map[]], s)| <= rc'[s]
    {
      RefsRemove(spaces, a, s);
      RefsReplace(spaces, a, map[], s);
      assert PagesAt(map[], s) == {};
    }
  }

  /** A frame counted once is mapped by nobody else. */
  lemma CountOneIsSole(rc: seq<nat>, spaces: Spaces, a: int, p: int)
    requires Counted(rc, spaces) && a in spaces && p in spaces[a] && rc[spaces[a][p].slot] == 1
    ensures forall b, q :: b in spaces && q in spaces[b] && spaces[b][q].slot == spaces[a][p].slot ==> b == a && q == p
  {
    var s := spaces[a][p].slot;
    forall b, q | b in spaces && q in spaces[b] && spaces[b][q].slot == s ensures b == a && q == p {
      Subset({Ref(a, p), Ref(b, q)}, Refs(spaces, s));
    }
  }

  lemma CountCovers(rc: seq<nat>, spaces: Spaces, a: int, s: int)
    requires Counted(rc, spaces) && a in spaces && 0 <= s < |rc|
    ensures |PagesAt(spaces[a], s)| <= rc[s]
  {
    RefsRemove(spaces, a, s);
  }

  /** A mapping held by one process is not covered by another's references. */
  lemma OthersRemain(rc: seq<nat>, spaces: Spaces, a: int, b: int, p: int)
    requires Counted(rc, spaces) && a in spaces && b in spaces && a != b && p in spaces[b]
    ensures |PagesAt(spaces[a], spaces[b][p].slot)| < rc[spaces[b][p].slot]
  {
    var s := spaces[b][p].slot;
    RefsRemove(spaces, a, s);
    Subset({Ref(b, p)}, Refs(spaces - {a}, s));
  }

  /** A frame that is mapped anywhere has a positive count, so the allocator passes over it. */
  lemma MappedIsCounted(rc: seq<nat>, spaces: Spaces, a: int, p: int)
    requires Counted(rc, spaces) && a in spaces && p in spaces[a]
    ensures rc[spaces[a][p].slot] >= 1
  {
    Subset({Ref(a, p)}, Refs(spaces, spaces[a][p].slot));
  }

  // ----- the reference machine: every process owns its pages outright -----

  type Image = map<int, Page>
  type Images = map<int, Image>

  function WithPage(image: Image, page: int, content: Page): Image {
    image[page := content]
  }

  datatype Step =
    | Create(pid: int)
    | Fork(parent: int, child: int)
    | Write(pid: int, page: int, offset: int, word: Word)
    | Map(pid: int, page: int, fill: Page)
    | Clear(pid: int)
    | Destroy(pid: int)

  /** Steps that name no such process, or an identifier already taken, change nothing; a write
      to an unmapped page kills the writer and changes no memory. */
  function Eager(s: Images, step: Step): Images {
    match step
    case Create(pid) => if pid in s then s else s[pid := map[]]
    case Fork(parent, child) => if parent in s && child !in s then s[child := s[parent]] else s
    case Write(pid, page, offset, word) =>
      if pid in s && page in s[pid] && 0 <= offset < ENTRIES
      then s[pid := WithPage(s[pid], page, WithEntry(s[pid][page], offset, word))] else s
    case Map(pid, page, fill) => if pid in s then s[pid := WithPage(s[pid], page, fill)] else s
    case Clear(pid) => if pid in s then s[pid := map[]] else s
    case Destroy(pid) => s - {pid}
  }
}
