/** The table-editing code of kernel/memory/memory_paging.c. Directories and tables are only
    ever read and written through one kernel page, the window at 0xC0000000, which is pointed
    at a physical frame before each access. */
module Paging {
  import opened Machine
  import opened PhysicalFrames
  import opened PageEntries
  import opened PageTables
  import opened Sets

  class Mmu {
    const phys: FrameAllocator
    var mem: seq<Page>     // physical memory by frame number
    var window: nat        // the frame behind the temporary mapping
    var scratch: Page      // the work page at 0xCFFFD000

    ghost function H(): Phys
      reads this, phys.allocations
    {
      Phys(phys.lower, mem, phys.allocations[..])
    }

    ghost predicate Valid()
      reads this, phys, phys.allocations, phys.freeList
    {
      phys.Valid() && PhysOk(H())
    }

    constructor (phys: FrameAllocator, mem: seq<Page>)
      requires phys.Valid()
      requires FrameOf(phys.lower, phys.allocations.Length) <= |mem| <= 0x10_0000
      ensures Valid()
      ensures this.phys == phys && this.mem == mem
    {
      this.phys := phys;
      this.mem := mem;
      window := 0;
      scratch := Blank();
    }

    // ----- the window -----

    /** temp_map_page */
    method TempMap(f: nat)
      requires f < |mem|
      modifies this`window
      ensures window == f
    {
      window := f;
    }

    method Load(j: nat) returns (w: Word)
      requires window < |mem| && j < ENTRIES
      ensures w == mem[window][j]
    {
      w := mem[window][j];
    }

    method Store(j: nat, w: Word)
      requires window < |mem| && j < ENTRIES
      modifies this`mem
      ensures mem == old(mem)[window := WithEntry(old(mem)[window], j, w)]
    {
      mem := mem[window := mem[window][j := w]];
    }

    /** A store by the processor itself, to the frame its page walk ended in. */
    method StoreAt(f: nat, j: nat, w: Word)
      requires f < |mem| && j < ENTRIES
      modifies this`mem
      ensures mem == old(mem)[f := WithEntry(old(mem)[f], j, w)]
    {
      mem := mem[f := WithEntry(mem[f], j, w)];
    }

    /** memset_32 of a whole page to zero, through the window */
    method Clear()
      requires window < |mem|
      modifies this`mem
      ensures mem == old(mem)[window := Blank()]
    {
      var j := 0;
      while j < ENTRIES
        invariant 0 <= j <= ENTRIES
        invariant |mem| == |old(mem)|
        invariant mem == old(mem)[window := mem[window]]
        invariant forall k :: 0 <= k < j ==> mem[window][k] == ZERO
      {
        Store(j, ZERO);
        j := j + 1;
      }
      assert mem[window] == Blank();
    }

    /** Copy words to the start of a frame; the rest of the frame stays as it was. */
    method FillFrame(f: nat, words: seq<Word>) returns (ghost content: Page)
      requires f < |mem| && |words| <= ENTRIES
      modifies this`window, this`mem
      ensures mem == old(mem)[f := content]
      ensures forall k :: 0 <= k < ENTRIES ==> content[k] == if k < |words| then words[k] else old(mem)[f][k]
    {
      TempMap(f);
      var j := 0;
      while j < |words|
        invariant 0 <= j <= |words|
        invariant window == f && |mem| == |old(mem)|
        invariant mem == old(mem)[f := mem[f]]
        invariant forall k :: 0 <= k < ENTRIES ==> mem[f][k] == if k < j then words[k] else old(mem)[f][k]
      {
        Store(j, words[j]);
        j := j + 1;
      }
      content := mem[f];
    }

    /** Copy one frame to another by way of the scratch page, the window showing each in turn. */
    method CopyFrame(from: nat, to: nat)
      requires from < |mem| && to < |mem|
      modifies this`window, this`mem, this`scratch
      ensures mem == old(mem)[to := old(mem)[from]]
    {
      TempMap(from);
      var j := 0;
      while j < ENTRIES
        invariant 0 <= j <= ENTRIES && window == from && mem == old(mem)
        invariant forall k :: 0 <= k < j ==> scratch[k] == mem[from][k]
      {
        var w := Load(j);
        scratch := scratch[j := w];
        j := j + 1;
      }
      ghost var content := FillFrame(to, scratch);
      assert content == old(mem)[from];
    }

    // ----- frames -----

    /** alloc_phys_page, as a frame number */
    method AllocFrame() returns (f: nat)
      requires Valid() && ZeroHeld(H())
      requires |FreeSlots(H().counts)| >= 1
      modifies phys.allocations
      ensures Valid() && ZeroHeld(H())
      ensures 0 < f < |mem| && Managed(phys.lower, |H().counts|, f)
      ensures var s := Slot(phys.lower, f); old(H()).counts[s] == 0 && H().counts == old(H()).counts[s := 1]
      ensures |FreeSlots(H().counts)| == |FreeSlots(old(H()).counts)| - 1
    {
      ghost var before := phys.Counts();
      ghost var some :| some in FreeSlots(before);
      assert before[some] == 0;
      var addr, slot := phys.AllocPage();
      FrameIsAddress(phys.lower, slot);
      IndexRoundTrip(phys.lower, slot);
      TakeFreeSlot(before, slot, 1);
      f := addr / PAGE;
    }

    /** A fresh frame cleared through the window. */
    method AllocBlank() returns (f: nat)
      requires Valid() && ZeroHeld(H())
      requires |FreeSlots(H().counts)| >= 1
      modifies this`window, this`mem, phys.allocations
      ensures Valid() && ZeroHeld(H())
      ensures 0 < f < |mem| && Managed(phys.lower, |H().counts|, f)
      ensures mem == old(mem)[f := Blank()]
      ensures var s := Slot(phys.lower, f); old(H()).counts[s] == 0 && H().counts == old(H()).counts[s := 1]
      ensures |FreeSlots(H().counts)| == |FreeSlots(old(H()).counts)| - 1
    {
      f := AllocFrame();
      TempMap(f);
      Clear();
    }

    method Share(f: nat)
      requires Valid() && Slot(phys.lower, f) < |H().counts|
      requires Slot(phys.lower, f) >= 0 ==> H().counts[Slot(phys.lower, f)] < 255
      modifies phys.allocations
      ensures Valid()
      ensures var s := Slot(phys.lower, f);
        H().counts == if s >= 0 then old(H()).counts[s := Raised(old(H()).counts[s], 1)] else old(H()).counts
    {
      SlotIsIndex(phys.lower, f);
      phys.IncreaseRefcount(f * PAGE);
    }

    method Refcount(f: nat) returns (r: int)
      requires Valid() && Slot(phys.lower, f) < |H().counts|
      ensures var s := Slot(phys.lower, f); r == if s >= 0 then H().counts[s] else -1
    {
      SlotIsIndex(phys.lower, f);
      r := phys.GetRefcount(f * PAGE);
    }

    /** Count one more reference for each frame listed. */
    method ShareAll(frames: seq<nat>)
      requires Valid() && ZeroHeld(H())
      requires forall k :: 0 <= k < |frames| ==> Slot(phys.lower, frames[k]) < |H().counts|
      requires forall s :: 0 <= s < |H().counts| ==> H().counts[s] + Times(phys.lower, frames, s) < 256
      modifies phys.allocations
      ensures Valid() && ZeroHeld(H())
      ensures SharedEach(old(H()), H(), frames)
    {
      var k := 0;
      while k < |frames|
        invariant 0 <= k <= |frames|
        invariant Valid() && ZeroHeld(H())
        invariant SharedEach(old(H()), H(), frames[..k])
      {
        assert frames[..k + 1][..k] == frames[..k];
        TimesOfPrefix(phys.lower, frames, k + 1, Slot(phys.lower, frames[k]));
        Share(frames[k]);
        k := k + 1;
      }
      assert frames[..k] == frames;
    }

    /** Give up one mapping of a frame: free it when this was the last, else count down. */
    method Drop(f: nat)
      requires Valid() && Slot(phys.lower, f) < |H().counts|
      modifies phys.allocations
      ensures Valid()
      ensures var s := Slot(phys.lower, f);
        H().counts == if s >= 0 then old(H()).counts[s := Lowered(old(H()).counts[s], 1)] else old(H()).counts
    {
      SlotIsIndex(phys.lower, f);
      var refcount := phys.GetRefcount(f * PAGE);
      if refcount == 1 {
        phys.Free(f * PAGE);
      } else {
        phys.DecreaseRefcount(f * PAGE);
      }
    }

    method FreeFrame(f: nat)
      requires Valid() && Slot(phys.lower, f) < |H().counts|
      modifies phys.allocations
      ensures Valid()
      ensures var s := Slot(phys.lower, f);
        H().counts == if s >= 0 then old(H()).counts[s := 0] else old(H()).counts
    {
      SlotIsIndex(phys.lower, f);
      phys.Free(f * PAGE);
    }

    // ----- single entries -----

    /** get_mapped_address: the frame that a page's entry names, 0 without a table */
    method MappedFrame(d: nat, p: nat) returns (f: nat)
      requires DirOk(mem, d) && p < USER_PAGES
      modifies this`window
      ensures f == EntryAt(mem, d, p).frame
    {
      TempMap(d);
      var e := Load(p / ENTRIES);
      f := 0;
      if e.frame != 0 {
        TempMap(e.frame);
        var t := Load(p % ENTRIES);
        f := t.frame;
      }
    }

    /** unset_page_table_entry */
    method UnsetEntry(d: nat, p: nat)
      requires DirOk(mem, d) && p < USER_PAGES
      modifies this`window, this`mem
      ensures DirOk(mem, d) && mem[d] == old(mem[d])
      ensures EntryAt(mem, d, p) == ZERO
      ensures forall q :: 0 <= q < USER_PAGES && q != p ==> EntryAt(mem, d, q) == EntryAt(old(mem), d, q)
      ensures |mem| == |old(mem)|
      ensures forall f :: 0 <= f < |mem| && !InStruct(old(mem), d, f) ==> mem[f] == old(mem)[f]
    {
      TempMap(d);
      var e := Load(p / ENTRIES);
      if e.frame != 0 {
        TempMap(e.frame);
        Store(p % ENTRIES, ZERO);
        assert old(mem)[d][p / ENTRIES].frame == e.frame;
      }
    }

    /** The branch of set_page_table_entry that gives the directory a new, empty table. */
    method AddTable(d: nat, i: nat, user: bool) returns (t: nat)
      requires Valid() && ZeroHeld(H()) && window == d < |mem| && i < ENTRIES && Held(H(), d)
      requires |FreeSlots(H().counts)| >= 1
      modifies this`window, this`mem, phys.allocations
      ensures Valid() && ZeroHeld(H())
      ensures 0 < t < |mem| && Managed(phys.lower, |H().counts|, t)
      ensures var s := Slot(phys.lower, t); old(H()).counts[s] == 0 && H().counts == old(H()).counts[s := 1]
      ensures mem == old(mem)[d := WithEntry(old(mem)[d], i, Word(true, true, user, 0, t))][t := Blank()]
    {
      t := AllocFrame();
      // the window still shows the directory
      Store(i, Word(true, true, user, 0, t));
      TempMap(t);
      Clear();
    }

    /** set_page_table_entry, adding a table when the directory has none for the page */
    method SetEntry(d: nat, p: nat, f: FrameNumber, present: bool, user: bool)
      requires Valid() && ZeroHeld(H())
      requires DirOk(mem, d) && StructHeld(H(), d) && p < USER_PAGES
      requires mem[d][p / ENTRIES].present || |FreeSlots(H().counts)| >= 1
      modifies this`window, this`mem, phys.allocations
      ensures Valid() && ZeroHeld(H())
      ensures EntrySet(old(H()), H(), d, p, Word(present, true, user, 0, f), user)
    {
      ghost var h0 := H();
      var i := p / ENTRIES;
      TempMap(d);
      var e := Load(i);
      var t: nat := e.frame;
      if t == 0 {
        t := AddTable(d, i, user);
      }
      TempMap(t);
      Store(p % ENTRIES, Word(present, true, user, 0, f));
      if e.present {
        EntrySetInTable(h0, H(), d, p, Word(present, true, user, 0, f), user);
      } else {
        assert mem == h0.mem[d := WithEntry(h0.mem[d], i, Word(true, true, user, 0, t))]
                            [t := WithEntry(Blank(), p % ENTRIES, Word(present, true, user, 0, f))];
        EntrySetInNew(h0, H(), d, p, Word(present, true, user, 0, f), user, t);
      }
    }

    // ----- whole directories -----

    /** One turn of the inner loop of clone_page_structures. */
    method CloneEntry(src: nat, dst: nat, j: nat)
      requires Valid() && src < |mem| && dst < |mem| && src != dst && j < ENTRIES
      requires mem[src][j].present ==>
        var s := Slot(phys.lower, mem[src][j].frame); s < |H().counts| && (s >= 0 ==> H().counts[s] < 255)
      modifies this`window, this`mem, phys.allocations
      ensures Valid()
      ensures var e := old(mem)[src][j];
        if e.present
        then mem == old(mem)[src := WithEntry(old(mem)[src], j, Protect(e))][dst := WithEntry(old(mem)[dst], j, Protect(e))]
        else mem == old(mem)
      ensures var e := old(mem)[src][j]; var s := Slot(phys.lower, e.frame);
        H().counts == if e.present && s >= 0 then old(H()).counts[s := Raised(old(H()).counts[s], 1)] else old(H()).counts
    {
      TempMap(src);
      var e := Load(j);
      if e.present {
        Store(j, e.(writable := false));
        e := Load(j);
        TempMap(dst);
        Store(j, e);
        Share(e.frame);
      }
    }

    /** The inner loop of clone_page_structures: write-protect a table, copy its present
        entries and count one more mapping for each frame named. */
    method CloneTable(src: nat, dst: nat)
      requires Valid()
      requires src < |mem| && dst < |mem| && src != dst && mem[dst] == Blank()
      requires EntriesCovered(H(), mem[src])
      requires forall s :: 0 <= s < |H().counts| ==> H().counts[s] + TableCount(phys.lower, mem[src], ENTRIES, s) < 256
      modifies this`window, this`mem, phys.allocations
      ensures Valid()
      ensures mem == old(mem)[src := ProtectTable(old(mem)[src], ENTRIES)][dst := CopyTable(old(mem)[src], ENTRIES)]
      ensures forall j :: 0 <= j < ENTRIES ==> var e := old(mem)[src][j];
        && mem[src][j] == (if e.present then e.(writable := false) else e)
        && mem[dst][j] == (if e.present then e.(writable := false) else ZERO)
      ensures |H().counts| == |old(H()).counts|
      ensures forall s :: 0 <= s < |H().counts| ==>
        H().counts[s] == Raised(old(H()).counts[s], TableCount(phys.lower, old(mem)[src], ENTRIES, s))
    {
      ghost var t0, c0 := mem[src], H().counts;
      TableStart(t0);
      var j := 0;
      while j < ENTRIES
        invariant 0 <= j <= ENTRIES
        invariant Valid()
        invariant mem == old(mem)[src := ProtectTable(t0, j)][dst := CopyTable(t0, j)]
        invariant |H().counts| == |c0|
        invariant forall s :: 0 <= s < |c0| ==> H().counts[s] == Raised(c0[s], TableCount(phys.lower, t0, j, s))
      {
        if t0[j].present && Slot(phys.lower, t0[j].frame) >= 0 {
          TableCountMonotone(phys.lower, t0, j + 1, ENTRIES, Slot(phys.lower, t0[j].frame));
        }
        TableSteps(t0, j);
        ghost var c1 := H().counts;
        CloneEntry(src, dst, j);
        OverwriteBoth(old(mem), src, dst, ProtectTable(t0, j), CopyTable(t0, j), ProtectTable(t0, j + 1), CopyTable(t0, j + 1));
        RaisedByOne(phys.lower, c0, c1, H().counts, t0, j);
        j := j + 1;
      }
    }

    /** Copy a directory entry and then point it at another frame. */
    method StoreRetargeted(d: nat, i: nat, e: Word, f: FrameNumber)
      requires d < |mem| && i < ENTRIES
      modifies this`window, this`mem
      ensures mem == old(mem)[d := WithEntry(old(mem)[d], i, e.(frame := f))]
    {
      TempMap(d);
      Store(i, e);
      Store(i, e.(frame := f));
      assert WithEntry(WithEntry(old(mem)[d], i, e), i, e.(frame := f)) == WithEntry(old(mem)[d], i, e.(frame := f));
    }

    /** A fresh table that shares every page of table u. */
    method CloneIntoFresh(u: nat) returns (t: nat, ghost c: seq<nat>)
      requires Valid() && ZeroHeld(H()) && u < |mem| && Held(H(), u)
      requires EntriesCovered(H(), mem[u])
      requires forall s :: 0 <= s < |H().counts| ==> Max(1, H().counts[s]) + TableCount(phys.lower, mem[u], ENTRIES, s) < 256
      requires |FreeSlots(H().counts)| >= 1
      modifies this`window, this`mem, phys.allocations
      ensures Valid()
      ensures 0 < t < |mem| && t != u && Managed(phys.lower, |H().counts|, t)
      ensures var s := Slot(phys.lower, t); old(H()).counts[s] == 0 && c == old(H()).counts[s := 1]
      ensures mem == old(mem)[u := ProtectTable(old(mem)[u], ENTRIES)][t := CopyTable(old(mem)[u], ENTRIES)]
      ensures |H().counts| == |c|
      ensures forall s :: 0 <= s < |c| ==> H().counts[s] == Raised(c[s], TableCount(phys.lower, old(mem)[u], ENTRIES, s))
      ensures |FreeSlots(H().counts)| == |FreeSlots(old(H()).counts)| - 1
    {
      t := AllocBlank();
      c := H().counts;
      CloneTable(u, t);
      SameFree(c, H().counts);
      Overwrites(old(mem), t, u, Blank(), ProtectTable(old(mem)[u], ENTRIES), CopyTable(old(mem)[u], ENTRIES));
    }

    /** One present user entry of the outer loop of clone_page_structures. */
    method CloneUserTable(src: nat, nd: nat, i: nat) returns (ghost t: nat)
      requires Valid() && ZeroHeld(H())
      requires src < |mem| && nd < |mem| && src != nd && i < USER_TABLES
      requires mem[src][i].present && mem[src][i].frame < |mem| && mem[src][i].frame != src && mem[src][i].frame != nd
      requires Held(H(), src) && Held(H(), nd) && Held(H(), mem[src][i].frame)
      requires EntriesCovered(H(), mem[mem[src][i].frame])
      requires forall s :: 0 <= s < |H().counts| ==>
        Max(1, H().counts[s]) + TableCount(phys.lower, mem[mem[src][i].frame], ENTRIES, s) < 256
      requires |FreeSlots(H().counts)| >= 1
      modifies this`window, this`mem, phys.allocations
      ensures Valid() && ZeroHeld(H())
      ensures TableCloned(old(H()), H(), src, nd, i, t)
      ensures |FreeSlots(H().counts)| == |FreeSlots(old(H()).counts)| - 1
    {
      ghost var h0 := H();
      TempMap(src);
      var e := Load(i);
      var table, c := CloneIntoFresh(e.frame);
      t := table;
      assert mem[nd] == h0.mem[nd];
      StoreRetargeted(nd, i, e, table);
      TableClonedFrom(h0, H(), src, nd, i, t, c);
    }

    /** One user turn of the outer loop of clone_page_structures. */
    method CloneUserEntry(src: nat, nd: nat, i: nat, ghost h0: Phys)
      requires Valid() && ZeroHeld(H())
      requires PhysOk(h0) && DirOk(h0.mem, src) && StructHeld(h0, src) && SpaceCovered(h0, src) && RoomToClone(h0, src)
      requires i < USER_TABLES && Cloned(h0, H(), src, nd, i) && mem[nd][i] == ZERO
      requires |FreeSlots(H().counts)| >= |TablesFrom(h0.mem[src], i)|
      modifies this`window, this`mem, phys.allocations
      ensures Valid() && ZeroHeld(H())
      ensures Cloned(h0, H(), src, nd, i + 1)
      ensures forall k :: i < k < ENTRIES ==> mem[nd][k] == old(mem)[nd][k]
      ensures |FreeSlots(H().counts)| >= |TablesFrom(h0.mem[src], i + 1)|
    {
      ghost var h1 := H();
      TablesFromStep(h0.mem[src], i);
      TempMap(src);
      var e := Load(i);
      if e.present {
        CloneReady(h0, h1, src, nd, i);
        forall s | 0 <= s < |h1.counts|
          ensures Max(1, h1.counts[s]) + TableCount(h0.lower, h0.mem[e.frame], ENTRIES, s) < 256
        {
          CloneRoom(h0, h1, src, nd, i, s);
        }
        ghost var t := CloneUserTable(src, nd, i);
        CloneStep(h0, h1, H(), src, nd, i, t);
      } else {
        CloneSkip(h0, h1, src, nd, i);
      }
    }

    /** One kernel turn of the same loop: share the table, retarget the self-map. */
    method CloneKernelEntry(src: nat, nd: FrameNumber, i: nat, ghost h0: Phys)
      requires Valid() && ZeroHeld(H())
      requires src < |h0.mem| && StructHeld(h0, src) && Cloned(h0, H(), src, nd, USER_TABLES)
      requires USER_TABLES <= i < ENTRIES && mem[nd][i] == ZERO
      modifies this`window, this`mem
      ensures Valid() && ZeroHeld(H())
      ensures Cloned(h0, H(), src, nd, USER_TABLES)
      ensures mem[nd] == WithEntry(old(mem)[nd], i, KernelEntry(h0.mem[src], nd, i))
    {
      TempMap(src);
      var e := Load(i);
      if e.present {
        var f: FrameNumber := if i == ENTRIES - 1 then nd else e.frame;
        ghost var h1 := H();
        StoreRetargeted(nd, i, e, f);
        CloneKernel(h0, h1, H(), src, nd, i, e.(frame := f));
      }
    }

    method CloneTurn(src: nat, nd: FrameNumber, i: nat, ghost h0: Phys)
      requires Valid() && i < ENTRIES
      requires PhysOk(h0) && DirOk(h0.mem, src) && StructHeld(h0, src) && SpaceCovered(h0, src) && RoomToClone(h0, src)
      requires CloneProgress(h0, H(), src, nd, i)
      modifies this`window, this`mem, phys.allocations
      ensures Valid()
      ensures CloneProgress(h0, H(), src, nd, i + 1)
    {
      ghost var h1 := H();
      if i < USER_TABLES {
        CloneUserEntry(src, nd, i, h0);
        UserTurnDone(h0, h1, H(), src, nd, i);
      } else {
        CloneKernelEntry(src, nd, i, h0);
        KernelTurnDone(h0, h1, H(), src, nd, i);
      }
    }

    /** clone_page_structures: a fresh directory whose user half shares every frame of src
        read-only, and whose kernel half is src's apart from the self-map. */
    method Clone(src: nat) returns (nd: FrameNumber)
      requires Valid() && ZeroHeld(H())
      requires DirOk(mem, src) && StructHeld(H(), src) && SpaceCovered(H(), src) && RoomToClone(H(), src)
      requires |FreeSlots(H().counts)| > |TablesFrom(mem[src], 0)|
      modifies this`window, this`mem, phys.allocations
      ensures Valid() && ZeroHeld(H())
      ensures Cloned(old(H()), H(), src, nd, USER_TABLES)
      ensures old(mem)[src][ENTRIES - 1].present ==> mem[nd][ENTRIES - 1] == old(mem)[src][ENTRIES - 1].(frame := nd)
      ensures !old(mem)[src][ENTRIES - 1].present ==> mem[nd][ENTRIES - 1] == ZERO
      ensures forall k :: USER_TABLES <= k < ENTRIES - 1 ==> mem[nd][k] == if old(mem)[src][k].present then old(mem)[src][k] else ZERO
      ensures forall p :: 0 <= p < USER_PAGES ==> var e := EntryAt(old(mem), src, p);
        && EntryAt(mem, nd, p) == (if e.present then e.(writable := false) else ZERO)
        && EntryAt(mem, src, p) == (if e.present then e.(writable := false) else e)
    {
      ghost var h0 := H();
      nd := AllocBlank();
      assert InStruct(h0.mem, src, src);
      CloneStart(h0, H(), src, nd);
      var i := 0;
      while i < ENTRIES
        invariant 0 <= i <= ENTRIES
        invariant Valid()
        invariant CloneProgress(h0, H(), src, nd, i)
      {
        CloneTurn(src, nd, i, h0);
        i := i + 1;
      }
      assert i == ENTRIES;
      ClonedUserHalf(h0, H(), src, nd);
    }

    /** One turn of the inner loop of nuke_page_directory and remove_address_space. */
    method DropEntry(j: nat, wipe: bool)
      requires Valid() && window < |mem| && j < ENTRIES
      requires mem[window][j].present ==> Slot(phys.lower, mem[window][j].frame) < |H().counts|
      modifies this`mem, phys.allocations
      ensures Valid()
      ensures mem == if wipe && old(mem)[window][j].present then old(mem)[window := WithEntry(old(mem)[window], j, ZERO)] else old(mem)
      ensures var e := old(mem)[window][j]; var s := Slot(phys.lower, e.frame);
        H().counts == if e.present && s >= 0 then old(H()).counts[s := Lowered(old(H()).counts[s], 1)] else old(H()).counts
    {
      var e := Load(j);
      if e.present {
        Drop(e.frame);
        if wipe {
          Store(j, ZERO);
        }
      }
    }

    /** The inner loop of nuke_page_directory and, with wipe, of remove_address_space. */
    method DropTable(t: nat, wipe: bool)
      requires Valid() && t < |mem| && EntriesCovered(H(), mem[t])
      modifies this`window, this`mem, phys.allocations
      ensures Valid()
      ensures mem == if wipe then old(mem)[t := WipeTable(old(mem)[t], ENTRIES)] else old(mem)
      ensures |H().counts| == |old(H()).counts|
      ensures forall s :: 0 <= s < |H().counts| ==>
        H().counts[s] == Lowered(old(H()).counts[s], TableCount(phys.lower, old(mem)[t], ENTRIES, s))
    {
      ghost var t0, c0 := mem[t], H().counts;
      TableStart(t0);
      TempMap(t);
      var j := 0;
      while j < ENTRIES
        invariant 0 <= j <= ENTRIES
        invariant Valid() && window == t
        invariant mem == if wipe then old(mem)[t := WipeTable(t0, j)] else old(mem)
        invariant forall s :: 0 <= s < |H().counts| ==>
          H().counts[s] == Lowered(c0[s], TableCount(phys.lower, t0, j, s))
      {
        TableSteps(t0, j);
        ghost var c1 := H().counts;
        DropEntry(j, wipe);
        LoweredByOne(phys.lower, c0, c1, H().counts, t0, j);
        j := j + 1;
      }
    }

    /** One turn of the outer loop of nuke_page_directory and, with wipe, of remove_address_space. */
    method DropTurn(d: nat, i: nat, wipe: bool, ghost h0: Phys)
      requires Valid() && i < USER_TABLES
      requires PhysOk(h0) && DirOk(h0.mem, d) && StructHeld(h0, d) && SpaceCovered(h0, d)
      requires DropProgress(h0, H(), d, i, wipe)
      modifies this`window, this`mem, phys.allocations
      ensures Valid()
      ensures DropProgress(h0, H(), d, i + 1, wipe)
    {
      ghost var h1 := H();
      TempMap(d);
      var e := Load(i);
      if e.present {
        DropReady(h0, h1, d, i, wipe);
        if wipe {
          Store(i, ZERO);
        }
        DropTable(e.frame, wipe);
        FreeFrame(e.frame);
        DropStep(h0, h1, H(), d, i, wipe);
      } else {
        DropSkip(h0, h1, d, i, wipe);
      }
    }

    /** remove_address_space: unmap the whole user half and give its frames back. */
    method RemoveAddressSpace(d: nat)
      requires Valid() && DirOk(mem, d) && StructHeld(H(), d) && SpaceCovered(H(), d)
      modifies this`window, this`mem, phys.allocations
      ensures Valid()
      ensures DropProgress(old(H()), H(), d, USER_TABLES, true)
      ensures |FreeSlots(H().counts)| >= |FreeSlots(old(H()).counts)|
    {
      ghost var h0 := H();
      var i := 0;
      while i < USER_TABLES
        invariant 0 <= i <= USER_TABLES
        invariant Valid()
        invariant DropProgress(h0, H(), d, i, true)
      {
        DropTurn(d, i, true, h0);
        i := i + 1;
      }
      MoreFree(h0.counts, H().counts);
    }

    /** nuke_page_directory: give back the frames of the user half, its tables and the directory. */
    method NukeDirectory(d: nat)
      requires Valid() && DirOk(mem, d) && StructHeld(H(), d) && SpaceCovered(H(), d)
      modifies this`window, this`mem, phys.allocations
      ensures Valid()
      ensures Nuked(old(H()), H(), d)
    {
      ghost var h0 := H();
      assert InStruct(mem, d, d);
      var i := 0;
      while i < USER_TABLES
        invariant 0 <= i <= USER_TABLES
        invariant Valid()
        invariant DropProgress(h0, H(), d, i, false)
      {
        DropTurn(d, i, false, h0);
        i := i + 1;
      }
      ghost var h1 := H();
      FreeFrame(d);
      NukeFinish(h0, h1, H(), d);
    }

    /** A page directory for a new process: an empty user half, and the kernel half of the
        directory cur, as map_kernel_tables reads it through the self-map. */
    method NewDirectory(cur: nat) returns (nd: FrameNumber)
      requires Valid() && ZeroHeld(H()) && cur < |mem| && Held(H(), cur)
      requires |FreeSlots(H().counts)| >= 1
      modifies this`window, this`mem, phys.allocations
      ensures Valid() && ZeroHeld(H())
      ensures 0 < nd < |mem| && Managed(phys.lower, |H().counts|, nd)
      ensures var s := Slot(phys.lower, nd); old(H()).counts[s] == 0 && H().counts == old(H()).counts[s := 1]
      ensures mem == old(mem)[nd := mem[nd]]
      ensures forall i :: 0 <= i < USER_TABLES ==> mem[nd][i] == ZERO
      ensures forall i :: USER_TABLES <= i < ENTRIES - 1 ==>
        mem[nd][i] == if Encode(old(mem)[cur][i]) == 0xFFFF_FFFF then ZERO else old(mem)[cur][i]
      ensures mem[nd][ENTRIES - 1] == (if Encode(old(mem)[cur][ENTRIES - 1]) == 0xFFFF_FFFF then ZERO else old(mem)[cur][ENTRIES - 1]).(frame := nd)
    {
      nd := AllocBlank();
      ghost var m1 := mem;
      var i := USER_TABLES;
      while i < ENTRIES
        invariant USER_TABLES <= i <= ENTRIES
        invariant PhysOk(H()) && H().counts == old(H()).counts[Slot(phys.lower, nd) := 1]
        invariant |mem| == |m1| && mem == m1[nd := mem[nd]]
        invariant forall k :: 0 <= k < ENTRIES ==>
          mem[nd][k] == if USER_TABLES <= k < i && m1[cur][k] != ALL_ONES then m1[cur][k] else ZERO
      {
        var e := mem[cur][i];
        if e != ZERO && e != ALL_ONES {
          TempMap(nd);
          Store(i, e);
        }
        i := i + 1;
      }
      assert i == ENTRIES;
      AllOnesIff(old(mem)[cur]);
      TempMap(nd);
      var last := Load(ENTRIES - 1);
      Store(ENTRIES - 1, last.(frame := nd));
    }

    /** A fresh frame, its first words set, mapped for the user at page p. */
    method MapFresh(d: nat, p: nat, words: seq<Word>) returns (f: FrameNumber, ghost content: Page)
      requires Valid() && ZeroHeld(H()) && DirOk(mem, d) && StructHeld(H(), d)
      requires p < USER_PAGES && |words| <= ENTRIES && |FreeSlots(H().counts)| >= FramesToMap(mem[d], p)
      modifies this`window, this`mem, phys.allocations
      ensures Valid() && ZeroHeld(H())
      ensures MappedOn(old(H()), H(), d, p, f, content) && Slot(phys.lower, f) < phys.allocations.Length
      ensures forall k :: 0 <= k < |words| ==> content[k] == words[k]
      ensures |FreeSlots(H().counts)| >= |FreeSlots(old(H()).counts)| - FramesToMap(old(mem)[d], p)
      ensures |mem| == |old(mem)| && Tables(mem[d]) == Tables(old(mem)[d]) + {p / ENTRIES}
    {
      ghost var h0 := H();
      f := AllocFrame();
      content := FillFrame(f, words);
      ghost var h1 := H();
      assert Claimed(h0, h1, f, content);
      ClaimedDir(h0, h1, d, f, content);
      assert h1.mem[d] == h0.mem[d];
      SetEntry(d, p, f, true, true);
      EntrySetFree(h1, H(), d, p, UserEntry(f));
      EntrySetTables(h1, H(), d, p, UserEntry(f));
    }

    /** The copy-on-write branch of page_fault_handler; a frame that is not counted is left alone. */
    method Fault(d: nat, p: nat)
      requires Valid() && ZeroHeld(H()) && DirOk(mem, d) && StructHeld(H(), d) && p < USER_PAGES
      requires EntryAt(mem, d, p).present && EntryAt(mem, d, p).frame < |mem|
      requires var f := EntryAt(mem, d, p).frame; var s := Slot(phys.lower, f);
        s < 0 || (Managed(phys.lower, |H().counts|, f) && (H().counts[s] > 1 ==> |FreeSlots(H().counts)| >= 1))
      modifies this, phys.allocations
      ensures Valid() && ZeroHeld(H())
      ensures if Held(old(H()), EntryAt(old(mem), d, p).frame) then Faulted(old(H()), H(), d, p)
              else mem == old(mem) && H().counts == old(H()).counts
    {
      ghost var h0 := H();
      var frame := MappedFrame(d, p);
      var refcount := Refcount(frame);
      if refcount > 1 {
        FaultCopy(d, p, frame);
      } else if refcount == 1 {
        SetEntry(d, p, frame, true, true);
      }
    }

    /** The branch for a frame counted more than once: count down, copy, map the copy. */
    method FaultCopy(d: nat, p: nat, frame: nat)
      requires Valid() && ZeroHeld(H()) && DirOk(mem, d) && StructHeld(H(), d) && p < USER_PAGES
      requires mem[d][p / ENTRIES].present && Held(H(), frame) && frame < |mem| && H().counts[Slot(phys.lower, frame)] > 1
      requires |FreeSlots(H().counts)| >= 1
      modifies this, phys.allocations
      ensures Valid() && ZeroHeld(H())
      ensures exists n: FrameNumber, h1: Phys, h2: Phys ::
        CountLowered(old(H()), h1, frame) && Claimed(h1, h2, n, old(mem)[frame]) && EntrySet(h2, H(), d, p, UserEntry(n), true)
    {
      ghost var h0 := H();
      Drop(frame);
      ghost var h1 := H();
      assert CountLowered(h0, h1, frame);
      LoweredDir(h0, h1, d, frame);
      SameFree(h0.counts, h1.counts);
      var copy := AllocFrame();
      CopyFrame(frame, copy);
      ghost var h2 := H();
      assert Claimed(h1, h2, copy, h0.mem[frame]);
      ClaimedDir(h1, h2, d, copy, h0.mem[frame]);
      SetEntry(d, p, copy, true, true);
    }

    /** A user-mode store to a present page: the processor faults first when it is read-only. */
    method UserStore(d: nat, p: nat, j: nat, w: Word)
      requires Valid() && ZeroHeld(H()) && DirOk(mem, d) && StructHeld(H(), d) && p < USER_PAGES && j < ENTRIES
      requires mem[d][p / ENTRIES].writable && mem[d][p / ENTRIES].user
      requires EntryAt(mem, d, p).present && Held(H(), EntryAt(mem, d, p).frame) && EntryAt(mem, d, p).frame < |mem|
      requires NeedsCopy(H(), d, p) ==> |FreeSlots(H().counts)| >= 1
      modifies this, phys.allocations
      ensures Valid() && ZeroHeld(H())
      ensures Stored(old(H()), H(), d, p, j, w)
    {
      ghost var h0 := H();
      if !UserWritable(mem, d, p) {
        Fault(d, p);
        FaultedWritable(h0, H(), d, p);
      }
      StoreAt(EntryAt(mem, d, p).frame, j, w);
    }

    /** The page-table part of proc_clone. */
    method ForkDirectory(src: nat, stack: seq<nat>) returns (nd: FrameNumber)
      requires Valid() && ZeroHeld(H())
      requires DirOk(mem, src) && StructHeld(H(), src) && SpaceCovered(H(), src) && RoomToFork(H(), src, stack)
      requires forall k :: 0 <= k < |stack| ==> Slot(phys.lower, stack[k]) < |H().counts|
      modifies this, phys.allocations
      ensures Valid() && ZeroHeld(H())
      ensures ForkedDir(old(H()), H(), src, nd, stack)
      ensures src < |old(mem)| && nd < |mem| && KernelShared(old(mem)[src], mem[nd], nd)
    {
      ghost var h0 := H();
      nd := Clone(src);
      ghost var h1 := H();
      ForkRoom(h0, h1, src, nd, stack);
      ShareAll(stack);
      assert Cloned(h0, h1, src, nd, USER_TABLES) && SharedEach(h1, H(), stack);
    }
  }

  /** The counts after one more entry of a table was dropped. */
  lemma LoweredByOne(lower: nat, c0: seq<nat>, c1: seq<nat>, c2: seq<nat>, t: Page, j: nat)
    requires j < ENTRIES && |c1| == |c0| && (t[j].present ==> Slot(lower, t[j].frame) < |c0|)
    requires forall s :: 0 <= s < |c1| ==> c1[s] == Lowered(c0[s], TableCount(lower, t, j, s))
    requires var s := Slot(lower, t[j].frame);
             c2 == if t[j].present && s >= 0 then c1[s := Lowered(c1[s], 1)] else c1
    ensures |c2| == |c0| && forall s :: 0 <= s < |c2| ==> c2[s] == Lowered(c0[s], TableCount(lower, t, j + 1, s))
  {
  }

  lemma OverwriteBoth(m: seq<Page>, a: nat, b: nat, p: Page, q: Page, p': Page, q': Page)
    requires a < |m| && b < |m| && a != b
    ensures m[a := p][b := q][a := p'][b := q'] == m[a := p'][b := q']
  {
  }

  /** The counts after one more entry of a table was shared. */
  lemma RaisedByOne(lower: nat, c0: seq<nat>, c1: seq<nat>, c2: seq<nat>, t: Page, j: nat)
    requires j < ENTRIES && |c1| == |c0| && (t[j].present ==> Slot(lower, t[j].frame) < |c0|)
    requires forall s :: 0 <= s < |c1| ==> c1[s] == Raised(c0[s], TableCount(lower, t, j, s))
    requires var s := Slot(lower, t[j].frame);
             c2 == if t[j].present && s >= 0 then c1[s := Raised(c1[s], 1)] else c1
    ensures |c2| == |c0| && forall s :: 0 <= s < |c2| ==> c2[s] == Raised(c0[s], TableCount(lower, t, j + 1, s))
  {
  }

  /** The frames that mapping a page takes: its own, and one for a missing table. */
  function FramesToMap(dir: Page, p: int): nat
    requires 0 <= p < USER_PAGES
  {
    if dir[p / ENTRIES].present then 1 else 2
  }

  /** The user tables that a directory has. */
  ghost function Tables(dir: Page): set<int> {
    set k | 0 <= k < USER_TABLES && dir[k].present
  }

  lemma EntrySetTables(h: Phys, h': Phys, d: nat, p: int, w: Word)
    requires d < |h.mem| && 0 <= p < USER_PAGES && EntrySet(h, h', d, p, w, true)
    ensures Tables(h'.mem[d]) == Tables(h.mem[d]) + {p / ENTRIES}
  {
  }

  /** A store to the page takes a frame: the page is shared and closed to user-mode writes. */
  ghost predicate NeedsCopy(h: Phys, d: nat, p: int)
    requires d < |h.mem| && 0 <= p < USER_PAGES
  {
    var e := EntryAt(h.mem, d, p);
    e.present && !UserWritable(h.mem, d, p) && 0 <= Slot(h.lower, e.frame) < |h.counts| && h.counts[Slot(h.lower, e.frame)] > 1
  }

  lemma EntrySetFree(h: Phys, h': Phys, d: nat, p: int, w: Word)
    requires d < |h.mem| && 0 <= p < USER_PAGES && EntrySet(h, h', d, p, w, true)
    ensures |FreeSlots(h'.counts)| >= |FreeSlots(h.counts)| - (if h.mem[d][p / ENTRIES].present then 0 else 1)
  {
    if !h.mem[d][p / ENTRIES].present {
      TakeFreeSlot(h.counts, Slot(h.lower, h'.mem[d][p / ENTRIES].frame), 1);
    }
  }

  lemma EntrySetInTable(h: Phys, h': Phys, d: nat, p: int, w: Word, user: bool)
    requires DirOk(h.mem, d) && 0 <= p < USER_PAGES && h.mem[d][p / ENTRIES].present
    requires var t := h.mem[d][p / ENTRIES].frame;
      h' == h.(mem := h.mem[t := WithEntry(h.mem[t], p % ENTRIES, w)])
    ensures EntrySet(h, h', d, p, w, user)
  {
    var t := h.mem[d][p / ENTRIES].frame;
    assert h'.mem[d] == h.mem[d] && h'.mem[d][p / ENTRIES].frame == t;
    assert InStruct(h'.mem, d, t);
  }

  lemma EntrySetInNew(h: Phys, h': Phys, d: nat, p: int, w: Word, user: bool, t: nat)
    requires PhysOk(h) && DirOk(h.mem, d) && StructHeld(h, d) && 0 <= p < USER_PAGES && !h.mem[d][p / ENTRIES].present
    requires 0 < t < |h.mem| && Managed(h.lower, |h.counts|, t) && h.counts[Slot(h.lower, t)] == 0
    requires h'.lower == h.lower && h'.counts == h.counts[Slot(h.lower, t) := 1]
    requires h'.mem == h.mem[d := WithEntry(h.mem[d], p / ENTRIES, Word(true, true, user, 0, t))]
                            [t := WithEntry(Blank(), p % ENTRIES, w)]
    ensures EntrySet(h, h', d, p, w, user)
  {
    assert !InStruct(h.mem, d, t);
    assert InStruct(h.mem, d, d);
    assert h'.mem[d][p / ENTRIES] == Word(true, true, user, 0, t);
    assert InStruct(h'.mem, d, t);
  }

  /** The effect of set_page_table_entry on memory and counts. */
  ghost predicate EntrySet(h: Phys, h': Phys, d: nat, p: int, w: Word, user: bool)
    requires d < |h.mem| && 0 <= p < USER_PAGES
  {
    && h'.lower == h.lower && |h'.mem| == |h.mem| && |h'.counts| == |h.counts|
    && DirOk(h'.mem, d)
    && EntryAt(h'.mem, d, p) == w
    && (forall q :: 0 <= q < USER_PAGES && q != p ==> EntryAt(h'.mem, d, q) == EntryAt(h.mem, d, q))
    && (if h.mem[d][p / ENTRIES].present
        then h'.mem[d] == h.mem[d] && h'.counts == h.counts
        else var t := h'.mem[d][p / ENTRIES].frame;
             && h'.mem[d] == WithEntry(h.mem[d], p / ENTRIES, Word(true, true, user, 0, t))
             && Managed(h.lower, |h.counts|, t) && h.counts[Slot(h.lower, t)] == 0
             && h'.counts == h.counts[Slot(h.lower, t) := 1])
    && (forall f: nat :: f < |h.mem| && !InStruct(h'.mem, d, f) ==> h'.mem[f] == h.mem[f])
  }

  lemma MoreFree(c: seq<nat>, c': seq<nat>)
    requires |c| == |c'| && forall s :: 0 <= s < |c| && c[s] == 0 ==> c'[s] == 0
    ensures |FreeSlots(c)| <= |FreeSlots(c')|
  {
    Subset(FreeSlots(c), FreeSlots(c'));
  }

  lemma SameFree(c: seq<nat>, c': seq<nat>)
    requires |c| == |c'| && forall s :: 0 <= s < |c| ==> (c[s] == 0 <==> c'[s] == 0)
    ensures FreeSlots(c) == FreeSlots(c')
  {
  }

  lemma Overwrites(m: seq<Page>, t: nat, u: nat, blank: Page, p: Page, c: Page)
    requires t < |m| && u < |m| && t != u
    ensures m[t := blank][u := p][t := c] == m[u := p][t := c]
  {
  }

  function Max(a: nat, b: nat): nat { if a >= b then a else b }

  /** The effect of cloning the table of directory entry i into the fresh frame t. */
  ghost predicate TableCloned(h: Phys, h': Phys, src: nat, nd: nat, i: int, t: nat)
    requires src < |h.mem| && nd < |h.mem| && 0 <= i < USER_TABLES && h.mem[src][i].frame < |h.mem|
  {
    var e := h.mem[src][i];
    var table := h.mem[e.frame];
    && 0 < t < Min(|h.mem|, 0x10_0000) && t != src && t != nd && t != e.frame
    && h'.lower == h.lower && |h'.counts| == |h.counts|
    && Managed(h.lower, |h.counts|, t) && h.counts[Slot(h.lower, t)] == 0
    && h'.counts[Slot(h.lower, t)] == 1 + TableCount(h.lower, table, ENTRIES, Slot(h.lower, t))
    && h'.mem == h.mem[e.frame := ProtectTable(table, ENTRIES)]
                      [t := CopyTable(table, ENTRIES)]
                      [nd := WithEntry(h.mem[nd], i, e.(frame := t))]
    && (forall s :: 0 <= s < |h.counts| && s != Slot(h.lower, t) ==>
          h'.counts[s] == Raised(h.counts[s], TableCount(h.lower, table, ENTRIES, s)))
  }

  lemma TableClonedFrom(h: Phys, h': Phys, src: nat, nd: nat, i: int, t: nat, c: seq<nat>)
    requires PhysOk(h) && src < |h.mem| && nd < |h.mem| && 0 <= i < USER_TABLES && h.mem[src][i].frame < |h.mem|
    requires Held(h, src) && Held(h, nd) && Held(h, h.mem[src][i].frame)
    requires 0 < t < |h.mem| && Managed(h.lower, |h.counts|, t) && h.counts[Slot(h.lower, t)] == 0
    requires c == h.counts[Slot(h.lower, t) := 1] && h'.lower == h.lower && |h'.counts| == |h.counts|
    requires var e := h.mem[src][i]; var table := h.mem[e.frame];
      h'.mem == h.mem[e.frame := ProtectTable(table, ENTRIES)][t := CopyTable(table, ENTRIES)]
                     [nd := WithEntry(h.mem[nd], i, e.(frame := t))]
    requires var table := h.mem[h.mem[src][i].frame];
      forall s :: 0 <= s < |c| ==> h'.counts[s] == Raised(c[s], TableCount(h.lower, table, ENTRIES, s))
    ensures TableCloned(h, h', src, nd, i, t)
  {
  }

  function Min(a: int, b: int): int { if a <= b then a else b }

  function KernelEntry(dir: Page, nd: FrameNumber, k: int): Word
    requires 0 <= k < ENTRIES
  {
    if !dir[k].present then ZERO else if k == ENTRIES - 1 then dir[k].(frame := nd) else dir[k]
  }

  /** The kernel half of a clone: the same tables, with the last entry mapping the clone itself. */
  ghost predicate KernelHalfCloned(dir: Page, clone: Page, nd: nat, n: int) {
    nd < 0x10_0000 && forall k :: USER_TABLES <= k < n && k < ENTRIES ==> clone[k] == KernelEntry(dir, nd, k)
  }

  ghost predicate IsNew(m: seq<Page>, nd: nat, n: int, f: nat)
    requires nd < |m| && n <= USER_TABLES
  {
    f == nd || exists k :: 0 <= k < n && m[nd][k].present && m[nd][k].frame == f
  }

  ghost predicate IsTable(m: seq<Page>, d: nat, n: int, f: nat)
    requires d < |m| && n <= USER_TABLES
  {
    exists k :: 0 <= k < n && m[d][k].present && m[d][k].frame == f
  }

  /** Directory entry k has been cloned into nd. */
  ghost predicate EntryCloned(h: Phys, h': Phys, src: nat, nd: nat, k: int)
    requires src < |h.mem| == |h'.mem| && nd < |h.mem| && 0 <= k < USER_TABLES
  {
    var e, t := h.mem[src][k], h'.mem[nd][k].frame;
    if e.present then
      && e.frame < |h.mem| && h'.mem[nd][k] == e.(frame := t)
      && 0 < t < |h.mem| && t != nd && h'.mem[t] == CopyTable(h.mem[e.frame], ENTRIES)
      && h'.mem[e.frame] == ProtectTable(h.mem[e.frame], ENTRIES)
    else h'.mem[nd][k] == ZERO
  }

  ghost predicate FreshFrame(h: Phys, h': Phys, f: nat, refs: nat)
    requires |h'.counts| == |h.counts|
  {
    && Managed(h.lower, |h.counts|, f) && h.counts[Slot(h.lower, f)] == 0
    && 1 <= h'.counts[Slot(h.lower, f)] <= 1 + refs
  }

  ghost predicate CloneShape(h: Phys, h': Phys, src: nat, nd: nat)
    requires src < |h.mem|
  {
    && h'.lower == h.lower && |h'.mem| == |h.mem| && |h'.counts| == |h.counts|
    && 0 < nd < |h.mem| && nd != src && h'.mem[src] == h.mem[src]
  }

  ghost predicate CloneEntries(h: Phys, h': Phys, src: nat, nd: nat, n: int)
    requires src < |h.mem| && CloneShape(h, h', src, nd) && n <= USER_TABLES
  {
    && (forall k :: 0 <= k < n ==> EntryCloned(h, h', src, nd, k))
    && (forall j, k :: 0 <= j < k < n && h'.mem[nd][j].present && h'.mem[nd][k].present ==>
          h'.mem[nd][j].frame != h'.mem[nd][k].frame)
  }

  ghost predicate CloneFresh(h: Phys, h': Phys, src: nat, nd: nat, n: int)
    requires src < |h.mem| && CloneShape(h, h', src, nd) && 0 <= n <= USER_TABLES
  {
    forall f: nat :: IsNew(h'.mem, nd, n, f) ==>
      FreshFrame(h, h', f, SpaceCount(h.lower, h.mem, src, n, Slot(h.lower, f)))
  }

  /** Only new frames and the tables of src were written. */
  ghost predicate CloneFrame(h: Phys, h': Phys, src: nat, nd: nat, n: int)
    requires src < |h.mem| && CloneShape(h, h', src, nd) && n <= USER_TABLES
  {
    forall f: nat :: f < |h.mem| && !IsNew(h'.mem, nd, n, f) && !IsTable(h.mem, src, n, f) ==> h'.mem[f] == h.mem[f]
  }

  /** Every frame in use gained one reference per page of src that maps it. */
  ghost predicate CloneCounts(h: Phys, h': Phys, src: nat, nd: nat, n: int)
    requires src < |h.mem| && CloneShape(h, h', src, nd) && 0 <= n <= USER_TABLES
  {
    forall s :: 0 <= s < |h.counts| && !IsNew(h'.mem, nd, n, FrameOf(h.lower, s)) ==>
      h'.counts[s] == Raised(h.counts[s], SpaceCount(h.lower, h.mem, src, n, s))
  }

  /** The first n user entries of src have been cloned into the fresh directory nd. */
  ghost predicate Cloned(h: Phys, h': Phys, src: nat, nd: nat, n: int)
    requires src < |h.mem| && 0 <= n <= USER_TABLES
  {
    && CloneShape(h, h', src, nd)
    && CloneEntries(h, h', src, nd, n)
    && CloneFresh(h, h', src, nd, n)
    && CloneFrame(h, h', src, nd, n)
    && CloneCounts(h, h', src, nd, n)
  }

  /** The state of the outer loop of clone_page_structures before turn i. */
  ghost predicate CloneProgress(h: Phys, h': Phys, src: nat, nd: nat, i: int)
    requires src < |h.mem| && 0 <= i <= ENTRIES
  {
    && ZeroHeld(h')
    && Cloned(h, h', src, nd, Min(i, USER_TABLES))
    && KernelHalfCloned(h.mem[src], h'.mem[nd], nd, i)
    && (forall k :: i <= k < ENTRIES ==> h'.mem[nd][k] == ZERO)
    && (i < USER_TABLES ==> |FreeSlots(h'.counts)| >= |TablesFrom(h.mem[src], i)|)
  }

  /** The kernel half of a clone that lies in frame nd: the tables of the kernel, and behind them the
      clone's own frame, where the directory shows itself. */
  ghost predicate KernelShared(dir: Page, clone: Page, nd: nat) {
    && nd < 0x10_0000
    && clone[ENTRIES - 1] == (if dir[ENTRIES - 1].present then dir[ENTRIES - 1].(frame := nd) else ZERO)
    && forall k :: USER_TABLES <= k < ENTRIES - 1 ==> clone[k] == if dir[k].present then dir[k] else ZERO
  }

  /** Both sides of a clone, page by page. */
  lemma ClonedUserHalf(h: Phys, h': Phys, src: nat, nd: nat)
    requires DirOk(h.mem, src) && Cloned(h, h', src, nd, USER_TABLES)
    ensures forall p :: 0 <= p < USER_PAGES ==> var e := EntryAt(h.mem, src, p);
      && EntryAt(h'.mem, nd, p) == (if e.present then e.(writable := false) else ZERO)
      && EntryAt(h'.mem, src, p) == (if e.present then e.(writable := false) else e)
  {
    forall p | 0 <= p < USER_PAGES
      ensures var e := EntryAt(h.mem, src, p);
        && EntryAt(h'.mem, nd, p) == (if e.present then e.(writable := false) else ZERO)
        && EntryAt(h'.mem, src, p) == (if e.present then e.(writable := false) else e)
    {
      assert EntryCloned(h, h', src, nd, p / ENTRIES);
    }
  }

  lemma UserTurnDone(h: Phys, h1: Phys, h': Phys, src: nat, nd: nat, i: int)
    requires src < |h.mem| && 0 <= i < USER_TABLES && CloneProgress(h, h1, src, nd, i)
    requires ZeroHeld(h') && Cloned(h, h', src, nd, i + 1)
    requires forall k :: i < k < ENTRIES ==> h'.mem[nd][k] == h1.mem[nd][k]
    requires |FreeSlots(h'.counts)| >= |TablesFrom(h.mem[src], i + 1)|
    ensures CloneProgress(h, h', src, nd, i + 1)
  {
  }

  lemma KernelTurnDone(h: Phys, h1: Phys, h': Phys, src: nat, nd: FrameNumber, i: int)
    requires src < |h.mem| && USER_TABLES <= i < ENTRIES && CloneProgress(h, h1, src, nd, i)
    requires ZeroHeld(h') && Cloned(h, h', src, nd, USER_TABLES)
    requires h'.mem[nd] == WithEntry(h1.mem[nd], i, KernelEntry(h.mem[src], nd, i))
    ensures CloneProgress(h, h', src, nd, i + 1)
  {
  }

  ghost predicate RoomToClone(h: Phys, src: nat)
    requires src < |h.mem|
  {
    forall s :: 0 <= s < |h.counts| ==>
      Max(1, h.counts[s]) + SpaceCount(h.lower, h.mem, src, USER_TABLES, s) < 256
  }

  lemma CloneStart(h: Phys, h': Phys, src: nat, nd: nat)
    requires src < |h.mem| && 0 < nd < |h.mem| && nd != src
    requires h' == Phys(h.lower, h.mem[nd := Blank()], h'.counts) && Managed(h.lower, |h.counts|, nd)
    requires h.counts[Slot(h.lower, nd)] == 0 && h'.counts == h.counts[Slot(h.lower, nd) := 1]
    ensures Cloned(h, h', src, nd, 0)
  {
  }

  /** A frame of the source's own structure is never one of the new ones and stays in use. */
  lemma SourceHeld(h0: Phys, h1: Phys, src: nat, nd: nat, n: int, f: nat)
    requires 0 <= n <= USER_TABLES && src < |h0.mem| && StructHeld(h0, src)
    requires Cloned(h0, h1, src, nd, n) && InStruct(h0.mem, src, f)
    ensures !IsNew(h1.mem, nd, n, f) && Held(h1, f)
  {
    assert Held(h0, f);
  }

  /** The source table is still untouched and nothing already new is in the way. */
  lemma CloneReady(h0: Phys, h1: Phys, src: nat, nd: nat, i: int)
    requires 0 <= i < USER_TABLES
    requires PhysOk(h0) && DirOk(h0.mem, src) && StructHeld(h0, src) && SpaceCovered(h0, src)
    requires Cloned(h0, h1, src, nd, i) && h0.mem[src][i].present
    ensures var e := h0.mem[src][i];
      && e.frame < |h1.mem| && e.frame != src && e.frame != nd && h1.mem[e.frame] == h0.mem[e.frame]
      && !IsNew(h1.mem, nd, i, e.frame) && !IsNew(h1.mem, nd, i, src)
      && Held(h1, src) && Held(h1, nd) && Held(h1, e.frame) && EntriesCovered(h1, h1.mem[e.frame])
  {
    var e := h0.mem[src][i];
    assert InStruct(h0.mem, src, e.frame);
    SourceHeld(h0, h1, src, nd, i, e.frame);
    SourceHeld(h0, h1, src, nd, i, src);
    assert IsNew(h1.mem, nd, i, nd);
  }

  lemma CloneRoom(h0: Phys, h1: Phys, src: nat, nd: nat, i: int, s: int)
    requires 0 <= i < USER_TABLES && 0 <= s < |h0.counts|
    requires PhysOk(h0) && DirOk(h0.mem, src) && RoomToClone(h0, src)
    requires Cloned(h0, h1, src, nd, i) && h0.mem[src][i].present
    ensures Max(1, h1.counts[s]) + TableCount(h0.lower, h0.mem[h0.mem[src][i].frame], ENTRIES, s) < 256
  {
    SpaceCountMonotone(h0.lower, h0.mem, src, i + 1, USER_TABLES, s);
    var f := FrameOf(h0.lower, s);
    IndexRoundTrip(h0.lower, s);
    if IsNew(h1.mem, nd, i, f) {
      assert FreshFrame(h0, h1, f, SpaceCount(h0.lower, h0.mem, src, i, Slot(h0.lower, f)));
    }
  }

  /** One more table: everything said about the first i entries now holds of i + 1. */
  lemma CloneStep(h0: Phys, h1: Phys, h2: Phys, src: nat, nd: nat, i: int, t: nat)
    requires 0 <= i < USER_TABLES
    requires PhysOk(h0) && DirOk(h0.mem, src) && StructHeld(h0, src) && SpaceCovered(h0, src)
    requires Cloned(h0, h1, src, nd, i) && h0.mem[src][i].present
    requires TableCloned(h1, h2, src, nd, i, t)
    ensures Cloned(h0, h2, src, nd, i + 1)
  {
    CloneReady(h0, h1, src, nd, i);
    NewFrames(h0, h1, h2, src, nd, i, t);
    CloneStepEntries(h0, h1, h2, src, nd, i, t);
  }

  lemma NewFrames(h0: Phys, h1: Phys, h2: Phys, src: nat, nd: nat, i: int, t: nat)
    requires 0 <= i < USER_TABLES && src < |h0.mem|
    requires Cloned(h0, h1, src, nd, i) && h0.mem[src][i].present && h0.mem[src][i].frame < |h1.mem|
    requires h0.mem[src][i].frame != nd
    requires TableCloned(h1, h2, src, nd, i, t)
    ensures !IsNew(h1.mem, nd, i, t)
    ensures forall f: nat :: IsNew(h2.mem, nd, i + 1, f) <==> IsNew(h1.mem, nd, i, f) || f == t
  {
    forall f: nat ensures IsNew(h2.mem, nd, i + 1, f) <==> IsNew(h1.mem, nd, i, f) || f == t {
      if f == t { assert h2.mem[nd][i].present && h2.mem[nd][i].frame == t; }
      if k :| 0 <= k < i && h1.mem[nd][k].present && h1.mem[nd][k].frame == f {
        assert h2.mem[nd][k] == h1.mem[nd][k];
      }
    }
  }

  lemma CloneStepEntry(h0: Phys, h1: Phys, h2: Phys, src: nat, nd: nat, i: int, t: nat, k: int)
    requires 0 <= k < i < USER_TABLES
    requires PhysOk(h0) && DirOk(h0.mem, src) && StructHeld(h0, src) && SpaceCovered(h0, src)
    requires Cloned(h0, h1, src, nd, i) && h0.mem[src][i].present
    requires TableCloned(h1, h2, src, nd, i, t)
    ensures EntryCloned(h0, h2, src, nd, k) && h2.mem[nd][k] == h1.mem[nd][k]
    ensures h2.mem[nd][k].present ==> h2.mem[nd][k].frame != t
  {
    CloneReady(h0, h1, src, nd, i);
    NewFrames(h0, h1, h2, src, nd, i, t);
    assert EntryCloned(h0, h1, src, nd, k);
    if h0.mem[src][k].present {
      assert IsNew(h1.mem, nd, i, h1.mem[nd][k].frame);
      assert InStruct(h0.mem, src, h0.mem[src][k].frame);
      SourceHeld(h0, h1, src, nd, i, h0.mem[src][k].frame);
    }
  }

  lemma CloneStepEntries(h0: Phys, h1: Phys, h2: Phys, src: nat, nd: nat, i: int, t: nat)
    requires 0 <= i < USER_TABLES
    requires PhysOk(h0) && DirOk(h0.mem, src) && StructHeld(h0, src) && SpaceCovered(h0, src)
    requires Cloned(h0, h1, src, nd, i) && h0.mem[src][i].present
    requires TableCloned(h1, h2, src, nd, i, t)
    ensures CloneShape(h0, h2, src, nd) && CloneEntries(h0, h2, src, nd, i + 1)
  {
    CloneReady(h0, h1, src, nd, i);
    forall k | 0 <= k < i
      ensures EntryCloned(h0, h2, src, nd, k) && h2.mem[nd][k] == h1.mem[nd][k]
      ensures h2.mem[nd][k].present ==> h2.mem[nd][k].frame != t
    {
      CloneStepEntry(h0, h1, h2, src, nd, i, t, k);
    }
  }

  lemma CloneSkip(h0: Phys, h1: Phys, src: nat, nd: nat, i: int)
    requires 0 <= i < USER_TABLES && DirOk(h0.mem, src)
    requires Cloned(h0, h1, src, nd, i) && !h0.mem[src][i].present && h1.mem[nd][i] == ZERO
    ensures Cloned(h0, h1, src, nd, i + 1)
  {
  }

  lemma CloneKernel(h0: Phys, h1: Phys, h2: Phys, src: nat, nd: nat, i: int, w: Word)
    requires src < |h0.mem| && USER_TABLES <= i < ENTRIES && StructHeld(h0, src)
    requires Cloned(h0, h1, src, nd, USER_TABLES)
    requires h2 == h1.(mem := h1.mem[nd := WithEntry(h1.mem[nd], i, w)])
    ensures Cloned(h0, h2, src, nd, USER_TABLES)
  {
    assert forall k :: 0 <= k < USER_TABLES ==> h2.mem[nd][k] == h1.mem[nd][k];
    forall f: nat ensures IsNew(h2.mem, nd, USER_TABLES, f) <==> IsNew(h1.mem, nd, USER_TABLES, f) {
    }
    forall k | 0 <= k < USER_TABLES ensures EntryCloned(h0, h2, src, nd, k) {
      assert EntryCloned(h0, h1, src, nd, k);
      if h0.mem[src][k].present {
        SourceHeld(h0, h1, src, nd, USER_TABLES, h0.mem[src][k].frame);
      }
    }
  }

  // ----- dropping an address space -----

  ghost predicate DropCounts(h: Phys, h': Phys, d: nat, n: int)
    requires d < |h.mem| && 0 <= n <= USER_TABLES && |h'.counts| == |h.counts|
  {
    forall s :: 0 <= s < |h.counts| ==>
      h'.counts[s] == if IsTable(h.mem, d, n, FrameOf(h.lower, s)) then 0
                      else Lowered(h.counts[s], SpaceCount(h.lower, h.mem, d, n, s))
  }

  /** The first n tables of d were given back together with one reference per page they map. */
  ghost predicate DropProgress(h: Phys, h': Phys, d: nat, n: int, wipe: bool)
    requires d < |h.mem| && 0 <= n <= USER_TABLES
  {
    && h'.lower == h.lower && |h'.mem| == |h.mem| && |h'.counts| == |h.counts|
    && DropCounts(h, h', d, n)
    && (forall k :: 0 <= k < ENTRIES ==> h'.mem[d][k] == if wipe && k < n && h.mem[d][k].present then ZERO else h.mem[d][k])
    && (forall f: nat :: f < |h.mem| && f != d && !(wipe && IsTable(h.mem, d, n, f)) ==> h'.mem[f] == h.mem[f])
  }

  /** The slots that are free once the user half of d is emptied: free ones, those of its tables and
      those that only d holds. */
  ghost function FreedByClear(h: Phys, d: nat): set<int>
    requires d < |h.mem|
  {
    set s | 0 <= s < |h.counts| &&
      (IsTable(h.mem, d, USER_TABLES, FrameOf(h.lower, s)) || Lowered(h.counts[s], SpaceCount(h.lower, h.mem, d, USER_TABLES, s)) == 0)
  }

  lemma DropFrees(h: Phys, h': Phys, d: nat)
    requires d < |h.mem| && DropProgress(h, h', d, USER_TABLES, true)
    ensures FreeSlots(h'.counts) == FreedByClear(h, d)
  {
  }

  /** Memory is untouched; the directory's own frames are free and each frame it mapped has
      lost one reference per mapping. */
  ghost predicate Nuked(h: Phys, h': Phys, d: nat)
    requires d < |h.mem|
  {
    && h'.lower == h.lower && h'.mem == h.mem && |h'.counts| == |h.counts|
    && (forall s :: 0 <= s < |h.counts| ==>
          h'.counts[s] == if InStruct(h.mem, d, FrameOf(h.lower, s)) then 0
                          else Lowered(h.counts[s], SpaceCount(h.lower, h.mem, d, USER_TABLES, s)))
  }

  lemma DropReady(h0: Phys, h1: Phys, d: nat, i: int, wipe: bool)
    requires 0 <= i < USER_TABLES
    requires PhysOk(h0) && DirOk(h0.mem, d) && StructHeld(h0, d) && SpaceCovered(h0, d)
    requires DropProgress(h0, h1, d, i, wipe) && h0.mem[d][i].present
    ensures var t := h0.mem[d][i].frame;
      && t < |h1.mem| && t != d && h1.mem[t] == h0.mem[t]
      && EntriesCovered(h1, h1.mem[t]) && Managed(h0.lower, |h0.counts|, t)
  {
    assert InStruct(h0.mem, d, h0.mem[d][i].frame);
    assert Held(h0, h0.mem[d][i].frame);
    assert !IsTable(h0.mem, d, i, h0.mem[d][i].frame);
  }

  lemma DropStep(h0: Phys, h1: Phys, h2: Phys, d: nat, i: int, wipe: bool)
    requires 0 <= i < USER_TABLES
    requires PhysOk(h0) && DirOk(h0.mem, d) && StructHeld(h0, d) && SpaceCovered(h0, d)
    requires DropProgress(h0, h1, d, i, wipe) && h0.mem[d][i].present
    requires h2.lower == h1.lower && |h2.counts| == |h1.counts|
    requires var t := h0.mem[d][i].frame;
      h2.mem == if wipe then h1.mem[d := WithEntry(h1.mem[d], i, ZERO)][t := WipeTable(h0.mem[t], ENTRIES)] else h1.mem
    requires var t := h0.mem[d][i].frame;
      forall s :: 0 <= s < |h1.counts| ==>
        h2.counts[s] == if s == Slot(h0.lower, t) then 0 else Lowered(h1.counts[s], TableCount(h0.lower, h0.mem[t], ENTRIES, s))
    ensures DropProgress(h0, h2, d, i + 1, wipe)
  {
    var t := h0.mem[d][i].frame;
    DropReady(h0, h1, d, i, wipe);
    forall f: nat ensures IsTable(h0.mem, d, i + 1, f) <==> IsTable(h0.mem, d, i, f) || f == t {
    }
    forall s | 0 <= s < |h0.counts| ensures FrameOf(h0.lower, s) == t <==> s == Slot(h0.lower, t) {
      IndexRoundTrip(h0.lower, s);
    }
  }

  lemma DropSkip(h0: Phys, h1: Phys, d: nat, i: int, wipe: bool)
    requires 0 <= i < USER_TABLES && DirOk(h0.mem, d)
    requires DropProgress(h0, h1, d, i, wipe) && !h0.mem[d][i].present
    ensures DropProgress(h0, h1, d, i + 1, wipe)
  {
    forall f: nat ensures IsTable(h0.mem, d, i + 1, f) <==> IsTable(h0.mem, d, i, f) {
    }
  }

  lemma NukeFinish(h0: Phys, h1: Phys, h2: Phys, d: nat)
    requires PhysOk(h0) && DirOk(h0.mem, d) && StructHeld(h0, d)
    requires DropProgress(h0, h1, d, USER_TABLES, false)
    requires Managed(h0.lower, |h0.counts|, d) && h2 == h1.(counts := h1.counts[Slot(h0.lower, d) := 0])
    ensures Nuked(h0, h2, d)
  {
    assert h1.mem[d] == h0.mem[d];
    assert h1.mem == h0.mem;
    forall s | 0 <= s < |h0.counts|
      ensures InStruct(h0.mem, d, FrameOf(h0.lower, s)) <==>
              s == Slot(h0.lower, d) || IsTable(h0.mem, d, USER_TABLES, FrameOf(h0.lower, s))
    {
      IndexRoundTrip(h0.lower, s);
    }
  }

  const ALL_ONES := Word(true, true, true, 511, 0xF_FFFF)

  lemma AllOnesIff(dir: Page)
    ensures forall i :: 0 <= i < ENTRIES ==> (Encode(dir[i]) == 0xFFFF_FFFF <==> dir[i] == ALL_ONES)
  {
    forall i | 0 <= i < ENTRIES && Encode(dir[i]) == 0xFFFF_FFFF ensures dir[i] == ALL_ONES {
      DecodeAfterEncode(dir[i]);
      DecodeAfterEncode(ALL_ONES);
    }
  }

  // ----- effects on memory and counts -----

  /** A free frame was claimed and filled. */
  ghost predicate Claimed(h: Phys, h': Phys, f: nat, fill: Page) {
    && 0 < f < |h.mem| && Managed(h.lower, |h.counts|, f) && h.counts[Slot(h.lower, f)] == 0
    && h' == Phys(h.lower, h.mem[f := fill], h.counts[Slot(h.lower, f) := 1])
  }

  function UserEntry(f: FrameNumber): Word { Word(true, true, true, 0, f) }

  /** The free frame f was claimed and mapped for the user at page p. */
  ghost predicate MappedOn(h: Phys, h': Phys, d: nat, p: int, f: FrameNumber, fill: Page)
    requires d < |h.mem| && 0 <= p < USER_PAGES
  {
    exists h1: Phys :: Claimed(h, h1, f, fill) && EntrySet(h1, h', d, p, UserEntry(f), true)
  }

  /** A claimed frame was mapped for the user at page p. */
  ghost predicate FreshMapped(h: Phys, h': Phys, d: nat, p: int, fill: Page)
    requires d < |h.mem| && 0 <= p < USER_PAGES
  {
    exists f: FrameNumber, h1: Phys ::
      Claimed(h, h1, f, fill) && EntrySet(h1, h', d, p, UserEntry(f), true)
  }

  ghost predicate CountLowered(h: Phys, h': Phys, f: nat) {
    && 0 <= Slot(h.lower, f) < |h.counts| && h.counts[Slot(h.lower, f)] > 1
    && h' == h.(counts := h.counts[Slot(h.lower, f) := h.counts[Slot(h.lower, f)] - 1])
  }

  /** The copy-on-write branch of page_fault_handler: copy a frame that is counted more than
      once, take over one that is counted once. */
  ghost predicate Faulted(h: Phys, h': Phys, d: nat, p: int)
    requires d < |h.mem| && 0 <= p < USER_PAGES
  {
    var f := EntryAt(h.mem, d, p).frame;
    && 0 <= Slot(h.lower, f) < |h.counts| && f < |h.mem|
    && if h.counts[Slot(h.lower, f)] == 1 then EntrySet(h, h', d, p, UserEntry(f), true)
       else exists n: FrameNumber, h1: Phys, h2: Phys ::
         CountLowered(h, h1, f) && Claimed(h1, h2, n, h.mem[f]) && EntrySet(h2, h', d, p, UserEntry(n), true)
  }

  /** Counts above zero may have been raised, as proc_clone does for recorded stack frames. */
  ghost predicate CountsRaised(h: Phys, h': Phys) {
    && h'.lower == h.lower && h'.mem == h.mem && |h'.counts| == |h.counts|
    && (forall s :: 0 <= s < |h.counts| ==> h.counts[s] <= h'.counts[s] < 256 && (h.counts[s] == 0 ==> h'.counts[s] == 0))
  }

  /** A user-mode store, through a page fault when the page is write-protected. */
  ghost predicate Stored(h: Phys, h': Phys, d: nat, p: int, j: int, w: Word)
    requires d < |h.mem| && 0 <= p < USER_PAGES && 0 <= j < ENTRIES
  {
    exists h1: Phys ::
      && (if UserWritable(h.mem, d, p) then h1 == h else Faulted(h, h1, d, p))
      && PhysOk(h1) && ZeroHeld(h1) && d < |h1.mem| && UserWritable(h1.mem, d, p) && EntryAt(h1.mem, d, p).frame < |h1.mem|
      && h' == h1.(mem := h1.mem[EntryAt(h1.mem, d, p).frame := WithEntry(h1.mem[EntryAt(h1.mem, d, p).frame], j, w)])
  }

  /** How often a list of frames names the frame counted at slot s. */
  function Times(lower: nat, frames: seq<nat>, s: int): nat {
    if frames == [] then 0
    else Times(lower, frames[..|frames| - 1], s) + if Slot(lower, frames[|frames| - 1]) == s then 1 else 0
  }

  lemma {:induction false} TimesIsCardinality(lower: nat, frames: seq<nat>, s: int)
    ensures Times(lower, frames, s) == |set k | 0 <= k < |frames| && Slot(lower, frames[k]) == s|
    decreases |frames|
  {
    if frames != [] {
      var front, k := frames[..|frames| - 1], |frames| - 1;
      TimesIsCardinality(lower, front, s);
      var some := set i | 0 <= i < |front| && Slot(lower, front[i]) == s;
      var all := set i | 0 <= i < |frames| && Slot(lower, frames[i]) == s;
      assert all == if Slot(lower, frames[k]) == s then some + {k} else some;
      assert k !in some;
    }
  }

  lemma {:induction false} TimesOfPrefix(lower: nat, frames: seq<nat>, k: nat, s: int)
    requires k <= |frames|
    ensures Times(lower, frames[..k], s) <= Times(lower, frames, s)
    decreases |frames|
  {
    if k < |frames| {
      var rest := frames[..|frames| - 1];
      TimesOfPrefix(lower, rest, k, s);
      assert rest[..k] == frames[..k];
    } else {
      assert frames[..k] == frames;
    }
  }

  /** One more reference for each time a frame is listed. */
  ghost predicate SharedEach(h: Phys, h': Phys, frames: seq<nat>) {
    && h'.lower == h.lower && h'.mem == h.mem && |h'.counts| == |h.counts|
    && (forall s :: 0 <= s < |h.counts| ==> h'.counts[s] == Raised(h.counts[s], Times(h.lower, frames, s)))
  }

  lemma SharedIsRaised(h: Phys, h': Phys, frames: seq<nat>)
    requires SharedEach(h, h', frames) && PhysOk(h')
    ensures CountsRaised(h, h')
  {
  }

  /** The effect of proc_clone on frames: a clone, then one more reference to each stack frame. */
  ghost predicate ForkedDir(h: Phys, h': Phys, src: nat, nd: nat, stack: seq<nat>)
    requires src < |h.mem|
  {
    exists h1: Phys :: Cloned(h, h1, src, nd, USER_TABLES) && PhysOk(h1) && ZeroHeld(h1) && SharedEach(h1, h', stack)
  }

  /** No count passes 255: not by sharing every page, nor by the extra stack references. */
  ghost predicate RoomToFork(h: Phys, d: nat, stack: seq<nat>)
    requires d < |h.mem|
  {
    && |FreeSlots(h.counts)| > |TablesFrom(h.mem[d], 0)|
    && forall s :: 0 <= s < |h.counts| ==> Max(1, h.counts[s]) + SpaceCount(h.lower, h.mem, d, USER_TABLES, s) + Times(h.lower, stack, s) < 256
  }

  lemma ForkRoom(h: Phys, h': Phys, src: nat, nd: nat, stack: seq<nat>)
    requires PhysOk(h) && src < |h.mem| && RoomToFork(h, src, stack) && Cloned(h, h', src, nd, USER_TABLES)
    ensures forall s :: 0 <= s < |h'.counts| ==> h'.counts[s] + Times(h.lower, stack, s) < 256
  {
    forall s | 0 <= s < |h'.counts| ensures h'.counts[s] + Times(h.lower, stack, s) < 256 {
      IndexRoundTrip(h.lower, s);
      var f := FrameOf(h.lower, s);
      if IsNew(h'.mem, nd, USER_TABLES, f) {
        assert FreshFrame(h, h', f, SpaceCount(h.lower, h.mem, src, USER_TABLES, Slot(h.lower, f)));
      }
    }
  }

  /** After the fault the page is open to user-mode writes. */
  lemma FaultedWritable(h: Phys, h': Phys, d: nat, p: int)
    requires DirOk(h.mem, d) && 0 <= p < USER_PAGES && Faulted(h, h', d, p)
    requires h.mem[d][p / ENTRIES].present && h.mem[d][p / ENTRIES].writable && h.mem[d][p / ENTRIES].user
    requires StructHeld(h, d)
    ensures d < |h'.mem| && UserWritable(h'.mem, d, p) && EntryAt(h'.mem, d, p).frame < |h'.mem|
  {
    var f := EntryAt(h.mem, d, p).frame;
    if h.counts[Slot(h.lower, f)] != 1 {
      var n: FrameNumber, h1: Phys, h2: Phys :|
        CountLowered(h, h1, f) && Claimed(h1, h2, n, h.mem[f]) && EntrySet(h2, h', d, p, UserEntry(n), true);
      assert InStruct(h.mem, d, d);
      assert h2.mem[d] == h.mem[d];
    }
  }

  /** Claiming a free frame leaves a directory whose frames are in use as it was. */
  lemma ClaimedDir(h: Phys, h': Phys, d: nat, f: nat, fill: Page)
    requires DirOk(h.mem, d) && StructHeld(h, d) && Claimed(h, h', f, fill)
    ensures DirOk(h'.mem, d) && StructHeld(h', d) && h'.mem[d] == h.mem[d]
  {
    assert InStruct(h.mem, d, d);
    assert h'.mem[d] == h.mem[d];
    forall g: nat ensures InStruct(h'.mem, d, g) <==> InStruct(h.mem, d, g) {
    }
  }

  lemma LoweredDir(h: Phys, h': Phys, d: nat, f: nat)
    requires DirOk(h.mem, d) && StructHeld(h, d) && CountLowered(h, h', f)
    ensures StructHeld(h', d)
  {
  }
}
