/** Which user-mode stores need a free frame, because their page is still shared, and how each step
    changes that: what a program must leave free to be able to write. */
module CopyNeeds {
  import opened PhysicalFrames
  import opened PageEntries
  import opened PageTables
  import opened Paging
  import opened CopyOnWrite
  import opened AddressSpaces
  import opened ProcessMemory
  import opened Sets

  /** No page needs a copy that did not need one before. */
  ghost predicate FewerCopies(h: Phys, h': Phys, d: nat) {
    && d < |h.mem| && d < |h'.mem|
    && forall q :: 0 <= q < USER_PAGES && NeedsCopy(h', d, q) ==> NeedsCopy(h, d, q)
  }

  ghost predicate NoCopies(h: Phys, d: nat) {
    d < |h.mem| && forall q :: 0 <= q < USER_PAGES ==> !NeedsCopy(h, d, q)
  }

  /** The pages among these whose next store takes a frame. */
  ghost function Copies(h: Phys, d: nat, pages: set<int>): set<int>
    requires d < |h.mem|
  {
    set p | p in pages && 0 <= p < USER_PAGES && NeedsCopy(h, d, p)
  }

  /** The entry of one page is as it was, as far as a store is concerned. */
  ghost predicate SameEntry(h: Phys, h': Phys, d: nat, q: int)
    requires d < |h.mem| && d < |h'.mem| && 0 <= q < USER_PAGES
  {
    && EntryAt(h'.mem, d, q) == EntryAt(h.mem, d, q)
    && (EntryAt(h.mem, d, q).present ==> UserWritable(h'.mem, d, q) == UserWritable(h.mem, d, q))
  }

  lemma EntrySetSame(h: Phys, h': Phys, d: nat, p: int, w: Word, q: int)
    requires d < |h.mem| && 0 <= p < USER_PAGES && EntrySet(h, h', d, p, w, true) && 0 <= q < USER_PAGES && q != p
    ensures SameEntry(h, h', d, q)
  {
  }

  lemma ClaimedSame(h: Phys, h': Phys, d: nat, f: nat, fill: Page, q: int)
    requires DirOk(h.mem, d) && StructHeld(h, d) && Claimed(h, h', f, fill) && 0 <= q < USER_PAGES
    ensures SameEntry(h, h', d, q)
  {
    assert InStruct(h.mem, d, d);
    if h.mem[d][q / ENTRIES].present {
      assert InStruct(h.mem, d, h.mem[d][q / ENTRIES].frame);
    }
  }

  /** A fresh page: it is counted once, and nothing else is counted more. */
  lemma MappedCopies(h: Phys, h': Phys, d: nat, p: int, fill: Page)
    requires DirOk(h.mem, d) && StructHeld(h, d) && 0 <= p < USER_PAGES && FreshMapped(h, h', d, p, fill)
    ensures FewerCopies(h, h', d)
  {
    var f: FrameNumber, h1: Phys :| Claimed(h, h1, f, fill) && EntrySet(h1, h', d, p, UserEntry(f), true);
    ClaimedDir(h, h1, d, f, fill);
    forall q | 0 <= q < USER_PAGES && NeedsCopy(h', d, q) ensures NeedsCopy(h, d, q) {
      if q != p {
        ClaimedSame(h, h1, d, f, fill, q);
        EntrySetSame(h1, h', d, p, UserEntry(f), q);
      }
    }
  }

  /** The fault handler: the page needs no copy any more, and no other needs one that did not. */
  lemma FaultedCopies(h: Phys, h': Phys, d: nat, p: int)
    requires DirOk(h.mem, d) && StructHeld(h, d) && 0 <= p < USER_PAGES && h.mem[d][p / ENTRIES].present
    requires Faulted(h, h', d, p) && d < |h'.mem| && UserWritable(h'.mem, d, p)
    ensures FewerCopies(h, h', d) && !NeedsCopy(h', d, p)
  {
    var f := EntryAt(h.mem, d, p).frame;
    if h.counts[Slot(h.lower, f)] == 1 {
      forall q | 0 <= q < USER_PAGES && NeedsCopy(h', d, q) ensures NeedsCopy(h, d, q) {
        if q != p {
          EntrySetSame(h, h', d, p, UserEntry(f), q);
        }
      }
    } else {
      var n: FrameNumber, h1: Phys, h2: Phys :|
        CountLowered(h, h1, f) && Claimed(h1, h2, n, h.mem[f]) && EntrySet(h2, h', d, p, UserEntry(n), true);
      CopiedCopies(h, h1, h2, h', d, p, f, n);
    }
  }

  lemma CopiedCopies(h: Phys, h1: Phys, h2: Phys, h': Phys, d: nat, p: int, f: nat, n: FrameNumber)
    requires DirOk(h.mem, d) && StructHeld(h, d) && 0 <= p < USER_PAGES && h.mem[d][p / ENTRIES].present && f < |h.mem|
    requires CountLowered(h, h1, f) && Claimed(h1, h2, n, h.mem[f]) && d < |h2.mem| && EntrySet(h2, h', d, p, UserEntry(n), true)
    requires d < |h'.mem| && UserWritable(h'.mem, d, p)
    ensures FewerCopies(h, h', d)
  {
    LoweredDir(h, h1, d, f);
    ClaimedDir(h1, h2, d, n, h.mem[f]);
    forall q | 0 <= q < USER_PAGES && NeedsCopy(h', d, q) ensures NeedsCopy(h, d, q) {
      if q != p {
        ClaimedSame(h1, h2, d, n, h.mem[f], q);
        EntrySetSame(h2, h', d, p, UserEntry(n), q);
      }
    }
  }

  lemma FaultedFree(h: Phys, h': Phys, d: nat, p: int)
    requires d < |h.mem| && 0 <= p < USER_PAGES && h.mem[d][p / ENTRIES].present && DirOk(h.mem, d) && StructHeld(h, d)
    requires Faulted(h, h', d, p)
    ensures var s := Slot(h.lower, EntryAt(h.mem, d, p).frame);
            |FreeSlots(h'.counts)| == |FreeSlots(h.counts)| - if h.counts[s] == 1 then 0 else 1
  {
    var f := EntryAt(h.mem, d, p).frame;
    if h.counts[Slot(h.lower, f)] != 1 {
      var n: FrameNumber, h1: Phys, h2: Phys :|
        CountLowered(h, h1, f) && Claimed(h1, h2, n, h.mem[f]) && EntrySet(h2, h', d, p, UserEntry(n), true);
      LoweredDir(h, h1, d, f);
      ClaimedDir(h1, h2, d, n, h.mem[f]);
      SameFree(h.counts, h1.counts);
      TakeFreeSlot(h1.counts, Slot(h.lower, n), 1);
    }
  }

  /** A word written in a frame that holds no table changes no entry. */
  lemma WrittenSame(h: Phys, h': Phys, d: nat, f: nat, q: int)
    requires DirOk(h.mem, d) && !InStruct(h.mem, d, f) && f < |h.mem| && 0 <= q < USER_PAGES
    requires |h'.mem| == |h.mem| && forall g: nat :: g < |h.mem| && g != f ==> h'.mem[g] == h.mem[g]
    ensures SameEntry(h, h', d, q)
  {
    assert InStruct(h.mem, d, d);
    if h.mem[d][q / ENTRIES].present {
      assert InStruct(h.mem, d, h.mem[d][q / ENTRIES].frame);
    }
  }

  /** After a store its page needs no copy, no other page needs one that did not, and a frame was
      taken only if the page needed one. */
  lemma StoredCopies(h: Phys, h': Phys, dirs: Dirs, a: int, p: int, j: int, w: Word)
    requires Inv(h, dirs) && a in dirs && 0 <= p < USER_PAGES && 0 <= j < ENTRIES
    requires EntryAt(h.mem, dirs[a], p).present && Stored(h, h', dirs[a], p, j, w)
    ensures FewerCopies(h, h', dirs[a]) && !NeedsCopy(h', dirs[a], p)
    ensures |FreeSlots(h'.counts)| == |FreeSlots(h.counts)| - if NeedsCopy(h, dirs[a], p) then 1 else 0
  {
    var d := dirs[a];
    var h1: Phys :|
      && (if UserWritable(h.mem, d, p) then h1 == h else Faulted(h, h1, d, p))
      && PhysOk(h1) && ZeroHeld(h1) && d < |h1.mem| && UserWritable(h1.mem, d, p) && EntryAt(h1.mem, d, p).frame < |h1.mem|
      && h' == h1.(mem := h1.mem[EntryAt(h1.mem, d, p).frame := WithEntry(h1.mem[EntryAt(h1.mem, d, p).frame], j, w)]);
    Opened(h, h1, dirs, a, p);
    DataWritten(h1, h', dirs, a, p, j, w);
  }

  lemma DataWritten(h: Phys, h': Phys, dirs: Dirs, a: int, p: int, j: int, w: Word)
    requires Inv(h, dirs) && a in dirs && 0 <= p < USER_PAGES && EntryAt(h.mem, dirs[a], p).present
    requires FrameWritten(h, h', EntryAt(h.mem, dirs[a], p).frame, j, w)
    ensures h'.counts == h.counts && dirs[a] < |h'.mem|
    ensures forall q :: 0 <= q < USER_PAGES ==> (NeedsCopy(h', dirs[a], q) <==> NeedsCopy(h, dirs[a], q))
  {
    SlotContent(h, dirs, a, p);
    WrittenCopies(h, h', dirs[a], EntryAt(h.mem, dirs[a], p).frame);
  }

  /** The page is open to the store, after a fault if need be. */
  lemma Opened(h: Phys, h1: Phys, dirs: Dirs, a: int, p: int)
    requires Inv(h, dirs) && a in dirs && 0 <= p < USER_PAGES && EntryAt(h.mem, dirs[a], p).present
    requires if UserWritable(h.mem, dirs[a], p) then h1 == h else Faulted(h, h1, dirs[a], p)
    requires PhysOk(h1) && ZeroHeld(h1)
    ensures Inv(h1, dirs) && FewerCopies(h, h1, dirs[a]) && !NeedsCopy(h1, dirs[a], p)
    ensures |FreeSlots(h1.counts)| == |FreeSlots(h.counts)| - if NeedsCopy(h, dirs[a], p) then 1 else 0
  {
    var d := dirs[a];
    SlotContent(h, dirs, a, p);
    if !UserWritable(h.mem, d, p) {
      FaultInvisible(h, h1, dirs, a, p);
      FaultedCopies(h, h1, d, p);
      FaultedFree(h, h1, d, p);
    }
  }

  lemma WrittenCopies(h: Phys, h': Phys, d: nat, f: nat)
    requires DirOk(h.mem, d) && !InStruct(h.mem, d, f) && f < |h.mem|
    requires h'.lower == h.lower && h'.counts == h.counts && |h'.mem| == |h.mem|
    requires forall g: nat :: g < |h.mem| && g != f ==> h'.mem[g] == h.mem[g]
    ensures d < |h'.mem| && forall q :: 0 <= q < USER_PAGES ==> (NeedsCopy(h', d, q) <==> NeedsCopy(h, d, q))
  {
    assert InStruct(h.mem, d, d);
    forall q | 0 <= q < USER_PAGES ensures NeedsCopy(h', d, q) <==> NeedsCopy(h, d, q) {
      WrittenSame(h, h', d, f, q);
    }
  }

  /** An emptied user half shares nothing. */
  lemma ClearedCopies(h: Phys, h': Phys, d: nat)
    requires DirOk(h.mem, d) && DropProgress(h, h', d, USER_TABLES, true)
    ensures NoCopies(h', d)
  {
  }

  lemma CreatedCopies(h: Phys, d: nat)
    requires d < |h.mem| && forall i :: 0 <= i < USER_TABLES ==> h.mem[d][i] == ZERO
    ensures NoCopies(h, d)
  {
  }

  lemma CopiesFewer(h: Phys, h': Phys, d: nat, pages: set<int>)
    requires FewerCopies(h, h', d)
    ensures |Copies(h', d, pages)| <= |Copies(h, d, pages)|
  {
    Subset(Copies(h', d, pages), Copies(h, d, pages));
  }

  /** One page fewer, if that page needed a copy. */
  lemma CopiesLess(h: Phys, h': Phys, d: nat, pages: set<int>, p: int)
    requires FewerCopies(h, h', d) && p in pages && 0 <= p < USER_PAGES && !NeedsCopy(h', d, p)
    ensures |Copies(h', d, pages)| <= |Copies(h, d, pages)| - if NeedsCopy(h, d, p) then 1 else 0
  {
    if NeedsCopy(h, d, p) {
      Subset(Copies(h', d, pages), Copies(h, d, pages) - {p});
    } else {
      Subset(Copies(h', d, pages), Copies(h, d, pages));
    }
  }
}
