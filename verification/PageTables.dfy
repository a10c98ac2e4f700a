/** Two-level page tables held in physical frames, read as a flat map from user pages to
    entries. Pure definitions and facts; the code that edits the tables is in Paging. */
module PageTables {
  import opened Machine
  import opened PhysicalFrames
  import opened PageEntries

  // directory entries 768 to 1023 belong to the kernel half of the address space
  const USER_TABLES := 768
  const USER_PAGES := USER_TABLES * ENTRIES

  /** Physical memory by frame number, with the allocator's byte map of counts. */
  datatype Phys = Phys(lower: nat, mem: seq<Page>, counts: seq<nat>)

  ghost predicate PhysOk(h: Phys) {
    && h.lower <= UPPER_START
    && FrameOf(h.lower, |h.counts|) <= |h.mem| <= 0x10_0000
    && (forall s :: 0 <= s < |h.counts| ==> h.counts[s] < 256)
  }

  /** Frame 0 is claimed at boot, so that a zero frame field can mean "no table". */
  ghost predicate ZeroHeld(h: Phys) {
    |h.counts| > 0 && h.lower >= PAGE ==> h.counts[0] >= 1
  }

  /** A directory whose user half is well formed: a table is present exactly when its frame
      field is nonzero, and tables are distinct frames. */
  ghost predicate DirOk(m: seq<Page>, d: nat) {
    && 0 < d < |m|
    && (forall i :: 0 <= i < USER_TABLES ==>
          if m[d][i].present then 0 < m[d][i].frame < |m| && m[d][i].frame != d else m[d][i].frame == 0)
    && (forall i, j :: 0 <= i < j < USER_TABLES && m[d][i].present && m[d][j].present ==> m[d][i].frame != m[d][j].frame)
  }

  /** The frames that hold a directory's own structure: itself and its user tables. */
  ghost predicate InStruct(m: seq<Page>, d: nat, f: nat)
    requires d < |m|
  {
    f == d || exists i :: 0 <= i < USER_TABLES && m[d][i].present && m[d][i].frame == f
  }

  /** The entry that governs user page p, or ZERO when there is no table for it. */
  function EntryAt(m: seq<Page>, d: nat, p: int): Word
    requires d < |m| && 0 <= p < USER_PAGES
  {
    if m[d][p / ENTRIES].present && m[d][p / ENTRIES].frame < |m| then m[m[d][p / ENTRIES].frame][p % ENTRIES] else ZERO
  }

  /** The processor lets a user-mode write through when both levels allow it. */
  predicate UserWritable(m: seq<Page>, d: nat, p: int)
    requires d < |m| && 0 <= p < USER_PAGES
  {
    && m[d][p / ENTRIES].present && m[d][p / ENTRIES].writable && m[d][p / ENTRIES].user
    && EntryAt(m, d, p).present && EntryAt(m, d, p).writable && EntryAt(m, d, p).user
  }

  // ----- counting the pages that refer to a frame -----

  /** The pages below bound whose frame is counted at slot s of the byte map. */
  ghost function PagesOf(lower: nat, m: seq<Page>, d: nat, bound: int, s: int): set<int>
    requires d < |m| && 0 <= bound <= USER_PAGES
  {
    set p | 0 <= p < bound && EntryAt(m, d, p).present && Slot(lower, EntryAt(m, d, p).frame) == s
  }

  function EntryOf(t: Page, base: int, p: int): Word
    requires base <= p < base + ENTRIES
  {
    t[p - base]
  }

  /** The same for the first n entries of one table that serves the pages from base on. */
  ghost function TablePages(lower: nat, t: Page, base: int, n: int, s: int): set<int>
    requires 0 <= n <= ENTRIES
  {
    set p | base <= p < base + n && EntryOf(t, base, p).present && Slot(lower, EntryOf(t, base, p).frame) == s
  }

  lemma TablePagesStep(lower: nat, t: Page, base: int, j: int, s: int)
    requires 0 <= j < ENTRIES
    ensures |TablePages(lower, t, base, j + 1, s)|
         == |TablePages(lower, t, base, j, s)| + if t[j].present && Slot(lower, t[j].frame) == s then 1 else 0
  {
    var a, b := TablePages(lower, t, base, j, s), TablePages(lower, t, base, j + 1, s);
    if t[j].present && Slot(lower, t[j].frame) == s {
      assert b == a + {base + j};
    } else {
      assert b == a;
    }
  }

  lemma PagesOfStep(lower: nat, m: seq<Page>, d: nat, i: int, s: int)
    requires DirOk(m, d) && 0 <= i < USER_TABLES
    ensures |PagesOf(lower, m, d, (i + 1) * ENTRIES, s)|
         == |PagesOf(lower, m, d, i * ENTRIES, s)|
          + if m[d][i].present then |TablePages(lower, m[m[d][i].frame], i * ENTRIES, ENTRIES, s)| else 0
  {
    var a, b := PagesOf(lower, m, d, i * ENTRIES, s), PagesOf(lower, m, d, (i + 1) * ENTRIES, s);
    forall p | i * ENTRIES <= p < (i + 1) * ENTRIES
      ensures p / ENTRIES == i && p % ENTRIES == p - i * ENTRIES
    {
    }
    if m[d][i].present {
      var t := TablePages(lower, m[m[d][i].frame], i * ENTRIES, ENTRIES, s);
      assert b == a + t;
      assert a !! t;
    } else {
      assert b == a;
    }
  }

  /** How many of the first n entries of a table name a frame counted at slot s. */
  ghost function TableCount(lower: nat, t: Page, n: int, s: int): nat
    requires 0 <= n <= ENTRIES
    decreases n, lower
  {
    if n == 0 then 0
    else TableCount(lower, t, n - 1, s) + if t[n - 1].present && Slot(lower, t[n - 1].frame) == s then 1 else 0
  }

  /** The same over the first i tables of a directory. */
  ghost function SpaceCount(lower: nat, m: seq<Page>, d: nat, i: int, s: int): nat
    requires d < |m| && 0 <= i <= USER_TABLES
    decreases i, lower
  {
    if i == 0 then 0
    else
      var e := m[d][i - 1];
      SpaceCount(lower, m, d, i - 1, s) + if e.present && e.frame < |m| then TableCount(lower, m[e.frame], ENTRIES, s) else 0
  }

  lemma {:induction false} TableCountMonotone(lower: nat, t: Page, i: int, j: int, s: int)
    requires 0 <= i <= j <= ENTRIES
    ensures TableCount(lower, t, i, s) <= TableCount(lower, t, j, s)
    decreases j
  {
    if i < j {
      TableCountMonotone(lower, t, i, j - 1, s);
    }
  }

  lemma {:induction false} SpaceCountMonotone(lower: nat, m: seq<Page>, d: nat, i: int, j: int, s: int)
    requires d < |m| && 0 <= i <= j <= USER_TABLES
    ensures SpaceCount(lower, m, d, i, s) <= SpaceCount(lower, m, d, j, s)
    decreases j
  {
    if i < j {
      SpaceCountMonotone(lower, m, d, i, j - 1, s);
    }
  }

  lemma {:induction false} TableCountIsCardinality(lower: nat, t: Page, base: int, n: int, s: int)
    requires 0 <= n <= ENTRIES
    ensures TableCount(lower, t, n, s) == |TablePages(lower, t, base, n, s)|
    decreases n
  {
    if n > 0 {
      TableCountIsCardinality(lower, t, base, n - 1, s);
      TablePagesStep(lower, t, base, n - 1, s);
    }
  }

  /** The running count of the table-walking loops is the number of pages mapped. */
  lemma {:induction false} SpaceCountIsCardinality(lower: nat, m: seq<Page>, d: nat, i: int, s: int)
    requires DirOk(m, d) && 0 <= i <= USER_TABLES
    ensures SpaceCount(lower, m, d, i, s) == |PagesOf(lower, m, d, i * ENTRIES, s)|
    decreases i
  {
    if i > 0 {
      SpaceCountIsCardinality(lower, m, d, i - 1, s);
      PagesOfStep(lower, m, d, i - 1, s);
      if m[d][i - 1].present {
        TableCountIsCardinality(lower, m[m[d][i - 1].frame], (i - 1) * ENTRIES, ENTRIES, s);
      }
    }
  }

  // ----- what the table-walking loops do to one table and to one count -----

  function Protect(w: Word): Word {
    if w.present then w.(writable := false) else w
  }

  /** A table after the first n turns of the loop that write-protects it. */
  function ProtectTable(t: Page, n: int): Page {
    seq(ENTRIES, j requires 0 <= j < ENTRIES => if j < n then Protect(t[j]) else t[j])
  }

  /** The first n entries of a table as the clone receives them. */
  function CopyTable(t: Page, n: int): Page {
    seq(ENTRIES, j requires 0 <= j < ENTRIES => if j < n && t[j].present then Protect(t[j]) else ZERO)
  }

  /** A table after its first n entries were wiped. */
  function WipeTable(t: Page, n: int): Page {
    seq(ENTRIES, j requires 0 <= j < ENTRIES => if j < n && t[j].present then ZERO else t[j])
  }

  lemma TableSteps(t: Page, j: int)
    requires 0 <= j < ENTRIES
    ensures ProtectTable(t, j + 1) == WithEntry(ProtectTable(t, j), j, Protect(t[j]))
    ensures CopyTable(t, j + 1) == if t[j].present then WithEntry(CopyTable(t, j), j, Protect(t[j])) else CopyTable(t, j)
    ensures WipeTable(t, j + 1) == if t[j].present then WithEntry(WipeTable(t, j), j, ZERO) else WipeTable(t, j)
    ensures !t[j].present ==> ProtectTable(t, j + 1) == ProtectTable(t, j)
  {
  }

  lemma TableStart(t: Page)
    ensures ProtectTable(t, 0) == t && CopyTable(t, 0) == Blank() && WipeTable(t, 0) == t
  {
  }

  /** A count of zero marks a free frame and is never raised by sharing. */
  function Raised(c: nat, k: nat): nat { if c == 0 then 0 else c + k }

  function Lowered(c: nat, k: nat): nat { if c >= k then c - k else 0 }

  ghost predicate EntriesCovered(h: Phys, t: Page) {
    forall j :: 0 <= j < ENTRIES && t[j].present ==> Slot(h.lower, t[j].frame) < |h.counts|
  }

  /** Every present entry of the user half points at a frame the byte map knows or ignores. */
  ghost predicate SpaceCovered(h: Phys, d: nat)
    requires d < |h.mem|
  {
    forall i :: 0 <= i < USER_TABLES && h.mem[d][i].present && h.mem[d][i].frame < |h.mem| ==>
      EntriesCovered(h, h.mem[h.mem[d][i].frame])
  }

  /** The frames of a directory's structure are in use, so the allocator will not reissue them. */
  ghost predicate StructHeld(h: Phys, d: nat)
    requires d < |h.mem|
  {
    forall f: nat :: InStruct(h.mem, d, f) ==> Held(h, f)
  }

  ghost predicate Held(h: Phys, f: nat) {
    Managed(h.lower, |h.counts|, f) && h.counts[Slot(h.lower, f)] >= 1
  }

  ghost function TablesFrom(dir: Page, i: int): set<int> {
    set k | i <= k < USER_TABLES && 0 <= k && dir[k].present
  }

  lemma TablesFromStep(dir: Page, i: int)
    requires 0 <= i < USER_TABLES
    ensures |TablesFrom(dir, i)| == |TablesFrom(dir, i + 1)| + if dir[i].present then 1 else 0
  {
    if dir[i].present {
      assert TablesFrom(dir, i) == TablesFrom(dir, i + 1) + {i};
    } else {
      assert TablesFrom(dir, i) == TablesFrom(dir, i + 1);
    }
  }
}
