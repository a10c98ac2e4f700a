/** The physical frame allocator of kernel/memory/memory_phys.c: one 8-bit reference
    count per 4 KiB frame, with the lower and the upper memory regions laid out one
    after the other in a single byte map. */
module PhysicalFrames {
  import opened Machine

  const UPPER_START := 0x100000
  const ADDRESS_SPACE := 0x1_0000_0000
  const FREE_MAX := 256

  /** Rounds an address down to a multiple of the alignment. */
  function AlignTo(addr: nat, alignment: nat): (r: nat)
    requires alignment > 0
    ensures r <= addr < r + alignment
    ensures exists k: nat :: r == alignment * k
  {
    assert addr == alignment * (addr / alignment) + addr % alignment;
    if addr % alignment == 0 then addr else alignment * (addr / alignment)
  }

  /** Byte-map index of an address; -1 in the hole between lower memory and 1 MiB. */
  function AddrToIndex(lower: nat, addr: nat): int {
    if addr < lower then addr / PAGE
    else if addr >= UPPER_START then lower / PAGE + (addr - UPPER_START) / PAGE
    else -1
  }

  function IndexToAddr(lower: nat, index: nat): nat {
    if index < lower / PAGE then index * PAGE
    else (index - lower / PAGE) * PAGE + UPPER_START
  }

  /** The same index computed from a frame number (address divided by 4096). */
  function Slot(lower: nat, frame: nat): int {
    if frame * PAGE < lower then frame
    else if frame >= UPPER_START / PAGE then lower / PAGE + frame - UPPER_START / PAGE
    else -1
  }

  function FrameOf(lower: nat, slot: nat): nat {
    if slot < lower / PAGE then slot else slot - lower / PAGE + UPPER_START / PAGE
  }

  /** Frames that the byte map can hand out: the index map is undone exactly on them. */
  predicate Managed(lower: nat, size: nat, frame: nat) {
    0 <= Slot(lower, frame) < size && FrameOf(lower, Slot(lower, frame)) == frame
  }

  lemma SlotIsIndex(lower: nat, frame: nat)
    ensures AddrToIndex(lower, AlignTo(frame * PAGE, PAGE)) == Slot(lower, frame)
  {
  }

  lemma FrameIsAddress(lower: nat, slot: nat)
    ensures IndexToAddr(lower, slot) == FrameOf(lower, slot) * PAGE
  {
  }

  /** Index to address to index is the identity as long as lower memory ends by 1 MiB. */
  lemma IndexRoundTrip(lower: nat, index: nat)
    requires lower <= UPPER_START
    ensures AddrToIndex(lower, IndexToAddr(lower, index)) == index
    ensures AlignTo(IndexToAddr(lower, index), PAGE) == IndexToAddr(lower, index)
    ensures Slot(lower, FrameOf(lower, index)) == index
  {
  }

  predicate Addressable(lower: nat, addr: nat) {
    addr % PAGE == 0 && AddrToIndex(lower, addr) != -1
  }

  ghost predicate IndexInjective(lower: nat) {
    forall a: nat, b: nat ::
      Addressable(lower, a) && Addressable(lower, b) && AddrToIndex(lower, a) == AddrToIndex(lower, b) ==> a == b
  }

  /** Address to index is injective exactly when lower memory is a whole number of pages. */
  lemma IndexInjectiveIff(lower: nat)
    requires lower <= UPPER_START
    ensures IndexInjective(lower) <==> lower % PAGE == 0
  {
    if lower % PAGE != 0 {
      var a := lower / PAGE * PAGE;
      assert Addressable(lower, a) && Addressable(lower, UPPER_START);
      assert AddrToIndex(lower, a) == AddrToIndex(lower, UPPER_START) == lower / PAGE;
      assert a != UPPER_START;
    } else {
      forall a: nat, b: nat | Addressable(lower, a) && Addressable(lower, b) && AddrToIndex(lower, a) == AddrToIndex(lower, b)
        ensures a == b
      {
        assert a == a / PAGE * PAGE && b == b / PAGE * PAGE;
      }
    }
  }

  /** A slot of the free list, which caches freed frames by byte-map index and address. */
  datatype FreeSlot = Empty | Freed(index: nat, address: nat)

  ghost function FreeSlots(counts: seq<nat>): set<int> {
    set s | 0 <= s < |counts| && counts[s] == 0
  }

  lemma TakeFreeSlot(counts: seq<nat>, s: nat, v: nat)
    requires s < |counts| && counts[s] == 0 && v != 0
    ensures |FreeSlots(counts[s := v])| == |FreeSlots(counts)| - 1
  {
    assert FreeSlots(counts[s := v]) == FreeSlots(counts) - {s};
  }

  /** The index of the k-th frame of a byte map at this address. */
  function MapIndex(lower: nat, mapAt: nat, k: int): int
    requires 0 <= k
  {
    AddrToIndex(lower, mapAt + k * PAGE)
  }

  /** The frame at slot s holds a part of the byte map. */
  ghost predicate HoldsMap(lower: nat, mapAt: nat, size: nat, s: int) {
    exists k :: 0 <= k && k * PAGE < size && MapIndex(lower, mapAt, k) == s
  }

  class FrameAllocator {
    const lower: nat
    const allocations: array<nat>
    const freeList: array<FreeSlot>

    ghost predicate Valid()
      reads this, allocations, freeList
    {
      && lower <= UPPER_START
      && FrameOf(lower, allocations.Length) * PAGE <= ADDRESS_SPACE
      && (forall s :: 0 <= s < allocations.Length ==> allocations[s] < 256)
      && freeList.Length == FREE_MAX
      && (forall k :: 0 <= k < FREE_MAX ==> freeList[k] == Empty)
    }

    ghost function Counts(): seq<nat>
      reads allocations
    {
      allocations[..]
    }

    /** The addresses whose index falls in the byte map or in the memory hole. */
    predicate Covered(addr: nat) {
      AddrToIndex(lower, AlignTo(addr, PAGE)) < allocations.Length
    }

    /** init_phys_memory: sizes in KiB, as the boot loader reports them, and where the byte map
        is put. The frames that the map itself lies in are claimed, and no others. */
    constructor (lowerKib: nat, upperKib: nat, mapAt: nat)
      requires lowerKib <= 1024
      requires UPPER_START + upperKib * 1024 <= ADDRESS_SPACE
      requires mapAt % PAGE == 0 && UPPER_START <= mapAt
      requires mapAt + (lowerKib * 1024 / PAGE + upperKib * 1024 / PAGE) <= UPPER_START + upperKib * 1024 / PAGE * PAGE
      ensures Valid()
      ensures fresh(allocations) && fresh(freeList)
      ensures lower == lowerKib * 1024
      ensures allocations.Length == lowerKib * 1024 / PAGE + upperKib * 1024 / PAGE
      ensures forall s :: 0 <= s < allocations.Length ==>
                allocations[s] == if HoldsMap(lower, mapAt, allocations.Length, s) then 1 else 0
    {
      lower := lowerKib * 1024;
      allocations := new nat[lowerKib * 1024 / PAGE + upperKib * 1024 / PAGE](_ => 0);
      freeList := new FreeSlot[FREE_MAX](_ => Empty);
      new;
      var addr, i := mapAt, 0;
      while addr < mapAt + allocations.Length
        invariant addr == mapAt + i * PAGE && 0 <= i && Valid()
        invariant forall s :: 0 <= s < allocations.Length ==>
                    allocations[s] == if exists k :: 0 <= k < i && MapIndex(lower, mapAt, k) == s then 1 else 0
        invariant forall k :: 0 <= k < i ==> k * PAGE < allocations.Length
        decreases mapAt + allocations.Length - addr
      {
        assert AddrToIndex(lower, AlignTo(addr, PAGE)) == MapIndex(lower, mapAt, i);
        var r := AllocAddr(addr);
        addr, i := addr + PAGE, i + 1;
      }
    }

    method Index(addr: nat) returns (index: int)
      requires Valid()
      ensures index == AddrToIndex(lower, AlignTo(addr, PAGE))
    {
      index := AddrToIndex(lower, AlignTo(addr, PAGE));
    }

    /** The count is stored in 8 bits, so an increment past 255 wraps to 0. */
    method IncreaseRefcount(addr: nat)
      requires Valid() && Covered(addr)
      modifies allocations
      ensures Valid()
      ensures var i := AddrToIndex(lower, AlignTo(addr, PAGE));
        Counts() == if i >= 0 && old(allocations[i]) >= 1
                    then old(Counts())[i := (old(allocations[i]) + 1) % 256] else old(Counts())
    {
      var i := Index(addr);
      if i != -1 && allocations[i] >= 1 {
        allocations[i] := (allocations[i] + 1) % 256;
      }
    }

    method DecreaseRefcount(addr: nat)
      requires Valid() && Covered(addr)
      modifies allocations
      ensures Valid()
      ensures var i := AddrToIndex(lower, AlignTo(addr, PAGE));
        Counts() == if i >= 0 && old(allocations[i]) > 0
                    then old(Counts())[i := old(allocations[i]) - 1] else old(Counts())
    {
      var i := Index(addr);
      if i != -1 && allocations[i] > 0 {
        allocations[i] := allocations[i] - 1;
      }
    }

    method GetRefcount(addr: nat) returns (r: int)
      requires Valid() && Covered(addr)
      ensures var i := AddrToIndex(lower, AlignTo(addr, PAGE));
        r == if i >= 0 then allocations[i] else -1
    {
      var i := Index(addr);
      if i != -1 {
        r := allocations[i];
      } else {
        r := -1;
      }
    }

    /** Claims one particular frame; 0 when it is taken or not managed. */
    method AllocAddr(addr: nat) returns (r: nat)
      requires Valid() && Covered(addr)
      modifies allocations
      ensures Valid()
      ensures var i := AddrToIndex(lower, AlignTo(addr, PAGE));
        if i >= 0 && old(allocations[i]) == 0
        then r == AlignTo(addr, PAGE) && Counts() == old(Counts())[i := 1]
        else r == 0 && Counts() == old(Counts())
    {
      var i := Index(addr);
      if i != -1 && allocations[i] == 0 {
        allocations[i] := 1;
        return AlignTo(addr, PAGE);
      }
      r := 0;
    }

    /** Freeing only ever writes to a local copy of a free-list slot, so the list stays empty. */
    method Free(addr: nat)
      requires Valid() && Covered(addr)
      modifies allocations
      ensures Valid()
      ensures var i := AddrToIndex(lower, AlignTo(addr, PAGE));
        Counts() == if i >= 0 then old(Counts())[i := 0] else old(Counts())
    {
      var i := Index(addr);
      if i != -1 {
        allocations[i] := 0;
        var k := 0;
        while k < FREE_MAX {
          var slot := freeList[k];
          if slot == Empty {
            slot := Freed(i, addr);
            break;
          }
          k := k + 1;
        }
      }
    }

    /** First the free list, then the first frame with count 0; address 0 when none is left. */
    method AllocPage() returns (addr: nat, ghost slot: nat)
      requires Valid()
      modifies allocations
      ensures Valid()
      ensures if exists s :: 0 <= s < |old(Counts())| && old(Counts())[s] == 0
              then slot < |old(Counts())| && old(Counts())[slot] == 0
                && (forall s :: 0 <= s < slot ==> old(Counts())[s] != 0)
                && addr == IndexToAddr(lower, slot) && Counts() == old(Counts())[slot := 1]
              else addr == 0 && Counts() == old(Counts())
    {
      slot := 0;
      var k := 0;
      while k < FREE_MAX
        invariant 0 <= k <= FREE_MAX
        invariant Counts() == old(Counts())
        invariant Valid()
      {
        var cached := freeList[k];
        if cached.Freed? {
          // the cached frame would be handed out here, but no slot is ever filled
          assert false;
        }
        k := k + 1;
      }
      var s := 0;
      while s < allocations.Length
        invariant 0 <= s <= allocations.Length
        invariant Counts() == old(Counts())
        invariant forall t :: 0 <= t < s ==> allocations[t] != 0
        invariant Valid()
      {
        if allocations[s] == 0 {
          allocations[s] := 1;
          return IndexToAddr(lower, s), s;
        }
        s := s + 1;
      }
      addr := 0;
    }
  }
}
