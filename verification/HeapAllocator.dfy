/** The first-fit allocators of kernel/memory/memory_heap.c and libraries/alloc.c, which are the
    same algorithm on byte-addressed memory: packed 9-byte headers are read and written in
    place, in the same bytes that hold the payloads. */
module HeapAllocator {
  import opened Machine
  import opened HeapBlocks

  const ADDRESSES := 0x1_0000_0000
  const SIGNED_LIMIT := 0x8000_0000   // sizes are compared as signed 32-bit integers

  // ----- headers in memory -----

  datatype Header = Header(size: nat, next: nat, present: bool)

  /** A 32-bit little-endian word. */
  function Word32(m: seq<Byte>, i: nat): nat
    requires i + 4 <= |m|
  {
    var a: nat, b: nat, c: nat, d: nat := m[i], m[i + 1], m[i + 2], m[i + 3];
    a + 0x100 * b + 0x1_0000 * c + 0x100_0000 * d
  }

  function WithWord32(m: seq<Byte>, i: nat, v: nat): seq<Byte>
    requires i + 4 <= |m|
  {
    m[i := v % 0x100][i + 1 := v / 0x100 % 0x100][i + 2 := v / 0x1_0000 % 0x100][i + 3 := v / 0x100_0000 % 0x100]
  }

  lemma WordRoundTrip(m: seq<Byte>, i: nat, v: nat)
    requires i + 4 <= |m| && v < ADDRESSES
    ensures Word32(WithWord32(m, i, v), i) == v
  {
    var a, b, c := v / 0x100, v / 0x1_0000, v / 0x100_0000;
    assert v == v % 0x100 + 0x100 * a;
    assert a == a % 0x100 + 0x100 * b;
    assert b == b % 0x100 + 0x100 * c;
  }

  /** size and next are words at offsets 0 and 4, present is bit 0 of the byte at offset 8. */
  function HeaderAt(m: seq<Byte>, i: nat): Header
    requires i + HEADER <= |m|
  {
    Header(Word32(m, i), Word32(m, i + 4), m[i + 8] % 2 == 1)
  }

  lemma HeaderFrame(m: seq<Byte>, m': seq<Byte>, i: nat)
    requires i + HEADER <= |m| <= |m'|
    requires forall x :: i <= x < i + HEADER ==> m'[x] == m[x]
    ensures HeaderAt(m', i) == HeaderAt(m, i)
  {
  }

  function NextOf(bs: seq<Block>, k: int): nat
    requires 0 <= k < |bs|
  {
    if k + 1 < |bs| then bs[k + 1].addr else 0
  }

  /** The bytes hold exactly the headers of the block list, and every block lies inside them. */
  ghost predicate Represents(m: seq<Byte>, base: nat, bs: seq<Block>) {
    forall k :: 0 <= k < |bs| ==> Represented(m, base, bs, k)
  }

  ghost predicate Represented(m: seq<Byte>, base: nat, bs: seq<Block>, k: int)
    requires 0 <= k < |bs|
  {
    && base <= bs[k].addr && bs[k].End() <= base + |m|
    && HeaderAt(m, bs[k].addr - base) == Header(bs[k].size, NextOf(bs, k), bs[k].live)
  }

  lemma FirstFitIs(bs: seq<Block>, size: nat, k: nat)
    requires k < |bs| && (k < |bs| - 1 ==> Fits(bs[k], size))
    requires forall j :: 0 <= j < k ==> !Fits(bs[j], size)
    ensures FirstFit(bs, size) == k
  {
  }

  class Heap {
    const base: nat
    var mem: seq<Byte>     // the bytes from base up to end
    var start: nat         // heap.start
    var end: nat           // heap.end
    var head: nat          // heap.head; 0 is NULL
    ghost var blocks: seq<Block>

    ghost predicate Valid()
      reads this
    {
      && 0 < base <= start <= end == base + |mem| <= ADDRESSES
      && Tiled(blocks, start)
      && head == (if blocks == [] then 0 else start)
      && Represents(mem, base, blocks)
    }

    /** initialise_heap with used == 0, and alloc_initialise with the argument bytes skipped. */
    constructor (base: nat, used: nat, memory: seq<Byte>)
      requires 0 < base && base + |memory| <= ADDRESSES && used <= |memory|
      ensures Valid() && blocks == [] && mem == memory && start == base + used && end == base + |memory|
      ensures this.base == base
    {
      this.base := base;
      mem := memory;
      start, end, head := base + used, base + |memory|, 0;
      blocks := [];
    }

    /** An allocator whose variables and memory are there already. */
    constructor Loaded(base: nat, mem: seq<Byte>, start: nat, end: nat, head: nat, ghost blocks: seq<Block>)
      requires 0 < base <= start <= end == base + |mem| <= ADDRESSES && Tiled(blocks, start)
      requires head == (if blocks == [] then 0 else start) && Represents(mem, base, blocks)
      ensures Valid() && this.base == base && this.mem == mem && this.start == start && this.end == end
      ensures this.head == head && this.blocks == blocks
    {
      this.base, this.mem, this.start, this.end, this.head, this.blocks := base, mem, start, end, head, blocks;
    }

    // ----- header fields -----

    method PutSize(a: nat, v: nat)
      requires base <= a && a + HEADER <= base + |mem| && v < ADDRESSES
      modifies this`mem
      ensures |mem| == |old(mem)|
      ensures HeaderAt(mem, a - base) == HeaderAt(old(mem), a - base).(size := v)
      ensures forall x :: 0 <= x < |mem| && !(a - base <= x < a - base + HEADER) ==> mem[x] == old(mem)[x]
    {
      mem := WithWord32(mem, a - base, v);
      WordRoundTrip(old(mem), a - base, v);
    }

    method PutNext(a: nat, v: nat)
      requires base <= a && a + HEADER <= base + |mem| && v < ADDRESSES
      modifies this`mem
      ensures |mem| == |old(mem)|
      ensures HeaderAt(mem, a - base) == HeaderAt(old(mem), a - base).(next := v)
      ensures forall x :: 0 <= x < |mem| && !(a - base <= x < a - base + HEADER) ==> mem[x] == old(mem)[x]
    {
      mem := WithWord32(mem, a - base + 4, v);
      WordRoundTrip(old(mem), a - base + 4, v);
    }

    /** Only bit 0 of the byte changes. */
    method PutPresent(a: nat, p: bool)
      requires base <= a && a + HEADER <= base + |mem|
      modifies this`mem
      ensures |mem| == |old(mem)|
      ensures HeaderAt(mem, a - base) == HeaderAt(old(mem), a - base).(present := p)
      ensures forall x :: 0 <= x < |mem| && x != a - base + 8 ==> mem[x] == old(mem)[x]
    {
      var b := mem[a - base + 8];
      mem := mem[a - base + 8 := b - b % 2 + if p then 1 else 0];
    }

    method PutHeader(a: nat, size: nat, present: bool, next: nat)
      requires base <= a && a + HEADER <= base + |mem| && size < ADDRESSES && next < ADDRESSES
      modifies this`mem
      ensures |mem| == |old(mem)|
      ensures HeaderAt(mem, a - base) == Header(size, next, present)
      ensures forall x :: 0 <= x < |mem| && !(a - base <= x < a - base + HEADER) ==> mem[x] == old(mem)[x]
    {
      PutSize(a, size);
      PutPresent(a, present);
      PutNext(a, next);
    }

    /** memset to zero */
    method Zero(a: nat, n: nat)
      requires base <= a && a + n <= base + |mem|
      modifies this`mem
      ensures |mem| == |old(mem)|
      ensures forall x :: 0 <= x < |mem| ==> mem[x] == if a - base <= x < a - base + n then 0 else old(mem)[x]
    {
      var i := 0;
      while i < n
        invariant 0 <= i <= n && |mem| == |old(mem)|
        invariant forall x :: 0 <= x < |mem| ==> mem[x] == if a - base <= x < a - base + i then 0 else old(mem)[x]
      {
        mem := mem[a - base + i := 0];
        i := i + 1;
      }
    }

    // ----- allocation -----

    /** The empty heap: a block at heap.start, with no test against heap.end. */
    method First(size: nat) returns (item: nat)
      requires Valid() && blocks == [] && start + HEADER + size <= end
      modifies this`mem, this`head, this`blocks
      ensures Valid() && blocks == [Block(start, size, true)] && item == start
      ensures |mem| == |old(mem)|
      ensures forall x :: 0 <= x < |mem| && !(item - base <= x < item - base + HEADER) ==> mem[x] == old(mem)[x]
    {
      item := start;
      PutHeader(item, size, true, 0);
      head := item;
      blocks := [Block(start, size, true)];
    }

    /** The first-fit walk along the next fields. */
    method Search(size: nat) returns (item: nat, ghost k: nat)
      requires Valid() && blocks != []
      ensures k == FirstFit(blocks, size) && item == blocks[k].addr
      ensures base <= item && item + HEADER <= base + |mem|
      ensures HeaderAt(mem, item - base) == Header(blocks[k].size, NextOf(blocks, k), blocks[k].live)
      ensures NextOf(blocks, k) == 0 <==> k == |blocks| - 1
    {
      item := head;
      k := 0;
      assert Represented(mem, base, blocks, 0);
      while HeaderAt(mem, item - base).next != 0
        invariant k < |blocks| && item == blocks[k].addr
        invariant Represented(mem, base, blocks, k)
        invariant forall j :: 0 <= j < k ==> !Fits(blocks[j], size)
        decreases |blocks| - k
      {
        var h := HeaderAt(mem, item - base);
        if h.size >= size && !h.present {
          break;
        }
        item := h.next;
        k := k + 1;
        assert Represented(mem, base, blocks, k);
      }
      if k + 1 < |blocks| {
        assert Represented(mem, base, blocks, k + 1);
      }
      FirstFitIs(blocks, size, k);
    }

    /** The last block is reached and there is room below heap.end: link a new block behind it. */
    method Append(last: nat, ghost k: nat, size: nat) returns (item: nat)
      requires Valid() && blocks != [] && k == |blocks| - 1 && last == blocks[k].addr
      requires blocks[k].End() + HEADER + size <= end
      modifies this`mem, this`blocks
      ensures Valid() && blocks == old(blocks) + [Block(old(blocks)[k].End(), size, true)]
      ensures item == old(blocks)[k].End()
      ensures |mem| == |old(mem)|
      ensures forall x :: 0 <= x < |mem| && !(item - base <= x < item - base + HEADER) && !(last - base <= x < last - base + HEADER) ==>
        mem[x] == old(mem)[x]
    {
      assert Represented(mem, base, blocks, k);
      ghost var bs := blocks;
      item := last + HEADER + HeaderAt(mem, last - base).size;
      PutNext(last, item);
      ghost var m1 := mem;
      PutHeader(item, size, true, 0);
      HeaderFrame(m1, mem, last - base);
      blocks := blocks + [Block(item, size, true)];
      AppendRepresents(old(mem), mem, base, start, bs, size);
    }

    /** A free block in the middle: split it, or take it whole. */
    method Take(item: nat, ghost k: nat, size: nat)
      requires Valid() && k < |blocks| - 1 && item == blocks[k].addr && Fits(blocks[k], size)
      modifies this`mem, this`blocks
      ensures Valid() && blocks == old(blocks)[..k] + Taken(old(blocks)[k], size) + old(blocks)[k + 1..]
      ensures |mem| == |old(mem)|
      ensures forall x :: 0 <= x < |mem| && !(item - base <= x < old(blocks)[k].End() - base) ==> mem[x] == old(mem)[x]
    {
      ghost var bs := blocks;
      assert Represented(mem, base, bs, k) && Represented(mem, base, bs, k + 1);
      var h := HeaderAt(mem, item - base);
      if h.size - size >= HEADER + 1 {
        Split(item, size, h);
      } else {
        PutPresent(item, true);
      }
      TakeRepresents(old(mem), mem, base, start, bs, k, size);
      TakeTiled(bs, start, k, size);
      blocks := bs[..k] + Taken(bs[k], size) + bs[k + 1..];
    }

    /** Cut a block into one of the requested size and a free sibling. */
    method Split(item: nat, size: nat, h: Header)
      requires base <= item && item + HEADER + h.size <= base + |mem| <= ADDRESSES
      requires HeaderAt(mem, item - base) == h && h.size >= size + HEADER + 1 && h.next < ADDRESSES
      modifies this`mem
      ensures |mem| == |old(mem)|
      ensures HeaderAt(mem, item - base) == Header(size, item + HEADER + size, true)
      ensures HeaderAt(mem, item + HEADER + size - base) == Header(h.size - size - HEADER, h.next, false)
      ensures forall x :: 0 <= x < |mem| && !(item - base <= x < item - base + HEADER + h.size) ==> mem[x] == old(mem)[x]
    {
      var sibling := item + HEADER + size;
      PutHeader(item, size, true, sibling);
      ghost var m1 := mem;
      PutHeader(sibling, h.size - size - HEADER, false, h.next);
      HeaderFrame(m1, mem, item - base);
    }

    // ----- growth -----

    /** One page more; what the new frame holds is not known. */
    method AddPage()
      requires Valid() && end + PAGE <= ADDRESSES
      modifies this`mem, this`end
      ensures Valid() && end == old(end) + PAGE
      ensures |mem| == |old(mem)| + PAGE && mem[..|old(mem)|] == old(mem)
    {
      var frame: seq<Byte> := *;
      if |frame| != PAGE {
        frame := seq(PAGE, _ => 0);
      }
      mem := mem + frame;
      end := end + PAGE;
      ExtendRepresents(old(mem), mem, base, blocks);
    }

    /** increase_heap: whole pages, rounded up. */
    method IncreaseHeap(bytes: nat)
      requires Valid() && end + Grown(bytes) <= ADDRESSES
      modifies this`mem, this`end
      ensures Valid() && end == old(end) + Grown(bytes)
      ensures |old(mem)| <= |mem| && mem[..|old(mem)|] == old(mem)
    {
      var pages := bytes / PAGE + if bytes % PAGE > 0 then 1 else 0;
      var count := 0;
      while count < pages
        invariant 0 <= count <= pages
        invariant Valid() && end == old(end) + count * PAGE
        invariant |old(mem)| <= |mem| && mem[..|old(mem)|] == old(mem)
      {
        AddPage();
        count := count + 1;
      }
    }

    // ----- the allocator -----

    /** The walk and the test of the new block's end against heap.end. */
    method HasRoom(size: nat) returns (ok: bool)
      requires Valid() && size < SIGNED_LIMIT
      ensures ok == RoomFor(blocks, end, size)
    {
      ok := true;
      if head != 0 {
        var item, k := Search(size);
        var h := HeaderAt(mem, item - base);
        if h.next == 0 {
          ok := item + HEADER + h.size + TotalSize(size) < end;
        }
      }
    }

    /** The walk and the linking or splitting, once there is room. */
    method Place(size: nat) returns (item: nat)
      requires Valid() && size < SIGNED_LIMIT && RoomFor(blocks, end, size)
      requires blocks == [] ==> start + HEADER + size <= end
      modifies this`mem, this`head, this`blocks
      ensures Valid() && blocks == Malloc(old(blocks), start, size)
      ensures item == blocks[MallocIndex(old(blocks), size)].addr
      ensures |mem| == |old(mem)|
      ensures forall x :: 0 <= x < |mem| && Untouched(old(blocks), start, size, base + x) ==> mem[x] == old(mem)[x]
    {
      if head == 0 {
        item := First(size);
      } else {
        ghost var k;
        item, k := Search(size);
        if HeaderAt(mem, item - base).next == 0 {
          item := Append(item, k, size);
        } else {
          Take(item, k, size);
        }
      }
    }

    /** The growth part of kern_malloc. The source walks the list once; here the test for room
        and the placing each walk it. */
    method MakeRoom(size: nat)
      requires Valid() && size < SIGNED_LIMIT && end + Grown(TotalSize(size)) <= ADDRESSES
      modifies this`mem, this`end
      ensures Valid() && RoomFor(blocks, end, size)
      ensures end == old(end) + if RoomFor(blocks, old(end), size) then 0 else Grown(TotalSize(size))
      ensures |old(mem)| <= |mem| && mem[..|old(mem)|] == old(mem)
    {
      var ok := HasRoom(size);
      if !ok {
        LastInside();
        GrowthMakesRoom(blocks, end, size);
        IncreaseHeap(TotalSize(size));
        ok := HasRoom(size);
        if !ok {
          // "no more memory": never reached while the blocks lie inside the heap
          assert false;
        }
      }
    }

    lemma LastInside()
      requires Valid()
      ensures blocks != [] ==> blocks[|blocks| - 1].End() <= end
    {
      if blocks != [] {
        assert Represented(mem, base, blocks, |blocks| - 1);
      }
    }

    /** The memset at the end of both allocators, over the length in the block's header. */
    method ZeroPayload(item: nat, ghost i: nat) returns (p: nat)
      requires Valid() && i < |blocks| && item == blocks[i].addr
      modifies this`mem
      ensures Valid() && p == blocks[i].Payload() && base <= p && blocks[i].End() <= end
      ensures |mem| == |old(mem)|
      ensures forall x :: 0 <= x < |mem| ==>
        mem[x] == if p - base <= x < p - base + blocks[i].size then 0 else old(mem)[x]
    {
      assert Represented(mem, base, blocks, i);
      p := item + HEADER;
      Zero(p, HeaderAt(mem, item - base).size);
      ZeroRepresents(old(mem), mem, base, start, blocks, i);
    }

    /** The rest of both allocators: place the block and zero its payload. */
    method Deliver(size: nat) returns (p: nat)
      requires Valid() && size < SIGNED_LIMIT && RoomFor(blocks, end, size)
      requires blocks == [] ==> start + HEADER + size <= end
      modifies this`mem, this`head, this`blocks
      ensures Valid() && blocks == Malloc(old(blocks), start, size)
      ensures Delivered(this, old(blocks), size, p)
      ensures |mem| == |old(mem)|
      ensures forall x :: 0 <= x < |mem| && Untouched(old(blocks), start, size, base + x) ==> mem[x] == old(mem)[x]
    {
      MallocGives(blocks, start, size);
      ZeroInside(blocks, start, size);
      ghost var i := MallocIndex(blocks, size);
      var item := Place(size);
      p := ZeroPayload(item, i);
    }

    /** kern_malloc: never NULL, and a zeroed payload of at least size bytes. */
    method Allocate(size: nat) returns (p: nat)
      requires Valid() && (blocks == [] ==> start + HEADER + size <= end)
      requires size < SIGNED_LIMIT && end + Grown(TotalSize(size)) <= ADDRESSES
      modifies this
      ensures Valid() && start == old(start)
      ensures blocks == Malloc(old(blocks), start, size)
      ensures Delivered(this, old(blocks), size, p) && Handed(old(blocks), blocks, start, size, p)
      ensures end == old(end) + if RoomFor(old(blocks), old(end), size) then 0 else Grown(TotalSize(size))
      ensures |old(mem)| <= |mem|
      ensures forall x :: 0 <= x < |old(mem)| && Untouched(old(blocks), start, size, base + x) ==> mem[x] == old(mem)[x]
    {
      MakeRoom(size);
      ghost var m1 := mem;
      MallocHands(blocks, start, size);
      p := Deliver(size);
      assert forall x :: 0 <= x < |old(mem)| ==> m1[x] == m1[..|old(mem)|][x];
    }

    /** kern_free and alloc_free: clear the present bit of the header below the payload. */
    method Release(p: nat, ghost k: nat)
      requires Valid() && k < |blocks| && p == blocks[k].Payload()
      modifies this`mem, this`blocks
      ensures Valid() && blocks == Free(old(blocks), k)
      ensures blocks == old(blocks)[k := Block(old(blocks)[k].addr, old(blocks)[k].size, false)]
      ensures |mem| == |old(mem)| && forall x :: 0 <= x < |mem| && x != p - 1 - base ==> mem[x] == old(mem)[x]
    {
      assert Represented(mem, base, blocks, k);
      PutPresent(p - HEADER, false);
      FreeRepresents(old(mem), mem, base, start, blocks, k);
      blocks := Free(blocks, k);
    }
  }

  /** A block whose header bytes are untouched is still represented, given the same successor. */
  lemma StillRepresented(m: seq<Byte>, m': seq<Byte>, base: nat, bs: seq<Block>, k: int, bs': seq<Block>, k': int)
    requires 0 <= k < |bs| && 0 <= k' < |bs'| && Represented(m, base, bs, k) && |m| <= |m'|
    requires bs'[k'] == bs[k] && NextOf(bs', k') == NextOf(bs, k)
    requires forall x :: bs[k].addr - base <= x < bs[k].addr - base + HEADER ==> m'[x] == m[x]
    ensures Represented(m', base, bs', k')
  {
    HeaderFrame(m, m', bs[k].addr - base);
  }

  lemma AppendRepresents(m: seq<Byte>, m': seq<Byte>, base: nat, start: nat, bs: seq<Block>, size: nat)
    requires bs != [] && Tiled(bs, start) && Represents(m, base, bs) && |m'| == |m|
    requires var last := bs[|bs| - 1]; var item := last.End();
      && base <= last.addr && item + HEADER + size <= base + |m|
      && HeaderAt(m', last.addr - base) == Header(last.size, item, last.live)
      && HeaderAt(m', item - base) == Header(size, 0, true)
      && (forall x :: 0 <= x < |m| && !(item - base <= x < item - base + HEADER) && !(last.addr - base <= x < last.addr - base + HEADER)
            ==> m'[x] == m[x])
    ensures Represents(m', base, bs + [Block(bs[|bs| - 1].End(), size, true)])
  {
    var n := |bs| - 1;
    var bs' := bs + [Block(bs[n].End(), size, true)];
    forall k | 0 <= k < |bs'| ensures Represented(m', base, bs', k) {
      if k < n {
        assert Represented(m, base, bs, k);
        TiledOrder(bs, start, k, n);
        StillRepresented(m, m', base, bs, k, bs', k);
      }
    }
  }

  lemma TakeRepresents(m: seq<Byte>, m': seq<Byte>, base: nat, start: nat, bs: seq<Block>, k: nat, size: nat)
    requires Tiled(bs, start) && Represents(m, base, bs) && |m'| == |m| && k < |bs| - 1 && bs[k].size >= size
    requires base <= bs[k].addr && bs[k].End() <= base + |m|
    requires forall x :: 0 <= x < |m| && !(bs[k].addr - base <= x < bs[k].End() - base) ==> m'[x] == m[x]
    requires var t := Taken(bs[k], size);
      && HeaderAt(m', t[0].addr - base) == Header(t[0].size, if |t| > 1 then t[1].addr else bs[k + 1].addr, t[0].live)
      && (|t| > 1 ==> HeaderAt(m', t[1].addr - base) == Header(t[1].size, bs[k + 1].addr, t[1].live))
    ensures Represents(m', base, bs[..k] + Taken(bs[k], size) + bs[k + 1..])
  {
    var t := Taken(bs[k], size);
    var bs' := bs[..k] + t + bs[k + 1..];
    forall i | 0 <= i < |bs'| ensures Represented(m', base, bs', i) {
      if i < k {
        assert Represented(m, base, bs, i);
        TiledOrder(bs, start, i, k);
        StillRepresented(m, m', base, bs, i, bs', i);
      } else if i >= k + |t| {
        var j := i - |t| + 1;
        assert Represented(m, base, bs, j);
        TiledOrder(bs, start, k, j);
        StillRepresented(m, m', base, bs, j, bs', i);
      }
    }
  }

  lemma ExtendRepresents(m: seq<Byte>, m': seq<Byte>, base: nat, bs: seq<Block>)
    requires Represents(m, base, bs) && |m| <= |m'| && m'[..|m|] == m
    ensures Represents(m', base, bs)
  {
    forall k | 0 <= k < |bs| ensures Represented(m', base, bs, k) {
      assert Represented(m, base, bs, k);
      forall x | 0 <= x < |m| ensures m'[x] == m[x] {
        assert m'[..|m|][x] == m[x];
      }
      StillRepresented(m, m', base, bs, k, bs, k);
    }
  }

  lemma FreeRepresents(m: seq<Byte>, m': seq<Byte>, base: nat, start: nat, bs: seq<Block>, k: nat)
    requires Tiled(bs, start) && Represents(m, base, bs) && |m'| == |m| && k < |bs|
    requires base <= bs[k].addr && bs[k].End() <= base + |m|
    requires HeaderAt(m', bs[k].addr - base) == HeaderAt(m, bs[k].addr - base).(present := false)
    requires forall x :: 0 <= x < |m| && x != bs[k].addr - base + 8 ==> m'[x] == m[x]
    ensures Represents(m', base, Free(bs, k))
  {
    var bs' := Free(bs, k);
    forall j | 0 <= j < |bs'| ensures Represented(m', base, bs', j) {
      assert Represented(m, base, bs, j);
      if j != k {
        if j < k { TiledOrder(bs, start, j, k); } else { TiledOrder(bs, start, k, j); }
        StillRepresented(m, m', base, bs, j, bs', j);
      }
    }
  }

  /** Zeroing a payload touches no header. */
  lemma ZeroRepresents(m: seq<Byte>, m': seq<Byte>, base: nat, start: nat, bs: seq<Block>, i: nat)
    requires Tiled(bs, start) && Represents(m, base, bs) && |m'| == |m| && i < |bs|
    requires forall x :: 0 <= x < |m| && !(bs[i].Payload() - base <= x < bs[i].End() - base) ==> m'[x] == m[x]
    ensures Represents(m', base, bs)
  {
    forall j | 0 <= j < |bs| ensures Represented(m', base, bs, j) {
      assert Represented(m, base, bs, j);
      if j < i { TiledOrder(bs, start, j, i); } else if i < j { TiledOrder(bs, start, i, j); }
      StillRepresented(m, m', base, bs, j, bs, j);
    }
  }

  /** The addresses an allocation leaves alone: all but the block it takes or adds, and the
      header of the block it links a new one behind. */
  predicate Untouched(bs: seq<Block>, start: nat, size: nat, x: nat) {
    if bs == [] then !(start <= x < start + HEADER + size)
    else
      var b := bs[FirstFit(bs, size)];
      if FirstFit(bs, size) == |bs| - 1
      then !(b.addr <= x < b.addr + HEADER) && !(b.End() <= x < b.End() + HEADER + size)
      else !(b.addr <= x < b.End())
  }

  lemma ZeroInside(bs: seq<Block>, start: nat, size: nat)
    ensures var b := Malloc(bs, start, size)[MallocIndex(bs, size)];
      forall x: nat :: b.Payload() <= x < b.End() ==> !Untouched(bs, start, size, x)
  {
  }

  /** No allocation touches a byte of another live payload, nor any header but its own, a new
      sibling's and that of the block it is linked behind. */
  lemma OthersUntouched(bs: seq<Block>, start: nat, size: nat, j: nat, x: nat)
    requires Tiled(bs, start) && j < |bs|
    ensures bs[j].live && bs[j].Payload() <= x < bs[j].End() ==> Untouched(bs, start, size, x)
    ensures j != FirstFit(bs, size) && bs[j].addr <= x < bs[j].End() ==> Untouched(bs, start, size, x)
  {
    var k := FirstFit(bs, size);
    if j < k {
      TiledOrder(bs, start, j, k);
    } else if k < j {
      TiledOrder(bs, start, k, j);
    }
  }

  /** Whether an allocation can proceed without growing the heap. */
  predicate RoomFor(bs: seq<Block>, end: nat, size: nat) {
    bs == [] || FirstFit(bs, size) < |bs| - 1 || bs[|bs| - 1].End() + TotalSize(size) < end
  }

  /** When there is room: in an empty heap, where a block but the last is free and large enough, or where
      the rounded request ends before the end of the heap behind the last block. */
  lemma RoomForIff(bs: seq<Block>, end: nat, size: nat)
    ensures RoomFor(bs, end, size) <==>
              bs == [] || !NoFit(bs, size, |bs| - 1) || bs[|bs| - 1].addr + 9 + bs[|bs| - 1].size + (size + 7) / 8 * 8 + 9 < end
  {
    if bs != [] {
      var k := FirstFit(bs, size);
      assert k < |bs| - 1 ==> Fits(bs[k], size);
      if NoFit(bs, size, |bs| - 1) {
        assert k == |bs| - 1;
      }
    }
  }

  /** After one growth by the total size there is room. */
  lemma GrowthMakesRoom(bs: seq<Block>, end: nat, size: nat)
    requires bs != [] ==> bs[|bs| - 1].End() <= end
    ensures forall e :: e >= end + Grown(TotalSize(size)) ==> RoomFor(bs, e, size)
  {
    if bs != [] {
      GrowthSufficesIff(bs[|bs| - 1].End(), end);
      assert Extends(bs[|bs| - 1].End(), end, size);
    }
  }

  /** p is the payload of the block that allocating size bytes from the list bs yields: live,
      long enough, inside the heap and all zeros. */
  ghost predicate Delivered(heap: Heap, bs: seq<Block>, size: nat, p: nat)
    reads heap
  {
    && MallocIndex(bs, size) < |heap.blocks| && heap.base <= p
    && var b := heap.blocks[MallocIndex(bs, size)];
       && p == b.Payload() && b.live && b.size >= size && b.End() <= heap.end && heap.end <= heap.base + |heap.mem|
       && (forall x :: p - heap.base <= x < p - heap.base + b.size ==> heap.mem[x] == 0)
  }
}
