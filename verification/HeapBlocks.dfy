/** The block list of the first-fit allocators as a value: what one allocation and one free do
    to it, and what holds of it over every sequence of them. */
module HeapBlocks {
  import opened Machine
  import opened Runs

  const HEADER := 9   // packed: size, next, present

  datatype Block = Block(addr: nat, size: nat, live: bool) {
    function Payload(): nat { addr + HEADER }
    function End(): nat { addr + HEADER + size }
  }

  /** The blocks tile the heap from start on with neither gap nor overlap. */
  ghost predicate Tiled(bs: seq<Block>, start: nat) {
    && (bs != [] ==> bs[0].addr == start)
    && (forall k :: 0 <= k < |bs| - 1 ==> bs[k + 1].addr == bs[k].End())
  }

  predicate Fits(b: Block, size: nat) { b.size >= size && !b.live }

  /** The index the search stops at: the first free block that is large enough, but never the
      last block, which is returned when no other serves. */
  function FirstFit(bs: seq<Block>, size: nat): (k: nat)
    requires bs != []
    ensures k < |bs|
    ensures k < |bs| - 1 ==> Fits(bs[k], size)
    ensures forall j :: 0 <= j < k ==> !Fits(bs[j], size)
  {
    FirstFitFrom(bs, size, 0)
  }

  function FirstFitFrom(bs: seq<Block>, size: nat, i: nat): (k: nat)
    requires i < |bs|
    ensures i <= k < |bs|
    ensures k < |bs| - 1 ==> Fits(bs[k], size)
    ensures forall j :: i <= j < k ==> !Fits(bs[j], size)
    decreases |bs| - i
  {
    if i == |bs| - 1 || Fits(bs[i], size) then i else FirstFitFrom(bs, size, i + 1)
  }

  /** A block taken for size bytes: the rest becomes a free sibling if it can hold a header and
      at least one byte, and stays inside the block otherwise. */
  function Taken(b: Block, size: nat): seq<Block>
    requires b.size >= size
  {
    if b.size - size >= HEADER + 1
    then [Block(b.addr, size, true), Block(b.addr + HEADER + size, b.size - size - HEADER, false)]
    else [b.(live := true)]
  }

  function Malloc(bs: seq<Block>, start: nat, size: nat): seq<Block> {
    if bs == [] then [Block(start, size, true)]
    else
      var k := FirstFit(bs, size);
      if k == |bs| - 1 then bs + [Block(bs[k].End(), size, true)]
      else bs[..k] + Taken(bs[k], size) + bs[k + 1..]
  }

  /** The index of the block that an allocation returns. */
  function MallocIndex(bs: seq<Block>, size: nat): nat {
    if bs == [] then 0
    else
      var k := FirstFit(bs, size);
      if k == |bs| - 1 then |bs| else k
  }

  function Free(bs: seq<Block>, k: nat): seq<Block>
    requires k < |bs|
  {
    bs[k := bs[k].(live := false)]
  }

  // ----- one step -----

  lemma TakeTiled(bs: seq<Block>, start: nat, k: nat, size: nat)
    requires Tiled(bs, start) && k < |bs| && bs[k].size >= size
    ensures Tiled(bs[..k] + Taken(bs[k], size) + bs[k + 1..], start)
  {
  }

  lemma MallocTiled(bs: seq<Block>, start: nat, size: nat)
    requires Tiled(bs, start)
    ensures Tiled(Malloc(bs, start, size), start)
  {
  }

  /** The block handed out is live, at least as long as requested, and was free or did not
      exist before. */
  lemma MallocGives(bs: seq<Block>, start: nat, size: nat)
    requires Tiled(bs, start)
    ensures var bs', i := Malloc(bs, start, size), MallocIndex(bs, size);
      && i < |bs'| && bs'[i].live && bs'[i].size >= size
      && (i < |bs| ==> !bs[i].live && bs'[i].addr == bs[i].addr)
      && (i == |bs| ==> bs'[i].addr == if bs == [] then start else bs[|bs| - 1].End())
  {
  }

  /** None of the first n blocks is free and large enough. */
  predicate NoFit(bs: seq<Block>, size: nat, n: int) {
    forall j :: 0 <= j < n && j < |bs| ==> bs[j].live || bs[j].size < size
  }

  /** What an allocation does, case by case: the first block of a heap; a block behind the last one, when
      none but perhaps the last is free and large enough; the first that is, cut in two if what is left
      can hold a header and a byte, or whole. p is where the payload starts. */
  ghost predicate Handed(bs: seq<Block>, bs': seq<Block>, start: nat, size: nat, p: nat) {
    && (bs == [] ==> bs' == [Block(start, size, true)] && p == start + 9)
    && (bs != [] && NoFit(bs, size, |bs| - 1) ==>
          var end := bs[|bs| - 1].addr + 9 + bs[|bs| - 1].size; bs' == bs + [Block(end, size, true)] && p == end + 9)
    && forall k :: 0 <= k < |bs| - 1 && !bs[k].live && bs[k].size >= size && NoFit(bs, size, k) ==>
         var b := bs[k];
         && p == b.addr + 9
         && if b.size - size >= 10
            then bs' == bs[..k] + [Block(b.addr, size, true), Block(b.addr + 9 + size, b.size - size - 9, false)] + bs[k + 1..]
            else bs' == bs[..k] + [Block(b.addr, b.size, true)] + bs[k + 1..]
  }

  lemma MallocHands(bs: seq<Block>, start: nat, size: nat)
    ensures var bs', i := Malloc(bs, start, size), MallocIndex(bs, size); i < |bs'| && Handed(bs, bs', start, size, bs'[i].Payload())
  {
    if bs != [] {
      OnlyFirst(bs, size);
    }
  }

  /** The search stops at the only block that is the first to be free and large enough. */
  lemma OnlyFirst(bs: seq<Block>, size: nat)
    requires bs != []
    ensures FirstFit(bs, size) < |bs| - 1 <==> !NoFit(bs, size, |bs| - 1)
    ensures forall j :: 0 <= j < |bs| - 1 && !bs[j].live && bs[j].size >= size && NoFit(bs, size, j) ==> j == FirstFit(bs, size)
  {
    var k := FirstFit(bs, size);
    assert k < |bs| - 1 ==> Fits(bs[k], size);
    forall j | 0 <= j < |bs| - 1 && !bs[j].live && bs[j].size >= size && NoFit(bs, size, j) ensures j == k {
      assert Fits(bs[j], size);
    }
  }

  /** A live block is found, whole, at its place or one further on. */
  lemma MallocKeepsLive(bs: seq<Block>, start: nat, size: nat, j: nat)
    requires j < |bs| && bs[j].live
    ensures bs[j] in Malloc(bs, start, size)
  {
    var bs' := Malloc(bs, start, size);
    var k := FirstFit(bs, size);
    if k == |bs| - 1 || j < k {
      assert bs'[j] == bs[j];
    } else {
      assert j > k;
      assert bs'[j + |Taken(bs[k], size)| - 1] == bs[j];
    }
  }

  ghost predicate IsBoundary(bs: seq<Block>, a: nat) {
    exists k :: 0 <= k < |bs| && bs[k].addr == a
  }

  /** Block boundaries are only ever added. */
  lemma MallocKeepsBoundaries(bs: seq<Block>, start: nat, size: nat, a: nat)
    requires IsBoundary(bs, a)
    ensures IsBoundary(Malloc(bs, start, size), a)
  {
    var bs' := Malloc(bs, start, size);
    var j :| 0 <= j < |bs| && bs[j].addr == a;
    var k := FirstFit(bs, size);
    if k == |bs| - 1 || j <= k {
      assert bs'[j].addr == bs[j].addr;
    } else {
      assert bs'[j + |Taken(bs[k], size)| - 1] == bs[j];
    }
  }

  /** In a tiling, later blocks lie above the end of earlier ones. */
  lemma {:induction false} TiledOrder(bs: seq<Block>, start: nat, i: nat, j: nat)
    requires Tiled(bs, start) && i < j < |bs|
    ensures bs[i].End() <= bs[j].addr
    decreases j
  {
    if i < j - 1 {
      TiledOrder(bs, start, i, j - 1);
    }
    assert bs[j - 1 + 1].addr == bs[j - 1].End();
  }

  /** Two different blocks, header and payload, share no address. */
  lemma BlocksDisjoint(bs: seq<Block>, start: nat, i: nat, j: nat, a: nat)
    requires Tiled(bs, start) && i < |bs| && j < |bs| && i != j
    requires bs[i].addr <= a < bs[i].End()
    ensures !(bs[j].addr <= a < bs[j].End())
  {
    if i < j {
      TiledOrder(bs, start, i, j);
    } else {
      TiledOrder(bs, start, j, i);
    }
  }

  // ----- growth -----

  /** The space asked for when the list is extended: the request rounded up to 8, and a header. */
  function TotalSize(size: nat): nat { (size + 7) / 8 * 8 + HEADER }

  /** What increase_heap adds: whole pages. */
  function Grown(bytes: nat): nat {
    (bytes / PAGE + (if bytes % PAGE > 0 then 1 else 0)) * PAGE
  }

  /** The total is the request rounded up to 8, and a header of 9. */
  lemma TotalSizeIs(size: nat)
    ensures (TotalSize(size) - 9) % 8 == 0 && size <= TotalSize(size) - 9 < size + 8
  {
  }

  /** And growth is the least number of whole pages that holds it. */
  lemma GrownIs(bytes: nat)
    ensures Grown(bytes) % PAGE == 0 && bytes <= Grown(bytes) < bytes + PAGE
  {
    assert bytes == bytes / PAGE * PAGE + bytes % PAGE;
  }

  /** Growth always leaves between 7 and 4095 bytes to spare, because a total is 1 modulo 8. */
  lemma GrownSlack(size: nat)
    ensures TotalSize(size) + 7 <= Grown(TotalSize(size)) < TotalSize(size) + PAGE
    ensures Grown(TotalSize(4080)) == TotalSize(4080) + 7
  {
    var t := TotalSize(size);
    var m, q := (size + 7) / 8, t / PAGE;
    var r := t - PAGE * q;
    assert r == t % PAGE;
    assert r == 8 * (m + 1 - 512 * q) + 1;
  }

  /** Whether a list whose last block ends at last passes the second "no more memory" test. */
  predicate Extends(last: nat, end: nat, size: nat) {
    last + TotalSize(size) < end + Grown(TotalSize(size))
  }

  ghost predicate GrowthSuffices(last: nat, end: nat) {
    forall size: nat :: Extends(last, end, size)
  }

  /** Growth suffices for every request exactly when the last block ends less than 7 bytes
      beyond the end of the heap; in particular whenever it ends inside. */
  lemma GrowthSufficesIff(last: nat, end: nat)
    ensures GrowthSuffices(last, end) <==> last < end + 7
  {
    if last < end + 7 {
      forall size: nat ensures Extends(last, end, size) {
        GrownSlack(size);
      }
    } else {
      GrownSlack(4080);
      assert !Extends(last, end, 4080);
    }
  }

  /** The first request goes to the start of a heap that is mapped up to end, with no test of its
      size: end is a page further for the kernel, and a page less the arguments for a program. Its
      block lies inside the heap if and only if it and its header fit there; the memset of a longer
      one leaves the mapped memory, which is where the code fails first. Were that memory there,
      growth would make room for every later request, all of which go behind the first, if and only
      if that one was less than 7 bytes too long; otherwise a request for 4080 bytes fails. */
  lemma OversizedFirstBlock(start: nat, end: nat, size: nat)
    ensures var bs := Malloc([], start, size);
            && |bs| == 1 && (bs[0].End() <= end <==> start + HEADER + size <= end)
            && (forall more: nat :: Malloc(bs, start, more) == bs + [Block(bs[0].End(), more, true)])
            && (GrowthSuffices(bs[0].End(), end) <==> start + HEADER + size < end + 7)
            && (start + HEADER + size >= end + 7 ==> !Extends(bs[0].End(), end, 4080))
  {
    var bs := Malloc([], start, size);
    GrowthSufficesIff(bs[0].End(), end);
    GrownSlack(4080);
  }

  // ----- every sequence of allocations and frees -----

  datatype Op = MallocOp(size: nat) | FreeOp(addr: nat)

  /** Freeing acts on the block whose payload starts at the address; others are undefined. */
  ghost predicate Next(start: nat, bs: seq<Block>, bs': seq<Block>, op: Op) {
    match op
    case MallocOp(size) => bs' == Malloc(bs, start, size)
    case FreeOp(addr) => exists k :: 0 <= k < |bs| && bs[k].Payload() == addr && bs' == Free(bs, k)
  }

  lemma StepTiled(start: nat, bs: seq<Block>, bs': seq<Block>, op: Op)
    requires Tiled(bs, start) && Next(start, bs, bs', op)
    ensures Tiled(bs', start)
  {
    if op.MallocOp? {
      MallocTiled(bs, start, op.size);
    }
  }

  lemma RunTiled(start: nat, states: seq<seq<Block>>, ops: seq<Op>, i: int)
    requires IsRun((a, b, op) => Next(start, a, b, op), states, ops) && Tiled(states[0], start) && 0 <= i < |states|
    ensures Tiled(states[i], start)
  {
    forall a, b, op | Tiled(a, start) && Next(start, a, b, op) ensures Tiled(b, start) {
      StepTiled(start, a, b, op);
    }
    Simulation((a, b, op) => Next(start, a, b, op), a => Tiled(a, start), _ => 0, (t, _) => t, states, ops, i);
  }

  lemma StepKeeps(start: nat, bs: seq<Block>, bs': seq<Block>, op: Op, b: Block)
    requires Next(start, bs, bs', op) && b in bs && b.live && op != FreeOp(b.Payload())
    ensures b in bs'
  {
    var j :| 0 <= j < |bs| && bs[j] == b;
    match op
    case MallocOp(size) => MallocKeepsLive(bs, start, size, j);
    case FreeOp(addr) =>
      var k :| 0 <= k < |bs| && bs[k].Payload() == addr && bs' == Free(bs, k);
      assert bs'[j] == b;
  }

  /** Over every sequence a live block keeps its place and length until it is freed. */
  lemma {:induction false} LiveUntilFreed(start: nat, states: seq<seq<Block>>, ops: seq<Op>, b: Block, i: int)
    requires IsRun((x, y, op) => Next(start, x, y, op), states, ops) && 0 <= i < |states|
    requires b in states[0] && b.live && FreeOp(b.Payload()) !in ops
    ensures b in states[i]
    decreases i
  {
    if i > 0 {
      LiveUntilFreed(start, states, ops, b, i - 1);
      var next := (x, y, op) => Next(start, x, y, op);
      assert next(states[i - 1], states[i], ops[i - 1]);
      StepKeeps(start, states[i - 1], states[i], ops[i - 1], b);
    }
  }

  lemma StepKeepsBoundary(start: nat, bs: seq<Block>, bs': seq<Block>, op: Op, a: nat)
    requires Next(start, bs, bs', op) && IsBoundary(bs, a)
    ensures IsBoundary(bs', a)
  {
    match op
    case MallocOp(size) => MallocKeepsBoundaries(bs, start, size, a);
    case FreeOp(addr) =>
      var k :| 0 <= k < |bs| && bs[k].Payload() == addr && bs' == Free(bs, k);
      var j :| 0 <= j < |bs| && bs[j].addr == a;
      assert bs'[j].addr == a;
  }

  /** Over every sequence block boundaries are only ever added. */
  lemma BoundariesGrow(start: nat, states: seq<seq<Block>>, ops: seq<Op>, a: nat, i: int)
    requires IsRun((x, y, op) => Next(start, x, y, op), states, ops) && IsBoundary(states[0], a) && 0 <= i < |states|
    ensures IsBoundary(states[i], a)
  {
    forall x, y, op | IsBoundary(x, a) && Next(start, x, y, op) ensures IsBoundary(y, a) {
      StepKeepsBoundary(start, x, y, op, a);
    }
    Simulation((x, y, op) => Next(start, x, y, op), x => IsBoundary(x, a), _ => 0, (t, _) => t, states, ops, i);
  }
}
