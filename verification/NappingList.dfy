/** sched_timekeeper on the linked list itself: the walk goes on along a list from which it
    removes the nodes it has just left. */
module NappingList {
  import opened Links
  import opened ProcessTree
  import opened Processes
  import opened Scheduling
  import LinkedList

  class TimedProcess {
    const process: Pid
    var counter: int

    constructor (process: Pid, counter: int)
      ensures this.process == process && this.counter == counter
    {
      this.process, this.counter := process, counter;
    }
  }

  ghost function Entry(ts: seq<TimedProcess>, i: int): TimedProcess
    requires 0 <= i < |ts|
  {
    ts[i]
  }

  ghost predicate AllDifferent(ts: seq<TimedProcess>) {
    forall i, j :: 0 <= i < j < |ts| ==> Entry(ts, i) != Entry(ts, j)
  }

  ghost function NapsOf(ts: seq<TimedProcess>): (r: seq<Nap>)
    reads ts
    ensures |r| == |ts| && forall i :: 0 <= i < |r| ==> r[i] == Nap(ts[i].process, ts[i].counter)
  {
    seq(|ts|, i requires 0 <= i < |ts| reads ts => Nap(ts[i].process, ts[i].counter))
  }

  lemma {:induction false} PartedMore(ns: seq<Nap>, n: Nap)
    ensures Expired(ns + [n]) == Expired(ns) + if n.counter <= 1 then [n.pid] else []
    ensures Survivors(ns + [n]) == Survivors(ns) + if n.counter <= 1 then [] else [Nap(n.pid, n.counter - 1)]
    decreases |ns|
  {
    if ns == [] {
      assert ns + [n] == [n] && [n][1..] == [];
    } else {
      assert (ns + [n])[1..] == ns[1..] + [n];
      PartedMore(ns[1..], n);
    }
  }

  /** The first i entries lost one tick of what they started with. */
  ghost predicate Ticked(ts: seq<TimedProcess>, start: seq<int>, i: nat)
    reads ts
  {
    |start| == |ts| && forall j {:trigger Entry(ts, j)} :: 0 <= j < |ts| ==> Entry(ts, j).counter == start[j] - if j < i then 1 else 0
  }

  /** Of the first i entries, the ones that stay in the list. */
  ghost function Staying(ts: seq<TimedProcess>, start: seq<int>, i: nat): seq<TimedProcess>
    requires i <= |ts| == |start|
  {
    if i == 0 then [] else Staying(ts, start, i - 1) + if start[i - 1] <= 1 then [] else [ts[i - 1]]
  }

  /** Of the first i entries, the processes that wake. */
  ghost function Waking(ts: seq<TimedProcess>, start: seq<int>, i: nat): seq<Pid>
    requires i <= |ts| == |start|
  {
    if i == 0 then [] else Waking(ts, start, i - 1) + if start[i - 1] <= 1 then [ts[i - 1].process] else []
  }

  /** The naps that ts stood for at the start. */
  ghost function Began(ts: seq<TimedProcess>, start: seq<int>): seq<Nap>
    requires |ts| == |start|
  {
    seq(|ts|, i requires 0 <= i < |ts| => Nap(ts[i].process, start[i]))
  }

  /** After a whole walk the list stands for the survivors, and the woken are the expired. */
  lemma {:induction false} WalkIs(ts: seq<TimedProcess>, start: seq<int>, i: nat)
    requires i <= |ts| && Ticked(ts, start, |ts|)
    ensures Waking(ts, start, i) == Expired(Began(ts, start)[..i])
    ensures NapsOf(Staying(ts, start, i)) == Survivors(Began(ts, start)[..i])
    decreases i
  {
    if i > 0 {
      var before := Began(ts, start);
      WalkIs(ts, start, i - 1);
      assert before[..i] == before[..i - 1] + [before[i - 1]];
      PartedMore(before[..i - 1], before[i - 1]);
      assert Entry(ts, i - 1).counter == start[i - 1] - 1;
    }
  }

  lemma WholeWalk(ts: seq<TimedProcess>, start: seq<int>)
    requires Ticked(ts, start, |ts|)
    ensures Waking(ts, start, |ts|) == Expired(Began(ts, start))
    ensures NapsOf(Staying(ts, start, |ts|)) == Survivors(Began(ts, start))
  {
    WalkIs(ts, start, |ts|);
    assert Began(ts, start)[..|ts|] == Began(ts, start);
  }

  /** Where the walk stands after i entries of ts: those that stay, then the ones not yet visited. */
  ghost predicate Walked(list: LinkedList.List<TimedProcess>, ts: seq<TimedProcess>, i: nat, left: seq<TimedProcess>, head: Node?<TimedProcess>)
    reads list, list.Repr
    requires i <= |ts|
  {
    && list.Valid() && list.Contents == left + ts[i..]
    && head == if i == |ts| then null else list.nodes[|left|]
  }

  /** The step of the walk, after the counter went down. */
  method Advance(list: LinkedList.List<TimedProcess>, head: Node<TimedProcess>, remove: bool, ghost ts: seq<TimedProcess>, ghost i: nat, ghost left: seq<TimedProcess>)
      returns (next: Node?<TimedProcess>)
    requires i < |ts| && Walked(list, ts, i, left, head)
    modifies list, list.Repr`p, list.Repr`n
    ensures list.Repr == old(list.Repr) && Walked(list, ts, i + 1, if remove then left else left + [ts[i]], next)
  {
    ghost var k := |left|;
    assert list.nodes[k].n == NextOf(list.nodes, k);
    assert ts[i..] == [ts[i]] + ts[i + 1..];
    next := head.n;
    if remove {
      list.Remove(head);
      assert list.Contents == left + ts[i + 1..];
    } else {
      assert list.Contents == (left + [ts[i]]) + ts[i + 1..];
    }
  }

  /** One turn of the loop of sched_timekeeper. */
  method Visit(list: LinkedList.List<TimedProcess>, head: Node<TimedProcess>, woken: seq<Pid>, ghost ts: seq<TimedProcess>, ghost start: seq<int>, ghost i: nat)
      returns (next: Node?<TimedProcess>, more: seq<Pid>)
    requires AllDifferent(ts) && i < |ts| && Ticked(ts, start, i) && Walked(list, ts, i, Staying(ts, start, i), head)
    modifies list, list.Repr`p, list.Repr`n, ts
    ensures list.Repr == old(list.Repr) && Ticked(ts, start, i + 1)
    ensures Walked(list, ts, i + 1, Staying(ts, start, i + 1), next)
    ensures woken == Waking(ts, start, i) ==> more == Waking(ts, start, i + 1)
  {
    ghost var left := Staying(ts, start, i);
    assert (left + ts[i..])[|left|] == ts[i] == Entry(ts, i);
    var t := head.data;
    t.counter := t.counter - 1;
    assert Staying(ts, start, i + 1) == left + if start[i] <= 1 then [] else [ts[i]];
    assert left + [] == left;
    next := Advance(list, head, t.counter <= 0, ts, i, left);
    more := if t.counter <= 0 then woken + [t.process] else woken;
  }

  lemma WalkedNone(list: LinkedList.List<TimedProcess>, ts: seq<TimedProcess>)
    requires list.Valid() && list.Contents == ts
    ensures Walked(list, ts, 0, [], list.head)
  {
    assert ts == [] + ts[0..];
  }

  lemma WalkedAll(list: LinkedList.List<TimedProcess>, ts: seq<TimedProcess>, left: seq<TimedProcess>)
    requires Walked(list, ts, |ts|, left, null)
    ensures list.Valid() && list.Contents == left
  {
    assert left + ts[|ts|..] == left;
  }

  /** The loop of sched_timekeeper. */
  method Walk(list: LinkedList.List<TimedProcess>, ghost ts: seq<TimedProcess>, ghost start: seq<int>) returns (woken: seq<Pid>)
    requires Walked(list, ts, 0, [], list.head) && AllDifferent(ts) && Ticked(ts, start, 0)
    modifies list, list.Repr`p, list.Repr`n, ts
    ensures list.Repr == old(list.Repr) && Walked(list, ts, |ts|, Staying(ts, start, |ts|), null)
    ensures Ticked(ts, start, |ts|) && woken == Waking(ts, start, |ts|)
  {
    ghost var i := 0;
    woken := [];
    var head := list.head;
    while head != null
      invariant 0 <= i <= |ts| && list.Repr == old(list.Repr) && Ticked(ts, start, i)
      invariant Walked(list, ts, i, Staying(ts, start, i), head)
      invariant woken == Waking(ts, start, i)
      decreases |ts| - i
    {
      head, woken := Visit(list, head, woken, ts, start, i);
      i := i + 1;
    }
  }

  ghost function Counters(ts: seq<TimedProcess>): (r: seq<int>)
    reads ts
    ensures Ticked(ts, r, 0) && Began(ts, r) == NapsOf(ts)
  {
    seq(|ts|, i requires 0 <= i < |ts| reads ts => ts[i].counter)
  }

  /** Every entry loses exactly one tick; those with none left leave the list, in order. */
  method Timekeeper(list: LinkedList.List<TimedProcess>, ghost ts: seq<TimedProcess>) returns (woken: seq<Pid>, ghost left: seq<TimedProcess>)
    requires list.Valid() && list.Contents == ts && AllDifferent(ts)
    modifies list, list.Repr`p, list.Repr`n, ts
    ensures list.Valid() && list.Repr == old(list.Repr) && list.Contents == left
    ensures Ticked(ts, old(Counters(ts)), |ts|)
    ensures woken == Expired(old(NapsOf(ts))) && NapsOf(left) == Survivors(old(NapsOf(ts)))
  {
    ghost var start := Counters(ts);
    WalkedNone(list, ts);
    woken := Walk(list, ts, start);
    left := Staying(ts, start, |ts|);
    WalkedAll(list, ts, left);
    WholeWalk(ts, start);
  }
}
