/** Runs from boot that end badly: a scheduler without a process to run, and a wait without end. */
module Breakdowns {
  import opened Machine
  import opened Links
  import opened ProcessTree
  import opened Processes
  import opened Places
  import opened Scheduling
  import opened Dispatching
  import opened Lifecycle
  import opened Waiting

  // ---------------------------------------------------------------- reachable states

  /** s is the end of an allowed run from boot. */
  ghost predicate Reached(s: State) {
    exists es: seq<Event> :: RunsTo(Boot(), es, s)
  }

  ghost predicate RunsTo(s: State, es: seq<Event>, t: State) {
    Inv(s) && Allowed(s, es) && After(s, es) == t
  }

  lemma ReachedInv(s: State)
    requires Reached(s)
    ensures Inv(s)
  {
    var es: seq<Event> :| RunsTo(Boot(), es, s);
    EveryRunKeeps(Boot(), es);
  }

  /** v comes one event after u. */
  ghost predicate Follows(u: State, e: Event, v: State) {
    Inv(u) && Guard(u, e) && Step(u, e) == Some(v) && Inv(v)
  }

  lemma {:induction false} OneMore(s: State, es: seq<Event>, u: State, e: Event, v: State)
    requires RunsTo(s, es, u) && Follows(u, e, v)
    ensures RunsTo(s, es + [e], v)
    decreases |es|
  {
    if es == [] {
      RunFrom(s, e, v, []);
      assert [e] + [] == es + [e];
    } else {
      var t := FirstStep(s, es);
      OneMore(t, es[1..], u, e, v);
      Longer(s, es, t, e);
    }
  }

  lemma Longer(s: State, es: seq<Event>, t: State, e: Event)
    requires es != [] && Follows(s, es[0], t) && Allowed(t, es[1..] + [e])
    ensures Inv(s) && Allowed(s, es + [e]) && After(s, es + [e]) == After(t, es[1..] + [e])
  {
    RunFrom(s, es[0], t, es[1..] + [e]);
    assert [es[0]] + (es[1..] + [e]) == es + [e];
  }

  lemma ReachMore(s: State, e: Event)
    requires Reached(s) && Inv(s) && Guard(s, e)
    ensures Goes(Step(s, e)) && Reached(Step(s, e).value)
  {
    var es: seq<Event> :| RunsTo(Boot(), es, s);
    StepKeeps(s, e);
    OneMore(Boot(), es, s, e, Step(s, e).value);
  }

  lemma ReachBoot()
    ensures Reached(Boot())
  {
    BootInv();
    assert RunsTo(Boot(), [], Boot());
  }

  // ---------------------------------------------------------------- simple steps

  /** A reachable state with this process running and these queues. */
  ghost predicate At(s: State, current: Pid, ready: seq<Pid>, dead: seq<Pid>) {
    Reached(s) && s.current == current && s.ready == ready && s.dead == dead
  }

  lemma {:induction false} UpTo(ps: set<Pid>, n: nat)
    requires forall p :: p in ps ==> 1 <= p <= n
    ensures |ps| <= n
    decreases n
  {
    if n == 0 {
      assert ps == {};
    } else {
      UpTo(ps - {n}, n - 1);
    }
  }

  lemma FewPids(s: State)
    requires Inv(s)
    ensures |Live(s.mode)| <= s.last
  {
    UpTo(Live(s.mode), s.last);
  }

  /** The running process creates another child. */
  lemma ForkTo(s: State, x: Pid, ready: seq<Pid>) returns (t: State)
    requires At(s, x, ready, []) && s.last < MAX_READY && x in s.tree.subs
    ensures At(t, x, ready + [s.last + 1], []) && t.last == s.last + 1
    ensures x in t.tree.subs && t.tree.subs == s.tree.subs[x := s.tree.subs[x] + [s.last + 1]][s.last + 1 := []]
  {
    ReachedInv(s);
    FewPids(s);
    ReachMore(s, Fork);
    t := NewProcess(s);
    ForkQueue(s);
  }

  lemma ForkQueue(s: State)
    requires Inv(s)
    ensures NewProcess(s).ready == s.ready + [s.last + 1]
    ensures NewProcess(s).tree.subs == s.tree.subs[s.current := s.tree.subs[s.current] + [s.last + 1]][s.last + 1 := []]
  {
    LiveRoom(s, []);
    NewProcessIff(s);
  }

  /** A preemption that reaps nobody. */
  lemma TickTo(s: State, x: Pid, next: Pid, rest: seq<Pid>, dead: seq<Pid>) returns (t: State)
    requires At(s, x, [next] + rest, dead) && (dead == [] || x != KERNEL)
    ensures At(t, next, rest + [x], Tail(dead)) && t.tree == s.tree && t.waiters == s.waiters && t.last == s.last
  {
    ReachedInv(s);
    ReachMore(s, Tick);
    t := Dispatch(s).value;
    TickQueue(s, next, rest);
  }

  lemma TickQueue(s: State, next: Pid, rest: seq<Pid>)
    requires Inv(s) && s.ready == [next] + rest && !Reaps(s)
    ensures Dispatch(s).Some?
    ensures var t := Dispatch(s).value;
            && t.current == next && t.ready == rest + [s.current] && t.dead == Tail(s.dead)
            && t.tree == s.tree && t.waiters == s.waiters && t.last == s.last
  {
    InPlacePoised(s);
    DispatchIs(s);
    LiveRoom(s, []);
    assert ([next] + rest + [s.current])[1..] == rest + [s.current];
    assert Line(s) == rest + [s.current];
    assert Tail(s.dead) + [] == Tail(s.dead);
  }

  lemma ExitTo(s: State, x: Pid, next: Pid, rest: seq<Pid>) returns (t: State)
    requires At(s, x, [next] + rest, []) && x != KERNEL
    ensures At(t, next, rest, [x]) && t.waiters == s.waiters
  {
    ReachedInv(s);
    ReachMore(s, Exit);
    t := ExitStep(s).value;
    ExitQueue(s, next, rest);
  }

  lemma ExitQueue(s: State, next: Pid, rest: seq<Pid>)
    requires Inv(s) && s.ready == [next] + rest && s.dead == []
    ensures ExitStep(s).Some?
    ensures var t := ExitStep(s).value; t.current == next && t.ready == rest && t.dead == [s.current] && t.waiters == s.waiters
  {
    DyingPoised(s);
    DispatchIs(Dying(s));
    LiveRoom(s, []);
    assert ([next] + rest)[1..] == rest;
    assert Line(Dying(s)) == rest;
  }

  /** The kernel's first child waits for its own first child. */
  lemma WaitTo(s: State, x: Pid, next: Pid, rest: seq<Pid>, q: Pid) returns (t: State)
    requires At(s, x, [next] + rest, []) && x != KERNEL && q != KERNEL && x != q && x !in rest && q in rest
    requires FirstOf(s.tree, KERNEL, x) && FirstOf(s.tree, x, q)
    ensures At(t, next, rest, []) && Waits(t.waiters, q, x)
  {
    ReachedInv(s);
    TickQueue(s, next, rest);
    var u := Dispatch(s).value;
    assert q in s.ready;
    ReachMore(s, Wait(q));
    t := WaitStep(s, q);
    TurnGoes(s);
    FoundBelow(u.tree, x, q, u.last);
    assert Awaited(s, q) == q;
    WaitListedIs(s, q);
    assert t.waiters[q][|u.waiters[q]|] == x;
    WithoutIs(rest, x);
    assert (rest + [x])[..|rest|] == rest;
    WithoutAbsent(u.dead, x);
  }

  ghost predicate FirstOf(t: Tree, p: Pid, q: Pid) {
    p in t.subs && t.subs[p] != [] && t.subs[p][0] == q
  }

  lemma FoundBelow(t: Tree, x: Pid, q: Pid, last: Pid)
    requires Ok(t) && (forall p :: p in t.subs ==> p <= last) && q in t.subs && q != 0
    requires x != KERNEL && q != KERNEL && x != q && FirstOf(t, KERNEL, x) && FirstOf(t, x, q)
    ensures Find(t, KERNEL, q, last) == q
  {
    assert Find(t, x, q, last) == q;
  }

  // ---------------------------------------------------------------- more processes than the queue takes

  /** After start-up: the kernel has made its one child, which runs. */
  ghost predicate Started(s: State) {
    Reached(s) && s.current == 2 && s.ready == [KERNEL] && s.dead == [] && s.last == 2
    && FirstOf(s.tree, KERNEL, 2) && 2 in s.tree.subs && s.tree.subs[2] == []
  }

  lemma StartUp() returns (s: State)
    ensures Started(s)
  {
    ReachBoot();
    var a := ForkTo(Boot(), KERNEL, []);
    assert [] + [2] == [2] + [];
    s := TickTo(a, KERNEL, 2, [], []);
    assert [] + [KERNEL] == [KERNEL];
  }

  lemma ForkFits(r: State)
    requires InPlace(r) && |r.ready| < MAX_READY
    ensures Step(r, Fork).Some?
    ensures var s := Step(r, Fork).value; InPlace(s) && |s.ready| == |r.ready| + 1 && s.current == r.current
  {
    ForkIff(r);
    NewProcessIff(r);
  }

  /** The running process forks n times; every time all are in place, and the new one is ready. */
  ghost function Forks(a: State, n: nat): (s: State)
    requires InPlace(a) && |a.ready| + n <= MAX_READY
    ensures InPlace(s) && |s.ready| == |a.ready| + n && s.current == a.current
    decreases n
  {
    if n == 0 then a
    else
      var r := Forks(a, n - 1);
      ForkFits(r);
      Step(r, Fork).value
  }

  /** With 255 children of one process everybody is still in place, and the next preemption loses
      that process. */
  lemma FullQueueReached() returns (a: State)
    ensures Started(a) && InPlace(a) && |a.ready| == 1
    ensures var s := Forks(a, MAX_READY - 1);
            && s.current == 2 && Dispatch(s).Some?
            && var t := Dispatch(s).value; 2 in t.mode && t.mode[2] == Ready && 2 !in t.ready && t.current != 2 && !InPlace(t)
  {
    a := StartUp();
    ReachedInv(a);
    var s := Forks(a, MAX_READY - 1);
    FullQueueLoses(s);
    TickIff(s);
  }

  // ---------------------------------------------------------------- nobody left to run

  /** Killing the kernel while it is the only ready process leaves everybody in place, and the end
      of the running process then finds nobody to run. */
  lemma KillKernelStops(s: State)
    requires InPlace(s) && s.ready == [KERNEL]
    ensures InPlace(KillStep(s, KERNEL)) && Step(KillStep(s, KERNEL), Exit).None?
  {
    assert KERNEL in s.ready;
    assert Lookup(s, KERNEL) == KERNEL;
    ReadyDies(s, KERNEL);
    assert [KERNEL][..0] == [];
    StepStopsIff(KillStep(s, KERNEL), Exit);
  }

  /** Such a state is reached from boot by one fork and one preemption. */
  lemma KernelAloneReached() returns (s: State)
    ensures Reached(s) && InPlace(s) && s.ready == [KERNEL] && s.current == 2
  {
    s := StartUp();
    ReachedInv(s);
  }

  // ---------------------------------------------------------------- a wait without end

  /** Process 2 has made two children and waits for the first. */
  lemma ToTheWait() returns (h: State)
    ensures At(h, KERNEL, [3, 4], []) && Waits(h.waiters, 3, 2)
  {
    var a := StartUp();
    var b := ForkTo(a, 2, [KERNEL]);
    var c := ForkTo(b, 2, [KERNEL] + [3]);
    assert [KERNEL] + [3] + [4] == [KERNEL] + [3, 4];
    h := WaitTo(c, 2, KERNEL, [3, 4], 3);
  }

  lemma FromTheWait(h: State) returns (k: State)
    requires At(h, KERNEL, [3, 4], []) && Waits(h.waiters, 3, 2)
    ensures At(k, 4, [KERNEL] + [], [3]) && Waits(k.waiters, 3, 2)
  {
    assert [3, 4] == [3] + [4];
    var i := TickTo(h, KERNEL, 3, [4], []);
    k := ExitTo(i, 3, 4, [KERNEL]);
    assert [KERNEL] == [KERNEL] + [];
  }

  /** From boot a state is reached in which process 2 waits for its child 3, which has exited and was
      dropped while process 4 was running; from there on process 2 waits in every run. */
  lemma SomeWaitNeverEnds() returns (s: State)
    ensures Reached(s) && Inv(s) && Dropped(s, 3) && Waits(s.waiters, 3, 2)
    ensures forall es :: Allowed(s, es) ==> Waits(After(s, es).waiters, 3, 2)
  {
    var h := ToTheWait();
    var k := FromTheWait(h);
    ReachedInv(k);
    InPlacePoised(k);
    DestroyedIff(k);
    ReachMore(k, Tick);
    s := Dispatch(k).value;
    TickQueue(k, KERNEL, []);
    forall es | Allowed(s, es) ensures Waits(After(s, es).waiters, 3, 2) {
      DroppedForever(s, es, 3);
    }
  }
}
