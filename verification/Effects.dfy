/** What each event makes of the state of the scheduler, written out: who runs, what every queue and
    list holds and in which order, and what the tree is. */
module Effects {
  import opened Machine
  import opened Links
  import opened ProcessTree
  import opened Processes
  import opened Places
  import opened Scheduling
  import opened Dispatching
  import opened Lifecycle

  /** r is q without x, wherever that stands in it. */
  ghost predicate Less(q: seq<Pid>, x: Pid, r: seq<Pid>) {
    if x in q then exists i :: 0 <= i < |q| && q[i] == x && r == q[..i] + q[i + 1..] else r == q
  }

  /** r is q with p at its end; a queue of 256 takes nobody. */
  predicate Joined(q: seq<Pid>, p: Pid, r: seq<Pid>) {
    r == if |q| < 256 then q + [p] else q
  }

  /** r is as much of q as a queue takes. */
  predicate Kept(q: seq<Pid>, r: seq<Pid>) {
    r == if |q| <= 256 then q else q[..256]
  }

  /** p is cut out of the tree: its children come behind the other children of its parent. */
  ghost predicate CutOut(t: Tree, p: Pid, u: Tree) {
    && p in t.parent && p in t.subs && t.parent[p] in t.subs && Rehung(t, p, u)
    && t.parent[p] in u.subs && Less(t.subs[t.parent[p]] + t.subs[p], p, u.subs[t.parent[p]])
  }

  /** What becomes of a mode when its process is put to run, or readied. */
  function NewMode(m: Mode, runs: bool, readied: bool): Mode {
    if runs then Living else if readied then Ready else m
  }

  /** sched_preempt_handler: the process that ran goes to the end of the ready queue if it lives, the head
      of that queue runs, the head of the dead queue is taken, and destroyed if the kernel ran, and a
      dead process that ran goes to the end of the dead queue. */
  ghost predicate Turned(s: State, t: State)
    requires s.current in s.mode
  {
    var x, lives, reaps := s.current, s.mode[s.current] == Living, s.current == 1 && s.dead != [];
    var line := if lives && |s.ready| < 256 then s.ready + [x] else s.ready;
    var ws := if reaps && s.dead[0] in s.waiters then s.waiters[s.dead[0]] else [];
    && line != [] && t.current == line[0] && Kept(line[1..] + ws, t.ready)
    && t.dead == (if s.dead == [] then [] else s.dead[1..]) + (if s.mode[x] == Dead then [x] else [])
    && t.naps == s.naps && t.last == s.last
    && t.mode.Keys == (if reaps then s.mode.Keys - {s.dead[0]} else s.mode.Keys)
    && (forall p :: p in t.mode ==> p in s.mode && t.mode[p] == NewMode(s.mode[p], p == line[0], p in ws || (p == x && lives)))
    && t.waiters == (if reaps then s.waiters - {s.dead[0]} else s.waiters)
    && if reaps then CutOut(s.tree, s.dead[0], t.tree) else t.tree == s.tree
  }

  /** One tick: left are the nappers that go on, woken those whose last tick it was, both in order. */
  ghost predicate Sifted(ns: seq<Nap>, left: seq<Nap>, woken: seq<Pid>)
    decreases |ns|
  {
    if ns == [] then left == [] && woken == []
    else if ns[0].counter <= 1 then woken != [] && woken[0] == ns[0].pid && Sifted(ns[1..], left, woken[1..])
    else left != [] && left[0] == Nap(ns[0].pid, ns[0].counter - 1) && Sifted(ns[1..], left[1..], woken)
  }

  ghost predicate ReadiedAll(s: State, woken: seq<Pid>, t: State) {
    && Kept(s.ready + woken, t.ready) && t.mode.Keys == s.mode.Keys
    && forall p :: p in t.mode ==> t.mode[p] == if p in woken then Ready else s.mode[p]
  }

  /** sched_timekeeper. */
  ghost predicate Ticked(s: State, t: State) {
    && t == s.(mode := t.mode, ready := t.ready, naps := t.naps)
    && exists woken :: Sifted(s.naps, t.naps, woken) && ReadiedAll(s, woken, t)
  }

  /** sysc_fork: a new process with the next pid, the last child of the one that runs. */
  ghost predicate Forked(s: State, t: State)
    requires s.current in s.tree.subs
  {
    var p := s.last + 1;
    && Joined(s.ready, p, t.ready)
    && t == s.(mode := s.mode[p := Ready], ready := t.ready, waiters := s.waiters[p := []], last := p,
               tree := Tree(s.tree.parent[p := s.current], s.tree.subs[s.current := s.tree.subs[s.current] + [p]][p := []]))
  }

  /** sched_wait_for by x, after the dispatch that led to d. */
  ghost predicate Awaits(d: State, x: Pid, pid: int, t: State)
    requires Sound(d)
  {
    var r := Lookup(d, pid);
    if r == 0 || d.mode[r] == Dead then t == d
    else
      && Less(d.ready, x, t.ready)
      && t == d.(mode := d.mode[x := Napping], ready := t.ready,
                 waiters := if r in d.waiters then d.waiters[r := d.waiters[r] + [x]] else d.waiters)
  }

  /** sched_make_napping of x, after the dispatch that led to d. */
  ghost predicate Naps(d: State, x: Pid, time: int, t: State) {
    Less(d.ready, x, t.ready) && t == d.(mode := d.mode[x := Napping], ready := t.ready, naps := d.naps + [Nap(x, time)])
  }

  /** sched_wakeup. */
  ghost predicate Woke(s: State, pid: int, t: State) {
    if pid >= 0 && pid in PidsOf(s.naps) then
      exists i :: 0 <= i < |s.naps| && WokeAt(s, i, pid, t)
    else t == s
  }

  ghost predicate WokeAt(s: State, i: nat, pid: Pid, t: State)
    requires i < |s.naps|
  {
    && s.naps[i].pid == pid && Joined(s.ready, pid, t.ready)
    && t == s.(mode := s.mode[pid := Ready], ready := t.ready, naps := s.naps[..i] + s.naps[i + 1..])
  }

  /** sysc_kill: a target that is found and not dead leaves the ready queue for the end of the dead queue,
      whatever else refers to it. */
  ghost predicate Killed(s: State, pid: int, t: State)
    requires Sound(s)
  {
    var r := Lookup(s, pid);
    if r == 0 || s.mode[r] == Dead then t == s
    else
      && Less(s.ready, r, t.ready) && Joined(s.dead, r, t.dead)
      && t == s.(mode := s.mode[r := Dead], ready := t.ready, dead := t.dead)
  }

  ghost predicate Effect(s: State, e: Event, t: State)
    requires InPlace(s)
  {
    match e
    case Tick => Turned(s, t)
    case Timekeeper => Ticked(s, t)
    case Fork => Forked(s, t)
    case Exit => Turned(s.(mode := s.mode[s.current := Dead]), t)
    case Exec(ok) => Turned(if ok then s else s.(mode := s.mode[s.current := Dead]), t)
    case Wait(pid) => exists d :: Turned(s, d) && Sound(d) && Awaits(d, s.current, pid, t)
    case Sleep(time) => exists d :: Turned(s, d) && Naps(d, s.current, time, t)
    case Wakeup(pid) => Woke(s, pid, t)
    case Kill(pid) => Killed(s, pid, t)
  }

  // ---------------------------------------------------------------- queues

  lemma {:induction false} WithoutLess(q: seq<Pid>, x: Pid)
    requires NoDup(q)
    ensures Less(q, x, Without(q, x))
    decreases |q|
  {
    if q != [] && x in q {
      var front, z := q[..|q| - 1], q[|q| - 1];
      assert q == front + [z];
      if z == x {
        WithoutAbsent(front, x);
        assert q[|q| - 1] == x && Without(q, x) == q[..|q| - 1] + q[|q|..];
      } else {
        WithoutLess(front, x);
        LessMore(front, x, Without(front, x), z);
      }
    } else {
      WithoutAbsent(q, x);
    }
  }

  lemma LessMore(q: seq<Pid>, x: Pid, r: seq<Pid>, z: Pid)
    requires x in q && Less(q, x, r)
    ensures Less(q + [z], x, r + [z])
  {
    var i :| 0 <= i < |q| && q[i] == x && r == q[..i] + q[i + 1..];
    var more := q + [z];
    assert more[..i] == q[..i] && more[i + 1..] == q[i + 1..] + [z];
    assert more[i] == x && r + [z] == more[..i] + more[i + 1..];
  }

  lemma LessBehind(z: Pid, q: seq<Pid>, x: Pid, r: seq<Pid>)
    requires x in q && Less(q, x, r)
    ensures Less([z] + q, x, [z] + r)
  {
    var i :| 0 <= i < |q| && q[i] == x && r == q[..i] + q[i + 1..];
    var more := [z] + q;
    assert more[..i + 1] == [z] + q[..i] && more[i + 1 + 1..] == q[i + 1..];
    assert more[i + 1] == x && [z] + r == more[..i + 1] + more[i + 1 + 1..];
  }

  lemma {:induction false} RemovedLess(q: seq<Pid>, x: Pid)
    ensures Less(q, x, RemoveFirst(q, x))
    decreases |q|
  {
    if q != [] && x in q {
      if q[0] == x {
        assert q[0] == x && RemoveFirst(q, x) == q[..0] + q[0 + 1..];
      } else {
        RemovedLess(q[1..], x);
        LessBehind(q[0], q[1..], x, RemoveFirst(q[1..], x));
        assert [q[0]] + q[1..] == q;
      }
    } else if q != [] {
      RemovedLess(q[1..], x);
    }
  }

  lemma DestroyCuts(t: Tree, p: Pid)
    requires Ok(t) && p in t.subs && p != KERNEL
    ensures Hangs(t, p) && CutOut(t, p, Destroy(t, p))
  {
    DestroyOk(t, p);
    RemovedLess(t.subs[t.parent[p]] + t.subs[p], p);
  }

  lemma EnqueuedJoins(q: seq<Pid>, p: Pid)
    ensures Joined(q, p, Enqueued(q, p, MAX_READY)) && Joined(q, p, Enqueued(q, p, MAX_DEAD))
  {
  }

  // ---------------------------------------------------------------- the events

  lemma DispatchTurns(s: State)
    requires Poised(s) && Queue(s) != []
    ensures Dispatch(s).Some? && Turned(s, Dispatch(s).value)
  {
    DispatchIs(s);
    RequeueKeeps(s);
    TurnedModes(s);
    if Reaps(s) {
      DeadHead(s);
      DestroyCuts(s.tree, s.dead[0]);
    } else {
      assert Queue(s)[1..] + [] == Queue(s)[1..];
    }
    TurnedLine(s);
  }

  lemma TurnedLine(s: State)
    requires Poised(s) && Queue(s) != []
    ensures var line := if s.mode[s.current] == Living && |s.ready| < 256 then s.ready + [s.current] else s.ready;
            line == Queue(s) && Kept(line[1..] + Reaped(s), Trunc(Line(s)))
  {
    RequeueKeeps(s);
    if s.mode[s.current] == Living {
      EnqueuedIs(s.ready, s.current);
    }
  }

  lemma TurnedModes(s: State)
    requires Poised(s) && Queue(s) != []
    ensures LeftMode(s).Keys == (if Reaps(s) then s.mode.Keys - {s.dead[0]} else s.mode.Keys)
    ensures var next, lives := Queue(s)[0], s.mode[s.current] == Living;
            forall p :: p in LeftMode(s) ==>
              p in s.mode && LeftMode(s)[p] == NewMode(s.mode[p], p == next, p in Reaped(s) || (p == s.current && lives))
  {
    RequeueKeeps(s);
    var next, lives := Queue(s)[0], s.mode[s.current] == Living;
    assert next in Queue(s);
    if Reaps(s) {
      DeadHead(s);
      WaitersNap(s, s.dead[0]);
      ReapedModes(s.mode, s.current, lives, next, Reaped(s), s.dead[0]);
    }
  }

  lemma ReapedModes(mode: map<Pid, Mode>, x: Pid, lives: bool, next: Pid, ws: seq<Pid>, d: Pid)
    requires x in mode && next in mode && next != d && d in mode
    ensures var m := (Woken(if lives then mode[x := Ready] else mode, ws) - {d})[next := Living];
            && m.Keys == mode.Keys - {d}
            && forall p :: p in m ==> p in mode && m[p] == NewMode(mode[p], p == next, p in ws || (p == x && lives))
  {
  }

  lemma TurnTurns(s: State)
    requires InPlace(s)
    ensures Dispatch(s).Some? && Turned(s, Dispatch(s).value) && Sound(Dispatch(s).value)
  {
    InPlacePoised(s);
    DispatchTurns(s);
    TurnGoes(s);
  }

  lemma ExitTurns(s: State)
    requires InPlace(s)
    ensures ExitStep(s).Some? ==> Turned(s.(mode := s.mode[s.current := Dead]), ExitStep(s).value)
  {
    DyingPoised(s);
    if s.ready != [] {
      DispatchTurns(Dying(s));
    } else {
      ExitIff(s);
    }
  }

  lemma {:induction false} SiftedIs(ns: seq<Nap>)
    ensures Sifted(ns, Survivors(ns), Expired(ns))
    decreases |ns|
  {
    if ns != [] {
      PartedHead(ns);
      SiftedIs(ns[1..]);
      if ns[0].counter <= 1 {
        assert Expired(ns)[1..] == Expired(ns[1..]);
      } else {
        assert Survivors(ns)[1..] == Survivors(ns[1..]);
      }
    }
  }

  lemma TimekeepTicks(s: State)
    requires InPlace(s)
    ensures Ticked(s, Timekeep(s))
  {
    TimekeepIff(s);
    SiftedIs(s.naps);
    assert ReadiedAll(s, Expired(s.naps), Timekeep(s));
  }

  lemma NewProcessForks(s: State)
    requires InPlace(s)
    ensures Forked(s, NewProcess(s))
  {
    EnqueuedJoins(s.ready, s.last + 1);
  }

  lemma WaitAwaits(s: State, pid: int)
    requires InPlace(s)
    ensures exists d :: Turned(s, d) && Sound(d) && Awaits(d, s.current, pid, WaitStep(s, pid))
  {
    TurnTurns(s);
    TurnGoes(s);
    var d, x := Dispatch(s).value, s.current;
    ReadyDistinct(s);
    WithoutLess(d.ready, x);
    WithoutAbsent(d.dead, x);
    assert Awaits(d, x, pid, WaitStep(s, pid));
  }

  /** Nobody is in the ready queue twice after a dispatch, also if it overflowed. */
  lemma ReadyDistinct(s: State)
    requires InPlace(s)
    ensures Dispatch(s).Some? && NoDup(Dispatch(s).value.ready)
  {
    InPlacePoised(s);
    DispatchIs(s);
    RequeueKeeps(s);
    TurnGoes(s);
    LineDistinct(s);
  }

  lemma LineDistinct(s: State)
    requires InPlace(s) && Poised(s) && Queue(s) != []
    ensures NoDup(Trunc(Line(s)))
  {
    if |s.ready| < MAX_READY {
      LineIs(s);
    } else {
      RunnerLost(s);
      FullLine(s);
    }
  }

  lemma SleepNaps(s: State, time: int)
    requires InPlace(s)
    ensures exists d :: Turned(s, d) && Naps(d, s.current, time, SleepStep(s, time))
  {
    TurnTurns(s);
    TurnGoes(s);
    var d, x := Dispatch(s).value, s.current;
    ReadyDistinct(s);
    WithoutLess(d.ready, x);
    WithoutAbsent(d.dead, x);
    assert Naps(d, x, time, SleepStep(s, time));
  }

  lemma WakeUpWakes(s: State, pid: int)
    requires InPlace(s)
    ensures Woke(s, pid, WakeUp(s, pid))
  {
    if pid >= 0 && pid in PidsOf(s.naps) {
      assert Processes.Naps(s.naps, pid);
      WakeUpIff(s, pid);
      var i := DropNapAt(s.naps, pid);
      EnqueuedIs(s.ready, pid);
      EnqueuedJoins(s.ready, pid);
      assert WokeAt(s, i, pid, WakeUp(s, pid));
    }
  }

  lemma {:induction false} DropNapAt(naps: seq<Nap>, pid: Pid) returns (i: nat)
    requires pid in PidsOf(naps)
    ensures i < |naps| && naps[i].pid == pid && DropNap(naps, pid) == naps[..i] + naps[i + 1..]
    decreases |naps|
  {
    if naps[0].pid == pid {
      i := 0;
    } else {
      assert PidsOf(naps)[1..] == PidsOf(naps[1..]);
      var k := DropNapAt(naps[1..], pid);
      i := k + 1;
      assert [naps[0]] + naps[1..][..k] == naps[..i];
    }
  }

  lemma KillKills(s: State, pid: int)
    requires InPlace(s)
    ensures Killed(s, pid, KillStep(s, pid))
  {
    var r := Lookup(s, pid);
    if r != 0 && s.mode[r] != Dead {
      WithoutAbsent(s.dead, r);
      WithoutLess(s.ready, r);
      EnqueuedJoins(s.dead, r);
    }
  }

  /** Every event has exactly that effect. */
  lemma StepHasEffect(s: State, e: Event)
    requires InPlace(s)
    ensures Step(s, e).Some? ==> Effect(s, e, Step(s, e).value)
  {
    match e
    case Tick => TurnTurns(s);
    case Timekeeper => TimekeepTicks(s);
    case Fork => NewProcessForks(s);
    case Exit => ExitTurns(s);
    case Exec(ok) => TurnTurns(s); ExitTurns(s);
    case Wait(pid) => WaitAwaits(s, pid);
    case Sleep(time) => SleepNaps(s, time);
    case Wakeup(pid) => WakeUpWakes(s, pid);
    case Kill(pid) => KillKills(s, pid);
  }
}
