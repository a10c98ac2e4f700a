/** The events that drive the scheduler: exactly when each keeps every process in its place, and
    what every run keeps. */
module Lifecycle {
  import opened Machine
  import opened Links
  import opened ProcessTree
  import opened Processes
  import opened Places
  import opened Scheduling
  import opened Dispatching

  lemma InPlacePoised(s: State)
    requires InPlace(s)
    ensures Poised(s) && Queue(s) != [] && Queue(s) == Trunc(s.ready + [s.current])
    ensures Queue(s)[0] == if s.ready == [] then s.current else s.ready[0]
    ensures s.current !in s.ready && s.current !in s.dead
  {
    EnqueuedIs(s.ready, s.current);
  }

  /** The running process, marked dead by sysc_exit, a failed sysc_execve or the fault handler. */
  function Dying(s: State): State {
    s.(mode := s.mode[s.current := Dead])
  }

  lemma DyingPoised(s: State)
    requires InPlace(s)
    ensures Poised(Dying(s)) && Queue(Dying(s)) == s.ready && Reaped(Dying(s)) == Reaped(s)
    ensures LeftWaiters(Dying(s)) == LeftWaiters(s)
  {
    SoundMode(s, Dying(s), s.current, Dead);
    LinesFrame(s.mode, s.ready, s.current, Dead);
  }

  /** proc_find from the root of the process tree. */
  function Lookup(s: State, pid: int): (r: Pid)
    requires Sound(s)
    ensures r == 0 || (r == pid && r in s.mode)
  {
    Find(s.tree, KERNEL, pid, s.last)
  }

  /** A dispatch from a state in which all are in place always finds a process to run. */
  lemma TurnGoes(s: State)
    requires InPlace(s)
    ensures Dispatch(s).Some? && Sound(Dispatch(s).value)
    ensures var t, x := Dispatch(s).value, s.current;
            && t.current == (if s.ready == [] then x else s.ready[0]) && x in t.mode
            && Switched(s.mode, x, t.current, Reaped(s), t.mode)
            && x !in t.dead && t.naps == s.naps && t.waiters == LeftWaiters(s) && t.dead == Tail(s.dead)
  {
    InPlacePoised(s);
    DispatchIs(s);
    LeftModes(s);
    assert Tail(s.dead) + [] == Tail(s.dead);
  }

  /** sysc_exit, and the other ways to die while running. */
  function ExitStep(s: State): Option<State>
    requires InPlace(s)
  {
    DyingPoised(s);
    Dispatch(Dying(s))
  }

  /** sysc_wait: the dispatch comes first, then the caller is put among the waiters. */
  function WaitStep(s: State, pid: int): State
    requires InPlace(s)
  {
    TurnGoes(s);
    var t := Dispatch(s).value;
    WaitFor(t, s.current, Lookup(t, pid))
  }

  /** sysc_sleep: the dispatch comes first, then the caller is put to nap. */
  function SleepStep(s: State, time: int): State
    requires InPlace(s)
  {
    TurnGoes(s);
    MakeNapping(Dispatch(s).value, s.current, time)
  }

  function KillStep(s: State, pid: int): State
    requires InPlace(s)
  {
    var target := Lookup(s, pid);
    if target == 0 || s.mode[target] == Dead then s else MakeDead(Purge(s, target), target)
  }

  /** One atomic event; the system calls are made by the current process. */
  function Step(s: State, e: Event): Option<State>
    requires InPlace(s)
  {
    match e
    case Tick => Dispatch(s)
    case Timekeeper => Some(Timekeep(s))
    case Fork => Some(NewProcess(s))
    case Exit => ExitStep(s)
    case Exec(ok) => if ok then Dispatch(s) else ExitStep(s)
    case Wait(pid) => Some(WaitStep(s, pid))
    case Sleep(time) => Some(SleepStep(s, time))
    case Wakeup(pid) => Some(WakeUp(s, pid))
    case Kill(pid) => Some(KillStep(s, pid))
  }

  // ---------------------------------------------------------------- what each event needs

  /** There is room for those that reaping readies, with the process that ran in the queue if it
      found room itself. */
  predicate TurnRoom(s: State) {
    (if |s.ready| < MAX_READY then |s.ready| else MAX_READY - 1) + |Reaped(s)| <= MAX_READY
  }

  /** The process that a wait for pid finds, once the dispatch before it has reaped. */
  function Awaited(s: State, pid: int): (r: Pid)
    requires InPlace(s)
    ensures r == 0 || (r == pid && r in s.mode)
  {
    TurnGoes(s);
    Lookup(Dispatch(s).value, pid)
  }

  predicate WaitHits(s: State, pid: int)
    requires InPlace(s)
  {
    Awaited(s, pid) != 0 && s.mode[Awaited(s, pid)] != Dead
  }

  /** When an event keeps every process in its place, in terms of the state before it. */
  predicate Room(s: State, e: Event)
    requires InPlace(s)
  {
    match e
    case Tick => |s.ready| < MAX_READY && TurnRoom(s)
    case Timekeeper => |s.ready| + |Expired(s.naps)| <= MAX_READY
    case Fork => |s.ready| < MAX_READY
    case Exit => s.ready != [] && |s.ready| - 1 + |Reaped(s)| <= MAX_READY
    case Exec(ok) =>
      if ok then |s.ready| < MAX_READY && TurnRoom(s)
      else s.ready != [] && |s.ready| - 1 + |Reaped(s)| <= MAX_READY
    case Wait(pid) => TurnRoom(s) && (if WaitHits(s, pid) then pid != KERNEL && s.ready != [] else |s.ready| < MAX_READY)
    case Sleep(_) => TurnRoom(s) && s.ready != []
    case Wakeup(pid) => pid >= 0 && pid in PidsOf(s.naps) ==> |s.ready| < MAX_READY
    case Kill(pid) =>
      var target := Lookup(s, pid);
      target == 0 || s.mode[target] in {Dead, Ready}
  }

  // ---------------------------------------------------------------- event by event

  lemma TickIff(s: State)
    requires InPlace(s)
    ensures Dispatch(s).Some? && (InPlace(Dispatch(s).value) <==> |s.ready| < MAX_READY && TurnRoom(s))
  {
    InPlacePoised(s);
    DispatchIff(s);
    LineLength(s);
  }

  /** A preemption with a full ready queue loses the process that ran: it is ready, in no queue and
      in no list. */
  lemma FullQueueLoses(s: State)
    requires InPlace(s) && |s.ready| == MAX_READY
    ensures Dispatch(s).Some?
    ensures var t, x := Dispatch(s).value, s.current;
            && x in t.mode && t.mode[x] == Ready && x != t.current && x !in t.ready && x !in t.dead
            && !Naps(t.naps, x) && forall q :: !Waits(t.waiters, q, x)
  {
    InPlacePoised(s);
    DispatchIs(s);
    RunnerLost(s);
    TurnGoes(s);
  }

  lemma ExitIff(s: State)
    requires InPlace(s)
    ensures ExitStep(s).Some? && InPlace(ExitStep(s).value) <==> s.ready != [] && |s.ready| - 1 + |Reaped(s)| <= MAX_READY
    ensures ExitStep(s).None? <==> s.ready == []
  {
    DyingPoised(s);
    if s.ready != [] {
      DispatchIff(Dying(s));
      LineLength(Dying(s));
    }
  }

  /** A process that exits is dead, at the end of the dead queue and nowhere else. */
  lemma ExitQueues(s: State)
    requires InPlace(s) && s.ready != []
    ensures ExitStep(s).Some?
    ensures var t := ExitStep(s).value;
            && t.current == s.ready[0] && s.current in t.mode && t.mode[s.current] == Dead
            && t.dead == Tail(s.dead) + [s.current] && t.naps == s.naps && t.waiters == LeftWaiters(s)
  {
    DyingPoised(s);
    DispatchIs(Dying(s));
    LeftModes(Dying(s));
  }

  lemma ExitSwitches(s: State)
    requires InPlace(s) && s.ready != []
    ensures ExitStep(s).Some? && Switched(Dying(s).mode, s.current, s.ready[0], Reaped(s), ExitStep(s).value.mode)
  {
    DyingPoised(s);
    DispatchIs(Dying(s));
    LeftModes(Dying(s));
  }

  lemma TimekeeperIff(s: State)
    requires InPlace(s)
    ensures InPlace(Timekeep(s)) <==> |s.ready| + |Expired(s.naps)| <= MAX_READY
  {
    TimekeepIff(s);
    Parted(s.naps);
    forall p | p in Expired(s.naps) ensures p in s.mode && s.mode[p] == Napping {
      assert Naps(s.naps, p);
    }
  }

  lemma WakeupIff(s: State, pid: int)
    requires InPlace(s)
    ensures InPlace(WakeUp(s, pid)) <==> Room(s, Wakeup(pid))
  {
    if pid >= 0 && pid in PidsOf(s.naps) {
      assert Naps(s.naps, pid);
      WakeUpIff(s, pid);
    }
  }

  lemma ForkIff(s: State)
    requires InPlace(s)
    ensures InPlace(NewProcess(s)) <==> |s.ready| < MAX_READY
  {
    NewProcessIff(s);
  }

  /** The caller is away from the queue: the others are in line if they fit. */
  lemma CallerAway(s: State, u: State)
    requires InPlace(s) && s.ready != [] && Dispatch(s).Some? && Sound(u)
    requires var t, x := Dispatch(s).value, s.current;
             u.mode == t.mode[x := Napping] && u.ready == Without(t.ready, x) && u.current == t.current
    ensures InPlace(u) <==> TurnRoom(s)
  {
    InPlacePoised(s);
    DispatchIs(s);
    LeftModes(s);
    OthersIff(s, Napping);
    LineLength(s);
    AwayLiving(LeftMode(s), u.mode, s.current, Queue(s)[0]);
    InPlaceIff(u);
  }

  lemma AwayLiving(mode: map<Pid, Mode>, m: map<Pid, Mode>, x: Pid, next: Pid)
    requires next in mode && x in mode && x != next && forall p :: p in mode ==> (mode[p] == Living <==> p == next)
    requires m == mode[x := Napping]
    ensures forall p :: p in m ==> (m[p] == Living <==> p == next)
  {
  }

  /** A caller put to nap is out of the queue, and the others are in line if they fit. */
  lemma NapIs(s: State, time: int)
    requires InPlace(s) && s.ready != []
    ensures var t, x := Dispatch(s).value, s.current;
            && SleepStep(s, time) == t.(mode := t.mode[x := Napping], ready := Without(t.ready, x), naps := t.naps + [Nap(x, time)])
            && (InPlace(SleepStep(s, time)) <==> TurnRoom(s))
  {
    InPlacePoised(s);
    TurnGoes(s);
    var t, x := Dispatch(s).value, s.current;
    WithoutAbsent(t.dead, x);
    var u := SleepStep(s, time);
    SoundAddNap(t, u, x, time);
    CallerAway(s, u);
  }

  lemma SleepIff(s: State, time: int)
    requires InPlace(s)
    ensures InPlace(SleepStep(s, time)) <==> TurnRoom(s) && s.ready != []
  {
    if s.ready != [] {
      NapIs(s, time);
    } else {
      SelfDispatched(s);
    }
  }

  /** A process that is alone is dispatched again at once. */
  lemma SelfDispatched(s: State)
    requires InPlace(s) && s.ready == []
    ensures Dispatch(s).Some? && Dispatch(s).value.current == s.current
    ensures s.current in Dispatch(s).value.mode && Dispatch(s).value.mode[s.current] == Living
  {
    TurnGoes(s);
  }

  lemma WaitListedIs(s: State, r: Pid)
    requires InPlace(s) && s.ready != [] && r in Dispatch(s).value.waiters
    requires r in Dispatch(s).value.mode && Dispatch(s).value.mode[r] != Dead
    ensures var t, x := Dispatch(s).value, s.current; var u := WaitFor(t, x, r);
            && u == t.(mode := t.mode[x := Napping], ready := Without(t.ready, x), waiters := t.waiters[r := t.waiters[r] + [x]])
            && (InPlace(u) <==> TurnRoom(s))
  {
    InPlacePoised(s);
    TurnGoes(s);
    var t, x := Dispatch(s).value, s.current;
    WithoutAbsent(t.dead, x);
    var u := WaitFor(t, x, r);
    SoundAddWaiter(t, u, x, r);
    CallerAway(s, u);
  }

  /** Waiting for the kernel, which has no list of waiters, loses the process: it naps nowhere. */
  lemma WaitForKernelLoses(t: State, x: Pid)
    requires Sound(t) && x in t.mode && t.mode[x] in {Ready, Living} && KERNEL in t.mode && t.mode[KERNEL] != Dead
    ensures var u := WaitFor(t, x, KERNEL);
            && x in u.mode && u.mode[x] == Napping && x !in u.ready && x !in u.dead
            && !Naps(u.naps, x) && (forall q :: !Waits(u.waiters, q, x)) && !InPlace(u)
  {
    var u := WaitFor(t, x, KERNEL);
    assert u.mode[x] == Napping && u.naps == t.naps && u.waiters == t.waiters;
    assert !Naps(t.naps, x) && forall q :: !Waits(t.waiters, q, x);
    WithoutIs(t.ready, x);
    WithoutIs(t.dead, x);
  }

  lemma WaitIff(s: State, pid: int)
    requires InPlace(s)
    ensures InPlace(WaitStep(s, pid)) <==> Room(s, Wait(pid))
  {
    WaitIs(s, pid);
    if WaitHits(s, pid) {
      WaitHitsIff(s, pid);
    } else {
      TickIff(s);
    }
  }

  lemma WaitIs(s: State, pid: int)
    requires InPlace(s)
    ensures Dispatch(s).Some? && var t, r := Dispatch(s).value, Awaited(s, pid);
            if WaitHits(s, pid) then r == pid && r in t.mode && t.mode[r] != Dead && WaitStep(s, pid) == WaitFor(t, s.current, r)
            else WaitStep(s, pid) == t
  {
    TurnGoes(s);
  }

  lemma WaitHitsIff(s: State, r: Pid)
    requires InPlace(s) && Dispatch(s).Some?
    requires var t := Dispatch(s).value; r in s.mode && s.mode[r] != Dead && r in t.mode && t.mode[r] != Dead
    ensures InPlace(WaitFor(Dispatch(s).value, s.current, r)) <==> TurnRoom(s) && r != KERNEL && s.ready != []
  {
    TurnGoes(s);
    if r == KERNEL {
      WaitForKernelLoses(Dispatch(s).value, s.current);
    } else if s.ready != [] {
      WaitListedIs(s, r);
    } else {
      SelfDispatched(s);
    }
  }

  lemma ReadyDies(s: State, r: Pid)
    requires InPlace(s) && r in s.mode && s.mode[r] == Ready
    ensures var u := MakeDead(Purge(s, r), r);
            && u == s.(mode := s.mode[r := Dead], ready := Without(s.ready, r), dead := Enqueued(s.dead, r, MAX_DEAD))
            && InPlace(u)
  {
    WithoutAbsent(s.dead, r);
    SoundMakeDead(s, r);
    LinesRemove(s.mode, s.ready, r, Dead);
    WithoutShorter(s.ready, r);
  }

  lemma NapperDies(s: State, r: Pid)
    requires InPlace(s) && r in s.mode && s.mode[r] == Napping
    ensures var u := MakeDead(Purge(s, r), r);
            && u == s.(mode := s.mode[r := Dead], dead := Enqueued(s.dead, r, MAX_DEAD))
            && (Naps(u.naps, r) || exists q :: Waits(u.waiters, q, r)) && !InPlace(u)
  {
    WithoutAbsent(s.dead, r);
    WithoutAbsent(s.ready, r);
  }

  lemma KillFound(s: State, pid: int)
    requires InPlace(s) && Lookup(s, pid) != 0 && s.mode[Lookup(s, pid)] != Dead
    ensures Step(s, Kill(pid)) == Some(MakeDead(Purge(s, Lookup(s, pid)), Lookup(s, pid)))
  {
  }

  lemma EndOfDead(q: seq<Pid>, r: Pid)
    ensures Enqueued(q, r, MAX_DEAD) == if |q| < 256 then q + [r] else q
  {
  }

  /** A ready target, the kernel too, moves from the ready queue to the end of the dead queue. */
  lemma KillReady(s: State, pid: int)
    requires InPlace(s) && Lookup(s, pid) != 0 && s.mode[Lookup(s, pid)] == Ready
    ensures var r := Lookup(s, pid);
            && Step(s, Kill(pid)) == Some(s.(mode := s.mode[r := Dead], ready := Without(s.ready, r),
                                             dead := if |s.dead| < 256 then s.dead + [r] else s.dead))
            && InPlace(Step(s, Kill(pid)).value)
  {
    KillFound(s, pid);
    EndOfDead(s.dead, Lookup(s, pid));
    ReadyDies(s, Lookup(s, pid));
  }

  /** Killing a napping process leaves a dead process in the napping list or among the waiters. */
  lemma KillNapping(s: State, pid: int)
    requires InPlace(s) && Lookup(s, pid) != 0 && s.mode[Lookup(s, pid)] == Napping
    ensures var r := Lookup(s, pid);
            && Step(s, Kill(pid)) == Some(s.(mode := s.mode[r := Dead], dead := if |s.dead| < 256 then s.dead + [r] else s.dead))
            && (Naps(s.naps, r) || exists q :: Waits(s.waiters, q, r)) && !InPlace(Step(s, Kill(pid)).value)
  {
    KillFound(s, pid);
    EndOfDead(s.dead, Lookup(s, pid));
    NapperDies(s, Lookup(s, pid));
  }

  lemma KillIff(s: State, pid: int)
    requires InPlace(s)
    ensures InPlace(KillStep(s, pid)) <==> Room(s, Kill(pid))
  {
    var r := Lookup(s, pid);
    if r != 0 && s.mode[r] != Dead {
      if s.mode[r] == Napping {
        NapperDies(s, r);
      } else if s.mode[r] == Ready {
        ReadyDies(s, r);
      }
    }
  }

  /** Exactly the events that have room keep every process in its place. */
  lemma StepInPlaceIff(s: State, e: Event)
    requires InPlace(s)
    ensures Room(s, e) <==> Step(s, e).Some? && InPlace(Step(s, e).value)
  {
    match e
    case Tick => TickIff(s);
    case Timekeeper => TimekeeperIff(s);
    case Fork => ForkIff(s);
    case Exit => ExitIff(s);
    case Exec(ok) => TickIff(s); ExitIff(s);
    case Wait(pid) => WaitIff(s, pid);
    case Sleep(time) => SleepIff(s, time);
    case Wakeup(pid) => WakeupIff(s, pid);
    case Kill(pid) => KillIff(s, pid);
  }

  /** Exactly one thing brings the scheduler down: the end of a process with nobody else ready. */
  lemma StepStopsIff(s: State, e: Event)
    requires InPlace(s)
    ensures Step(s, e).None? <==> (e == Exit || e == Exec(false)) && s.ready == []
  {
    TickIff(s);
    ExitIff(s);
  }

  // ---------------------------------------------------------------- what a run needs

  /** When an event keeps a run going, in terms of the state before it. */
  predicate Guard(s: State, e: Event)
    requires InPlace(s)
  {
    match e
    case Tick | Timekeeper | Wakeup(_) => true
    case Fork => |Live(s.mode)| < MAX_READY
    case Exit | Sleep(_) => s.current != KERNEL
    case Exec(ok) => ok || s.current != KERNEL
    case Wait(pid) => s.current != KERNEL && pid != KERNEL
    case Kill(pid) =>
      var target := Lookup(s, pid);
      target == 0 || s.mode[target] == Dead || (s.mode[target] == Ready && target != KERNEL)
  }

  ghost predicate Goes(r: Option<State>) {
    r.Some? && Inv(r.value)
  }

  lemma KernelWaits(s: State)
    requires Inv(s) && s.current != KERNEL
    ensures s.ready != []
  {
    assert KERNEL in s.ready;
  }

  /** Whoever can be readied at once fits in the ready queue, next to the process that runs. */
  lemma LiveRoom(s: State, ws: seq<Pid>)
    requires Inv(s) && NoDup(ws) && forall w :: w in ws ==> w in s.mode && s.mode[w] == Napping
    ensures |s.ready| + |ws| < MAX_READY
  {
    NoDupConcat(s.ready, ws);
    NoDupConcat(s.ready + ws, [s.current]);
    LiveCount(s.ready + ws + [s.current], s.mode);
  }

  lemma ReapedNap(s: State)
    requires Sound(s) && s.current !in s.dead
    ensures NoDup(Reaped(s)) && forall w :: w in Reaped(s) ==> w in s.mode && s.mode[w] == Napping
  {
    if Reaps(s) {
      DeadHead(s);
      WaitersNap(s, s.dead[0]);
    }
  }

  lemma GuardGivesRoom(s: State, e: Event)
    requires Inv(s) && Guard(s, e)
    ensures Room(s, e)
  {
    ReapedNap(s);
    LiveRoom(s, Reaped(s));
    if s.current != KERNEL {
      KernelWaits(s);
    }
    if e.Timekeeper? {
      Parted(s.naps);
      LiveRoom(s, Expired(s.naps));
    }
    if e.Fork? || e.Wakeup? {
      LiveRoom(s, []);
    }
  }

  lemma FewerLive(mode: map<Pid, Mode>, m: map<Pid, Mode>)
    requires forall p :: p in m && m[p] != Dead ==> p in mode && mode[p] != Dead
    ensures |Live(m)| <= |Live(mode)|
  {
    assert Live(m) <= Live(mode);
    assert Live(mode) == Live(m) + (Live(mode) - Live(m));
  }

  lemma OneMoreLive(mode: map<Pid, Mode>, p: Pid)
    requires p !in mode
    ensures |Live(mode[p := Ready])| == |Live(mode)| + 1
  {
    assert Live(mode[p := Ready]) == Live(mode) + {p};
  }

  /** No event but a new process adds to the live ones, and a guarded event leaves the kernel able to run. */
  ghost predicate RunsOn(mode: map<Pid, Mode>, m: map<Pid, Mode>) {
    && (forall p :: p in m && m[p] != Dead ==> p in mode && mode[p] != Dead)
    && KERNEL in m && m[KERNEL] in {Ready, Living}
  }

  lemma InvFrom(s: State, t: State)
    requires Inv(s) && InPlace(t) && RunsOn(s.mode, t.mode)
    ensures Inv(t)
  {
    FewerLive(s.mode, t.mode);
  }

  lemma TurnRunsOn(s: State)
    requires Inv(s)
    ensures Dispatch(s).Some? && RunsOn(s.mode, Dispatch(s).value.mode)
  {
    TurnGoes(s);
  }

  lemma ExitRunsOn(s: State)
    requires Inv(s) && s.current != KERNEL
    ensures ExitStep(s).Some? && RunsOn(s.mode, ExitStep(s).value.mode)
  {
    KernelWaits(s);
    ExitSwitches(s);
  }

  lemma CallerMoved(s: State, m: map<Pid, Mode>)
    requires Inv(s) && s.current != KERNEL && Dispatch(s).Some?
    requires m == Dispatch(s).value.mode || m == Dispatch(s).value.mode[s.current := Napping]
    ensures RunsOn(s.mode, m)
  {
    TurnRunsOn(s);
  }

  lemma WaitRunsOn(s: State, pid: int)
    requires Inv(s) && s.current != KERNEL
    ensures RunsOn(s.mode, WaitStep(s, pid).mode)
  {
    TurnGoes(s);
    CallerMoved(s, WaitStep(s, pid).mode);
  }

  lemma SleepRunsOn(s: State, time: int)
    requires Inv(s) && s.current != KERNEL
    ensures RunsOn(s.mode, SleepStep(s, time).mode)
  {
    TurnGoes(s);
    CallerMoved(s, SleepStep(s, time).mode);
  }

  lemma WokenRunsOn(s: State, ws: seq<Pid>)
    requires Inv(s) && forall w :: w in ws ==> w in s.mode && s.mode[w] == Napping
    ensures RunsOn(s.mode, Woken(s.mode, ws))
  {
  }

  lemma TimekeeperRunsOn(s: State)
    requires Inv(s)
    ensures RunsOn(s.mode, Timekeep(s).mode)
  {
    TimekeepIff(s);
    Parted(s.naps);
    WokenRunsOn(s, Expired(s.naps));
  }

  lemma WakeupRunsOn(s: State, pid: int)
    requires Inv(s)
    ensures RunsOn(s.mode, WakeUp(s, pid).mode)
  {
    if pid >= 0 && pid in PidsOf(s.naps) {
      assert Naps(s.naps, pid);
      WakeUpIff(s, pid);
    }
  }

  lemma ForkKeeps(s: State)
    requires Inv(s) && |Live(s.mode)| < MAX_READY
    ensures Inv(NewProcess(s))
  {
    ForkRoom(s);
    NewMode(s);
    InvGrown(s, NewProcess(s), s.last + 1);
  }

  lemma ForkRoom(s: State)
    requires Inv(s)
    ensures InPlace(NewProcess(s))
  {
    LiveRoom(s, []);
    ForkIff(s);
  }

  lemma NewMode(s: State)
    requires Core(s) && s.current in s.mode
    ensures s.last + 1 !in s.mode && NewProcess(s).mode == s.mode[s.last + 1 := Ready]
  {
  }

  lemma InvGrown(s: State, t: State, p: Pid)
    requires Inv(s) && InPlace(t) && p !in s.mode && t.mode == s.mode[p := Ready] && |Live(s.mode)| < MAX_READY
    ensures Inv(t)
  {
    OneMoreLive(s.mode, p);
  }

  /** Guarded events keep every process in its place, the live ones few enough and the kernel able
      to run, and find a process to dispatch. */
  lemma StepKeeps(s: State, e: Event)
    requires Inv(s) && Guard(s, e)
    ensures Goes(Step(s, e))
  {
    GuardGivesRoom(s, e);
    StepInPlaceIff(s, e);
    if e.Fork? {
      ForkKeeps(s);
    } else {
      StepRunsOn(s, e);
      InvFrom(s, Step(s, e).value);
    }
  }

  lemma StepRunsOn(s: State, e: Event)
    requires Inv(s) && Guard(s, e) && !e.Fork? && Step(s, e).Some?
    ensures RunsOn(s.mode, Step(s, e).value.mode)
  {
    match e
    case Tick => TurnRunsOn(s);
    case Timekeeper => TimekeeperRunsOn(s);
    case Exit => ExitRunsOn(s);
    case Exec(ok) =>
      if ok {
        TurnRunsOn(s);
      } else {
        ExitRunsOn(s);
      }
    case Wait(pid) => WaitRunsOn(s, pid);
    case Sleep(time) => SleepRunsOn(s, time);
    case Wakeup(pid) => WakeupRunsOn(s, pid);
    case Kill(pid) =>
  }

  // ---------------------------------------------------------------- runs

  /** initialise_scheduler: the kernel alone, running. */
  function Boot(): State {
    State(KERNEL, map[KERNEL := Living], [], [], [], map[], Tree(map[], map[KERNEL := []]), KERNEL)
  }

  ghost predicate Allowed(s: State, es: seq<Event>)
    requires Inv(s)
    decreases |es|
  {
    es == [] || (Guard(s, es[0]) && (StepKeeps(s, es[0]); Allowed(Step(s, es[0]).value, es[1..])))
  }

  ghost function After(s: State, es: seq<Event>): State
    requires Inv(s) && Allowed(s, es)
    decreases |es|
  {
    if es == [] then s else StepKeeps(s, es[0]); After(Step(s, es[0]).value, es[1..])
  }

  /** The state after the first event of a run. */
  lemma FirstStep(s: State, es: seq<Event>) returns (t: State)
    requires Inv(s) && Allowed(s, es) && es != []
    ensures Step(s, es[0]) == Some(t) && Inv(t) && Allowed(t, es[1..]) && After(s, es) == After(t, es[1..])
    ensures Guard(s, es[0])
  {
    StepKeeps(s, es[0]);
    t := Step(s, es[0]).value;
  }

  /** An event in front of a run. */
  lemma RunFrom(s: State, e: Event, t: State, es: seq<Event>)
    requires Inv(s) && Guard(s, e) && Step(s, e) == Some(t) && Inv(t) && Allowed(t, es)
    ensures Allowed(s, [e] + es) && After(s, [e] + es) == After(t, es)
  {
    assert ([e] + es)[0] == e && ([e] + es)[1..] == es;
  }

  lemma {:induction false} EveryRunKeeps(s: State, es: seq<Event>)
    requires Inv(s) && Allowed(s, es)
    ensures Inv(After(s, es))
    decreases |es|
  {
    if es != [] {
      StepKeeps(s, es[0]);
      EveryRunKeeps(Step(s, es[0]).value, es[1..]);
    }
  }

  lemma BootInv()
    ensures Inv(Boot())
  {
    var s := Boot();
    assert Ok(s.tree) by {
      assert Once(s.tree, KERNEL);
    }
    assert Live(s.mode) == {KERNEL};
  }

  ghost predicate AllowedFromBoot(es: seq<Event>) {
    BootInv();
    Allowed(Boot(), es)
  }

  /** In every run from boot each process is where its mode says and a dispatch finds one to run. */
  lemma EveryRunInPlace(es: seq<Event>)
    requires AllowedFromBoot(es)
    ensures Inv(Boot()) && Inv(After(Boot(), es)) && Dispatch(After(Boot(), es)).Some?
  {
    BootInv();
    EveryRunKeeps(Boot(), es);
    TickIff(After(Boot(), es));
  }
}
