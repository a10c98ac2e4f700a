/** Whom a process waits for, when its wait ends, and why it may never end. */
module Waiting {
  import opened Machine
  import opened Links
  import opened ProcessTree
  import opened Processes
  import opened Places
  import opened Scheduling
  import opened Dispatching
  import opened Lifecycle

  /** p still waits for q, or q is gone and p is ready. */
  ghost predicate WaitsOrReady(t: State, q: Pid, p: Pid) {
    Waits(t.waiters, q, p) || (q !in t.mode && p in t.mode && t.mode[p] == Ready)
  }

  lemma Waiter(s: State, q: Pid, p: Pid)
    requires InPlace(s) && Waits(s.waiters, q, p)
    ensures p in s.mode && s.mode[p] == Napping && p != s.current && !Naps(s.naps, p)
    ensures q in s.mode && q != KERNEL
  {
  }

  /** A dispatch ends a wait exactly by reaping the process waited for. */
  lemma DispatchWaits(s: State, q: Pid, p: Pid)
    requires Poised(s) && Queue(s) != [] && Waits(s.waiters, q, p)
    ensures Dispatch(s).Some? && WaitsOrReady(Dispatch(s).value, q, p)
  {
    DispatchIs(s);
    LeftModes(s);
    if Reaps(s) {
      DeadHead(s);
    }
  }

  lemma WaitForWaits(t: State, x: Pid, target: Pid, q: Pid, p: Pid)
    requires x != p && x in t.mode && WaitsOrReady(t, q, p)
    ensures WaitsOrReady(WaitFor(t, x, target), q, p)
  {
    var u := WaitFor(t, x, target);
    if Waits(t.waiters, q, p) {
      assert Waits(u.waiters, q, p);
    }
  }

  /** No event but the one that destroys q ends p's wait for q, and that one readies p. */
  lemma StepWaits(s: State, e: Event, q: Pid, p: Pid)
    requires InPlace(s) && Waits(s.waiters, q, p) && Step(s, e).Some?
    ensures WaitsOrReady(Step(s, e).value, q, p)
  {
    Waiter(s, q, p);
    match e
    case Tick => TurnWaits(s, q, p);
    case Timekeeper => TimekeepIff(s);
    case Fork => assert s.last + 1 != q;
    case Exit => ExitWaits(s, q, p);
    case Exec(ok) =>
      if ok {
        TurnWaits(s, q, p);
      } else {
        ExitWaits(s, q, p);
      }
    case Wait(pid) =>
      TurnWaits(s, q, p);
      WaitForWaits(Dispatch(s).value, s.current, Awaited(s, pid), q, p);
    case Sleep(time) => TurnWaits(s, q, p);
    case Wakeup(pid) =>
    case Kill(pid) =>
  }

  lemma TurnWaits(s: State, q: Pid, p: Pid)
    requires InPlace(s) && Waits(s.waiters, q, p)
    ensures Dispatch(s).Some? && WaitsOrReady(Dispatch(s).value, q, p) && s.current in Dispatch(s).value.mode
  {
    TurnGoes(s);
    InPlacePoised(s);
    DispatchWaits(s, q, p);
  }

  lemma ExitWaits(s: State, q: Pid, p: Pid)
    requires InPlace(s) && Waits(s.waiters, q, p) && ExitStep(s).Some?
    ensures WaitsOrReady(ExitStep(s).value, q, p)
  {
    ExitIff(s);
    DyingPoised(s);
    DispatchWaits(Dying(s), q, p);
  }

  /** sysc_wait lists the caller with the process found, if that one lives; otherwise the caller
      has only given up its turn and stays ready. */
  lemma WaitLists(s: State, pid: int)
    requires Inv(s) && s.current != KERNEL && pid != KERNEL
    ensures var r, u := Awaited(s, pid), WaitStep(s, pid);
            if WaitHits(s, pid) then Waits(u.waiters, r, s.current) && s.current !in u.ready
            else s.current in u.ready && Some(u) == Dispatch(s)
  {
    KernelWaits(s);
    TurnGoes(s);
    var t, r := Dispatch(s).value, Awaited(s, pid);
    if WaitHits(s, pid) {
      WaitListedIs(s, r);
      var u := WaitStep(s, pid);
      assert u.waiters[r][|t.waiters[r]|] == s.current;
      WithoutIs(t.ready, s.current);
    } else {
      GuardGivesRoom(s, Tick);
      TickIff(s);
    }
  }

  // ---------------------------------------------------------------- dead processes that nobody destroys

  /** A dead process in no queue: nothing will ever take it up again. */
  ghost predicate Dropped(s: State, d: Pid) {
    d in s.mode && s.mode[d] == Dead && d !in s.dead
  }

  /** The head of the dead queue is gone after a dispatch if and only if the kernel was running;
      otherwise it is dropped. */
  lemma DestroyedIff(s: State)
    requires Poised(s) && Queue(s) != [] && s.dead != []
    ensures Dispatch(s).Some?
    ensures var t, d := Dispatch(s).value, s.dead[0];
            && (d !in t.mode <==> s.current == KERNEL)
            && (s.current != KERNEL ==> Dropped(t, d))
  {
    DispatchIs(s);
    LeftModes(s);
    HeadOut(s.dead);
    assert s.dead[0] in s.dead;
    if Reaps(s) {
      DeadHead(s);
    }
  }

  lemma DispatchDropped(s: State, d: Pid)
    requires Poised(s) && Queue(s) != [] && Dropped(s, d) && d != s.current
    ensures Dispatch(s).Some? && Dropped(Dispatch(s).value, d)
  {
    DispatchIs(s);
    LeftModes(s);
    if s.dead != [] {
      HeadOut(s.dead);
      assert s.dead[0] in s.dead;
    }
  }

  /** No event takes up a dropped process. */
  lemma StepDropped(s: State, e: Event, d: Pid)
    requires InPlace(s) && Dropped(s, d) && Step(s, e).Some?
    ensures Dropped(Step(s, e).value, d)
  {
    match e
    case Tick => TurnDropped(s, d);
    case Timekeeper => TimekeepDropped(s, d);
    case Fork => NewMode(s);
    case Exit => ExitDropped(s, d);
    case Exec(ok) =>
      if ok {
        TurnDropped(s, d);
      } else {
        ExitDropped(s, d);
      }
    case Wait(pid) =>
      TurnDropped(s, d);
      WaitForDropped(Dispatch(s).value, s.current, Awaited(s, pid), d);
    case Sleep(time) =>
      TurnDropped(s, d);
      NappingDropped(Dispatch(s).value, s.current, time, d);
    case Wakeup(pid) =>
      if pid >= 0 && Naps(s.naps, pid) {
        WakeUpIff(s, pid);
      }
    case Kill(pid) =>
      var target := Lookup(s, pid);
      if target != 0 && s.mode[target] != Dead {
        KillDropped(s, target, d);
      }
  }

  lemma TimekeepDropped(s: State, d: Pid)
    requires InPlace(s) && Dropped(s, d)
    ensures Dropped(Step(s, Timekeeper).value, d)
  {
    TimekeepIff(s);
    Parted(s.naps);
    assert !Naps(s.naps, d);
  }

  lemma WaitForDropped(t: State, p: Pid, target: Pid, d: Pid)
    requires Dropped(t, d) && p != d
    ensures Dropped(WaitFor(t, p, target), d)
  {
    WithoutIs(t.dead, p);
  }

  lemma NappingDropped(t: State, p: Pid, time: int, d: Pid)
    requires Dropped(t, d) && p in t.mode && p != d
    ensures Dropped(MakeNapping(t, p, time), d)
  {
    WithoutIs(t.dead, p);
  }

  lemma KillDropped(s: State, target: Pid, d: Pid)
    requires Dropped(s, d) && target in s.mode && target != d
    ensures Dropped(MakeDead(Purge(s, target), target), d)
  {
    WithoutIs(s.dead, target);
  }

  lemma TurnDropped(s: State, d: Pid)
    requires InPlace(s) && Dropped(s, d)
    ensures Dispatch(s).Some? && Dropped(Dispatch(s).value, d) && d != s.current && s.current in Dispatch(s).value.mode
  {
    TurnGoes(s);
    InPlacePoised(s);
    DispatchDropped(s, d);
  }

  lemma ExitDropped(s: State, d: Pid)
    requires InPlace(s) && Dropped(s, d) && ExitStep(s).Some?
    ensures Dropped(ExitStep(s).value, d)
  {
    ExitIff(s);
    DyingPoised(s);
    DispatchDropped(Dying(s), d);
  }

  /** In every run a dropped process stays what it is, and whoever waits for it waits on: so a wait
      can last forever. */
  lemma {:induction false} DroppedForever(s: State, es: seq<Event>, d: Pid)
    requires Inv(s) && Allowed(s, es) && Dropped(s, d)
    ensures var t := After(s, es);
            && Inv(t) && Dropped(t, d)
            && forall p :: Waits(s.waiters, d, p) ==> Waits(t.waiters, d, p) && p in t.mode && t.mode[p] == Napping
    decreases |es|
  {
    if es != [] {
      StepKeeps(s, es[0]);
      StepDropped(s, es[0], d);
      var t := Step(s, es[0]).value;
      forall p | Waits(s.waiters, d, p) ensures Waits(t.waiters, d, p) {
        StepWaits(s, es[0], d, p);
      }
      DroppedForever(t, es[1..], d);
    }
  }
}
