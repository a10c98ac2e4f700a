/** The scheduler of kernel/process/scheduler.c with the process functions and system calls that
    drive it, on its global variables. */
module Scheduler {
  import opened Machine
  import opened Links
  import opened ProcessTree
  import opened Processes
  import opened Places
  import opened Scheduling
  import opened Dispatching
  import opened Lifecycle
  import Q = Queue
  import E = Effects

  class Kernel {
    var current: Pid
    var mode: map<Pid, Mode>
    const ready: Q.Queue<Pid>
    const dead: Q.Queue<Pid>
    var naps: seq<Nap>
    var waiters: map<Pid, seq<Pid>>
    var parent: map<Pid, Pid>
    var subs: map<Pid, seq<Pid>>
    var last: Pid

    ghost function S(): State
      reads this, ready, dead
    {
      State(current, mode, ready.Contents, dead.Contents, naps, waiters, Tree(parent, subs), last)
    }

    /** Two well-formed queues that share no node. */
    ghost predicate QueuesOk()
      reads ready, dead, ready.Repr, dead.Repr
    {
      && ready.Valid() && dead.Valid() && ready != dead && ready.Repr !! dead.Repr
      && ready.limit == MAX_READY && dead.limit == MAX_DEAD
    }

    /** The queues are well-formed and their nodes are old ones or new ones. */
    twostate predicate QueuesKept()
      reads ready, dead, ready.Repr, dead.Repr
    {
      QueuesOk() && fresh(ready.Repr - old(ready.Repr)) && fresh(dead.Repr - old(dead.Repr))
    }

    /** initialise_scheduler, after proc_create_kernel. */
    constructor ()
      ensures S() == Boot() && Inv(S()) && QueuesOk() && fresh(ready) && fresh(dead) && fresh(ready.Repr) && fresh(dead.Repr)
    {
      ready := new Q.Queue(MAX_READY);
      dead := new Q.Queue(MAX_DEAD);
      current, last := KERNEL, KERNEL;
      mode := map[KERNEL := Living];
      naps := [];
      waiters, parent, subs := map[], map[], map[KERNEL := []];
      new;
      BootInv();
    }

    method EnqueueReady(p: Pid)
      requires QueuesOk()
      modifies this`mode, ready, ready.Repr
      ensures QueuesKept() && S() == MakeReady(old(S()), p)
    {
      mode := mode[p := Ready];
      var node := ready.Enqueue(Some(p));
    }

    method EnqueueDead(p: Pid)
      requires QueuesOk()
      modifies this`mode, dead, dead.Repr
      ensures QueuesKept() && S() == MakeDead(old(S()), p)
    {
      mode := mode[p := Dead];
      var node := dead.Enqueue(Some(p));
    }

    method PurgeProcess(p: Pid)
      requires QueuesOk()
      modifies ready, dead, ready.Repr, dead.Repr
      ensures QueuesKept() && S() == Purge(old(S()), p)
    {
      ready.ForceRemove(Some(p));
      dead.ForceRemove(Some(p));
    }

    /** sched_purge_process, then sched_make_ready. */
    method ReadyAgain(p: Pid)
      requires QueuesOk()
      modifies this`mode, ready, dead, ready.Repr, dead.Repr
      ensures QueuesKept() && S() == MakeReady(Purge(old(S()), p), p)
    {
      PurgeProcess(p);
      EnqueueReady(p);
    }

    method Nap(p: Pid, time: int)
      requires QueuesOk() && p in mode
      modifies this, ready, dead, ready.Repr, dead.Repr
      ensures QueuesKept() && S() == MakeNapping(old(S()), p, time)
    {
      if mode[p] != Dead && mode[p] != Napping {
        PurgeProcess(p);
        mode := mode[p := Napping];
        naps := naps + [Processes.Nap(p, time)];
      }
    }

    /** One turn of the walk: the napper at i loses a tick, and is taken out and readied when it has none. */
    method TickNap(i: nat) returns (next: nat)
      requires QueuesOk() && i < |naps|
      modifies this`mode, this`naps, ready, ready.Repr
      ensures QueuesKept() && next <= |naps| && naps[next..] == old(naps)[i + 1..]
      ensures Elapse(S().(naps := naps[..next]), naps[next..]) == Elapse(old(S()).(naps := old(naps)[..i]), old(naps)[i..])
    {
      var n := naps[i];
      ghost var rest := naps[i + 1..];
      ghost var done := naps[..i];
      assert naps[i..][1..] == rest && naps == done + [n] + rest;
      ElapseCons(S().(naps := done), naps[i..], n, rest);
      if n.counter - 1 <= 0 {
        naps := naps[..i] + naps[i + 1..];
        EnqueueReady(n.pid);
        next := i;
      } else {
        naps := naps[i := Processes.Nap(n.pid, n.counter - 1)];
        next := i + 1;
      }
      assert naps[next..] == rest;
      assert naps[..next] == done + (if n.counter - 1 <= 0 then [] else [Processes.Nap(n.pid, n.counter - 1)]);
    }

    /** The loop of sched_timekeeper: one walk along a list that gets shorter under it. */
    method TickNaps()
      requires QueuesOk()
      modifies this`mode, this`naps, ready, ready.Repr
      ensures QueuesKept() && S() == Timekeep(old(S()))
    {
      ghost var before := S();
      var i := 0;
      while i < |naps|
        invariant 0 <= i <= |naps| && QueuesKept()
        invariant Elapse(S().(naps := naps[..i]), naps[i..]) == Timekeep(before)
        decreases |naps[i..]|
      {
        i := TickNap(i);
      }
      assert naps[..i] == naps && naps[i..] == [];
    }

    /** sched_timekeeper. */
    method Timekeeping()
      requires QueuesOk()
      modifies this`mode, this`naps, ready, ready.Repr
      ensures QueuesKept() && S() == Timekeep(old(S())) && (old(Inv(S())) ==> Inv(S()))
      ensures old(InPlace(S())) ==> (InPlace(S()) <==> old(|S().ready| + |Expired(naps)| <= MAX_READY)) && E.Ticked(old(S()), S())
    {
      if InPlace(S()) {
        Keeps(S(), Timekeeper);
        E.TimekeepTicks(S());
      }
      TickNaps();
    }

    /** The search that opens sched_wakeup. */
    method FindNap(pid: int) returns (i: nat)
      ensures i <= |naps| && (i < |naps| ==> naps[i].pid == pid) && forall j :: 0 <= j < i ==> naps[j].pid != pid
      ensures i < |naps| <==> pid >= 0 && pid in PidsOf(naps)
    {
      i := 0;
      while i < |naps| && naps[i].pid != pid
        invariant 0 <= i <= |naps| && forall j :: 0 <= j < i ==> naps[j].pid != pid
      {
        i := i + 1;
      }
      if i < |naps| {
        assert PidsOf(naps)[i] == pid;
      } else {
        assert forall j :: 0 <= j < |naps| ==> PidsOf(naps)[j] != pid;
      }
    }

    method WakeAt(i: nat)
      requires QueuesOk() && i < |naps| && forall j :: 0 <= j < i ==> naps[j].pid != naps[i].pid
      modifies this`mode, this`naps, ready, dead, ready.Repr, dead.Repr
      ensures QueuesKept() && S() == WakeUp(old(S()), old(naps)[i].pid)
    {
      var p := naps[i].pid;
      WakesAt(S(), i);
      naps := naps[..i] + naps[i + 1..];
      ReadyAgain(p);
    }

    method Wake(pid: int) returns (r: int)
      requires QueuesOk()
      modifies this`mode, this`naps, ready, dead, ready.Repr, dead.Repr
      ensures QueuesKept() && S() == WakeUp(old(S()), pid)
      ensures r == if pid >= 0 && pid in PidsOf(old(naps)) then 0 else -1
    {
      var i := FindNap(pid);
      if i == |naps| {
        return -1;
      }
      WakeAt(i);
      return 0;
    }

    /** sched_wakeup. */
    method WakeProcess(pid: int) returns (r: int)
      requires QueuesOk()
      modifies this`mode, this`naps, ready, dead, ready.Repr, dead.Repr
      ensures QueuesKept() && S() == WakeUp(old(S()), pid) && (old(Inv(S())) ==> Inv(S()))
      ensures old(InPlace(S())) ==> (InPlace(S()) <==> r == -1 || old(|S().ready| < MAX_READY)) && E.Woke(old(S()), pid, S())
      ensures r == if pid >= 0 && pid in PidsOf(old(naps)) then 0 else -1
    {
      if InPlace(S()) {
        KeepsWakeup(S(), pid);
        E.WakeUpWakes(S(), pid);
      }
      r := Wake(pid);
    }

    /** sched_wait_for, with the process that proc_find found, or 0. */
    method WaitOn(p: Pid, target: Pid)
      requires QueuesOk()
      modifies this, ready, dead, ready.Repr, dead.Repr
      ensures QueuesKept() && S() == WaitFor(old(S()), p, target)
    {
      if target in mode && mode[target] != Dead {
        mode := mode[p := Napping];
        if target in waiters {
          waiters := waiters[target := waiters[target] + [p]];
        }
        PurgeProcess(p);
      }
    }

    /** The loop of proc_destroy over the processes that wait for the destroyed one. */
    method ReadyWaiters(ws: seq<Pid>)
      requires QueuesOk()
      modifies this`mode, ready, dead, ready.Repr, dead.Repr
      ensures QueuesKept() && S() == ReadyAll(old(S()), ws)
    {
      ghost var before := S();
      for i := 0 to |ws|
        invariant QueuesKept() && ReadyAll(S(), ws[i..]) == ReadyAll(before, ws)
      {
        assert ws[i..][1..] == ws[i + 1..];
        ReadyAgain(ws[i]);
      }
    }

    /** The loop of proc_destroy that moves the children to the parent q of the destroyed process. */
    method Reparent(kids: seq<Pid>, q: Pid)
      requires q in subs
      modifies this`parent, this`subs
      ensures parent == Adopt(old(parent), kids, q) && subs == old(subs)[q := old(subs)[q] + kids]
    {
      AdoptNone(parent, q);
      assert old(subs)[q] + kids[..0] == old(subs)[q];
      for i := 0 to |kids|
        invariant q in subs && parent == Adopt(old(parent), kids[..i], q)
        invariant subs == old(subs)[q := old(subs)[q] + kids[..i]]
      {
        assert kids[..i + 1] == kids[..i] + [kids[i]];
        AdoptMore(old(parent), kids[..i], kids[i], q);
        assert old(subs)[q] + kids[..i] + [kids[i]] == old(subs)[q] + kids[..i + 1];
        parent := parent[kids[i] := q];
        subs := subs[q := subs[q] + [kids[i]]];
      }
      assert kids[..|kids|] == kids;
    }

    /** proc_destroy, as far as scheduler and process tree go. */
    method Destroy(d: Pid)
      requires QueuesOk() && Ok(Tree(parent, subs)) && KeysOk(S()) && d in mode
      modifies this, ready, dead, ready.Repr, dead.Repr
      ensures QueuesKept() && S() == DestroyProcess(old(S()), d)
    {
      if d == KERNEL {
        return;
      }
      assert Hangs(S().tree, d);
      ReadyWaiters(waiters[d]);
      Discard(d);
    }

    method Discard(d: Pid)
      requires QueuesOk() && d in subs && d in parent && parent[d] in subs && parent[d] != d
      modifies this`mode, this`waiters, this`parent, this`subs
      ensures QueuesKept()
      ensures S() == old(S()).(mode := old(mode) - {d}, waiters := old(waiters) - {d}, tree := ProcessTree.Destroy(old(S()).tree, d))
    {
      CutOut(d);
      mode, waiters := mode - {d}, waiters - {d};
    }

    /** The tree part of proc_destroy. */
    method CutOut(d: Pid)
      requires d in subs && d in parent && parent[d] in subs && parent[d] != d
      modifies this`parent, this`subs
      ensures Tree(parent, subs) == ProcessTree.Destroy(old(Tree(parent, subs)), d)
    {
      var q := parent[d];
      if |subs[d]| > 0 {
        Reparent(subs[d], q);
      } else {
        AdoptNone(parent, q);
        assert subs[d] == [] && subs[q] + [] == subs[q];
      }
      subs := subs[q := RemoveFirst(subs[q], d)];
      parent, subs := parent - {d}, subs - {d};
    }

    /** proc_create or proc_clone with the current process as parent, then sched_make_ready. */
    method Create() returns (p: Pid)
      requires QueuesOk() && current in subs
      modifies this, ready, dead, ready.Repr, dead.Repr
      ensures QueuesKept() && S() == NewProcess(old(S())) && p == last
    {
      p := Register();
      EnqueueReady(p);
    }

    /** The new descriptor, with the next pid, as the last child of the current process. */
    method Register() returns (p: Pid)
      requires QueuesOk() && current in subs
      modifies this`last, this`waiters, this`parent, this`subs
      ensures QueuesKept() && p == old(last) + 1
      ensures S() == old(S()).(last := p, waiters := old(waiters)[p := []], tree := ProcessTree.Create(old(S()).tree, p, current))
    {
      last := last + 1;
      p := last;
      waiters := waiters[p := []];
      parent, subs := parent[p := current], subs[current := subs[current] + [p]][p := []];
    }

    /** sched_get_next takes one dead process, and destroys it if the kernel was running. */
    method ReapDead()
      requires QueuesOk() && Ok(S().tree) && KeysOk(S()) && forall d :: d in S().dead ==> d in mode
      modifies this, ready, dead, ready.Repr, dead.Repr
      ensures QueuesKept() && S() == Reap(old(S()))
    {
      var d := dead.Dequeue();
      if d.Some? && current == KERNEL {
        Destroy(d.value);
      }
    }

    /** A process that still runs goes back to the end of the ready queue. */
    method RequeueCurrent()
      requires QueuesOk() && current in mode
      modifies this`mode, ready, ready.Repr
      ensures QueuesKept() && S() == Requeue(old(S()))
    {
      if mode[current] == Living {
        EnqueueReady(current);
      }
    }

    method TakeReady() returns (next: Pid)
      requires QueuesOk() && S().ready != []
      modifies ready, ready.Repr
      ensures QueuesKept() && next == old(S()).ready[0] && S() == old(S()).(ready := old(S()).ready[1..])
    {
      var head := ready.Dequeue();
      next := head.value;
    }

    /** sched_preempt_handler, through sched_get_next. */
    method Preempt()
      requires QueuesOk() && Poised(S()) && Queue(S()) != []
      modifies this, ready, dead, ready.Repr, dead.Repr
      ensures QueuesKept() && Dispatch(old(S())) == Some(S())
    {
      RequeueKeeps(S());
      var next := GetNext();
      SwitchTo(next);
    }

    method GetNext() returns (next: Pid)
      requires QueuesOk() && current in mode && Requeue(S()).ready != []
      modifies this`mode, ready, ready.Repr
      ensures QueuesKept() && var a := Requeue(old(S())); next == a.ready[0] && S() == a.(ready := a.ready[1..])
    {
      RequeueCurrent();
      next := TakeReady();
    }

    method BuryCurrent()
      requires QueuesOk() && current in mode
      modifies this`mode, dead, dead.Repr
      ensures QueuesKept() && S() == Bury(old(S()))
    {
      if mode[current] == Dead {
        EnqueueDead(current);
      }
    }

    method SwitchTo(next: Pid)
      requires QueuesOk() && Ok(S().tree) && KeysOk(S()) && current in mode && forall d :: d in S().dead ==> d in mode
      modifies this, ready, dead, ready.Repr, dead.Repr
      ensures QueuesKept() && Reap(old(S())).current in Reap(old(S())).mode
      ensures S() == var c := Bury(Reap(old(S()))); c.(mode := c.mode[next := Living], current := next)
    {
      ReapKeepsCurrent(S());
      ReapDead();
      BuryCurrent();
      Run(next);
    }

    method Run(next: Pid)
      requires QueuesOk()
      modifies this`mode, this`current
      ensures QueuesKept() && S() == old(S()).(mode := old(mode)[next := Living], current := next)
    {
      mode := mode[next := Living];
      current := next;
    }

    // ---------------------------------------------------------------- interrupts and system calls

    method OnTick()
      requires QueuesOk() && InPlace(S())
      modifies this, ready, dead, ready.Repr, dead.Repr
      ensures QueuesKept() && Dispatch(old(S())) == Some(S()) && E.Turned(old(S()), S())
      ensures (InPlace(S()) <==> old(Room(S(), Tick))) && (old(Inv(S())) ==> Inv(S()))
    {
      ghost var before := S();
      InPlacePoised(before);
      Keeps(before, Tick);
      E.TurnTurns(before);
      Preempt();
    }

    method EndCurrent()
      requires QueuesOk() && InPlace(S()) && S().ready != []
      modifies this, ready, dead, ready.Repr, dead.Repr
      ensures QueuesKept() && ExitStep(old(S())) == Some(S())
    {
      ghost var before := S();
      DyingPoised(before);
      mode := mode[current := Dead];
      assert S() == Dying(before);
      Preempt();
    }

    /** sysc_exit, and the end of a process in page_fault_handler. With nobody ready the code
        follows a NULL. */
    method OnExit()
      requires QueuesOk() && InPlace(S()) && S().ready != []
      modifies this, ready, dead, ready.Repr, dead.Repr
      ensures QueuesKept() && ExitStep(old(S())) == Some(S()) && E.Effect(old(S()), Exit, S())
      ensures (InPlace(S()) <==> old(Room(S(), Exit))) && (old(Inv(S()) && current != KERNEL) ==> Inv(S()))
    {
      KeepsExit(S());
      E.StepHasEffect(S(), Exit);
      EndCurrent();
    }

    method OnFork() returns (p: Pid)
      requires QueuesOk() && InPlace(S())
      modifies this, ready, dead, ready.Repr, dead.Repr
      ensures QueuesKept() && S() == NewProcess(old(S())) && p !in old(mode) && p in mode && E.Forked(old(S()), S())
      ensures (InPlace(S()) <==> old(Room(S(), Fork))) && (old(Inv(S()) && |Live(mode)| < MAX_READY) ==> Inv(S()))
    {
      ghost var before := S();
      Keeps(before, Fork);
      NewMode(before);
      E.NewProcessForks(before);
      p := Create();
    }

    method Turn()
      requires QueuesOk() && InPlace(S())
      modifies this, ready, dead, ready.Repr, dead.Repr
      ensures QueuesKept() && Dispatch(old(S())) == Some(S()) && Sound(S()) && old(current) in mode
    {
      InPlacePoised(S());
      TurnGoes(S());
      Preempt();
    }

    /** sysc_wait: the dispatch comes first, then the process is looked up. */
    method SwitchAndWait(pid: int)
      requires QueuesOk() && InPlace(S())
      modifies this, ready, dead, ready.Repr, dead.Repr
      ensures QueuesKept() && S() == WaitStep(old(S()), pid)
    {
      var process := current;
      Turn();
      var target := Find(Tree(parent, subs), KERNEL, pid, last);
      WaitOn(process, target);
    }

    method OnWait(pid: int)
      requires QueuesOk() && InPlace(S())
      modifies this, ready, dead, ready.Repr, dead.Repr
      ensures QueuesKept() && S() == WaitStep(old(S()), pid) && E.Effect(old(S()), Wait(pid), S())
      ensures (InPlace(S()) <==> old(Room(S(), Wait(pid)))) && (old(Inv(S()) && current != KERNEL) && pid != KERNEL ==> Inv(S()))
    {
      KeepsWait(S(), pid);
      E.WaitAwaits(S(), pid);
      SwitchAndWait(pid);
    }

    /** sysc_sleep. */
    method SwitchAndNap(time: int)
      requires QueuesOk() && InPlace(S())
      modifies this, ready, dead, ready.Repr, dead.Repr
      ensures QueuesKept() && S() == SleepStep(old(S()), time)
    {
      var process := current;
      Turn();
      Nap(process, time);
    }

    method OnSleep(time: int)
      requires QueuesOk() && InPlace(S())
      modifies this, ready, dead, ready.Repr, dead.Repr
      ensures QueuesKept() && S() == SleepStep(old(S()), time) && E.Effect(old(S()), Sleep(time), S())
      ensures (InPlace(S()) <==> old(Room(S(), Sleep(time)))) && (old(Inv(S()) && current != KERNEL) ==> Inv(S()))
    {
      KeepsSleep(S(), time);
      E.SleepNaps(S(), time);
      SwitchAndNap(time);
    }

    /** sysc_kill. */
    method KillProcess(pid: int) returns (r: int)
      requires QueuesOk() && InPlace(S())
      modifies this`mode, ready, dead, ready.Repr, dead.Repr
      ensures QueuesKept() && S() == KillStep(old(S()), pid)
      ensures r == 0 <==> old(Lookup(S(), pid)) != 0 && old(mode)[old(Lookup(S(), pid))] != Dead
    {
      var target := Find(Tree(parent, subs), KERNEL, pid, last);
      if target == 0 || mode[target] == Dead {
        return -1;
      }
      PurgeProcess(target);
      EnqueueDead(target);
      return 0;
    }

    method OnKill(pid: int) returns (r: int)
      requires QueuesOk() && InPlace(S())
      modifies this`mode, ready, dead, ready.Repr, dead.Repr
      ensures QueuesKept() && S() == KillStep(old(S()), pid) && E.Killed(old(S()), pid, S())
      ensures (InPlace(S()) <==> old(Room(S(), Kill(pid)))) && (old(Inv(S()) && Guard(S(), Kill(pid))) ==> Inv(S()))
      ensures r == 0 <==> old(Lookup(S(), pid)) != 0 && old(mode)[old(Lookup(S(), pid))] != Dead
      ensures r == 0 ==> pid in mode && mode[pid] == Dead
    {
      Keeps(S(), Kill(pid));
      E.KillKills(S(), pid);
      r := KillProcess(pid);
    }
  }

  /** Both results about one event. */
  lemma Keeps(s: State, e: Event)
    requires InPlace(s)
    ensures Room(s, e) <==> Step(s, e).Some? && InPlace(Step(s, e).value)
    ensures Inv(s) && Guard(s, e) ==> Goes(Step(s, e))
  {
    StepInPlaceIff(s, e);
    if Inv(s) && Guard(s, e) {
      StepKeeps(s, e);
    }
  }

  lemma KeepsWakeup(s: State, pid: int)
    requires InPlace(s)
    ensures InPlace(WakeUp(s, pid)) <==> (pid >= 0 && pid in PidsOf(s.naps) ==> |s.ready| < MAX_READY)
    ensures Inv(s) ==> Inv(WakeUp(s, pid))
  {
    Keeps(s, Wakeup(pid));
  }

  lemma KeepsExit(s: State)
    requires InPlace(s)
    ensures Room(s, Exit) <==> ExitStep(s).Some? && InPlace(ExitStep(s).value)
    ensures Inv(s) && s.current != KERNEL ==> Goes(ExitStep(s))
  {
    Keeps(s, Exit);
  }

  lemma KeepsWait(s: State, pid: int)
    requires InPlace(s)
    ensures Room(s, Wait(pid)) <==> InPlace(WaitStep(s, pid))
    ensures Inv(s) && s.current != KERNEL && pid != KERNEL ==> Inv(WaitStep(s, pid))
  {
    WaitIff(s, pid);
    if Inv(s) && s.current != KERNEL && pid != KERNEL {
      GuardGivesRoom(s, Wait(pid));
      WaitRunsOn(s, pid);
      InvFrom(s, WaitStep(s, pid));
    }
  }

  lemma KeepsSleep(s: State, time: int)
    requires InPlace(s)
    ensures Room(s, Sleep(time)) <==> InPlace(SleepStep(s, time))
    ensures Inv(s) && s.current != KERNEL ==> Inv(SleepStep(s, time))
  {
    SleepIff(s, time);
    if Inv(s) && s.current != KERNEL {
      GuardGivesRoom(s, Sleep(time));
      SleepRunsOn(s, time);
      InvFrom(s, SleepStep(s, time));
    }
  }

  lemma ElapseCons(s: State, ns: seq<Nap>, n: Nap, rest: seq<Nap>)
    requires ns != [] && ns[0] == n && ns[1..] == rest
    ensures Elapse(s, ns)
         == if n.counter - 1 <= 0 then Elapse(MakeReady(s, n.pid), rest)
            else Elapse(s.(naps := s.naps + [Nap(n.pid, n.counter - 1)]), rest)
  {
  }

  lemma AdoptNone(parent: map<Pid, Pid>, q: Pid)
    ensures Adopt(parent, [], q) == parent
  {
  }

  lemma AdoptMore(parent: map<Pid, Pid>, kids: seq<Pid>, k: Pid, q: Pid)
    ensures Adopt(parent, kids, q)[k := q] == Adopt(parent, kids + [k], q)
  {
  }

  lemma WakesAt(s: State, i: nat)
    requires i < |s.naps| && forall j :: 0 <= j < i ==> s.naps[j].pid != s.naps[i].pid
    ensures var p := s.naps[i].pid;
            p in PidsOf(s.naps)
            && WakeUp(s, p) == MakeReady(Purge(s.(naps := s.naps[..i] + s.naps[i + 1..]), p), p)
  {
    assert PidsOf(s.naps)[i] == s.naps[i].pid;
    DropAt(s.naps, s.naps[i].pid, i);
  }

  lemma {:induction false} DropAt(naps: seq<Nap>, pid: int, i: nat)
    requires i < |naps| && naps[i].pid == pid && forall j :: 0 <= j < i ==> naps[j].pid != pid
    ensures DropNap(naps, pid) == naps[..i] + naps[i + 1..]
    decreases i
  {
    if i > 0 {
      DropAt(naps[1..], pid, i - 1);
      assert [naps[0]] + naps[1..][..i - 1] == naps[..i];
    }
  }
}
