/** When a ready process gets its turn, and when a napping one is ready again. */
module Fairness {
  import opened Machine
  import opened Links
  import opened ProcessTree
  import opened Processes
  import opened Places
  import opened Scheduling
  import opened Dispatching
  import opened Lifecycle

  // ---------------------------------------------------------------- round robin

  /** Events that switch to another process, once each. */
  function Switches(e: Event): nat {
    match e
    case Tick | Exit | Exec(_) | Wait(_) | Sleep(_) => 1
    case Timekeeper | Fork | Wakeup(_) | Kill(_) => 0
  }

  function SwitchCount(es: seq<Event>): nat {
    if es == [] then 0 else Switches(es[0]) + SwitchCount(es[1..])
  }

  /** Somewhere along es, within the first n switches, p runs. */
  ghost predicate RunsWithin(s: State, es: seq<Event>, p: Pid, n: nat)
    requires Inv(s) && Allowed(s, es)
    decreases |es|
  {
    || s.current == p
    || (es != [] && Switches(es[0]) <= n
        && (StepKeeps(s, es[0]); RunsWithin(Step(s, es[0]).value, es[1..], p, n - Switches(es[0]))))
  }

  /** p is ready with at most k others before it. */
  ghost predicate Ahead(ready: seq<Pid>, p: Pid, k: int) {
    exists i :: 0 <= i <= k && i < |ready| && ready[i] == p
  }

  lemma {:induction false} AheadWithout(ready: seq<Pid>, p: Pid, k: int, x: Pid)
    requires Ahead(ready, p, k) && x != p
    ensures Ahead(Without(ready, x), p, k)
    decreases |ready|
  {
    var i :| 0 <= i <= k && i < |ready| && ready[i] == p;
    var front := ready[..|ready| - 1];
    if i < |ready| - 1 {
      assert front[i] == p;
      AheadWithout(front, p, k, x);
      var j :| 0 <= j <= k && j < |Without(front, x)| && Without(front, x)[j] == p;
      assert Without(ready, x)[j] == p;
    } else {
      WithoutShorter(front, x);
      assert Without(ready, x)[|Without(front, x)|] == p;
    }
  }

  /** Whatever is queued behind, and whatever a full queue refuses, p keeps its place. */
  lemma AheadMore(ready: seq<Pid>, p: Pid, k: int, more: seq<Pid>)
    requires Ahead(ready, p, k) && |ready| <= MAX_READY
    ensures Ahead(Trunc(ready + more), p, k)
  {
    var i :| 0 <= i <= k && i < |ready| && ready[i] == p;
    assert Trunc(ready + more)[i] == p;
  }

  lemma AheadTail(ready: seq<Pid>, p: Pid, k: int)
    requires Ahead(ready, p, k) && ready[0] != p
    ensures Ahead(ready[1..], p, k - 1)
  {
    var i :| 0 <= i <= k && i < |ready| && ready[i] == p;
    assert ready[1..][i - 1] == p;
  }

  /** A dispatch runs p or brings it one place forward. */
  lemma DispatchAdvances(s: State, p: Pid, k: nat)
    requires Poised(s) && Queue(s) != [] && Ahead(Queue(s), p, k)
    ensures Dispatch(s).Some?
    ensures var t := Dispatch(s).value; t.current == p || (k > 0 && Ahead(t.ready, p, k - 1))
  {
    RequeueKeeps(s);
    DispatchIs(s);
    if Queue(s)[0] != p {
      AheadTail(Queue(s), p, k);
      AheadMore(Queue(s)[1..], p, k - 1, Reaped(s));
    }
  }

  lemma TickAdvances(s: State, p: Pid, k: nat)
    requires InPlace(s) && Ahead(s.ready, p, k)
    ensures Dispatch(s).Some?
    ensures var t := Dispatch(s).value; t.current == p || (k > 0 && Ahead(t.ready, p, k - 1))
  {
    InPlacePoised(s);
    AheadMore(s.ready, p, k, [s.current]);
    DispatchAdvances(s, p, k);
  }

  lemma ExitAdvances(s: State, p: Pid, k: nat)
    requires InPlace(s) && Ahead(s.ready, p, k)
    ensures ExitStep(s).Some?
    ensures var t := ExitStep(s).value; t.current == p || (k > 0 && Ahead(t.ready, p, k - 1))
  {
    DyingPoised(s);
    DispatchAdvances(Dying(s), p, k);
  }

  lemma NotCurrent(s: State, p: Pid, k: nat)
    requires InPlace(s) && Ahead(s.ready, p, k)
    ensures p != s.current && p in s.mode && s.mode[p] == Ready && s.ready != []
  {
    assert p in s.ready;
  }

  lemma SleepAdvances(s: State, p: Pid, k: nat, time: int)
    requires InPlace(s) && Ahead(s.ready, p, k)
    ensures var t := SleepStep(s, time); t.current == p || (k > 0 && Ahead(t.ready, p, k - 1))
  {
    NotCurrent(s, p, k);
    TickAdvances(s, p, k);
    NapIs(s, time);
    var t := Dispatch(s).value;
    if t.current != p {
      AheadWithout(t.ready, p, k - 1, s.current);
    }
  }

  lemma WaitAdvances(s: State, p: Pid, k: nat, pid: int)
    requires InPlace(s) && Ahead(s.ready, p, k)
    ensures var t := WaitStep(s, pid); t.current == p || (k > 0 && Ahead(t.ready, p, k - 1))
  {
    NotCurrent(s, p, k);
    TickAdvances(s, p, k);
    TurnGoes(s);
    WaitAhead(Dispatch(s).value, s.current, Awaited(s, pid), p, k - 1);
  }

  lemma WaitAhead(t: State, x: Pid, target: Pid, p: Pid, k: int)
    requires x != p
    ensures WaitFor(t, x, target).current == t.current
    ensures Ahead(t.ready, p, k) ==> Ahead(WaitFor(t, x, target).ready, p, k)
  {
    if Ahead(t.ready, p, k) {
      AheadWithout(t.ready, p, k, x);
    }
  }

  /** No event but a kill of p sets a ready process back, and each switch brings it forward. */
  lemma StepAdvances(s: State, e: Event, p: Pid, k: nat)
    requires InPlace(s) && Ahead(s.ready, p, k) && e != Kill(p)
    ensures Step(s, e).Some?
    ensures var t := Step(s, e).value; t.current == p || (Switches(e) <= k && Ahead(t.ready, p, k - Switches(e)))
  {
    match e
    case Tick => TickAdvances(s, p, k);
    case Timekeeper => TimekeeperAdvances(s, p, k);
    case Fork => ForkAdvances(s, p, k);
    case Exit => ExitAdvances(s, p, k);
    case Exec(ok) =>
      if ok {
        TickAdvances(s, p, k);
      } else {
        ExitAdvances(s, p, k);
      }
    case Wait(pid) => WaitAdvances(s, p, k, pid);
    case Sleep(time) => SleepAdvances(s, p, k, time);
    case Wakeup(pid) => WakeupAdvances(s, p, k, pid);
    case Kill(pid) =>
      if Lookup(s, pid) != 0 {
        AheadWithout(s.ready, p, k, Lookup(s, pid));
      }
  }

  lemma TimekeeperAdvances(s: State, p: Pid, k: nat)
    requires InPlace(s) && Ahead(s.ready, p, k)
    ensures Ahead(Timekeep(s).ready, p, k)
  {
    TimekeepIff(s);
    AheadMore(s.ready, p, k, Expired(s.naps));
  }

  lemma ForkAdvances(s: State, p: Pid, k: nat)
    requires InPlace(s) && Ahead(s.ready, p, k)
    ensures Ahead(NewProcess(s).ready, p, k)
  {
    NewProcessIff(s);
    AheadMore(s.ready, p, k, [s.last + 1]);
  }

  lemma WakeupAdvances(s: State, p: Pid, k: nat, pid: int)
    requires InPlace(s) && Ahead(s.ready, p, k)
    ensures Ahead(WakeUp(s, pid).ready, p, k)
  {
    if pid >= 0 && Naps(s.naps, pid) {
      WakeUpIff(s, pid);
      AheadMore(s.ready, p, k, [pid]);
    }
  }

  /** Round robin: with k others before it, p runs within k + 1 switches, whatever else happens. */
  lemma {:induction false} TurnComes(s: State, es: seq<Event>, p: Pid, k: nat)
    requires Inv(s) && Allowed(s, es) && Ahead(s.ready, p, k) && Kill(p) !in es && SwitchCount(es) > k
    ensures RunsWithin(s, es, p, k + 1)
    decreases |es|
  {
    var t := FirstStep(s, es);
    StepAdvances(s, es[0], p, k);
    Unfold(s, es, t, p, k + 1);
    if t.current != p {
      TurnComes(t, es[1..], p, k - Switches(es[0]));
    }
  }

  lemma Unfold(s: State, es: seq<Event>, t: State, p: Pid, n: nat)
    requires Inv(s) && Allowed(s, es) && es != [] && Step(s, es[0]) == Some(t) && Inv(t) && Allowed(t, es[1..])
    requires Switches(es[0]) <= n
    ensures t.current == p || RunsWithin(t, es[1..], p, n - Switches(es[0])) ==> RunsWithin(s, es, p, n)
  {
    if t.current == p {
      assert RunsWithin(t, es[1..], p, n - Switches(es[0]));
    }
  }

  // ---------------------------------------------------------------- napping

  function Timekeepings(es: seq<Event>): nat {
    if es == [] then 0 else (if es[0].Timekeeper? then 1 else 0) + Timekeepings(es[1..])
  }

  lemma {:induction false} StaysListed(naps: seq<Nap>, n: Nap, pid: int)
    requires n in naps && n.pid != pid
    ensures n in DropNap(naps, pid)
    decreases |naps|
  {
    if naps[0].pid != pid && n != naps[0] {
      assert naps == [naps[0]] + naps[1..];
      StaysListed(naps[1..], n, pid);
    }
  }

  lemma {:induction false} OneTickLess(naps: seq<Nap>, n: Nap)
    requires n in naps
    ensures if n.counter <= 1 then n.pid in Expired(naps) else Nap(n.pid, n.counter - 1) in Survivors(naps)
    decreases |naps|
  {
    if n != naps[0] {
      assert naps == [naps[0]] + naps[1..];
      OneTickLess(naps[1..], n);
    }
  }

  lemma Napper(s: State, n: Nap)
    requires InPlace(s) && n in s.naps
    ensures n.pid in s.mode && s.mode[n.pid] == Napping && n.pid != s.current
  {
    var i :| 0 <= i < |s.naps| && s.naps[i] == n;
    assert PidsOf(s.naps)[i] == n.pid;
    assert Naps(s.naps, n.pid);
  }

  /** Only the timekeeper and a wake-up of its process change an entry of the napping list. */
  lemma StepNaps(s: State, e: Event, n: Nap)
    requires InPlace(s) && n in s.naps && e != Wakeup(n.pid) && Step(s, e).Some?
    ensures var t := Step(s, e).value;
            if !e.Timekeeper? then n in t.naps
            else if n.counter <= 1 then n.pid in t.mode && t.mode[n.pid] == Ready
            else Nap(n.pid, n.counter - 1) in t.naps
  {
    Napper(s, n);
    match e
    case Tick => TurnGoes(s);
    case Timekeeper =>
      TimekeepIff(s);
      OneTickLess(s.naps, n);
    case Fork =>
    case Exit => ExitNaps(s);
    case Exec(ok) => TurnGoes(s); ExitNaps(s);
    case Wait(pid) => TurnGoes(s);
    case Sleep(time) => TurnGoes(s);
    case Wakeup(pid) => StaysListed(s.naps, n, pid);
    case Kill(pid) =>
  }

  lemma ExitNaps(s: State)
    requires InPlace(s)
    ensures ExitStep(s).Some? ==> ExitStep(s).value.naps == s.naps
  {
    ExitIff(s);
    if s.ready != [] {
      ExitQueues(s);
    }
  }

  function Max(a: int, b: int): int {
    if a > b then a else b
  }

  /** Where a nap of c ticks stands in u after j timekeeper runs, the last of them just now or not:
      still listed, with j ticks less, before the max(c, 1)-th run, and over right after that one. */
  ghost predicate NapStands(u: State, p: Pid, c: int, j: nat, justNow: bool) {
    && (j < Max(c, 1) ==> Nap(p, c - j) in u.naps)
    && (j == Max(c, 1) && justNow ==> p in u.mode && u.mode[p] == Ready)
  }

  ghost predicate EndsTimekeeping(es: seq<Event>) {
    es != [] && es[|es| - 1] == Timekeeper
  }

  lemma NapStep(s: State, es: seq<Event>, p: Pid, c: int) returns (t: State)
    requires Inv(s) && Allowed(s, es) && es != [] && Nap(p, c) in s.naps && Wakeup(p) !in es
    ensures Wakeup(p) !in es[1..]
    ensures Inv(t) && Allowed(t, es[1..]) && After(s, es) == After(t, es[1..])
    ensures es[0].Timekeeper? && c <= 1 ==> NapStands(t, p, c, 1, true)
    ensures es[0].Timekeeper? && c > 1 ==> Nap(p, c - 1) in t.naps
    ensures !es[0].Timekeeper? ==> Nap(p, c) in t.naps
  {
    t := FirstStep(s, es);
    StepNaps(s, es[0], Nap(p, c));
  }

  /** A nap that is not woken earlier ends with the max(c, 1)-th timekeeper run from now. */
  lemma {:induction false} NapLasts(s: State, es: seq<Event>, p: Pid, c: int)
    requires Inv(s) && Allowed(s, es) && Nap(p, c) in s.naps && Wakeup(p) !in es
    ensures NapStands(After(s, es), p, c, Timekeepings(es), EndsTimekeeping(es))
    decreases |es|
  {
    if es == [] {
      AfterNone(s);
    } else {
      var rest, tick := es[1..], es[0].Timekeeper?;
      var t := NapStep(s, es, p, c);
      if tick && c <= 1 {
        NapOver(t, p, c, es);
      } else {
        var left := if tick then c - 1 else c;
        NapLasts(t, rest, p, left);
        Runs(es);
        NapMoves(After(t, rest), p, c, tick, Timekeepings(rest), EndsTimekeeping(rest), Timekeepings(es), EndsTimekeeping(es));
      }
    }
  }

  lemma NapOver(t: State, p: Pid, c: int, es: seq<Event>)
    requires Inv(t) && es != [] && Allowed(t, es[1..]) && es[0].Timekeeper? && c <= 1 && NapStands(t, p, c, 1, true)
    ensures NapStands(After(t, es[1..]), p, c, Timekeepings(es), EndsTimekeeping(es))
  {
    Runs(es);
    if es[1..] == [] {
      AfterNone(t);
    }
  }

  lemma Runs(es: seq<Event>)
    requires es != []
    ensures Timekeepings(es) == (if es[0].Timekeeper? then 1 else 0) + Timekeepings(es[1..])
    ensures es[1..] != [] ==> EndsTimekeeping(es) == EndsTimekeeping(es[1..])
    ensures es[1..] == [] ==> Timekeepings(es[1..]) == 0 && EndsTimekeeping(es) == es[0].Timekeeper?
    ensures es[1..] != [] && EndsTimekeeping(es) ==> Timekeepings(es[1..]) > 0
  {
    if es[1..] != [] {
      assert es[1..][|es| - 2] == es[|es| - 1];
      SomeTimekeeping(es[1..]);
    }
  }

  lemma AfterNone(s: State)
    requires Inv(s)
    ensures After(s, []) == s
  {
  }

  /** From the rest of a run to the whole of it: a timekeeper run in front is one run more. */
  lemma NapMoves(u: State, p: Pid, c: int, tick: bool, j: nat, now: bool, more: nat, ends: bool)
    requires more == j + (if tick then 1 else 0)
    requires (tick ==> c > 1) && NapStands(u, p, if tick then c - 1 else c, j, now) && (ends ==> now || (tick && j == 0))
    ensures NapStands(u, p, c, more, ends)
  {
    if tick && c > 1 {
      assert (c - 1) - j == c - more;
    }
  }

  lemma {:induction false} SomeTimekeeping(es: seq<Event>)
    requires es != []
    ensures es[|es| - 1] == Timekeeper ==> Timekeepings(es) > 0
    decreases |es|
  {
    if |es| > 1 {
      SomeTimekeeping(es[1..]);
    }
  }

  lemma SleepLists(s: State, time: int)
    requires Inv(s) && s.current != KERNEL
    ensures Nap(s.current, time) in SleepStep(s, time).naps
  {
    KernelWaits(s);
    NapIs(s, time);
  }

  /** sysc_sleep(time): ready again after exactly max(time, 1) timekeeper runs. */
  lemma SleepLasts(s: State, time: int, es: seq<Event>)
    requires Inv(s) && s.current != KERNEL && Wakeup(s.current) !in es
    requires Allowed(s, [Sleep(time)] + es)
    ensures NapStands(After(s, [Sleep(time)] + es), s.current, time, Timekeepings(es), EndsTimekeeping(es))
  {
    var all := [Sleep(time)] + es;
    assert all[0] == Sleep(time) && all[1..] == es;
    var t := FirstStep(s, all);
    SleepLists(s, time);
    NapLasts(t, es, s.current, time);
  }
}
