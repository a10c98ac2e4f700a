/** The state behind kernel/process/scheduler.c and what each of its functions, and the system
    calls on top of them, do to it. */
module Processes {
  import opened Machine
  import opened Links
  import opened ProcessTree

  const MAX_READY := 256
  const MAX_DEAD := 256

  datatype Mode = Ready | Living | Napping | Dead

  datatype Nap = Nap(pid: Pid, counter: int)

  /** The kernel process has no list of waiters. */
  datatype State = State(
    current: Pid,
    mode: map<Pid, Mode>,
    ready: seq<Pid>,
    dead: seq<Pid>,
    naps: seq<Nap>,
    waiters: map<Pid, seq<Pid>>,
    tree: Tree,
    last: Pid)

  datatype Event =
    | Tick
    | Timekeeper
    | Fork
    | Exit
    | Exec(ok: bool)
    | Wait(pid: int)
    | Sleep(time: int)
    | Wakeup(pid: int)
    | Kill(pid: int)

  // ---------------------------------------------------------------- the invariant

  /** q lists exactly the ready processes, each once. */
  ghost predicate Lines(mode: map<Pid, Mode>, q: seq<Pid>) {
    NoDup(q) && forall p :: p in q <==> p in mode && mode[p] == Ready
  }

  /** The ready queue, within its limit, holds exactly the ready processes, each once. */
  ghost predicate ReadyOk(mode: map<Pid, Mode>, ready: seq<Pid>) {
    Lines(mode, ready) && |ready| <= MAX_READY
  }

  /** The dead queue, within its limit, holds dead processes only, each at most once. */
  ghost predicate DeadOk(mode: map<Pid, Mode>, dead: seq<Pid>) {
    NoDup(dead) && |dead| <= MAX_DEAD && forall p :: p in dead ==> p in mode && mode[p] == Dead
  }

  function PidsOf(naps: seq<Nap>): (r: seq<Pid>)
    ensures |r| == |naps| && forall i :: 0 <= i < |r| ==> r[i] == naps[i].pid
  {
    seq(|naps|, i requires 0 <= i < |naps| => naps[i].pid)
  }

  ghost predicate Naps(naps: seq<Nap>, p: Pid) {
    p in PidsOf(naps)
  }

  ghost predicate Waits(waiters: map<Pid, seq<Pid>>, q: Pid, p: Pid) {
    q in waiters && p in waiters[q]
  }

  ghost predicate WaitsOnce(waiters: map<Pid, seq<Pid>>, q: Pid)
    requires q in waiters
  {
    NoDup(waiters[q])
  }

  /** A napping process is in exactly one place: once in the napping list, or once among the
      waiters of one process. */
  ghost predicate NapOk(mode: map<Pid, Mode>, naps: seq<Nap>, waiters: map<Pid, seq<Pid>>) {
    && NoDup(PidsOf(naps))
    && (forall q {:trigger WaitsOnce(waiters, q)} :: q in waiters ==> WaitsOnce(waiters, q))
    && (forall p {:trigger Naps(naps, p)} :: Naps(naps, p) ==> p in mode && mode[p] == Napping)
    && (forall q, p {:trigger Waits(waiters, q, p)} ::
          Waits(waiters, q, p) ==> p in mode && mode[p] == Napping && !Naps(naps, p))
    && (forall q, r, p {:trigger Waits(waiters, q, p), Waits(waiters, r, p)} ::
          Waits(waiters, q, p) && Waits(waiters, r, p) ==> q == r)
    && (forall p :: p in mode && mode[p] == Napping ==> Naps(naps, p) || exists q :: Waits(waiters, q, p))
  }

  /** No list refers to a destroyed process: tree, modes and waiter lists know the same ones. */
  ghost predicate KeysOk(s: State) {
    && (forall p :: p in s.mode <==> p in s.tree.subs)
    && (forall p :: p in s.waiters <==> p in s.mode && p != KERNEL)
    && (forall p :: p in s.mode ==> p <= s.last)
  }

  /** Everything but the ready queue is in order. */
  ghost predicate Sound(s: State) {
    Ok(s.tree) && KeysOk(s) && DeadOk(s.mode, s.dead) && NapOk(s.mode, s.naps, s.waiters)
  }

  ghost predicate Core(s: State) {
    Sound(s) && ReadyOk(s.mode, s.ready)
  }

  /** Each process is in exactly the place its mode says: running, once in the ready queue, once in
      the napping list or among the waiters of one process, or at most once in the dead queue. */
  ghost predicate InPlace(s: State) {
    && Core(s)
    && s.current in s.mode && (forall p :: p in s.mode ==> (s.mode[p] == Living <==> p == s.current))
  }

  /** The processes that are not dead; the dead may pile up. */
  function Live(mode: map<Pid, Mode>): set<Pid> {
    set p | p in mode && mode[p] != Dead
  }

  /** What a run needs to go on: places, no more live processes than the ready queue takes, and a
      kernel that can run. */
  ghost predicate Inv(s: State) {
    && InPlace(s) && |Live(s.mode)| <= MAX_READY
    && KERNEL in s.mode && s.mode[KERNEL] in {Ready, Living}
  }

  // ---------------------------------------------------------------- scheduler.c

  function Enqueued(q: seq<Pid>, p: Pid, limit: int): seq<Pid> {
    if |q| < limit then q + [p] else q
  }

  function MakeReady(s: State, p: Pid): State {
    s.(mode := s.mode[p := Ready], ready := Enqueued(s.ready, p, MAX_READY))
  }

  function MakeDead(s: State, p: Pid): State {
    s.(mode := s.mode[p := Dead], dead := Enqueued(s.dead, p, MAX_DEAD))
  }

  function Purge(s: State, p: Pid): State {
    s.(ready := Without(s.ready, p), dead := Without(s.dead, p))
  }

  function MakeNapping(s: State, p: Pid, time: int): State
    requires p in s.mode
  {
    if s.mode[p] == Dead || s.mode[p] == Napping then s
    else
      var t := Purge(s, p);
      t.(mode := t.mode[p := Napping], naps := t.naps + [Nap(p, time)])
  }

  /** The nappers in ns, in list order: one tick less each, and ready when none is left. */
  function Elapse(s: State, ns: seq<Nap>): State
    decreases |ns|
  {
    if ns == [] then s
    else if ns[0].counter - 1 <= 0 then Elapse(MakeReady(s, ns[0].pid), ns[1..])
    else Elapse(s.(naps := s.naps + [Nap(ns[0].pid, ns[0].counter - 1)]), ns[1..])
  }

  function Timekeep(s: State): State {
    Elapse(s.(naps := []), s.naps)
  }

  function DropNap(naps: seq<Nap>, pid: int): seq<Nap> {
    if naps == [] then [] else if naps[0].pid == pid then naps[1..] else [naps[0]] + DropNap(naps[1..], pid)
  }

  function WakeUp(s: State, pid: int): State {
    if pid >= 0 && pid in PidsOf(s.naps)
    then MakeReady(Purge(s.(naps := DropNap(s.naps, pid)), pid), pid)
    else s
  }

  function WaitFor(s: State, p: Pid, target: Pid): State {
    if target !in s.mode || s.mode[target] == Dead then s
    else
      Purge(s.(mode := s.mode[p := Napping],
               waiters := if target in s.waiters then s.waiters[target := s.waiters[target] + [p]] else s.waiters), p)
  }

  // ---------------------------------------------------------------- process.c

  /** proc_destroy readies the waiters one after the other. */
  function ReadyAll(s: State, ws: seq<Pid>): State
    decreases |ws|
  {
    if ws == [] then s else ReadyAll(MakeReady(Purge(s, ws[0]), ws[0]), ws[1..])
  }

  function DestroyProcess(s: State, d: Pid): State
    requires Ok(s.tree) && KeysOk(s) && d in s.mode
  {
    if d == KERNEL then s
    else
      assert Hangs(s.tree, d);
      var t := ReadyAll(s, s.waiters[d]);
      t.(mode := t.mode - {d}, waiters := t.waiters - {d}, tree := ProcessTree.Destroy(s.tree, d))
  }

  /** proc_create or proc_clone under the current process, and sched_make_ready. */
  function NewProcess(s: State): State
    requires s.current in s.tree.subs
  {
    var p := s.last + 1;
    MakeReady(s.(tree := Create(s.tree, p, s.current), waiters := s.waiters[p := []], last := p), p)
  }

  // ---------------------------------------------------------------- dispatching

  function Requeue(s: State): State
    requires s.current in s.mode
  {
    if s.mode[s.current] == Living then MakeReady(s, s.current) else s
  }

  /** The dead process that sched_get_next takes: destroyed only when the kernel was running. */
  function Reap(s: State): State
    requires Ok(s.tree) && KeysOk(s) && forall d :: d in s.dead ==> d in s.mode
  {
    if s.dead == [] then s
    else
      var t := s.(dead := s.dead[1..]);
      if s.current == KERNEL then DestroyProcess(t, s.dead[0]) else t
  }

  function Bury(s: State): State
    requires s.current in s.mode
  {
    if s.mode[s.current] == Dead then MakeDead(s, s.current) else s
  }

  lemma {:induction false} ReadyAllKeys(s: State, ws: seq<Pid>)
    ensures s.mode.Keys <= ReadyAll(s, ws).mode.Keys
    ensures ReadyAll(s, ws).current == s.current
    decreases |ws|
  {
    if ws != [] {
      ReadyAllKeys(MakeReady(Purge(s, ws[0]), ws[0]), ws[1..]);
    }
  }

  /** sched_preempt_handler. An empty ready queue gives no next state: the handler would follow
      the NULL that queue_dequeue returned. */
  function Dispatch(s: State): Option<State>
    requires Sound(s) && s.current in s.mode
  {
    var a := Requeue(s);
    if a.ready == [] then None
    else
      var next := a.ready[0];
      assert KeysOk(a.(ready := a.ready[1..]));
      var b := Reap(a.(ready := a.ready[1..]));
      ReapKeepsCurrent(a.(ready := a.ready[1..]));
      var c := Bury(b);
      Some(c.(mode := c.mode[next := Living], current := next))
  }

  lemma ReapKeepsCurrent(s: State)
    requires Ok(s.tree) && KeysOk(s) && s.current in s.mode && forall d :: d in s.dead ==> d in s.mode
    ensures Reap(s).current == s.current && s.current in Reap(s).mode
  {
    if s.dead != [] && s.current == KERNEL && s.dead[0] != KERNEL {
      var t := s.(dead := s.dead[1..]);
      ReadyAllKeys(t, t.waiters[s.dead[0]]);
    }
  }
}
