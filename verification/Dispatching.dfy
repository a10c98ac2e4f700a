/** What sched_preempt_handler does to the places of processes. */
module Dispatching {
  import opened Machine
  import opened Links
  import opened ProcessTree
  import opened Processes
  import opened Places
  import opened Scheduling

  /** The current process is running, or has just been marked dead; no other is running. */
  ghost predicate Poised(s: State) {
    && Core(s) && s.current in s.mode
    && (s.mode[s.current] == Living || (s.mode[s.current] == Dead && s.current !in s.dead))
    && forall p :: p in s.mode && p != s.current ==> s.mode[p] != Living
  }

  /** The head of the dead queue is destroyed: only while the kernel is running. */
  predicate Reaps(s: State) {
    s.current == KERNEL && s.dead != []
  }

  /** The processes that reaping readies. */
  function Reaped(s: State): seq<Pid> {
    if Reaps(s) && s.dead[0] in s.waiters then s.waiters[s.dead[0]] else []
  }

  function Tail(q: seq<Pid>): seq<Pid> {
    if q == [] then [] else q[1..]
  }

  function LeftWaiters(s: State): map<Pid, seq<Pid>> {
    if Reaps(s) then s.waiters - {s.dead[0]} else s.waiters
  }

  function LeftTree(s: State): Tree
    requires Ok(s.tree) && KeysOk(s) && (Reaps(s) ==> s.dead[0] in s.mode && s.dead[0] != KERNEL)
  {
    if Reaps(s) then assert Hangs(s.tree, s.dead[0]); ProcessTree.Destroy(s.tree, s.dead[0]) else s.tree
  }

  /** The queue that the next process is taken from. */
  function Queue(s: State): seq<Pid>
    requires s.current in s.mode
  {
    Requeue(s).ready
  }

  /** Who is to stand in the ready queue after the dispatch. */
  function Line(s: State): seq<Pid>
    requires s.current in s.mode && Queue(s) != []
  {
    Queue(s)[1..] + Reaped(s)
  }

  /** The modes after the dispatch. */
  function LeftMode(s: State): map<Pid, Mode>
    requires s.current in s.mode && Queue(s) != []
  {
    var mode := Requeue(s).mode;
    (if Reaps(s) then Woken(mode, Reaped(s)) - {s.dead[0]} else mode)[Queue(s)[0] := Living]
  }

  lemma DeadHead(s: State)
    requires Sound(s) && s.current !in s.dead && Reaps(s)
    ensures s.dead[0] in s.mode && s.mode[s.dead[0]] == Dead && s.dead[0] != KERNEL && s.dead[0] in s.waiters
    ensures s.dead[0] !in s.dead[1..]
  {
    assert s.dead[0] in s.dead;
    HeadOut(s.dead);
  }

  lemma RequeueKeeps(s: State)
    requires Poised(s)
    ensures var a := Requeue(s);
            && Sound(a) && |a.ready| <= MAX_READY && a == s.(mode := a.mode, ready := a.ready)
            && (forall p :: p in a.ready ==> p in a.mode && a.mode[p] == Ready)
            && a.mode == (if s.mode[s.current] == Living then s.mode[s.current := Ready] else s.mode)
            && a.ready == (if s.mode[s.current] == Living then Trunc(s.ready + [s.current]) else s.ready)
  {
    if s.mode[s.current] == Living {
      SoundMode(s, Requeue(s), s.current, Ready);
      EnqueuedIs(s.ready, s.current);
    }
  }

  /** Reaping takes the head of the dead queue, whether it is destroyed or only dropped. */
  lemma ReapIs(b: State)
    requires Sound(b) && b.current !in b.dead && |b.ready| <= MAX_READY
    requires forall p :: p in b.ready ==> p in b.mode && b.mode[p] == Ready
    ensures Reaps(b) ==> b.dead[0] in b.mode && b.dead[0] != KERNEL
    ensures Reap(b) == b.(
      mode := if Reaps(b) then Woken(b.mode, Reaped(b)) - {b.dead[0]} else b.mode,
      ready := Trunc(b.ready + Reaped(b)), dead := Tail(b.dead), waiters := LeftWaiters(b), tree := LeftTree(b))
    ensures Sound(Reap(b))
  {
    if b.dead == [] {
      QueueNone(b.ready);
    } else {
      HeadOut(b.dead);
      var c := b.(dead := b.dead[1..]);
      if Reaps(b) {
        DeadHead(b);
        DestroyIs(c, b.dead[0]);
      } else {
        QueueNone(b.ready);
      }
    }
  }

  lemma BuryIs(d: State)
    requires Sound(d) && d.current in d.mode && d.current !in d.dead && |d.dead| < MAX_DEAD
    ensures Bury(d) == d.(dead := d.dead + if d.mode[d.current] == Dead then [d.current] else [])
    ensures Sound(Bury(d))
  {
    if d.mode[d.current] == Dead {
      SoundMakeDead(d, d.current);
      assert d.mode[d.current := Dead] == d.mode;
    } else {
      assert d.dead + [] == d.dead;
    }
  }

  /** Where everything is after a dispatch, whatever fits in the ready queue. */
  function Dispatched(s: State): State
    requires Sound(s) && s.current in s.mode && Queue(s) != [] && (Reaps(s) ==> s.dead[0] in s.mode && s.dead[0] != KERNEL)
  {
    State(Queue(s)[0], LeftMode(s), Trunc(Line(s)),
          Tail(s.dead) + (if s.mode[s.current] == Dead then [s.current] else []),
          s.naps, LeftWaiters(s), LeftTree(s), s.last)
  }

  lemma DispatchIs(s: State)
    requires Poised(s) && Queue(s) != []
    ensures Reaps(s) ==> s.dead[0] in s.mode && s.dead[0] != KERNEL
    ensures Dispatch(s) == Some(Dispatched(s)) && Sound(Dispatched(s))
  {
    RequeueKeeps(s);
    var a := Requeue(s);
    var b := a.(ready := a.ready[1..]);
    assert a.ready[0] in a.ready;
    ReapIs(b);
    LeftModes(s);
    ReapKeepsCurrent(b);
    var d := Reap(b);
    assert d.current == s.current && d.mode[s.current] == Dead <==> s.mode[s.current] == Dead;
    BuryIs(d);
    var e := Bury(d);
    SoundMode(e, Dispatched(s), a.ready[0], Living);
  }

  /** What a dispatch from x to next does to the modes: next lives, x is ready if it was living,
      those readied by reaping are ready, and nobody else is touched or forgotten. */
  ghost predicate Switched(mode: map<Pid, Mode>, x: Pid, next: Pid, ws: seq<Pid>, m: map<Pid, Mode>)
    requires x in mode
  {
    && next in m && x in m && (next == x || (next in mode && mode[next] == Ready))
    && (forall p :: p in m ==> p in mode && (m[p] == Living <==> p == next) && (m[p] == Dead <==> mode[p] == Dead))
    && (forall p :: p in mode && mode[p] != Dead ==> p in m)
    && (forall p :: p in mode && mode[p] == Ready ==> m[p] in {Ready, Living})
    && (forall p :: p in mode && mode[p] == Napping ==> m[p] == if p in ws then Ready else Napping)
    && (mode[x] == Living ==> m[x] == if next == x then Living else Ready)
  }

  lemma LeftModes(s: State)
    requires Poised(s) && Queue(s) != []
    ensures Switched(s.mode, s.current, Queue(s)[0], Reaped(s), LeftMode(s))
    ensures forall p :: p in s.mode && p !in LeftMode(s) ==> Reaps(s) && p == s.dead[0]
  {
    RequeueKeeps(s);
    assert Queue(s)[0] in Queue(s);
    if Reaps(s) {
      DeadHead(s);
      WaitersNap(s, s.dead[0]);
      SwitchedReaping(s.mode, s.current, Queue(s)[0], Reaped(s), s.dead[0]);
    } else {
      SwitchedPlain(s.mode, s.current, Queue(s)[0]);
    }
  }

  lemma SwitchedPlain(mode: map<Pid, Mode>, x: Pid, next: Pid)
    requires x in mode && mode[x] in {Living, Dead} && forall p :: p in mode && p != x ==> mode[p] != Living
    requires next in mode && (mode[next] == Ready || (mode[x] == Living && next == x))
    ensures Switched(mode, x, next, [], (if mode[x] == Living then mode[x := Ready] else mode)[next := Living])
  {
  }

  lemma SwitchedReaping(mode: map<Pid, Mode>, x: Pid, next: Pid, ws: seq<Pid>, d: Pid)
    requires x in mode && mode[x] in {Living, Dead} && forall p :: p in mode && p != x ==> mode[p] != Living
    requires next in mode && (mode[next] == Ready || (mode[x] == Living && next == x))
    requires d in mode && mode[d] == Dead && d != x && forall w :: w in ws ==> w in mode && mode[w] == Napping
    ensures Switched(mode, x, next, ws, (Woken(if mode[x] == Living then mode[x := Ready] else mode, ws) - {d})[next := Living])
  {
  }

  // ---------------------------------------------------------------- the ready queue

  lemma WokenCommutes(mode: map<Pid, Mode>, ws: seq<Pid>, next: Pid, d: Pid)
    requires next in mode && next !in ws && next != d
    ensures (Woken(mode, ws) - {d})[next := Living] == Woken(mode[next := Living], ws) - {d}
  {
  }

  /** If the process that ran was queued, the line is right. */
  lemma LineIs(s: State)
    requires Poised(s) && Queue(s) != [] && (s.mode[s.current] == Living ==> |s.ready| < MAX_READY)
    ensures Lines(LeftMode(s), Line(s))
  {
    RequeueKeeps(s);
    var a, next := Requeue(s), Queue(s)[0];
    if s.mode[s.current] == Living {
      LinesAdd(s.mode, s.ready, s.current);
    }
    LinesTake(a.mode, a.ready);
    var taken := a.mode[next := Living];
    if Reaps(s) {
      DeadHead(s);
      WaitersNap(a, s.dead[0]);
      DestroyedLines(taken, a.ready[1..], Reaped(s), s.dead[0]);
      WokenCommutes(a.mode, Reaped(s), next, s.dead[0]);
    } else {
      assert a.ready[1..] + Reaped(s) == a.ready[1..];
    }
  }

  /** If it was not, because the queue was full, it is ready and in no queue. */
  lemma RunnerLost(s: State)
    requires Poised(s) && s.mode[s.current] == Living && |s.ready| == MAX_READY
    ensures Queue(s) == s.ready && s.current in LeftMode(s) && LeftMode(s)[s.current] == Ready
    ensures s.current !in Trunc(Line(s))
  {
    RequeueKeeps(s);
    assert (s.ready + [s.current])[..MAX_READY] == s.ready;
    assert s.ready[0] in s.ready;
    LeftModes(s);
    if Reaps(s) {
      DeadHead(s);
      WaitersNap(s, s.dead[0]);
    }
    assert s.current !in Line(s);
  }

  /** All are in place after a dispatch if and only if the process that ran, if it lives, could be
      queued and so could all that reaping readies. */
  lemma DispatchIff(s: State)
    requires Poised(s) && Queue(s) != []
    ensures Dispatch(s).Some?
    ensures InPlace(Dispatch(s).value)
       <==> (s.mode[s.current] == Living ==> |s.ready| < MAX_READY) && |Line(s)| <= MAX_READY
  {
    DispatchIs(s);
    LeftModes(s);
    QueueIff(s);
    InPlaceIff(Dispatched(s));
  }

  lemma InPlaceIff(t: State)
    requires Sound(t) && t.current in t.mode && forall p :: p in t.mode ==> (t.mode[p] == Living <==> p == t.current)
    ensures InPlace(t) <==> ReadyOk(t.mode, t.ready)
  {
  }

  lemma QueueIff(s: State)
    requires Poised(s) && Queue(s) != []
    ensures ReadyOk(LeftMode(s), Trunc(Line(s)))
       <==> (s.mode[s.current] == Living ==> |s.ready| < MAX_READY) && |Line(s)| <= MAX_READY
  {
    if s.mode[s.current] == Living && |s.ready| == MAX_READY {
      RunnerLost(s);
    } else {
      LineIs(s);
      TruncIff(LeftMode(s), Line(s));
    }
  }

  lemma LineLength(s: State)
    requires Poised(s) && Queue(s) != []
    ensures s.mode[s.current] == Living ==> |Line(s)| == (if |s.ready| < MAX_READY then |s.ready| else MAX_READY - 1) + |Reaped(s)|
    ensures s.mode[s.current] == Dead ==> |Line(s)| == |s.ready| - 1 + |Reaped(s)|
  {
    RequeueKeeps(s);
  }

  // ---------------------------------------------------------------- without the process that ran

  /** The others are in line after a dispatch, if they fit: so the process that ran may go elsewhere,
      whether it had found a place in the queue or not. */
  lemma OthersIff(s: State, m: Mode)
    requires Poised(s) && s.mode[s.current] == Living && s.ready != [] && m != Ready
    ensures Queue(s) != []
    ensures ReadyOk(LeftMode(s)[s.current := m], Without(Trunc(Line(s)), s.current)) <==> |Line(s)| <= MAX_READY
  {
    RequeueKeeps(s);
    var x, mode, line := s.current, LeftMode(s)[s.current := m], Line(s);
    OthersLine(s, m);
    if |line| <= MAX_READY {
      WithoutShorter(line, x);
    } else {
      WithoutShorter(Trunc(line), x);
      LostAtEnd(s);
      WithoutIs(line, x);
      WithoutIs(Trunc(line), x);
    }
  }

  lemma OthersLine(s: State, m: Mode)
    requires Poised(s) && s.mode[s.current] == Living && s.ready != [] && m != Ready && Queue(s) != []
    ensures Lines(LeftMode(s)[s.current := m], Without(Line(s), s.current))
  {
    if |s.ready| < MAX_READY {
      LineIs(s);
      LinesRemove(LeftMode(s), Line(s), s.current, m);
    } else {
      RunnerLost(s);
      FullLine(s);
      LinesRemove(LeftMode(s)[s.current := Living], Line(s), s.current, m);
      Overwrite(LeftMode(s), s.current, Living, m);
    }
  }

  lemma Overwrite(mode: map<Pid, Mode>, p: Pid, m: Mode, n: Mode)
    ensures mode[p := m][p := n] == mode[p := n]
  {
  }

  /** A full queue: everybody but the process that ran is in line. */
  lemma FullLine(s: State)
    requires Poised(s) && s.mode[s.current] == Living && |s.ready| == MAX_READY && Queue(s) == s.ready
    ensures Lines(LeftMode(s)[s.current := Living], Line(s)) && s.current !in Line(s)
  {
    var x, next, ws := s.current, s.ready[0], Reaped(s);
    LinesTake(s.mode, s.ready);
    var taken := s.mode[next := Living];
    assert s.ready[0] in s.ready;
    if Reaps(s) {
      DeadHead(s);
      WaitersNap(s, s.dead[0]);
      DestroyedLines(taken, s.ready[1..], ws, s.dead[0]);
      FullModes(s.mode, x, ws, next, s.dead[0]);
    } else {
      assert s.ready[1..] + ws == s.ready[1..];
      assert s.mode[x := Ready][next := Living][x := Living] == taken;
    }
  }

  lemma FullModes(mode: map<Pid, Mode>, x: Pid, ws: seq<Pid>, next: Pid, d: Pid)
    requires x in mode && mode[x] == Living && x !in ws && x != d && next in mode && next !in ws && next != d && next != x
    ensures (Woken(mode[x := Ready], ws) - {d})[next := Living][x := Living] == Woken(mode[next := Living], ws) - {d}
  {
  }

  /** What a full queue refuses comes behind the process that ran. */
  lemma LostAtEnd(s: State)
    requires Poised(s) && s.mode[s.current] == Living && s.ready != [] && Queue(s) != [] && |Line(s)| > MAX_READY
    ensures Line(s)[MAX_READY] != s.current && Line(s)[MAX_READY] in Line(s) && Line(s)[MAX_READY] !in Trunc(Line(s))
  {
    RequeueKeeps(s);
    var line := Line(s);
    assert NoDup(line) by {
      if |s.ready| < MAX_READY {
        LineIs(s);
      } else {
        RunnerLost(s);
        FullLine(s);
      }
    }
    if |s.ready| < MAX_READY {
      assert line[|s.ready| - 1] == s.current;
    } else {
      RunnerLost(s);
      FullLine(s);
    }
  }

  lemma {:induction false} WithoutShorter<T>(s: seq<T>, x: T)
    ensures |Without(s, x)| <= |s|
    decreases |s|
  {
    if s != [] {
      WithoutShorter(s[..|s| - 1], x);
    }
  }
}
