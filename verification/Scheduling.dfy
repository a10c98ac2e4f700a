/** What waking, timekeeping, destroying and creating do to the places of processes. The ready
    queue may be full: then it keeps what it has. */
module Scheduling {
  import opened Links
  import opened ProcessTree
  import opened Processes
  import opened Places

  // ---------------------------------------------------------------- waking several processes

  function Woken(mode: map<Pid, Mode>, ws: seq<Pid>): map<Pid, Mode> {
    map p | p in mode :: if p in ws then Ready else mode[p]
  }

  lemma WokenMore(mode: map<Pid, Mode>, w: Pid, ws: seq<Pid>)
    requires w in mode
    ensures Woken(mode[w := Ready], ws) == Woken(mode, [w] + ws)
  {
  }

  lemma WokenNone(mode: map<Pid, Mode>)
    ensures Woken(mode, []) == mode
  {
  }

  lemma Regroup<T>(a: seq<T>, x: T, b: seq<T>)
    ensures (a + [x]) + b == a + ([x] + b)
  {
  }

  /** Queueing one and then the others is queueing them all, in order. */
  lemma QueueMore(ready: seq<Pid>, w: Pid, ws: seq<Pid>)
    requires |ready| <= MAX_READY
    ensures Trunc(Enqueued(ready, w, MAX_READY) + ws) == Trunc(ready + ([w] + ws))
  {
    EnqueuedIs(ready, w);
    TruncMore(ready + [w], ws);
    Regroup(ready, w, ws);
  }

  lemma QueueNone(ready: seq<Pid>)
    requires |ready| <= MAX_READY
    ensures Trunc(ready + []) == ready
  {
    assert ready + [] == ready;
  }

  /** Readying one after the other is readying all, in order, as far as the queue takes them. */
  lemma {:induction false} ReadyAllIs(s: State, ws: seq<Pid>)
    requires NoDup(ws) && forall w :: w in ws ==> w in s.mode && w !in s.ready && w !in s.dead
    requires |s.ready| <= MAX_READY
    ensures ReadyAll(s, ws) == s.(mode := Woken(s.mode, ws), ready := Trunc(s.ready + ws))
    decreases |ws|
  {
    if ws == [] {
      WokenNone(s.mode);
      QueueNone(s.ready);
    } else {
      var w, rest := ws[0], ws[1..];
      assert ws == [w] + rest;
      WithoutAbsent(s.ready, w);
      WithoutAbsent(s.dead, w);
      var t := MakeReady(Purge(s, w), w);
      assert t == s.(mode := s.mode[w := Ready], ready := Enqueued(s.ready, w, MAX_READY));
      HeadOut(ws);
      ReadyAllIs(t, rest);
      WokenMore(s.mode, w, rest);
      QueueMore(s.ready, w, rest);
    }
  }

  lemma WokenLines(mode: map<Pid, Mode>, q: seq<Pid>, ws: seq<Pid>)
    requires Lines(mode, q) && NoDup(ws) && forall w :: w in ws ==> w in mode && mode[w] != Ready
    ensures Lines(Woken(mode, ws), q + ws)
  {
    NoDupConcat(q, ws);
  }

  lemma WokenDead(mode: map<Pid, Mode>, dead: seq<Pid>, ws: seq<Pid>)
    requires DeadOk(mode, dead) && forall w :: w in ws ==> w in mode && mode[w] != Dead
    ensures DeadOk(Woken(mode, ws), dead)
  {
  }

  /** The nappers in ws leave the napping list for the ready queue. */
  lemma NapsOut(mode: map<Pid, Mode>, naps: seq<Nap>, waiters: map<Pid, seq<Pid>>, fewer: seq<Nap>, ws: seq<Pid>)
    requires NapOk(mode, naps, waiters) && NoDup(PidsOf(fewer))
    requires forall p :: Naps(fewer, p) <==> Naps(naps, p) && p !in ws
    requires forall p :: p in ws ==> Naps(naps, p)
    ensures NapOk(Woken(mode, ws), fewer, waiters)
  {
  }

  /** They are all in place afterwards if and only if they fit. */
  lemma NapsOutIff(s: State, fewer: seq<Nap>, ws: seq<Pid>)
    requires Core(s) && NoDup(PidsOf(fewer)) && NoDup(ws)
    requires forall p :: Naps(fewer, p) <==> Naps(s.naps, p) && p !in ws
    requires forall p :: p in ws ==> Naps(s.naps, p)
    ensures var t := s.(mode := Woken(s.mode, ws), ready := Trunc(s.ready + ws), naps := fewer);
            Sound(t) && (Core(t) <==> |s.ready| + |ws| <= MAX_READY)
  {
    NapsOut(s.mode, s.naps, s.waiters, fewer, ws);
    WokenLines(s.mode, s.ready, ws);
    WokenDead(s.mode, s.dead, ws);
    TruncIff(Woken(s.mode, ws), s.ready + ws);
  }

  // ---------------------------------------------------------------- the timekeeper

  /** The nappers whose last tick this is, in list order. */
  function Expired(ns: seq<Nap>): seq<Pid> {
    if ns == [] then [] else (if ns[0].counter <= 1 then [ns[0].pid] else []) + Expired(ns[1..])
  }

  /** The nappers that go on, in list order, with one tick less. */
  function Survivors(ns: seq<Nap>): seq<Nap> {
    if ns == [] then []
    else (if ns[0].counter <= 1 then [] else [Nap(ns[0].pid, ns[0].counter - 1)]) + Survivors(ns[1..])
  }

  lemma PartedHead(ns: seq<Nap>)
    requires ns != []
    ensures Expired(ns) == if ns[0].counter <= 1 then [ns[0].pid] + Expired(ns[1..]) else Expired(ns[1..])
    ensures Survivors(ns) == if ns[0].counter <= 1 then Survivors(ns[1..])
                             else [Nap(ns[0].pid, ns[0].counter - 1)] + Survivors(ns[1..])
  {
  }

  /** One pass of the timekeeper over a list that it shortens visits every napper exactly once. */
  lemma {:induction false} ElapseIs(s: State, ns: seq<Nap>)
    requires (forall i :: 0 <= i < |ns| ==> ns[i].pid in s.mode) && |s.ready| <= MAX_READY
    ensures Elapse(s, ns)
         == s.(mode := Woken(s.mode, Expired(ns)), ready := Trunc(s.ready + Expired(ns)), naps := s.naps + Survivors(ns))
    decreases |ns|
  {
    if ns == [] {
      WokenNone(s.mode);
      QueueNone(s.ready);
      assert s.naps + Survivors(ns) == s.naps;
    } else {
      var n, rest := ns[0], ns[1..];
      PartedHead(ns);
      if n.counter <= 1 {
        ElapseIs(MakeReady(s, n.pid), rest);
        WokenMore(s.mode, n.pid, Expired(rest));
        QueueMore(s.ready, n.pid, Expired(rest));
      } else {
        var next := Nap(n.pid, n.counter - 1);
        ElapseIs(s.(naps := s.naps + [next]), rest);
        Regroup(s.naps, next, Survivors(rest));
      }
    }
  }

  lemma {:induction false} Parted(ns: seq<Nap>)
    requires NoDup(PidsOf(ns))
    ensures NoDup(Expired(ns)) && NoDup(PidsOf(Survivors(ns)))
    ensures forall p :: p in Expired(ns) ==> Naps(ns, p)
    ensures forall p :: Naps(Survivors(ns), p) <==> Naps(ns, p) && p !in Expired(ns)
    decreases |ns|
  {
    if ns != [] {
      var n, rest := ns[0], ns[1..];
      NapsHead(ns);
      PartedHead(ns);
      Parted(rest);
      if n.counter <= 1 {
        NoDupConcat([n.pid], Expired(rest));
      } else {
        var next := Nap(n.pid, n.counter - 1);
        NapsCons(next, Survivors(rest));
        NoDupConcat([n.pid], PidsOf(Survivors(rest)));
      }
    }
  }

  lemma NapsHead(ns: seq<Nap>)
    requires ns != [] && NoDup(PidsOf(ns))
    ensures NoDup(PidsOf(ns[1..])) && !Naps(ns[1..], ns[0].pid)
    ensures forall p :: Naps(ns, p) <==> p == ns[0].pid || Naps(ns[1..], p)
  {
    NapsCons(ns[0], ns[1..]);
    assert [ns[0]] + ns[1..] == ns;
    HeadOut(PidsOf(ns));
    assert PidsOf(ns)[1..] == PidsOf(ns[1..]);
  }

  lemma NapsCons(n: Nap, rest: seq<Nap>)
    ensures PidsOf([n] + rest) == [n.pid] + PidsOf(rest)
    ensures forall p :: Naps([n] + rest, p) <==> p == n.pid || Naps(rest, p)
  {
  }

  /** The timekeeper keeps all places if and only if those it wakes fit in the ready queue. */
  lemma TimekeepIff(s: State)
    requires Core(s)
    ensures Timekeep(s) == s.(mode := Woken(s.mode, Expired(s.naps)), ready := Trunc(s.ready + Expired(s.naps)), naps := Survivors(s.naps))
    ensures Sound(Timekeep(s)) && (Core(Timekeep(s)) <==> |s.ready| + |Expired(s.naps)| <= MAX_READY)
  {
    Parted(s.naps);
    NapsOutIff(s, Survivors(s.naps), Expired(s.naps));
    forall i | 0 <= i < |s.naps| ensures s.naps[i].pid in s.mode {
      assert PidsOf(s.naps)[i] == s.naps[i].pid;
      assert Naps(s.naps, s.naps[i].pid);
    }
    ElapseIs(s.(naps := []), s.naps);
    assert [] + Survivors(s.naps) == Survivors(s.naps);
  }

  // ---------------------------------------------------------------- wake-up

  lemma {:induction false} DropNapIs(naps: seq<Nap>, p: Pid)
    ensures PidsOf(DropNap(naps, p)) == RemoveFirst(PidsOf(naps), p)
    decreases |naps|
  {
    if naps != [] {
      assert PidsOf(naps)[1..] == PidsOf(naps[1..]);
      if naps[0].pid != p {
        DropNapIs(naps[1..], p);
        assert PidsOf([naps[0]] + DropNap(naps[1..], p)) == [naps[0].pid] + PidsOf(DropNap(naps[1..], p));
      }
    }
  }

  lemma DropNapOk(naps: seq<Nap>, p: Pid)
    requires NoDup(PidsOf(naps))
    ensures NoDup(PidsOf(DropNap(naps, p)))
    ensures forall x :: Naps(DropNap(naps, p), x) <==> Naps(naps, x) && x !in [p]
  {
    DropNapIs(naps, p);
    RemoveFirstIs(PidsOf(naps), p);
  }

  lemma WokenOne(mode: map<Pid, Mode>, p: Pid)
    requires p in mode
    ensures Woken(mode, [p]) == mode[p := Ready]
  {
  }

  /** sched_wakeup takes a napper to the ready queue and leaves everything else; all are in place
      afterwards if and only if the queue was not full. */
  lemma WakeUpIff(s: State, p: Pid)
    requires Core(s) && Naps(s.naps, p)
    ensures WakeUp(s, p) == s.(mode := s.mode[p := Ready], ready := Trunc(s.ready + [p]), naps := DropNap(s.naps, p))
    ensures Sound(WakeUp(s, p)) && (Core(WakeUp(s, p)) <==> |s.ready| < MAX_READY)
  {
    DropNapOk(s.naps, p);
    NapsOutIff(s, DropNap(s.naps, p), [p]);
    WakesAtEnd(s, p);
  }

  lemma WakesAtEnd(s: State, p: Pid)
    requires Core(s) && Naps(s.naps, p)
    ensures WakeUp(s, p) == s.(mode := s.mode[p := Ready], ready := Trunc(s.ready + [p]), naps := DropNap(s.naps, p))
    ensures s.mode[p := Ready] == Woken(s.mode, [p])
  {
    WithoutAbsent(s.ready, p);
    WithoutAbsent(s.dead, p);
    WokenOne(s.mode, p);
    EnqueuedIs(s.ready, p);
  }

  // ---------------------------------------------------------------- destroying a process

  lemma DestroyedNaps(mode: map<Pid, Mode>, naps: seq<Nap>, waiters: map<Pid, seq<Pid>>, d: Pid)
    requires NapOk(mode, naps, waiters) && d in waiters && d in mode && mode[d] == Dead
    ensures NapOk(Woken(mode, waiters[d]) - {d}, naps, waiters - {d})
  {
    var fewer := waiters - {d};
    assert forall q, p :: Waits(fewer, q, p) <==> Waits(waiters, q, p) && q != d;
    assert forall p :: p in waiters[d] <==> Waits(waiters, d, p);
    forall q | q in fewer ensures WaitsOnce(fewer, q) {
      assert WaitsOnce(waiters, q);
    }
    var left := Woken(mode, waiters[d]) - {d};
    forall p | p in left && left[p] == Napping ensures Naps(naps, p) || exists q :: Waits(fewer, q, p) {
      assert mode[p] == Napping && !Waits(waiters, d, p);
      if !Naps(naps, p) {
        var q :| Waits(waiters, q, p);
        assert Waits(fewer, q, p);
      }
    }
  }

  lemma DestroyedLines(mode: map<Pid, Mode>, q: seq<Pid>, ws: seq<Pid>, d: Pid)
    requires Lines(mode, q) && NoDup(ws) && forall w :: w in ws ==> w in mode && mode[w] == Napping
    requires d in mode && mode[d] == Dead
    ensures Lines(Woken(mode, ws) - {d}, q + ws)
  {
    WokenLines(mode, q, ws);
  }

  lemma DestroyedKeys(s: State, t: State, d: Pid)
    requires Ok(s.tree) && KeysOk(s) && d in s.mode && d != KERNEL
    requires t.mode.Keys == s.mode.Keys - {d} && t.waiters == s.waiters - {d} && t.last == s.last
    requires t.tree == (assert Hangs(s.tree, d); ProcessTree.Destroy(s.tree, d))
    ensures Ok(t.tree) && KeysOk(t)
  {
    DestroyOk(s.tree, d);
  }

  lemma WaitersNap(s: State, d: Pid)
    requires Sound(s) && d in s.waiters
    ensures NoDup(s.waiters[d])
    ensures forall w :: w in s.waiters[d] ==> w in s.mode && s.mode[w] == Napping && w !in s.dead && !Naps(s.naps, w)
  {
    assert WaitsOnce(s.waiters, d);
    forall w | w in s.waiters[d] ensures w in s.mode && s.mode[w] == Napping && !Naps(s.naps, w) {
      assert Waits(s.waiters, d, w);
    }
  }

  /** proc_destroy of a dead process that is in no queue: exactly that process goes, and exactly
      those that waited for it are readied, in the order they came, as far as the queue takes them. */
  lemma DestroyIs(s: State, d: Pid)
    requires Sound(s) && d in s.mode && s.mode[d] == Dead && d !in s.dead && d != KERNEL
    requires |s.ready| <= MAX_READY && forall p :: p in s.ready ==> p in s.mode && s.mode[p] != Napping
    ensures Hangs(s.tree, d) && d in s.waiters
    ensures DestroyProcess(s, d)
         == s.(mode := Woken(s.mode, s.waiters[d]) - {d}, ready := Trunc(s.ready + s.waiters[d]),
               waiters := s.waiters - {d}, tree := ProcessTree.Destroy(s.tree, d))
    ensures Sound(DestroyProcess(s, d))
  {
    assert Hangs(s.tree, d) && d in s.waiters;
    WaitersNap(s, d);
    ReadyAllIs(s, s.waiters[d]);
    DestroyedNaps(s.mode, s.naps, s.waiters, d);
    DestroyedKeys(s, DestroyProcess(s, d), d);
    WokenDead(s.mode, s.dead, s.waiters[d]);
  }

  // ---------------------------------------------------------------- creating a process

  lemma NewNaps(mode: map<Pid, Mode>, naps: seq<Nap>, waiters: map<Pid, seq<Pid>>, p: Pid)
    requires NapOk(mode, naps, waiters) && p !in waiters && p !in mode
    ensures NapOk(mode[p := Ready], naps, waiters[p := []])
  {
    var more := waiters[p := []];
    assert forall q, x :: Waits(more, q, x) <==> Waits(waiters, q, x);
    forall q | q in more ensures WaitsOnce(more, q) {
      assert q != p ==> WaitsOnce(waiters, q);
    }
    forall x | x in mode[p := Ready] && mode[p := Ready][x] == Napping
      ensures Naps(naps, x) || exists q :: Waits(more, q, x) {
      if !Naps(naps, x) {
        var q :| Waits(waiters, q, x);
        assert Waits(more, q, x);
      }
    }
  }

  /** A new process, with a pid not used before, is the last child of the running one and the last
      in the ready queue; all are in place afterwards if and only if the queue was not full. */
  lemma NewProcessIff(s: State)
    requires Core(s) && s.current in s.mode
    ensures var p, t := s.last + 1, NewProcess(s);
            && p !in s.mode && t.mode == s.mode[p := Ready] && t.ready == Trunc(s.ready + [p])
            && t.tree.parent[p] == s.current && t.tree.subs[s.current] == s.tree.subs[s.current] + [p]
            && Sound(t) && (Core(t) <==> |s.ready| < MAX_READY)
  {
    var p := s.last + 1;
    CreateOk(s.tree, p, s.current);
    NewNaps(s.mode, s.naps, s.waiters, p);
    DeadFrame(s.mode, s.dead, p, Ready);
    EnqueuedIs(s.ready, p);
    LinesAdd(s.mode, s.ready, p);
    TruncIff(s.mode[p := Ready], s.ready + [p]);
  }
}
