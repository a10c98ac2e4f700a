/** How the scheduler's moves keep every process in its place. */
module Places {
  import opened Links
  import opened ProcessTree
  import opened Processes

  // ---------------------------------------------------------------- sequences

  lemma {:induction false} WithoutIs<T>(s: seq<T>, x: T)
    ensures forall y :: y in Without(s, x) <==> y in s && y != x
    ensures NoDup(s) ==> NoDup(Without(s, x))
    ensures x !in s ==> Without(s, x) == s
    decreases |s|
  {
    if s != [] {
      var front, z := s[..|s| - 1], s[|s| - 1];
      assert s == front + [z];
      WithoutIs(front, x);
      if NoDup(s) {
        assert z !in front;
      }
    }
  }

  lemma WithoutAbsent<T>(s: seq<T>, x: T)
    requires x !in s
    ensures Without(s, x) == s
  {
    WithoutIs(s, x);
  }

  lemma HeadOut<T>(s: seq<T>)
    requires NoDup(s) && s != []
    ensures NoDup(s[1..]) && forall y :: y in s[1..] <==> y in s && y != s[0]
  {
    assert s == [s[0]] + s[1..];
  }

  lemma {:induction false} CountedBy(q: seq<Pid>, all: set<Pid>)
    requires NoDup(q) && forall x :: x in q ==> x in all
    ensures |q| <= |all|
    decreases |q|
  {
    if q != [] {
      assert q[0] !in q[1..];
      CountedBy(q[1..], all - {q[0]});
    }
  }

  /** Of distinct live processes there are no more than of live processes. */
  lemma LiveCount(q: seq<Pid>, mode: map<Pid, Mode>)
    requires NoDup(q) && forall x :: x in q ==> x in mode && mode[x] != Dead
    ensures |q| <= |Live(mode)|
  {
    CountedBy(q, Live(mode));
  }

  /** As much of q as the ready queue takes. */
  function Trunc(q: seq<Pid>): (r: seq<Pid>)
    ensures |r| <= MAX_READY && (|q| <= MAX_READY ==> r == q)
  {
    if |q| <= MAX_READY then q else q[..MAX_READY]
  }

  lemma EnqueuedIs(q: seq<Pid>, p: Pid)
    requires |q| <= MAX_READY
    ensures Enqueued(q, p, MAX_READY) == Trunc(q + [p])
  {
    if |q| == MAX_READY {
      assert (q + [p])[..MAX_READY] == q;
    }
  }

  /** A queue that is full keeps what it has. */
  lemma TruncMore(q: seq<Pid>, ws: seq<Pid>)
    ensures Trunc(Trunc(q) + ws) == Trunc(q + ws)
  {
    if |q| > MAX_READY {
      assert (q[..MAX_READY] + ws)[..MAX_READY] == q[..MAX_READY] == (q + ws)[..MAX_READY];
    }
  }

  /** The queue is right if and only if all the ready processes fit. */
  lemma TruncIff(mode: map<Pid, Mode>, q: seq<Pid>)
    requires Lines(mode, q)
    ensures ReadyOk(mode, Trunc(q)) <==> |q| <= MAX_READY
  {
    if |q| > MAX_READY {
      assert q[MAX_READY] in q && q[MAX_READY] !in q[..MAX_READY];
    }
  }

  // ---------------------------------------------------------------- one queue at a time

  lemma LinesAdd(mode: map<Pid, Mode>, q: seq<Pid>, p: Pid)
    requires Lines(mode, q) && (p in mode ==> mode[p] != Ready)
    ensures Lines(mode[p := Ready], q + [p])
  {
    NoDupConcat(q, [p]);
  }

  lemma LinesRemove(mode: map<Pid, Mode>, q: seq<Pid>, p: Pid, m: Mode)
    requires Lines(mode, q) && m != Ready
    ensures Lines(mode[p := m], Without(q, p))
  {
    WithoutIs(q, p);
  }

  lemma LinesFrame(mode: map<Pid, Mode>, q: seq<Pid>, p: Pid, m: Mode)
    requires Lines(mode, q) && m != Ready && (p in mode ==> mode[p] != Ready)
    ensures Lines(mode[p := m], q)
  {
  }

  lemma LinesTake(mode: map<Pid, Mode>, q: seq<Pid>)
    requires Lines(mode, q) && q != []
    ensures q[0] in mode && mode[q[0]] == Ready && Lines(mode[q[0] := Living], q[1..])
  {
    HeadOut(q);
    assert q[0] in q;
  }

  lemma DeadAdd(mode: map<Pid, Mode>, dead: seq<Pid>, p: Pid)
    requires DeadOk(mode, dead) && p !in dead
    ensures DeadOk(mode[p := Dead], Enqueued(dead, p, MAX_DEAD))
  {
    NoDupConcat(dead, [p]);
  }

  /** A process that neither was nor becomes napping does not matter to the nappers. */
  lemma NapFrame(mode: map<Pid, Mode>, naps: seq<Nap>, waiters: map<Pid, seq<Pid>>, p: Pid, m: Mode)
    requires NapOk(mode, naps, waiters) && m != Napping && (p in mode ==> mode[p] != Napping)
    ensures NapOk(mode[p := m], naps, waiters)
  {
  }

  lemma DeadFrame(mode: map<Pid, Mode>, dead: seq<Pid>, p: Pid, m: Mode)
    requires DeadOk(mode, dead) && p !in dead
    ensures DeadOk(mode[p := m], dead)
  {
  }

  lemma AddNapOk(mode: map<Pid, Mode>, naps: seq<Nap>, waiters: map<Pid, seq<Pid>>, p: Pid, time: int)
    requires NapOk(mode, naps, waiters) && p in mode && mode[p] != Napping
    ensures NapOk(mode[p := Napping], naps + [Nap(p, time)], waiters)
  {
    var more := naps + [Nap(p, time)];
    assert PidsOf(more) == PidsOf(naps) + [p];
    assert !Naps(naps, p) && Naps(more, p);
    NoDupConcat(PidsOf(naps), [p]);
    assert forall x :: Naps(more, x) <==> x == p || Naps(naps, x);
  }

  lemma AddWaiterOk(mode: map<Pid, Mode>, naps: seq<Nap>, waiters: map<Pid, seq<Pid>>, p: Pid, q: Pid)
    requires NapOk(mode, naps, waiters) && p in mode && mode[p] != Napping && q in waiters
    ensures NapOk(mode[p := Napping], naps, waiters[q := waiters[q] + [p]])
  {
    var more := waiters[q := waiters[q] + [p]];
    assert !Naps(naps, p) && Waits(more, q, p);
    assert forall r :: !Waits(waiters, r, p);
    assert WaitsOnce(waiters, q);
    forall r, x ensures Waits(more, r, x) <==> Waits(waiters, r, x) || (r == q && x == p) {
    }
    assert p !in waiters[q] by {
      assert !Waits(waiters, q, p);
    }
    NoDupConcat(waiters[q], [p]);
    forall r | r in more ensures WaitsOnce(more, r) {
      assert r in waiters && WaitsOnce(waiters, r);
    }
  }

  // ---------------------------------------------------------------- moves of one process

  /** What is left to say when one process changes its mode. */
  lemma SoundMove(s: State, t: State, p: Pid, m: Mode)
    requires Sound(s) && p in s.mode && t.mode == s.mode[p := m] && t.tree == s.tree && t.last == s.last
    requires forall q :: q in t.waiters <==> q in s.waiters
    requires DeadOk(t.mode, t.dead) && NapOk(t.mode, t.naps, t.waiters)
    ensures Sound(t)
  {
  }

  /** Between Ready, Living and Dead, for a process in no dead queue. */
  lemma SoundMode(s: State, t: State, p: Pid, m: Mode)
    requires Sound(s) && p in s.mode && s.mode[p] != Napping && p !in s.dead && m != Napping
    requires t == s.(mode := s.mode[p := m], ready := t.ready, current := t.current)
    ensures Sound(t)
  {
    DeadFrame(s.mode, s.dead, p, m);
    NapFrame(s.mode, s.naps, s.waiters, p, m);
    SoundMove(s, t, p, m);
  }

  lemma SoundMakeDead(s: State, p: Pid)
    requires Sound(s) && p in s.mode && s.mode[p] != Napping && p !in s.dead
    ensures Sound(MakeDead(s, p))
  {
    DeadAdd(s.mode, s.dead, p);
    NapFrame(s.mode, s.naps, s.waiters, p, Dead);
    SoundMove(s, MakeDead(s, p), p, Dead);
  }

  lemma SoundAddNap(s: State, t: State, p: Pid, time: int)
    requires Sound(s) && p in s.mode && s.mode[p] != Napping && p !in s.dead
    requires t == s.(mode := s.mode[p := Napping], naps := s.naps + [Nap(p, time)], ready := t.ready)
    ensures Sound(t)
  {
    DeadFrame(s.mode, s.dead, p, Napping);
    AddNapOk(s.mode, s.naps, s.waiters, p, time);
    SoundMove(s, t, p, Napping);
  }

  lemma SoundAddWaiter(s: State, t: State, p: Pid, q: Pid)
    requires Sound(s) && p in s.mode && s.mode[p] != Napping && p !in s.dead && q in s.waiters
    requires t == s.(mode := s.mode[p := Napping], waiters := s.waiters[q := s.waiters[q] + [p]], ready := t.ready)
    ensures Sound(t)
  {
    DeadFrame(s.mode, s.dead, p, Napping);
    AddWaiterOk(s.mode, s.naps, s.waiters, p, q);
    SoundMove(s, t, p, Napping);
  }
}
