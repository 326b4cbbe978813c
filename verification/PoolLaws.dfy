/** conn_pool.go, outcome by outcome: when each result of a critical section occurs, and what
    it leaves of the pool. */
module PoolLaws {
  import opened Wrappers
  import opened Slices
  import opened ConnPool

  /** A pool needs a maximum of at least two, which is five unless configured, and a first
      connection, which is then all and available. */
  lemma NewDecided(configured: int, first: Option<ConnId>)
    ensures New(configured, first).Some? <==> first.Some? && (configured == 0 || configured >= 2)
    ensures New(configured, first).Some? ==>
        New(configured, first).value
        == Pool([first.value], [first.value], if configured == 0 then 5 else configured, false)
  {
  }

  /** Acquire is refused exactly when the pool is closed; then it takes the connection that
      was released last, if any is available; then it makes one, or fails to, if there is room
      for it; and otherwise it waits. */
  lemma AcquireDecided(p: Pool, made: Option<ConnId>)
    ensures var (q, r) := AcquireStep(p, made); var k := |p.available| - 1;
      && (r == Refused <==> p.closed)
      && (r == CreateFailed <==> !p.closed && k < 0 && |p.all| < p.max && made == None)
      && (r == MustWait <==> !p.closed && k < 0 && |p.all| >= p.max)
      && (r == Refused || r == CreateFailed || r == MustWait ==> q == p)
      && (!p.closed && k >= 0 ==> r == Got(p.available[k]) && q == Pool(p.all, p.available[..k], p.max, false))
      && (!p.closed && k < 0 && |p.all| < p.max && made.Some? ==>
        r == Got(made.value) && q == Pool(p.all + [made.value], [], p.max, false))
  {
  }

  /** A thread that wakes takes the connection released last, closed or not, or waits again. */
  lemma WokenDecided(p: Pool)
    ensures var (q, r) := Woken(p); var k := |p.available| - 1;
      if k < 0 then r == MustWait && q == p
      else r == Got(p.available[k]) && q == p.(available := p.available[..k])
  {
  }

  /** A live connection is available last of all; a dead one is one fewer among all. */
  lemma ReleaseDecided(p: Pool, c: ConnId, alive: bool, d: ConnId)
    ensures var q := ReleaseStep(p, c, alive);
      && q.max == p.max && q.closed == p.closed
      && (alive ==> q.all == p.all && q.available == p.available + [c])
      && (!alive ==> q.available == p.available && Count(q.all, d) == Count(p.all, d) - if c == d && c in p.all then 1 else 0)
  {
    if !alive {
      SwapRemoveCount(p.all, c, d, 0);
    }
  }

  /** Closing marks the pool, and goes on to close its connections exactly when as many are
      available as there are; otherwise the thread sleeps until it is woken. */
  lemma CloseDecided(s: System, t: ThreadId)
    requires Enabled(s, CloseCall(t))
    ensures var e := Next(s, CloseCall(t));
      && e.pool == s.pool.(closed := true) && e.owner == s.owner && e.waiting == s.waiting
      && if |s.pool.available| == |s.pool.all| then e.shut && e.closing == s.closing - {t}
         else e.shut == s.shut && e.closing == s.closing + {t} && t !in e.woken
  {
  }

  /** A Signal wakes one thread that sleeps in either wait, or nobody when nobody does. */
  lemma SignalDecided(s: System, t: ThreadId, wakes: Option<ThreadId>)
    requires Enabled(s, Signal(t, wakes))
    ensures var e := Next(s, Signal(t, wakes));
      && e.pool == s.pool && e.owner == s.owner && e.waiting == s.waiting && e.closing == s.closing
      && (wakes.Some? ==> wakes.value !in s.woken && (wakes.value in s.waiting || wakes.value in s.closing)
                          && e.woken == s.woken + {wakes.value})
      && (wakes.None? ==> e.woken == s.woken && s.waiting + s.closing <= s.woken)
  {
  }

  /** Whoever is handed a connection holds it, and whoever releases one does not any more. */
  lemma OwnerDecided(s: System, t: ThreadId, made: Option<ConnId>, c: ConnId, alive: bool)
    ensures Enabled(s, AcquireCall(t, made)) && AcquireStep(s.pool, made).1 == Got(c) ==>
        Next(s, AcquireCall(t, made)).owner == s.owner[c := t]
    ensures Enabled(s, AcquireWake(t)) && Woken(s.pool).1 == Got(c) ==>
        Next(s, AcquireWake(t)).owner == s.owner[c := t] && t !in Next(s, AcquireWake(t)).waiting
    ensures Enabled(s, AcquireCall(t, made)) && AcquireStep(s.pool, made).1 == MustWait ==>
        t in Next(s, AcquireCall(t, made)).waiting && t !in Next(s, AcquireCall(t, made)).woken
    ensures Enabled(s, ReleaseCall(t, c, alive)) ==>
        Next(s, ReleaseCall(t, c, alive)).owner == s.owner - {c} && t in Next(s, ReleaseCall(t, c, alive)).signalling
  {
  }

  /** In every state that any run from a new pool reaches: no connection is twice among all
      or among the available, each of all is either available or held by one thread, and
      there are no more than the maximum. */
  lemma Reached(configured: int, first: Option<ConnId>, steps: seq<Step>, c: ConnId)
    requires New(configured, first).Some? && EnabledAll(Start(New(configured, first).value), steps)
    ensures var s := Run(Start(New(configured, first).value), steps);
      && (forall i, j :: 0 <= i < j < |s.pool.all| ==> s.pool.all[i] != s.pool.all[j])
      && (forall i, j :: 0 <= i < j < |s.pool.available| ==> s.pool.available[i] != s.pool.available[j])
      && (c in s.pool.all <==> c in s.pool.available || c in s.owner)
      && !(c in s.pool.available && c in s.owner)
      && |s.pool.all| <= if configured == 0 then 5 else configured
  {
    var s0 := Start(New(configured, first).value);
    StartInv(configured, first);
    RunInv(s0, steps);
    SameMaximum(s0, steps);
    hide EnabledAll, Run;
    var s := Run(s0, steps);
    assert c in Elements(s.pool.all) <==> c in s.pool.all;
    assert c in Elements(s.pool.available) <==> c in s.pool.available;
  }

  lemma {:induction false} SameMaximum(s: System, steps: seq<Step>)
    requires EnabledAll(s, steps)
    ensures Run(s, steps).pool.max == s.pool.max
    decreases |steps|
  {
    if steps != [] {
      SameMaximum(Next(s, steps[0]), steps[1..]);
    }
  }
}
