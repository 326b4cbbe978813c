/** conn_pool.go: the pool's critical sections, and every interleaving of them. */
module ConnPool {

  import opened Wrappers
  import opened Slices

  type ConnId = nat
  type ThreadId = nat

  /** The fields that the lock protects. */
  datatype Pool = Pool(all: seq<ConnId>, available: seq<ConnId>, max: nat, closed: bool)

  // ---- critical sections, as functions ----

  datatype Acquired = Refused | CreateFailed | Got(c: ConnId) | MustWait

  function Pop(p: Pool): (Pool, Acquired)
    requires p.available != []
  {
    var k := |p.available| - 1;
    (p.(available := p.available[..k]), Got(p.available[k]))
  }

  /** Acquire up to its first wait; `made` is what createConnection would return. */
  function AcquireStep(p: Pool, made: Option<ConnId>): (Pool, Acquired) {
    if p.closed then (p, Refused)
    else if p.available != [] then Pop(p)
    else if |p.all| < p.max then
      if made.None? then (p, CreateFailed) else (p.(all := p.all + [made.value]), Got(made.value))
    else (p, MustWait)
  }

  /** Acquire each time its wait returns. */
  function Woken(p: Pool): (Pool, Acquired) {
    if p.available == [] then (p, MustWait) else Pop(p)
  }

  function ReleaseStep(p: Pool, c: ConnId, alive: bool): Pool {
    if alive then p.(available := p.available + [c]) else p.(all := SwapRemove(p.all, c, 0))
  }

  /** The condition on which Close stops waiting. */
  predicate CanClose(p: Pool) {
    |p.available| == |p.all|
  }

  /** NewConnPool: its configured maximum and its first connection. */
  function New(configured: int, first: Option<ConnId>): Option<Pool> {
    var max := Maximum(configured);
    if max < 2 || first.None? then None else Some(Pool([first.value], [first.value], max, false))
  }

  function Maximum(configured: int): int {
    if configured == 0 then 5 else configured
  }

  // ---- the object ----

  class ConnPool {
    var allConnections: seq<ConnId>
    var availableConnections: seq<ConnId>
    const maxConnections: nat
    var closed: bool

    function View(): Pool
      reads this
    {
      Pool(allConnections, availableConnections, maxConnections, closed)
    }

    constructor (max: nat)
      ensures View() == Pool([], [], max, false)
    {
      maxConnections := max;
      allConnections := [];
      availableConnections := [];
      closed := false;
    }

    /** Without a first connection the pool is returned beside the error. */
    static method NewConnPool(configured: int, first: Option<ConnId>) returns (p: ConnPool?, failed: bool)
      ensures failed <==> New(configured, first) == None
      ensures p == null <==> Maximum(configured) < 2
      ensures p != null ==> fresh(p)
      ensures p != null && failed ==> p.View() == Pool([], [], Maximum(configured), false)
      ensures !failed ==> p != null && New(configured, first) == Some(p.View())
    {
      var max := if configured == 0 then 5 else configured;
      if max < 2 {
        return null, true;
      }
      p := new ConnPool(max);
      if first.None? {
        return p, true;
      }
      p.allConnections := p.allConnections + [first.value];
      p.availableConnections := p.availableConnections + [first.value];
      assert p.allConnections == [first.value] && p.availableConnections == [first.value];
      failed := false;
    }

    method Take() returns (r: Acquired)
      requires availableConnections != []
      modifies this
      ensures Pop(old(View())) == (View(), r)
    {
      r := Got(availableConnections[|availableConnections| - 1]);
      availableConnections := availableConnections[..|availableConnections| - 1];
    }

    method Acquire(made: Option<ConnId>) returns (r: Acquired)
      modifies this
      ensures AcquireStep(old(View()), made) == (View(), r)
    {
      if closed {
        return Refused;
      }
      if |availableConnections| > 0 {
        r := Take();
        return;
      }
      if |allConnections| < maxConnections {
        if made.None? {
          return CreateFailed;
        }
        allConnections := allConnections + [made.value];
        return Got(made.value);
      }
      r := AcquireWoken();
    }

    /** Acquire from the test of its wait loop, which is made again each time its wait returns. */
    method AcquireWoken() returns (r: Acquired)
      modifies this
      ensures Woken(old(View())) == (View(), r)
    {
      if |availableConnections| == 0 {
        return MustWait;
      }
      r := Take();
    }

    method Release(c: ConnId, alive: bool)
      modifies this
      ensures View() == ReleaseStep(old(View()), c, alive)
    {
      if alive {
        availableConnections := availableConnections + [c];
      } else {
        var ac := allConnections;
        var i := 0;
        while i < |ac|
          invariant 0 <= i <= |ac| && SwapRemove(ac, c, 0) == SwapRemove(ac, c, i)
        {
          if c == ac[i] {
            ac := ac[i := ac[|ac| - 1]];
            allConnections := ac[..|ac| - 1];
            return;
          }
          i := i + 1;
        }
      }
    }

    /** Close up to its first wait, or to its end: then `ended` are the connections that it
        has closed, one after another. */
    method Close() returns (done: bool, ended: seq<ConnId>)
      modifies this
      ensures View() == old(View()).(closed := true)
      ensures done == CanClose(View()) && ended == if done then allConnections else []
    {
      closed := true;
      done, ended := CloseWoken();
    }

    /** Close from the test of its wait loop, which is made again each time its wait returns. */
    method CloseWoken() returns (done: bool, ended: seq<ConnId>)
      ensures done == CanClose(View()) && ended == if done then allConnections else []
    {
      ended := [];
      if |availableConnections| != |allConnections| {
        return false, [];
      }
      for i := 0 to |allConnections|
        invariant ended == allConnections[..i]
      {
        ended := ended + [allConnections[i]];
      }
      done := true;
    }
  }

  // ---- every interleaving ----

  /** The pool; who holds which connection; who is in the wait of Acquire and in that of
      Close; which of these a Signal has woken, so that they return from it when they get
      the lock; who has left Release's critical section but not yet called Signal; every
      connection ever made; and whether some Close has reached its closing loop. */
  datatype System = System(pool: Pool, owner: map<ConnId, ThreadId>, waiting: set<ThreadId>, closing: set<ThreadId>,
                           woken: set<ThreadId>, signalling: set<ThreadId>, made: set<ConnId>, shut: bool)
  {
    /** Those whom a Signal can wake. */
    function Asleep(): set<ThreadId> { (waiting + closing) - woken }

    /** Not in the middle of a call. */
    predicate Idle(t: ThreadId) { t !in waiting && t !in closing && t !in signalling }
  }

  datatype Step =
    | AcquireCall(t: ThreadId, made: Option<ConnId>)
    | AcquireWake(t: ThreadId)
    | ReleaseCall(t: ThreadId, c: ConnId, alive: bool)
    | Signal(t: ThreadId, wakes: Option<ThreadId>)
    | CloseCall(t: ThreadId)
    | CloseWake(t: ThreadId)

  /** A thread in the middle of a call does nothing else, a new connection is new, holders
      release only what they hold, and a wait returns only after a Signal, which wakes one
      of those asleep, if there are any. */
  predicate Enabled(s: System, step: Step) {
    match step
    case AcquireCall(t, made) => s.Idle(t) && (made.Some? ==> made.value !in s.made)
    case AcquireWake(t) => t in s.waiting && t in s.woken
    case ReleaseCall(t, c, _) => s.Idle(t) && c in s.owner && s.owner[c] == t
    case Signal(t, wakes) =>
      t in s.signalling && if wakes.Some? then wakes.value in s.Asleep() else s.Asleep() == {}
    case CloseCall(t) => s.Idle(t)
    case CloseWake(t) => t in s.closing && t in s.woken
  }

  function AfterAcquire(s: System, t: ThreadId, r: (Pool, Acquired)): System {
    match r.1
    case Got(c) =>
      s.(pool := r.0, owner := s.owner[c := t], waiting := s.waiting - {t}, woken := s.woken - {t}, made := s.made + {c})
    case MustWait => s.(pool := r.0, waiting := s.waiting + {t}, woken := s.woken - {t})
    case _ => s.(pool := r.0)
  }

  function AfterClose(s: System, t: ThreadId): System {
    if CanClose(s.pool) then s.(closing := s.closing - {t}, woken := s.woken - {t}, shut := true)
    else s.(closing := s.closing + {t}, woken := s.woken - {t})
  }

  function Next(s: System, step: Step): System
    requires Enabled(s, step)
  {
    match step
    case AcquireCall(t, made) => AfterAcquire(s, t, AcquireStep(s.pool, made))
    case AcquireWake(t) => AfterAcquire(s, t, Woken(s.pool))
    case ReleaseCall(t, c, alive) =>
      s.(pool := ReleaseStep(s.pool, c, alive), owner := s.owner - {c}, signalling := s.signalling + {t})
    case Signal(t, wakes) =>
      s.(signalling := s.signalling - {t}, woken := s.woken + if wakes.Some? then {wakes.value} else {})
    case CloseCall(t) => AfterClose(s.(pool := s.pool.(closed := true)), t)
    case CloseWake(t) => AfterClose(s, t)
  }

  function Start(p: Pool): System {
    System(p, map[], {}, {}, {}, {}, Elements(p.all), false)
  }

  predicate EnabledAll(s: System, steps: seq<Step>)
    decreases |steps|
  {
    steps != [] ==> Enabled(s, steps[0]) && EnabledAll(Next(s, steps[0]), steps[1..])
  }

  function Run(s: System, steps: seq<Step>): System
    requires EnabledAll(s, steps)
    decreases |steps|
  {
    if steps == [] then s else Run(Next(s, steps[0]), steps[1..])
  }

  // ---- the ownership invariant ----

  /** All connections are those available and those held, no connection is twice in either,
      none is both, and there are no more than the maximum. */
  ghost predicate Inv(s: System) {
    && Distinct(s.pool.all) && Distinct(s.pool.available)
    && Elements(s.pool.available) !! s.owner.Keys
    && Elements(s.pool.all) == Elements(s.pool.available) + s.owner.Keys
    && |s.pool.all| <= s.pool.max
    && Elements(s.pool.all) <= s.made
  }

  lemma StartInv(configured: int, first: Option<ConnId>)
    requires New(configured, first).Some?
    ensures Inv(Start(New(configured, first).value))
  {
  }

  lemma TakenInv(s: System, t: ThreadId, r: (Pool, Acquired))
    requires Inv(s) && s.pool.available != [] && r == Pop(s.pool)
    ensures Inv(AfterAcquire(s, t, r)) && r.1.c !in s.owner
  {
    DistinctPop(s.pool.available);
    var c := r.1.c;
    assert c in Elements(s.pool.available);
    assert AfterAcquire(s, t, r).owner.Keys == s.owner.Keys + {c};
  }

  lemma CreatedInv(s: System, t: ThreadId, c: ConnId)
    requires Inv(s) && |s.pool.all| < s.pool.max && c !in s.made
    ensures Inv(AfterAcquire(s, t, (s.pool.(all := s.pool.all + [c]), Got(c)))) && c !in s.owner
  {
    assert c !in Elements(s.pool.all);
    DistinctAppend(s.pool.all, c);
    assert s.owner[c := t].Keys == s.owner.Keys + {c};
  }

  lemma ReleasedInv(s: System, c: ConnId, alive: bool)
    requires Inv(s) && c in s.owner
    ensures Inv(s.(pool := ReleaseStep(s.pool, c, alive), owner := s.owner - {c}))
  {
    assert (s.owner - {c}).Keys == s.owner.Keys - {c};
    if alive {
      assert c !in Elements(s.pool.available);
      DistinctAppend(s.pool.available, c);
    } else {
      SwapRemoved(s.pool.all, c, 0);
    }
  }

  lemma WaitInv(s: System, t: ThreadId)
    requires Inv(s)
    ensures Inv(AfterAcquire(s, t, (s.pool, MustWait)))
  {
  }

  lemma AcquireInv(s: System, t: ThreadId, made: Option<ConnId>)
    requires Inv(s) && Enabled(s, AcquireCall(t, made))
    ensures var e := Next(s, AcquireCall(t, made));
      Inv(e) && forall c :: c in e.owner && c in s.owner ==> e.owner[c] == s.owner[c]
  {
    hide Inv;
    if !s.pool.closed {
      if s.pool.available != [] {
        TakenInv(s, t, Pop(s.pool));
      } else if |s.pool.all| < s.pool.max && made.Some? {
        CreatedInv(s, t, made.value);
      } else {
        WaitInv(s, t);
      }
    }
  }

  /** Every step keeps the invariant, and a connection that a step hands out is held by
      nobody else. */
  lemma NextInv(s: System, step: Step)
    requires Inv(s) && Enabled(s, step)
    ensures Inv(Next(s, step))
    ensures forall c :: c in Next(s, step).owner && c in s.owner ==> Next(s, step).owner[c] == s.owner[c]
  {
    match step {
      case AcquireCall(t, made) => AcquireInv(s, t, made);
      case AcquireWake(t) =>
        hide Inv;
        if s.pool.available != [] {
          TakenInv(s, t, Pop(s.pool));
        } else {
          WaitInv(s, t);
        }
      case ReleaseCall(t, c, alive) =>
        hide Inv, ReleaseStep;
        ReleasedInv(s, c, alive);
      case _ =>
    }
  }

  /** In every state that any interleaving reaches. */
  lemma {:induction false} RunInv(s: System, steps: seq<Step>)
    requires Inv(s) && EnabledAll(s, steps)
    ensures Inv(Run(s, steps))
    decreases |steps|
  {
    hide Inv, Next, Enabled;
    if steps != [] {
      NextInv(s, steps[0]);
      RunInv(Next(s, steps[0]), steps[1..]);
    }
  }

  /** Thread t releases c in none of the steps. */
  predicate Withholds(steps: seq<Step>, c: ConnId, t: ThreadId) {
    forall k :: 0 <= k < |steps| ==> !(steps[k].ReleaseCall? && steps[k].c == c && steps[k].t == t)
  }

  /** Whatever the others do, a connection stays with its holder until that holder itself
      releases it, so that release is always of something held. */
  lemma {:induction false} HeldUntilReleased(s: System, steps: seq<Step>, c: ConnId, t: ThreadId)
    requires Inv(s) && EnabledAll(s, steps) && c in s.owner && s.owner[c] == t && Withholds(steps, c, t)
    ensures c in Run(s, steps).owner && Run(s, steps).owner[c] == t
    decreases |steps|
  {
    if steps != [] {
      NextKeeps(s, steps[0], c);
      NextInv(s, steps[0]);
      HeldUntilReleased(Next(s, steps[0]), steps[1..], c, t);
    }
  }

  /** While t holds c and never releases it, no Close gets to its closing loop. */
  lemma {:induction false} LeakBlocksClose(s: System, steps: seq<Step>, c: ConnId, t: ThreadId)
    requires Inv(s) && EnabledAll(s, steps) && c in s.owner && s.owner[c] == t && Withholds(steps, c, t)
    ensures !CanClose(Run(s, steps).pool) && Run(s, steps).shut == s.shut
    decreases |steps|
  {
    hide Inv, CanClose;
    ClosesWhenReturned(s);
    if steps != [] {
      NextKeeps(s, steps[0], c);
      NextInv(s, steps[0]);
      ClosesWhenReturned(Next(s, steps[0]));
      ShutOnlyWhenReturned(s, steps[0]);
      LeakBlocksClose(Next(s, steps[0]), steps[1..], c, t);
    }
  }

  lemma ShutOnlyWhenReturned(s: System, step: Step)
    requires Enabled(s, step) && !CanClose(s.pool)
    ensures Next(s, step).shut == s.shut
  {
  }

  lemma NextKeeps(s: System, step: Step, c: ConnId)
    requires Enabled(s, step) && c in s.owner && !(step.ReleaseCall? && step.c == c)
    ensures c in Next(s, step).owner
  {
  }

  /** Close can reach its closing loop exactly when nothing is held. */
  lemma ClosesWhenReturned(s: System)
    requires Inv(s)
    ensures CanClose(s.pool) <==> s.owner == map[]
  {
    DistinctSize(s.pool.all);
    DistinctSize(s.pool.available);
    var a, o := Elements(s.pool.available), s.owner.Keys;
    assert |a + o| == |a| + |o|;
    assert |o| == 0 <==> o == {};
  }

  lemma CloseReachesLoop(configured: int, first: Option<ConnId>, steps: seq<Step>, step: Step)
    requires New(configured, first).Some? && EnabledAll(Start(New(configured, first).value), steps)
    requires var s := Run(Start(New(configured, first).value), steps);
      Enabled(s, step) && (step.CloseCall? || step.CloseWake?)
    ensures var s := Run(Start(New(configured, first).value), steps);
      CanClose(s.pool) <==> s.owner == map[]
    ensures var s := Run(Start(New(configured, first).value), steps);
      Next(s, step).shut && !s.shut ==> Next(s, step).owner == map[]
  {
    StartInv(configured, first);
    var s0 := Start(New(configured, first).value);
    RunInv(s0, steps);
    hide Inv;
    ClosesWhenReturned(Run(s0, steps));
  }

  /** No Acquire that starts after Close was called succeeds... */
  lemma {:induction false} ClosedStays(s: System, steps: seq<Step>)
    requires EnabledAll(s, steps) && s.pool.closed
    ensures Run(s, steps).pool.closed
    ensures forall made :: AcquireStep(Run(s, steps).pool, made).1 == Refused
    decreases |steps|
  {
    if steps != [] {
      ClosedStays(Next(s, steps[0]), steps[1..]);
    }
  }

  /** A thread inside Acquire will return from its wait, or can be made to: a Signal has
      woken it, or somebody is still to call Signal. */
  ghost predicate CanWake(s: System) {
    exists t :: t in s.waiting && (t in s.woken || s.signalling != {})
  }

  /** ... but one that was already waiting rechecks only availability. Once nothing is held
      after Close was called, as when its closing loop runs, no connection is handed out
      ever again exactly when nothing is available or no waiter can still be woken. */
  lemma AfterClosing(s: System)
    requires Inv(s) && s.pool.closed && s.owner == map[]
    ensures (forall steps :: EnabledAll(s, steps) ==> Run(s, steps).owner == map[])
       <==> s.pool.available == [] || !CanWake(s)
  {
    if s.pool.available == [] || !CanWake(s) {
      forall steps | EnabledAll(s, steps) ensures Run(s, steps).owner == map[] {
        StaysReturned(s, steps);
      }
    } else {
      var steps := WakesOne(s);
      assert Run(s, steps).owner != map[];
    }
  }

  lemma {:induction false} StaysReturned(s: System, steps: seq<Step>)
    requires s.pool.closed && s.owner == map[] && (s.pool.available == [] || !CanWake(s))
    requires EnabledAll(s, steps)
    ensures Run(s, steps).owner == map[]
    decreases |steps|
  {
    if steps != [] {
      StillReturned(s, steps[0]);
      StaysReturned(Next(s, steps[0]), steps[1..]);
    }
  }

  lemma StillReturned(s: System, step: Step)
    requires s.pool.closed && s.owner == map[] && (s.pool.available == [] || !CanWake(s)) && Enabled(s, step)
    ensures var e := Next(s, step);
      e.pool.closed && e.owner == map[] && (e.pool.available == [] || !CanWake(e))
  {
    if s.pool.available != [] {
      forall t | t in s.waiting ensures t !in s.woken && s.signalling == {} {
      }
      assert step.AcquireCall? || step.CloseCall? || step.CloseWake? || s.waiting == {};
    }
  }

  /** A waiter that has been woken, or is now, takes the connection that is available. */
  lemma WakesOne(s: System) returns (steps: seq<Step>)
    requires s.pool.available != [] && CanWake(s)
    ensures EnabledAll(s, steps) && Run(s, steps).owner != map[]
  {
    var t :| t in s.waiting && (t in s.woken || s.signalling != {});
    if t in s.woken {
      steps := [AcquireWake(t)];
      TakesOne(s, t);
    } else {
      var u :| u in s.signalling;
      var e := Next(s, Signal(u, Some(t)));
      steps := [Signal(u, Some(t)), AcquireWake(t)];
      TakesOne(e, t);
      assert steps[1..] == [AcquireWake(t)];
      RunHead(s, steps);
    }
  }

  lemma TakesOne(s: System, t: ThreadId)
    requires s.pool.available != [] && t in s.waiting && t in s.woken
    ensures EnabledAll(s, [AcquireWake(t)]) && Run(s, [AcquireWake(t)]).owner != map[]
  {
    var c := s.pool.available[|s.pool.available| - 1];
    RunHead(s, [AcquireWake(t)]);
    assert Next(s, AcquireWake(t)).owner[c] == t;
  }

  /** A run that gets there: two waiters, inside Acquire and inside Close, two releases that
      wake one each, and Close the first of them to get the lock. */
  lemma WaiterAfterClose() returns (steps: seq<Step>)
    ensures var s := Start(Pool([0], [0], 2, false));
      && EnabledAll(s, steps) && Run(s, steps).shut && Run(s, steps).owner == map[]
      && Enabled(Run(s, steps), AcquireWake(3)) && Next(Run(s, steps), AcquireWake(3)).owner == map[0 := 3]
  {
    var s4, before := FirstHalf();
    var after := SecondHalf(s4);
    steps := before + after;
    RunConcat(Start(Pool([0], [0], 2, false)), before, after);
  }

  /** Both connections are held, thread 3 waits inside Acquire and thread 4 inside Close. */
  const BOTH_WAIT: System := System(Pool([0, 1], [], 2, true), map[0 := 1, 1 := 2], {3}, {4}, {}, {}, {0, 1}, false)

  lemma FirstHalf() returns (s4: System, steps: seq<Step>)
    ensures s4 == BOTH_WAIT
    ensures var s := Start(Pool([0], [0], 2, false)); EnabledAll(s, steps) && Run(s, steps) == s4
  {
    steps := [AcquireCall(1, None), AcquireCall(2, Some(1)), AcquireCall(3, None), CloseCall(4)];
    s4 := BOTH_WAIT;
    var s0 := Start(Pool([0], [0], 2, false));
    var s3 := s4.(pool := s4.pool.(closed := false), closing := {});
    var s2 := s3.(waiting := {});
    var s1 := System(Pool([0], [], 2, false), map[0 := 1], {}, {}, {}, {}, {0}, false);
    assert Next(s0, steps[0]) == s1 && Next(s1, steps[1]) == s2;
    assert Next(s2, steps[2]) == s3 && Next(s3, steps[3]) == s4;
    RunHead(s3, steps[3..]);
    RunHead(s2, steps[2..]);
    RunHead(s1, steps[1..]);
    RunHead(s0, steps);
  }

  lemma SecondHalf(s4: System) returns (steps: seq<Step>)
    requires s4 == BOTH_WAIT
    ensures EnabledAll(s4, steps)
    ensures Run(s4, steps) == System(Pool([0, 1], [1, 0], 2, true), map[], {3}, {}, {3}, {}, {0, 1}, true)
  {
    steps := [ReleaseCall(2, 1, true), Signal(2, Some(3)), ReleaseCall(1, 0, true), Signal(1, Some(4)), CloseWake(4)];
    var s5 := s4.(pool := s4.pool.(available := [1]), owner := map[0 := 1], signalling := {2});
    var s6 := s5.(signalling := {}, woken := {3});
    var s7 := s6.(pool := s6.pool.(available := [1, 0]), owner := map[], signalling := {1});
    var s8 := s7.(signalling := {}, woken := {3, 4});
    var s9 := s8.(closing := {}, woken := {3}, shut := true);
    assert Next(s4, steps[0]) == s5 && Next(s5, steps[1]) == s6;
    assert Next(s6, steps[2]) == s7 && Next(s7, steps[3]) == s8;
    assert Next(s8, steps[4]) == s9;
    RunHead(s8, steps[4..]);
    RunHead(s7, steps[3..]);
    RunHead(s6, steps[2..]);
    RunHead(s5, steps[1..]);
    RunHead(s4, steps);
  }

  /** That somebody waits and something is available is not enough: a waiter whose Signal
      came while nothing was available sleeps on when the pool closes. */
  lemma StrandedWaiter() returns (steps: seq<Step>)
    ensures var s := Start(Pool([0], [0], 2, false));
      && EnabledAll(s, steps) && Run(s, steps).shut
      && Run(s, steps).waiting == {3} && Run(s, steps).pool.available == [0] && !CanWake(Run(s, steps))
  {
    var s4, before := FirstHalf();
    var s7, between := WokenInVain(s4);
    var after := ClosedAsleep(s7);
    RunConcat(s4, between, after);
    RunConcat(Start(Pool([0], [0], 2, false)), before, between + after);
    steps := before + (between + after);
  }

  /** Only connection 0 is left, and held; thread 3 waits inside Acquire again, thread 4 inside Close. */
  const ONE_LEFT: System := System(Pool([0], [], 2, true), map[0 := 1], {3}, {4}, {}, {}, {0, 1}, false)

  lemma WokenInVain(s4: System) returns (s7: System, steps: seq<Step>)
    requires s4 == BOTH_WAIT
    ensures s7 == ONE_LEFT && EnabledAll(s4, steps) && Run(s4, steps) == s7
  {
    steps := [ReleaseCall(2, 1, false), Signal(2, Some(3)), AcquireWake(3)];
    s7 := ONE_LEFT;
    var s6 := s7.(woken := {3});
    var s5 := s7.(signalling := {2});
    DropsOne();
    assert Next(s4, steps[0]) == s5 && Next(s5, steps[1]) == s6 && Next(s6, steps[2]) == s7;
    RunHead(s6, steps[2..]);
    RunHead(s5, steps[1..]);
    RunHead(s4, steps);
  }

  lemma ClosedAsleep(s7: System) returns (steps: seq<Step>)
    requires s7 == ONE_LEFT
    ensures EnabledAll(s7, steps)
    ensures Run(s7, steps) == System(Pool([0], [0], 2, true), map[], {3}, {}, {}, {}, {0, 1}, true)
  {
    steps := [ReleaseCall(1, 0, true), Signal(1, Some(4)), CloseWake(4)];
    var s8 := s7.(pool := s7.pool.(available := [0]), owner := map[], signalling := {1});
    var s9 := s8.(signalling := {}, woken := {4});
    var s10 := s9.(closing := {}, woken := {}, shut := true);
    assert Next(s7, steps[0]) == s8 && Next(s8, steps[1]) == s9 && Next(s9, steps[2]) == s10;
    RunHead(s9, steps[2..]);
    RunHead(s8, steps[1..]);
    RunHead(s7, steps);
  }

  lemma DropsOne()
    ensures SwapRemove([0, 1], 1, 0) == [0]
  {
    assert SwapRemove([0, 1], 1, 0) == SwapRemove([0, 1], 1, 1);
  }

  lemma RunHead(s: System, steps: seq<Step>)
    requires steps != [] && Enabled(s, steps[0]) && EnabledAll(Next(s, steps[0]), steps[1..])
    ensures EnabledAll(s, steps) && Run(s, steps) == Run(Next(s, steps[0]), steps[1..])
  {
  }

  lemma {:induction false} RunConcat(s: System, a: seq<Step>, b: seq<Step>)
    requires EnabledAll(s, a) && EnabledAll(Run(s, a), b)
    ensures EnabledAll(s, a + b) && Run(s, a + b) == Run(Run(s, a), b)
    decreases |a|
  {
    if a == [] {
      assert a + b == b;
    } else {
      assert (a + b)[1..] == a[1..] + b;
      RunConcat(Next(s, a[0]), a[1..], b);
    }
  }
}
