/** ws.go: the listeners that each client connection keeps on the repository's four signals,
    through every interleaving of any number of connections. */
module Listeners {

  import opened Wrappers
  import opened Slices
  import G = Signal

  type Chan = G.Chan

  type ConnId = nat

  /** Channel created, channel renamed, message posted, user created. */
  const SIGNALS: nat := 4

  type Kind = k: nat | k < SIGNALS

  // ---- one connection ----

  /** The listeners of one signal after a connection's channel, if any, is removed. */
  function Dropped(listeners: seq<Chan>, c: Option<Chan>): seq<Chan> {
    if c.Some? then SwapRemove(listeners, c.value, 0) else listeners
  }

  class ClientConn<M> {
    const signals: seq<G.MessageSignal<M>>
    var chans: seq<Option<Chan>>

    constructor (signals: seq<G.MessageSignal<M>>)
      requires |signals| == SIGNALS && forall i, j :: 0 <= i < j < SIGNALS ==> signals[i] != signals[j]
      ensures Valid() && this.signals == signals && chans == [None, None, None, None]
    {
      this.signals := signals;
      chans := [None, None, None, None];
    }

    ghost predicate Valid()
      reads this
    {
      && |signals| == SIGNALS && |chans| == SIGNALS
      && forall i, j :: 0 <= i < j < SIGNALS ==> signals[i] != signals[j]
    }

    method RemoveOne(k: Kind)
      requires Valid()
      modifies signals[k]
      ensures signals[k].listeners == Dropped(old(signals[k].listeners), chans[k])
    {
      if chans[k].Some? {
        signals[k].Remove(chans[k].value);
      }
    }

    method AddOne(k: Kind, made: Chan)
      requires Valid()
      modifies this, signals[k]
      ensures Valid() && chans == old(chans)[k := Some(made)]
      ensures signals[k].listeners == old(signals[k].listeners) + [made]
    {
      chans := chans[k := Some(made)];
      signals[k].Add(made);
    }

    method RemoveRepositoryListeners()
      requires Valid()
      modifies signals
      ensures forall k: Kind :: signals[k].listeners == Dropped(old(signals[k].listeners), chans[k])
    {
      RemoveOne(0);
      RemoveOne(1);
      RemoveOne(2);
      RemoveOne(3);
    }

    /** `made` are the channels that make returns. */
    method AddRepositoryListeners(made: seq<Chan>)
      requires Valid() && |made| == SIGNALS
      modifies this, signals
      ensures Valid() && forall k: Kind :: chans[k] == Some(made[k])
      ensures forall k: Kind :: signals[k].listeners == Dropped(old(signals[k].listeners), old(chans[k])) + [made[k]]
    {
      RemoveRepositoryListeners();
      AddOne(0, made[0]);
      AddOne(1, made[1]);
      AddOne(2, made[2]);
      AddOne(3, made[3]);
    }
  }

  // ---- every interleaving ----

  /** Where a connection's goroutine is: between requests; inside addRepositoryListeners,
      about to remove, to make or to add its k-th channel; or in the removal deferred to its
      end. Each such action holds its signal's mutex and is one step. */
  datatype Pc = Idle | Removing(k: Kind) | Making(k: Kind) | Adding(k: Kind) | Leaving(k: Kind) | Done

  datatype Client = Client(chans: seq<Option<Chan>>, pc: Pc)

  /** `maker` records which connection made each channel. */
  datatype System = System(signals: seq<seq<Chan>>, clients: map<ConnId, Client>, maker: map<Chan, ConnId>)

  datatype Step =
    | Open(n: ConnId)
    | Authenticated(n: ConnId)
    | Exit(n: ConnId)
    | Remove(n: ConnId)
    | Make(n: ConnId, c: Chan)
    | Add(n: ConnId)

  ghost predicate Shape(s: System) {
    |s.signals| == SIGNALS && forall n :: n in s.clients ==> |s.clients[n].chans| == SIGNALS
  }

  /** A connection may end, by an error or a panic, anywhere in its life. */
  predicate Enabled(s: System, step: Step) {
    match step
    case Open(n) => n !in s.clients
    case Authenticated(n) => n in s.clients && s.clients[n].pc.Idle?
    case Exit(n) => n in s.clients && !s.clients[n].pc.Leaving? && !s.clients[n].pc.Done?
    case Remove(n) => n in s.clients && (s.clients[n].pc.Removing? || s.clients[n].pc.Leaving?)
    case Make(n, c) => n in s.clients && s.clients[n].pc.Making? && c !in s.maker
    case Add(n) => n in s.clients && s.clients[n].pc.Adding?
  }

  function AfterRemove(pc: Pc): Pc
    requires pc.Removing? || pc.Leaving?
  {
    if pc.Removing? then if pc.k + 1 < SIGNALS then Removing(pc.k + 1) else Making(0)
    else if pc.k + 1 < SIGNALS then Leaving(pc.k + 1) else Done
  }

  function AfterAdd(k: Kind): Pc {
    if k + 1 < SIGNALS then Making(k + 1) else Idle
  }

  ghost function Next(s: System, step: Step): System
    requires Shape(s) && Enabled(s, step)
  {
    var n := step.n;
    match step
    case Open(_) => s.(clients := s.clients[n := Client([None, None, None, None], Idle)])
    case Authenticated(_) => s.(clients := s.clients[n := s.clients[n].(pc := Removing(0))])
    case Exit(_) => s.(clients := s.clients[n := s.clients[n].(pc := Leaving(0))])
    case Remove(_) =>
      var d := s.clients[n];
      var k := d.pc.k;
      s.(signals := s.signals[k := Dropped(s.signals[k], d.chans[k])],
         clients := s.clients[n := d.(pc := AfterRemove(d.pc))])
    case Make(_, c) =>
      var d := s.clients[n];
      s.(clients := s.clients[n := Client(d.chans[d.pc.k := Some(c)], Adding(d.pc.k))], maker := s.maker[c := n])
    case Add(_) =>
      var d := s.clients[n];
      var k := d.pc.k;
      s.(signals := if d.chans[k].Some? then s.signals[k := s.signals[k] + [d.chans[k].value]] else s.signals,
         clients := s.clients[n := d.(pc := AfterAdd(k))])
  }

  ghost predicate EnabledAll(s: System, steps: seq<Step>)
    requires Shape(s)
    decreases |steps|
  {
    steps != [] ==> Enabled(s, steps[0]) && EnabledAll(Next(s, steps[0]), steps[1..])
  }

  ghost function Run(s: System, steps: seq<Step>): System
    requires Shape(s) && EnabledAll(s, steps)
    decreases |steps|
  {
    if steps == [] then s else Run(Next(s, steps[0]), steps[1..])
  }

  // ---- the invariant ----

  /** Connection d's current channel for signal k is on it. */
  ghost predicate Registered(s: System, n: ConnId, k: Kind)
    requires Shape(s) && n in s.clients
  {
    var c := s.clients[n].chans[k];
    c.Some? && c.value in s.signals[k]
  }

  /** Whether, by its program counter alone, a connection that has made its channels is
      registered on signal k. */
  predicate Expected(pc: Pc, k: Kind) {
    match pc
    case Idle => true
    case Removing(j) => k >= j
    case Making(j) => k < j
    case Adding(j) => k < j
    case Leaving(j) => k >= j
    case Done => false
  }

  /** Connection n's own channels are those it made, and they are registered no further
      than its program counter allows. */
  ghost predicate Owns(s: System, n: ConnId)
    requires Shape(s) && n in s.clients
  {
    var d := s.clients[n];
    && (forall k: Kind :: d.chans[k].Some? ==> d.chans[k].value in s.maker && s.maker[d.chans[k].value] == n)
    && (forall j: Kind, k: Kind :: j != k && d.chans[j].Some? ==> d.chans[j] != d.chans[k])
    && (forall k: Kind :: Registered(s, n, k) ==> Expected(d.pc, k))
    && (d.pc.Adding? ==> d.chans[d.pc.k].Some?)
    && (d.pc.Making? || d.pc.Adding? ==> forall k: Kind :: k < d.pc.k ==> Registered(s, n, k))
    && (d.pc.Idle? ==> d.chans == [None, None, None, None] || forall k: Kind :: Registered(s, n, k))
  }

  /** Signal k holds distinct channels, each the current one of the connection that made it. */
  ghost predicate Current(s: System, k: Kind)
    requires Shape(s)
  {
    && Distinct(s.signals[k])
    && forall c :: c in s.signals[k] ==>
        c in s.maker && s.maker[c] in s.clients && s.clients[s.maker[c]].chans[k] == Some(c)
  }

  ghost predicate Inv(s: System) {
    && Shape(s)
    && (forall k: Kind :: Current(s, k))
    && (forall n :: n in s.clients ==> Owns(s, n))
  }

  lemma StartInv(s: System)
    requires s == System([[], [], [], []], map[], map[])
    ensures Inv(s)
  {
  }

  lemma OpenInv(s: System, n: ConnId)
    requires Inv(s) && Enabled(s, Open(n))
    ensures Inv(Next(s, Open(n)))
  {
    var e := Next(s, Open(n));
    forall m | m in e.clients ensures Owns(e, m) {
      if m != n {
        SameOwns(s, e, m);
      }
    }
    forall k: Kind ensures Current(e, k) {
      assert Current(s, k);
    }
  }

  /** A connection whose own state, registrations and makings are unchanged. */
  lemma SameOwns(s: System, e: System, m: ConnId)
    requires Shape(s) && Shape(e) && m in s.clients && m in e.clients && Owns(s, m)
    requires e.clients[m] == s.clients[m]
    requires forall k: Kind :: Registered(e, m, k) == Registered(s, m, k)
    requires forall c :: c in s.maker ==> c in e.maker && e.maker[c] == s.maker[c]
    ensures Owns(e, m)
  {
  }

  lemma MovedInv(s: System, step: Step)
    requires Inv(s) && Enabled(s, step) && (step.Authenticated? || step.Exit?)
    ensures Inv(Next(s, step))
  {
    var e := Next(s, step);
    var n := step.n;
    forall m | m in e.clients ensures Owns(e, m) {
      assert Owns(s, m);
      if m != n {
        SameOwns(s, e, m);
      }
    }
    forall k: Kind ensures Current(e, k) {
      assert Current(s, k);
    }
  }

  // ---- removing ----

  lemma DroppedListeners(listeners: seq<Chan>, c: Option<Chan>)
    requires Distinct(listeners)
    ensures Distinct(Dropped(listeners, c))
    ensures forall d :: d in Dropped(listeners, c) <==> d in listeners && c != Some(d)
  {
    if c.Some? {
      SwapRemoved(listeners, c.value, 0);
      var r := Dropped(listeners, c);
      forall d ensures d in r <==> d in listeners && c != Some(d) {
        assert d in Elements(r) <==> d in r;
        assert d in Elements(listeners) <==> d in listeners;
      }
    }
  }

  /** No two connections share a channel. */
  lemma Apart(s: System, n: ConnId, m: ConnId, k: Kind)
    requires Inv(s) && n in s.clients && m in s.clients && n != m && s.clients[n].chans[k].Some?
    ensures s.clients[m].chans[k] != s.clients[n].chans[k]
  {
    assert Owns(s, n) && Owns(s, m);
  }

  lemma RemoveCurrent(s: System, n: ConnId, k: Kind)
    requires Inv(s) && Enabled(s, Remove(n))
    ensures Current(Next(s, Remove(n)), k)
  {
    assert Current(s, k);
    DroppedListeners(s.signals[k], s.clients[n].chans[k]);
    hide Dropped;
  }

  lemma RemoveOwns(s: System, n: ConnId, m: ConnId)
    requires Inv(s) && Enabled(s, Remove(n)) && m in s.clients
    ensures Owns(Next(s, Remove(n)), m)
  {
    var e := Next(s, Remove(n));
    var d := s.clients[n];
    var j := d.pc.k;
    assert Owns(s, m) && Current(s, j);
    DroppedListeners(s.signals[j], d.chans[j]);
    hide Dropped, Distinct;
    if m != n {
      if d.chans[j].Some? {
        Apart(s, n, m, j);
      }
      SameOwns(s, e, m);
    } else {
      assert forall k: Kind :: k != j ==> Registered(e, n, k) == Registered(s, n, k);
      assert !Registered(e, n, j);
    }
  }

  lemma RemoveInv(s: System, n: ConnId)
    requires Inv(s) && Enabled(s, Remove(n))
    ensures Inv(Next(s, Remove(n)))
  {
    hide Current, Owns, Dropped;
    forall k: Kind ensures Current(Next(s, Remove(n)), k) {
      RemoveCurrent(s, n, k);
    }
    forall m | m in s.clients ensures Owns(Next(s, Remove(n)), m) {
      RemoveOwns(s, n, m);
    }
  }

  // ---- making and adding ----

  lemma MakeCurrent(s: System, n: ConnId, c: Chan, k: Kind)
    requires Inv(s) && Enabled(s, Make(n, c))
    ensures Current(Next(s, Make(n, c)), k)
  {
    assert Current(s, k) && Owns(s, n);
    assert !Expected(s.clients[n].pc, s.clients[n].pc.k);
    assert !Registered(s, n, s.clients[n].pc.k);
    hide Owns, Expected;
  }

  lemma MakeOwns(s: System, n: ConnId, c: Chan, m: ConnId)
    requires Inv(s) && Enabled(s, Make(n, c)) && m in s.clients
    ensures Owns(Next(s, Make(n, c)), m)
  {
    var e := Next(s, Make(n, c));
    assert Owns(s, m);
    if m != n {
      SameOwns(s, e, m);
    } else {
      assert Current(s, s.clients[n].pc.k);
      hide Distinct;
      assert forall k: Kind :: k != s.clients[n].pc.k ==> Registered(e, n, k) == Registered(s, n, k);
    }
  }

  lemma MakeInv(s: System, n: ConnId, c: Chan)
    requires Inv(s) && Enabled(s, Make(n, c))
    ensures Inv(Next(s, Make(n, c)))
  {
    hide Current, Owns;
    forall k: Kind ensures Current(Next(s, Make(n, c)), k) {
      MakeCurrent(s, n, c, k);
    }
    forall m | m in s.clients ensures Owns(Next(s, Make(n, c)), m) {
      MakeOwns(s, n, c, m);
    }
  }

  lemma AddCurrent(s: System, n: ConnId, k: Kind)
    requires Inv(s) && Enabled(s, Add(n))
    ensures Current(Next(s, Add(n)), k)
  {
    var j := s.clients[n].pc.k;
    assert Current(s, k) && Owns(s, n);
    assert !Expected(s.clients[n].pc, j);
    assert !Registered(s, n, j);
    if k == j {
      DistinctAppend(s.signals[k], s.clients[n].chans[k].value);
    }
    hide Owns, Expected, Distinct;
  }

  lemma AddOwns(s: System, n: ConnId, m: ConnId)
    requires Inv(s) && Enabled(s, Add(n)) && m in s.clients
    ensures Owns(Next(s, Add(n)), m)
  {
    var e := Next(s, Add(n));
    var d := s.clients[n];
    var j := d.pc.k;
    assert Owns(s, m) && Owns(s, n);
    hide Distinct;
    if m != n {
      Apart(s, n, m, j);
      SameOwns(s, e, m);
    } else {
      assert forall k: Kind :: k != j ==> Registered(e, n, k) == Registered(s, n, k);
      assert Registered(e, n, j);
    }
  }

  lemma AddInv(s: System, n: ConnId)
    requires Inv(s) && Enabled(s, Add(n))
    ensures Inv(Next(s, Add(n)))
  {
    hide Current, Owns;
    forall k: Kind ensures Current(Next(s, Add(n)), k) {
      AddCurrent(s, n, k);
    }
    forall m | m in s.clients ensures Owns(Next(s, Add(n)), m) {
      AddOwns(s, n, m);
    }
  }

  lemma NextInv(s: System, step: Step)
    requires Inv(s) && Enabled(s, step)
    ensures Inv(Next(s, step))
  {
    hide Current, Owns, Shape;
    match step
    case Open(n) => OpenInv(s, n);
    case Authenticated(_) => MovedInv(s, step);
    case Exit(_) => MovedInv(s, step);
    case Remove(n) => RemoveInv(s, n);
    case Make(n, c) => MakeInv(s, n, c);
    case Add(n) => AddInv(s, n);
  }

  /** In every state that any interleaving of any number of connections reaches. */
  lemma {:induction false} RunInv(s: System, steps: seq<Step>)
    requires Inv(s) && EnabledAll(s, steps)
    ensures Inv(Run(s, steps))
    decreases |steps|
  {
    if steps != [] {
      NextInv(s, steps[0]);
      RunInv(Next(s, steps[0]), steps[1..]);
    }
  }

  // ---- what it means for a connection ----

  /** The listeners of signal k that connection n made. */
  function Mine(s: System, n: ConnId, k: Kind): set<Chan>
    requires k < |s.signals|
  {
    set c | c in s.signals[k] && c in s.maker && s.maker[c] == n
  }

  /** In every reachable state, a connection has at most one place on each signal, that of
      its current channel; it has exactly one between requests once it has registered,
      and none once its deferred removal has completed. */
  lemma AtMostOneListener(steps: seq<Step>, n: ConnId, k: Kind)
    requires EnabledAll(System([[], [], [], []], map[], map[]), steps)
    ensures var s := Run(System([[], [], [], []], map[], map[]), steps);
      && Shape(s) && Distinct(s.signals[k])
      && (n !in s.clients ==> Mine(s, n, k) == {})
      && (n in s.clients ==>
        var d := s.clients[n];
        && (Mine(s, n, k) == {} || (d.chans[k].Some? && Mine(s, n, k) == {d.chans[k].value}))
        && (d.pc.Done? ==> Mine(s, n, k) == {})
        && (d.pc.Idle? && d.chans[k].Some? ==> Mine(s, n, k) == {d.chans[k].value}))
  {
    var s0 := System([[], [], [], []], map[], map[]);
    StartInv(s0);
    RunInv(s0, steps);
    hide EnabledAll, Run;
    MineIsCurrent(Run(s0, steps), n, k);
  }

  lemma MineIsCurrent(s: System, n: ConnId, k: Kind)
    requires Inv(s)
    ensures Distinct(s.signals[k])
    ensures n !in s.clients ==> Mine(s, n, k) == {}
    ensures n in s.clients && Registered(s, n, k) ==> Mine(s, n, k) == {s.clients[n].chans[k].value}
    ensures n in s.clients && !Registered(s, n, k) ==> Mine(s, n, k) == {}
    ensures n in s.clients && s.clients[n].pc.Done? ==> !Registered(s, n, k)
    ensures n in s.clients && s.clients[n].pc.Idle? && s.clients[n].chans[k].Some? ==> Registered(s, n, k)
  {
    assert Current(s, k);
    if n in s.clients {
      assert Owns(s, n);
    }
  }
}
