/** ws.go: a connection whose calls nobody interrupts goes through its steps exactly as
    addRepositoryListeners and removeRepositoryListeners change the signals. */
module ListenersLaws {
  import opened Wrappers
  import opened Slices
  import opened Listeners

  lemma RunHead(s: System, steps: seq<Step>)
    requires Shape(s) && steps != [] && Enabled(s, steps[0]) && EnabledAll(Next(s, steps[0]), steps[1..])
    ensures EnabledAll(s, steps) && Run(s, steps) == Run(Next(s, steps[0]), steps[1..])
  {
  }

  /** First one step, and then the others. */
  lemma StepThen(s: System, step: Step, e: System, more: seq<Step>)
    requires Shape(s) && Enabled(s, step) && Shape(Next(s, step))
    requires EnabledAll(Next(s, step), more) && Run(Next(s, step), more) == e
    ensures EnabledAll(s, [step] + more) && Run(s, [step] + more) == e
  {
    hide Next, Enabled, Shape;
    assert ([step] + more)[1..] == more;
    RunHead(s, [step] + more);
  }

  lemma NextShape(s: System, step: Step)
    requires Shape(s) && Enabled(s, step)
    ensures Shape(Next(s, step))
  {
  }

  lemma {:induction false} RunConcat(s: System, a: seq<Step>, b: seq<Step>, mid: System, e: System)
    requires Shape(s) && EnabledAll(s, a) && Run(s, a) == mid && Shape(mid) && EnabledAll(mid, b) && Run(mid, b) == e
    ensures EnabledAll(s, a + b) && Run(s, a + b) == e
    decreases |a|
  {
    hide Enabled, Next, Shape;
    if a == [] {
      assert a + b == b;
    } else {
      NextShape(s, a[0]);
      RunConcat(Next(s, a[0]), a[1..], b, mid, e);
      assert a + b == [a[0]] + (a[1..] + b);
      StepThen(s, a[0], e, a[1..] + b);
    }
  }

  /** The rest of a removal, from signal k on. */
  lemma {:induction false} RemovesFrom(s: System, n: ConnId, k: Kind) returns (e: System, steps: seq<Step>)
    requires Shape(s) && n in s.clients
    requires s.clients[n].pc == Removing(k) || s.clients[n].pc == Leaving(k)
    ensures EnabledAll(s, steps) && Run(s, steps) == e && Shape(e) && e.maker == s.maker
    ensures forall j: Kind ::
        e.signals[j] == if j < k then s.signals[j] else Dropped(s.signals[j], s.clients[n].chans[j])
    ensures var d := s.clients[n]; e.clients == s.clients[n := d.(pc := if d.pc.Removing? then Making(0) else Done)]
    decreases SIGNALS - k
  {
    hide Dropped;
    var s1 := Next(s, Remove(n));
    if k + 1 < SIGNALS {
      var more;
      e, more := RemovesFrom(s1, n, k + 1);
      steps := [Remove(n)] + more;
      hide EnabledAll, Run;
      StepThen(s, Remove(n), e, more);
    } else {
      e, steps := s1, [Remove(n)] + [];
      StepThen(s, Remove(n), s1, []);
    }
  }

  /** The rest of the makings and additions, from signal k on. */
  lemma {:induction false} AddsFrom(s: System, n: ConnId, k: Kind, made: seq<Chan>) returns (e: System, steps: seq<Step>)
    requires Shape(s) && n in s.clients && s.clients[n].pc == Making(k) && |made| == SIGNALS
    requires forall j: Kind :: k <= j ==> made[j] !in s.maker
    requires forall i: Kind, j: Kind :: i != j ==> made[i] != made[j]
    ensures EnabledAll(s, steps) && Run(s, steps) == e && Shape(e) && n in e.clients && e.clients[n].pc == Idle
    ensures forall j: Kind :: e.signals[j] == if j < k then s.signals[j] else s.signals[j] + [made[j]]
    ensures forall j: Kind :: e.clients[n].chans[j] == if j < k then s.clients[n].chans[j] else Some(made[j])
    ensures forall m :: m != n ==> (m in e.clients <==> m in s.clients) && (m in s.clients ==> e.clients[m] == s.clients[m])
    decreases SIGNALS - k
  {
    var s1 := Next(s, Make(n, made[k]));
    var s2 := Next(s1, Add(n));
    var more: seq<Step> := [];
    e := s2;
    if k + 1 < SIGNALS {
      e, more := AddsFrom(s2, n, k + 1, made);
    }
    hide EnabledAll, Run;
    if more == [] {
      NoSteps(s2);
    }
    StepThen(s1, Add(n), e, more);
    StepThen(s, Make(n, made[k]), e, [Add(n)] + more);
    steps := [Make(n, made[k])] + ([Add(n)] + more);
  }

  lemma NoSteps(s: System)
    requires Shape(s)
    ensures EnabledAll(s, []) && Run(s, []) == s
  {
  }

  /** A connection that authenticates and is left alone: every signal loses its old channel
      and gains its new one, as in AddRepositoryListeners, and nobody else changes. */
  lemma RegistersAlone(s: System, n: ConnId, made: seq<Chan>) returns (e: System, steps: seq<Step>)
    requires Shape(s) && n in s.clients && s.clients[n].pc == Idle && |made| == SIGNALS
    requires forall j: Kind :: made[j] !in s.maker
    requires forall i: Kind, j: Kind :: i != j ==> made[i] != made[j]
    ensures EnabledAll(s, steps) && Run(s, steps) == e && Shape(e) && n in e.clients && e.clients[n].pc == Idle
    ensures forall j: Kind :: e.signals[j] == Dropped(s.signals[j], s.clients[n].chans[j]) + [made[j]]
    ensures forall j: Kind :: e.clients[n].chans[j] == Some(made[j])
    ensures forall m :: m != n ==> (m in e.clients <==> m in s.clients) && (m in s.clients ==> e.clients[m] == s.clients[m])
  {
    hide Dropped, EnabledAll, Run;
    var s1 := Next(s, Authenticated(n));
    var s2, removes := RemovesFrom(s1, n, 0);
    var adds;
    e, adds := AddsFrom(s2, n, 0, made);
    hide Next, Enabled;
    RunConcat(s1, removes, adds, s2, e);
    steps := [Authenticated(n)] + (removes + adds);
    CanAuthenticate(s, n);
    StepThen(s, Authenticated(n), e, removes + adds);
  }

  lemma CanAuthenticate(s: System, n: ConnId)
    requires n in s.clients && s.clients[n].pc == Idle
    ensures Enabled(s, Authenticated(n))
  {
  }

  /** A connection that ends, wherever it is, and is left alone: every signal loses its
      channel, as in RemoveRepositoryListeners. */
  lemma LeavesAlone(s: System, n: ConnId) returns (e: System, steps: seq<Step>)
    requires Shape(s) && Enabled(s, Exit(n))
    ensures EnabledAll(s, steps) && Run(s, steps) == e && Shape(e)
    ensures forall j: Kind :: e.signals[j] == Dropped(s.signals[j], s.clients[n].chans[j])
    ensures e.clients == s.clients[n := s.clients[n].(pc := Done)]
  {
    hide Dropped, EnabledAll, Run;
    var s1 := Next(s, Exit(n));
    var removes;
    e, removes := RemovesFrom(s1, n, 0);
    steps := [Exit(n)] + removes;
    StepThen(s, Exit(n), e, removes);
  }
}
