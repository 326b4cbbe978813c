/** message_signal.go: a signal's listeners, and every interleaving of the calls on it. */
module Signal {

  import opened Sequences
  import opened Slices

  type Chan = nat
  type Thread = nat

  /** n copies of m. */
  function Copies<M>(m: M, n: nat): (r: seq<M>)
    ensures |r| == n
  {
    if n == 0 then [] else Copies(m, n - 1) + [m]
  }

  // ---- the object ----

  /** The receiving ends of all channels. */
  class Receivers<M> {
    var got: map<Chan, seq<M>>

    function Got(c: Chan): seq<M>
      reads this
    {
      Received(got, c)
    }
  }

  function Received<M>(got: map<Chan, seq<M>>, c: Chan): seq<M> {
    if c in got then got[c] else []
  }

  function Send<M>(got: map<Chan, seq<M>>, c: Chan, m: M): map<Chan, seq<M>> {
    got[c := Received(got, c) + [m]]
  }

  class MessageSignal<M> {
    var listeners: seq<Chan>

    constructor ()
      ensures listeners == []
    {
      listeners := [];
    }

    method Add(c: Chan)
      modifies this
      ensures listeners == old(listeners) + [c]
    {
      listeners := listeners + [c];
    }

    method Remove(c: Chan)
      modifies this
      ensures listeners == SwapRemove(old(listeners), c, 0)
    {
      var i := 0;
      while i < |listeners|
        invariant 0 <= i <= |listeners| && listeners == old(listeners)
        invariant SwapRemove(listeners, c, i) == SwapRemove(listeners, c, 0)
      {
        if c == listeners[i] {
          listeners := listeners[i := listeners[|listeners| - 1]];
          listeners := listeners[..|listeners| - 1];
          return;
        }
        i := i + 1;
      }
    }

    /** Every channel receives one copy for each time it was added. */
    method Dispatch(m: M, ends: Receivers<M>)
      modifies ends
      ensures forall c :: ends.Got(c) == old(ends.Got(c)) + Copies(m, Count(listeners, c))
    {
      ghost var before := ends.got;
      var i := 0;
      while i < |listeners|
        invariant 0 <= i <= |listeners|
        invariant Shared(before, ends.got, m, listeners[..i])
      {
        assert listeners[..i + 1] == listeners[..i] + [listeners[i]];
        SharedOneMore(before, ends.got, m, listeners[..i], listeners[i]);
        ends.got := Send(ends.got, listeners[i], m);
        i := i + 1;
      }
      assert listeners[..i] == listeners;
    }
  }

  /** Between two moments, each place in `sent` has been given one copy of m. */
  ghost predicate Shared<M>(before: map<Chan, seq<M>>, now: map<Chan, seq<M>>, m: M, sent: seq<Chan>) {
    forall c :: Received(now, c) == Received(before, c) + Copies(m, Count(sent, c))
  }

  lemma SharedOneMore<M>(before: map<Chan, seq<M>>, now: map<Chan, seq<M>>, m: M, sent: seq<Chan>, l: Chan)
    requires Shared(before, now, m, sent)
    ensures Shared(before, Send(now, l, m), m, sent + [l])
  {
    hide Send, Received, Count, Copies;
    forall c ensures Received(Send(now, l, m), c) == Received(before, c) + Copies(m, Count(sent + [l], c)) {
      SendReceived(now, l, m, c);
      CountAppend(sent, l, c);
      CopiesMore(Received(before, c), m, Count(sent, c));
    }
  }

  lemma SendReceived<M>(got: map<Chan, seq<M>>, l: Chan, m: M, c: Chan)
    ensures Received(Send(got, l, m), c) == Received(got, c) + if l == c then [m] else []
  {
  }

  lemma CopiesMore<M>(base: seq<M>, m: M, n: nat)
    ensures base + Copies(m, n + 1) == base + Copies(m, n) + [m]
  {
  }

  // ---- every interleaving ----

  datatype Call<M> = AddCall(c: Chan) | RemoveCall(c: Chan) | DispatchCall(m: M)

  /** A thread with a call waits for the mutex, or holds it with `done` of its call's
      actions behind it. */
  datatype Phase<M> = Waiting(call: Call<M>) | Holding(call: Call<M>, done: nat)

  /** A dispatch that has completed: its message, and the listeners it found. */
  datatype Round<M> = Round(m: M, listeners: seq<Chan>)

  datatype Holder = Free | Held(t: Thread)

  /** `log` only records history: the dispatches completed so far. */
  datatype System<M> = System(listeners: seq<Chan>, mutex: Holder, threads: map<Thread, Phase<M>>,
                              got: map<Chan, seq<M>>, log: seq<Round<M>>)

  datatype Step<M> = Invoke(t: Thread, call: Call<M>) | Lock(t: Thread) | Act(t: Thread) | Unlock(t: Thread)

  predicate Enabled<M>(s: System<M>, step: Step<M>) {
    match step
    case Invoke(t, _) => t !in s.threads
    case Lock(t) => t in s.threads && s.threads[t].Waiting? && s.mutex == Free
    case Act(t) => t in s.threads && s.threads[t].Holding? && Pending(s, t)
    case Unlock(t) => t in s.threads && s.threads[t].Holding? && !Pending(s, t)
  }

  predicate Pending<M>(s: System<M>, t: Thread)
    requires t in s.threads && s.threads[t].Holding?
  {
    var p := s.threads[t];
    if p.call.DispatchCall? then p.done < |s.listeners| else p.done == 0
  }

  function Perform<M>(s: System<M>, p: Phase<M>): System<M>
    requires p.Holding? && (p.call.DispatchCall? ==> p.done < |s.listeners|)
  {
    match p.call
    case AddCall(c) => s.(listeners := s.listeners + [c])
    case RemoveCall(c) => s.(listeners := SwapRemove(s.listeners, c, 0))
    case DispatchCall(m) => s.(got := Send(s.got, s.listeners[p.done], m))
  }

  function Next<M>(s: System<M>, step: Step<M>): System<M>
    requires Enabled(s, step)
  {
    match step
    case Invoke(t, call) => s.(threads := s.threads[t := Waiting(call)])
    case Lock(t) => s.(mutex := Held(t), threads := s.threads[t := Holding(s.threads[t].call, 0)])
    case Act(t) =>
      var p := s.threads[t];
      Perform(s, p).(threads := s.threads[t := Holding(p.call, p.done + 1)])
    case Unlock(t) =>
      var p := s.threads[t];
      s.(mutex := Free, threads := s.threads - {t},
         log := if p.call.DispatchCall? then s.log + [Round(p.call.m, s.listeners)] else s.log)
  }

  predicate EnabledAll<M>(s: System<M>, steps: seq<Step<M>>)
    decreases |steps|
  {
    steps != [] ==> Enabled(s, steps[0]) && EnabledAll(Next(s, steps[0]), steps[1..])
  }

  function Run<M>(s: System<M>, steps: seq<Step<M>>): System<M>
    requires EnabledAll(s, steps)
    decreases |steps|
  {
    if steps == [] then s else Run(Next(s, steps[0]), steps[1..])
  }

  // ---- what every channel has received ----

  /** What the completed dispatches sent to c. */
  function History<M>(log: seq<Round<M>>, c: Chan): seq<M> {
    if log == [] then []
    else
      var k := |log| - 1;
      History(log[..k], c) + Copies(log[k].m, Count(log[k].listeners, c))
  }

  /** At most one thread is past its Lock, the one the mutex names. */
  ghost predicate Exclusive<M>(s: System<M>) {
    && (forall t :: t in s.threads && s.threads[t].Holding? ==> s.mutex == Held(t))
    && (s.mutex.Held? ==> s.mutex.t in s.threads && s.threads[s.mutex.t].Holding?)
    && (Dispatching(s) ==> s.threads[s.mutex.t].done <= |s.listeners|)
  }

  predicate Dispatching<M>(s: System<M>) {
    && s.mutex.Held? && s.mutex.t in s.threads
    && s.threads[s.mutex.t].Holding? && s.threads[s.mutex.t].call.DispatchCall?
  }

  /** What the dispatch in flight has sent to c. */
  function InFlight<M>(s: System<M>, c: Chan): seq<M> {
    if Dispatching(s) && s.threads[s.mutex.t].done <= |s.listeners| then
      var p := s.threads[s.mutex.t];
      Copies(p.call.m, Count(s.listeners[..p.done], c))
    else []
  }

  /** Every channel has received one copy for each of its places in each completed
      dispatch, in the order of the dispatches, and its share of the one in flight. */
  ghost predicate Inv<M>(s: System<M>) {
    Exclusive(s) && forall c :: Delivered(s, c)
  }

  ghost predicate Delivered<M>(s: System<M>, c: Chan) {
    Received(s.got, c) == History(s.log, c) + InFlight(s, c)
  }

  lemma StartInv<M>(s: System<M>)
    requires s == System([], Free, map[], map[], [])
    ensures Inv(s)
  {
  }

  lemma NextExclusive<M>(s: System<M>, step: Step<M>)
    requires Exclusive(s) && Enabled(s, step)
    ensures Exclusive(Next(s, step))
  {
  }

  lemma NextDelivered<M>(s: System<M>, step: Step<M>, c: Chan)
    requires Exclusive(s) && Enabled(s, step) && Delivered(s, c)
    ensures Delivered(Next(s, step), c)
  {
    hide Count, Copies, History, Received;
    match step {
      case Invoke(t, call) =>
      case Lock(t) => NothingSent(s, Next(s, step), t, c);
      case Act(t) =>
        if s.threads[t].call.DispatchCall? {
          ActDelivered(s, t, c);
        }
      case Unlock(t) =>
        if s.threads[t].call.DispatchCall? {
          UnlockDelivered(s, t, c);
        }
    }
  }

  lemma NothingSent<M>(s: System<M>, e: System<M>, t: Thread, c: Chan)
    requires Enabled(s, Lock(t)) && e == Next(s, Lock(t))
    ensures InFlight(e, c) == []
  {
    assert s.listeners[..0] == [];
  }

  lemma ActDelivered<M>(s: System<M>, t: Thread, c: Chan)
    requires Exclusive(s) && Enabled(s, Act(t)) && s.threads[t].call.DispatchCall? && Delivered(s, c)
    ensures Delivered(Next(s, Act(t)), c)
  {
    hide Send, Received, Count, Copies, History;
    var p := s.threads[t];
    var sent, l := s.listeners[..p.done], s.listeners[p.done];
    assert s.listeners[..p.done + 1] == sent + [l];
    SendReceived(s.got, l, p.call.m, c);
    CountAppend(sent, l, c);
    CopiesMore(History(s.log, c), p.call.m, Count(sent, c));
  }

  lemma UnlockDelivered<M>(s: System<M>, t: Thread, c: Chan)
    requires Exclusive(s) && Enabled(s, Unlock(t)) && s.threads[t].call.DispatchCall? && Delivered(s, c)
    ensures Delivered(Next(s, Unlock(t)), c)
  {
    hide Count, Copies, History, Received;
    var p := s.threads[t];
    assert s.listeners[..p.done] == s.listeners;
    HistoryMore(s.log, Round(p.call.m, s.listeners), c);
  }

  lemma HistoryMore<M>(log: seq<Round<M>>, r: Round<M>, c: Chan)
    ensures History(log + [r], c) == History(log, c) + Copies(r.m, Count(r.listeners, c))
  {
    assert (log + [r])[..|log|] == log;
  }

  lemma NextInv<M>(s: System<M>, step: Step<M>)
    requires Inv(s) && Enabled(s, step)
    ensures Inv(Next(s, step))
  {
    NextExclusive(s, step);
    forall c ensures Delivered(Next(s, step), c) {
      NextDelivered(s, step, c);
    }
  }

  /** In every state that any interleaving of any calls reaches. */
  lemma {:induction false} RunInv<M>(s: System<M>, steps: seq<Step<M>>)
    requires Inv(s) && EnabledAll(s, steps)
    ensures Inv(Run(s, steps))
    decreases |steps|
  {
    hide Inv, Next, Enabled;
    if steps != [] {
      NextInv(s, steps[0]);
      RunInv(Next(s, steps[0]), steps[1..]);
    }
  }

  // ---- a completed dispatch ----

  predicate Unlocks<M>(step: Step<M>, t: Thread) {
    step.Unlock? && step.t == t
  }

  lemma NextHeld<M>(s: System<M>, step: Step<M>, t: Thread)
    requires Exclusive(s) && Dispatching(s) && s.mutex == Held(t) && Enabled(s, step) && !Unlocks(step, t)
    ensures var e := Next(s, step);
      && Dispatching(e) && e.mutex == s.mutex && e.threads[t].call == s.threads[t].call
      && e.listeners == s.listeners && e.log == s.log
  {
  }

  lemma {:induction false} RunHeld<M>(s: System<M>, steps: seq<Step<M>>, t: Thread)
    requires Exclusive(s) && Dispatching(s) && s.mutex == Held(t) && EnabledAll(s, steps)
    requires forall k :: 0 <= k < |steps| ==> !Unlocks(steps[k], t)
    ensures var e := Run(s, steps);
      && Dispatching(e) && e.mutex == s.mutex && e.threads[t].call == s.threads[t].call
      && e.listeners == s.listeners && e.log == s.log
    decreases |steps|
  {
    hide Exclusive, Dispatching, Next, Enabled, Unlocks;
    if steps != [] {
      NextHeld(s, steps[0], t);
      NextExclusive(s, steps[0]);
      RunHeld(Next(s, steps[0]), steps[1..], t);
    }
  }

  /** From the lock of a dispatch to its unlock, whatever the other threads do, every
      channel receives exactly one copy for each time it is registered. */
  lemma DispatchCompletes<M>(s: System<M>, steps: seq<Step<M>>, t: Thread, c: Chan)
    requires Inv(s) && Dispatching(s) && s.mutex == Held(t) && s.threads[t].done == 0
    requires EnabledAll(s, steps) && Enabled(Run(s, steps), Unlock(t))
    requires forall k :: 0 <= k < |steps| ==> !Unlocks(steps[k], t)
    ensures Received(Run(s, steps).got, c) == Received(s.got, c) + Copies(s.threads[t].call.m, Count(s.listeners, c))
  {
    hide EnabledAll, Run, Received, History, Unlocks;
    var e := Run(s, steps);
    RunHeld(s, steps, t);
    RunInv(s, steps);
    assert Delivered(s, c) && Delivered(e, c);
    assert e.listeners[..e.threads[t].done] == s.listeners;
    assert s.listeners[..0] == [];
  }

  // ---- two listeners ----

  /** c is registered, once, in every state of the run. */
  predicate Throughout<M>(s: System<M>, steps: seq<Step<M>>, c: Chan)
    requires EnabledAll(s, steps)
    decreases |steps|
  {
    Count(s.listeners, c) == 1 && (steps != [] ==> Throughout(Next(s, steps[0]), steps[1..], c))
  }

  function Messages<M>(log: seq<Round<M>>): seq<M> {
    if log == [] then [] else Messages(log[..|log| - 1]) + [log[|log| - 1].m]
  }

  ghost predicate OnceEach<M>(log: seq<Round<M>>, c: Chan) {
    forall k :: 0 <= k < |log| ==> Count(log[k].listeners, c) == 1
  }

  /** The dispatches that a run completes. */
  lemma {:induction false} Completed<M>(s: System<M>, steps: seq<Step<M>>, c: Chan) returns (more: seq<Round<M>>)
    requires EnabledAll(s, steps) && Throughout(s, steps, c)
    ensures Run(s, steps).log == s.log + more && OnceEach(more, c)
    decreases |steps|
  {
    if steps == [] {
      more := [];
    } else {
      var rest := Completed(Next(s, steps[0]), steps[1..], c);
      var first := NextCompletes(s, steps[0], c);
      more := first + rest;
      hide Next, Enabled;
      assert s.log + first + rest == s.log + more;
    }
  }

  lemma NextCompletes<M>(s: System<M>, step: Step<M>, c: Chan) returns (more: seq<Round<M>>)
    requires Enabled(s, step) && Count(s.listeners, c) == 1
    ensures Next(s, step).log == s.log + more && OnceEach(more, c)
  {
    more := [];
    if step.Unlock? && s.threads[step.t].call.DispatchCall? {
      more := [Round(s.threads[step.t].call.m, s.listeners)];
    }
  }

  lemma {:induction false} HistoryOnce<M>(log: seq<Round<M>>, more: seq<Round<M>>, c: Chan)
    requires OnceEach(more, c)
    ensures History(log + more, c) == History(log, c) + Messages(more)
    decreases |more|
  {
    if more == [] {
      assert log + more == log;
    } else {
      var k := |more| - 1;
      HistoryOnce(log, more[..k], c);
      hide History, Count;
      assert log + more == log + more[..k] + [more[k]];
      HistoryMore(log + more[..k], more[k], c);
      assert Copies(more[k].m, 1) == [more[k].m];
      hide Copies;
      Assoc(History(log, c), Messages(more[..k]), [more[k].m]);
    }
  }

  /** A listener that is registered throughout a run receives, after what it had, every
      message dispatched meanwhile, in order, and perhaps the one in flight. */
  lemma ReceivesAll<M>(s: System<M>, steps: seq<Step<M>>, c: Chan) returns (more: seq<Round<M>>)
    requires Inv(s) && EnabledAll(s, steps) && Throughout(s, steps, c) && InFlight(s, c) == []
    ensures Run(s, steps).log == s.log + more
    ensures Received(Run(s, steps).got, c) == Received(s.got, c) + (Messages(more) + InFlight(Run(s, steps), c))
  {
    more := Completed(s, steps, c);
    var e := Run(s, steps);
    RunInv(s, steps);
    assert Delivered(s, c) && Delivered(e, c);
    HistoryOnce(s.log, more, c);
    Assoc(History(s.log, c), Messages(more), InFlight(e, c));
  }

  lemma {:induction false} CountPrefix<T>(s: seq<T>, n: nat, c: T)
    requires n <= |s|
    ensures Count(s[..n], c) <= Count(s, c)
    decreases |s|
  {
    if n < |s| {
      CountPrefix(s[..|s| - 1], n, c);
      assert s[..|s| - 1][..n] == s[..n];
    } else {
      assert s[..n] == s;
    }
  }

  lemma InFlightOnce<M>(s: System<M>, c: Chan)
    requires Exclusive(s) && Count(s.listeners, c) == 1
    ensures InFlight(s, c) == [] || (Dispatching(s) && InFlight(s, c) == [s.threads[s.mutex.t].call.m])
  {
    if Dispatching(s) {
      var p := s.threads[s.mutex.t];
      CountPrefix(s.listeners, p.done, c);
      assert Copies(p.call.m, 1) == [p.call.m];
    }
  }

  lemma {:induction false} ThroughoutEnds<M>(s: System<M>, steps: seq<Step<M>>, c: Chan)
    requires EnabledAll(s, steps) && Throughout(s, steps, c)
    ensures Count(Run(s, steps).listeners, c) == 1
    decreases |steps|
  {
    if steps != [] {
      ThroughoutEnds(Next(s, steps[0]), steps[1..], c);
    }
  }

  /** Two listeners registered throughout see the same messages in the same order, and
      differ by at most the one in flight. */
  lemma SameOrder<M>(s: System<M>, steps: seq<Step<M>>, a: Chan, b: Chan) returns (seen: seq<M>, x: seq<M>, y: seq<M>)
    requires Inv(s) && EnabledAll(s, steps) && Throughout(s, steps, a) && Throughout(s, steps, b)
    requires InFlight(s, a) == [] && InFlight(s, b) == []
    ensures Received(Run(s, steps).got, a) == Received(s.got, a) + (seen + x)
    ensures Received(Run(s, steps).got, b) == Received(s.got, b) + (seen + y)
    ensures x == y || (x == [] && |y| == 1) || (y == [] && |x| == 1)
    ensures var e := Run(s, steps); x + y != [] ==> Dispatching(e) && forall m :: m in x + y ==> m == e.threads[e.mutex.t].call.m
  {
    var e := Run(s, steps);
    var more := ReceivesAll(s, steps, a);
    var same := ReceivesAll(s, steps, b);
    assert more == e.log[|s.log|..] == same;
    seen, x, y := Messages(more), InFlight(e, a), InFlight(e, b);
    RunInv(s, steps);
    ThroughoutEnds(s, steps, a);
    ThroughoutEnds(s, steps, b);
    hide Received, Messages, History;
    InFlightOnce(e, a);
    InFlightOnce(e, b);
  }
}
