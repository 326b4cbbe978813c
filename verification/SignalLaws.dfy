/** message_signal.go: the steps of the calls on a signal do what its methods do, and a call
    that nobody interrupts is its method. */
module SignalLaws {
  import opened Slices
  import opened Signal

  /** The step of Add leaves the listeners as MessageSignal.Add does: the channel is on them
      once more, and every other as often as before. */
  lemma AddStep<M>(s: System<M>, t: Thread, c: Chan, d: Chan)
    requires Enabled(s, Act(t)) && s.threads[t].call == AddCall(c)
    ensures var e := Next(s, Act(t));
      && e.listeners == s.listeners + [c] && e.got == s.got && e.log == s.log
      && Count(e.listeners, d) == Count(s.listeners, d) + if c == d then 1 else 0
  {
    CountAppend(s.listeners, c, d);
  }

  /** The step of Remove leaves them as MessageSignal.Remove does: the channel is on them once
      less, if it was. */
  lemma RemoveStep<M>(s: System<M>, t: Thread, c: Chan, d: Chan)
    requires Enabled(s, Act(t)) && s.threads[t].call == RemoveCall(c)
    ensures var e := Next(s, Act(t));
      && e.listeners == SwapRemove(s.listeners, c, 0) && e.got == s.got && e.log == s.log
      && Count(e.listeners, d) == Count(s.listeners, d) - if c == d && c in s.listeners then 1 else 0
  {
    SwapRemoveCount(s.listeners, c, d, 0);
  }

  /** A step of Dispatch sends one copy to one listener, the next in their order. */
  lemma DispatchStep<M>(s: System<M>, t: Thread, m: M, d: Chan)
    requires Enabled(s, Act(t)) && s.threads[t].call == DispatchCall(m)
    ensures var e := Next(s, Act(t)); var k := s.threads[t].done;
      && k < |s.listeners| && e.listeners == s.listeners && e.log == s.log && e.threads[t].done == k + 1
      && Received(e.got, d) == Received(s.got, d) + if d == s.listeners[k] then [m] else []
  {
    SendReceived(s.got, s.listeners[s.threads[t].done], m, d);
    hide Send, Received;
  }

  /** Only the thread that holds the mutex acts, and it lets go only when its call is done:
      after one action, or a Dispatch after one for each listener. */
  lemma Holders<M>(s: System<M>, t: Thread)
    requires Exclusive(s)
    ensures Enabled(s, Lock(t)) ==> s.mutex == Free && Next(s, Lock(t)).mutex == Held(t)
    ensures Enabled(s, Act(t)) || Enabled(s, Unlock(t)) ==> s.mutex == Held(t)
    ensures Enabled(s, Unlock(t)) ==>
        Next(s, Unlock(t)).mutex == Free && t !in Next(s, Unlock(t)).threads
    ensures Enabled(s, Unlock(t)) ==>
        if s.threads[t].call.DispatchCall? then s.threads[t].done == |s.listeners| else s.threads[t].done > 0
  {
  }

  lemma RunHead<M>(s: System<M>, steps: seq<Step<M>>)
    requires steps != [] && Enabled(s, steps[0]) && EnabledAll(Next(s, steps[0]), steps[1..])
    ensures EnabledAll(s, steps) && Run(s, steps) == Run(Next(s, steps[0]), steps[1..])
  {
  }

  /** The steps of a call that acts once. */
  function OneAction<M>(t: Thread, call: Call<M>): seq<Step<M>> {
    [Invoke(t, call), Lock(t), Act(t), Unlock(t)]
  }

  /** Such a call, uninterrupted, on a signal that nobody is using: the same as its action. */
  lemma AloneRuns<M>(s: System<M>, t: Thread, call: Call<M>)
    requires s.mutex == Free && t !in s.threads && !call.DispatchCall?
    ensures EnabledAll(s, OneAction(t, call))
    ensures Run(s, OneAction(t, call))
         == s.(listeners := if call.AddCall? then s.listeners + [call.c] else SwapRemove(s.listeners, call.c, 0))
  {
    hide SwapRemove, Exclusive;
    var steps := OneAction(t, call);
    var s1 := Next(s, steps[0]);
    var s2 := Next(s1, steps[1]);
    var s3 := Next(s2, steps[2]);
    var s4 := Next(s3, steps[3]);
    assert s4.threads == s.threads;
    RunHead(s3, steps[3..]);
    RunHead(s2, steps[2..]);
    RunHead(s1, steps[1..]);
    RunHead(s, steps);
  }
}
