/** log15 ext/handler.go: the ring buffer that a speculative handler keeps until it is
    flushed. */
module Speculative {

  /** The last n elements of s, or all of them. */
  function LastOf<T>(s: seq<T>, n: nat): (r: seq<T>)
    ensures |r| == if |s| < n then |s| else n
    ensures s == s[..|s| - |r|] + r
  {
    if |s| <= n then s else s[|s| - n..]
  }

  lemma LastOfAppend<T>(s: seq<T>, n: nat, x: T)
    ensures n <= |s| && n > 0 ==> LastOf(s + [x], n) == LastOf(s, n)[1..] + [x]
    ensures |s| < n ==> LastOf(s + [x], n) == s + [x]
  {
    if n <= |s| && n > 0 {
      assert (s + [x])[|s| + 1 - n..] == s[|s| - n..][1..] + [x];
    }
  }

  /** The fields; a slot never written holds whatever it was made with. */
  datatype Ring<R> = Ring(recs: seq<R>, idx: nat, full: bool) {

    ghost predicate Valid() {
      idx < |recs|
    }

    function Log(r: R): Ring<R>
      requires Valid()
    {
      var next := (idx + 1) % |recs|;
      Ring(recs[idx := r], next, full || next == 0)
    }

    /** What Flush writes. */
    function Kept(): seq<R>
      requires Valid()
    {
      (if full then recs[idx..] else []) + recs[..idx]
    }

    function Flushed(): Ring<R> {
      Ring(recs, 0, false)
    }

    /** The ring holds the records logged since the last flush, as far as they fit. */
    ghost predicate Holds(logged: seq<R>) {
      && Valid()
      && full == (|recs| <= |logged|)
      && Kept() == LastOf(logged, |recs|)
    }
  }

  lemma LogWraps<R>(s: Ring<R>)
    requires s.Valid()
    ensures (s.idx + 1) % |s.recs| == if s.idx + 1 == |s.recs| then 0 else s.idx + 1
  {
  }

  lemma LogKept<R>(s: Ring<R>, r: R)
    requires s.Valid()
    ensures s.Log(r).Valid() && |s.Log(r).recs| == |s.recs|
    ensures s.full ==> s.Log(r).Kept() == s.Kept()[1..] + [r]
    ensures !s.full ==> s.Log(r).Kept() == s.Kept() + [r]
  {
    LogWraps(s);
    var n, i := |s.recs|, s.idx;
    var now := s.recs[i := r];
    assert now[..i + 1] == s.recs[..i] + [r];
    assert now[i + 1..] == s.recs[i + 1..];
    assert s.recs[i..][1..] == s.recs[i + 1..];
    if i + 1 == n {
      assert s.Log(r).Kept() == now[..i + 1];
    } else {
      assert s.Log(r).Kept() == (if s.full then now[i + 1..] else []) + now[..i + 1];
    }
  }

  lemma LogHolds<R>(s: Ring<R>, logged: seq<R>, r: R)
    requires s.Holds(logged)
    ensures s.Log(r).Holds(logged + [r])
  {
    LogKept(s, r);
    LogWraps(s);
    LastOfAppend(logged, |s.recs|, r);
  }

  lemma FlushHolds<R>(s: Ring<R>)
    requires s.Valid()
    ensures s.Flushed().Holds([])
  {
  }

  class Handler<R> {
    var idx: nat
    const recs: array<R>
    var full: bool
    ghost var logged: seq<R>

    ghost predicate Valid()
      reads this, recs
    {
      View().Holds(logged)
    }

    ghost function View(): Ring<R>
      reads this, recs
    {
      Ring(recs[..], idx, full)
    }

    constructor (size: nat, blank: R)
      requires size > 0
      ensures Valid() && logged == [] && recs.Length == size && fresh(recs)
    {
      idx, full, logged := 0, false, [];
      recs := new R[size](_ => blank);
    }

    method Log(r: R)
      requires Valid()
      modifies this, recs
      ensures Valid() && logged == old(logged) + [r] && View() == old(View()).Log(r)
    {
      LogHolds(View(), logged, r);
      hide LastOf, Ring.Holds, Ring.Kept;
      recs[idx] := r;
      idx := (idx + 1) % recs.Length;
      full := full || idx == 0;
      logged := logged + [r];
    }

    /** Flush; `out` is what it hands to the wrapped handler, in order. */
    method Flush() returns (out: seq<R>)
      requires Valid()
      modifies this
      ensures Valid() && logged == [] && View() == old(View()).Flushed()
      ensures out == LastOf(old(logged), recs.Length)
    {
      out := [];
      if full {
        out := out + recs[idx..];
      }
      out := out + recs[..idx];
      FlushHolds(View());
      full, idx := false, 0;
      logged := [];
    }
  }

  // ---- whole runs ----

  datatype Call<R> = LogCall(r: R) | FlushCall

  /** What the flushes of a run write, one list for each. */
  function Outputs<R>(s: Ring<R>, calls: seq<Call<R>>): seq<seq<R>>
    requires s.Valid()
    decreases |calls|
  {
    if calls == [] then []
    else
      match calls[0]
      case LogCall(r) => Outputs(s.Log(r), calls[1..])
      case FlushCall => [s.Kept()] + Outputs(s.Flushed(), calls[1..])
  }

  /** The records logged between flushes, one list for each flush. */
  function Batches<R>(logged: seq<R>, calls: seq<Call<R>>): seq<seq<R>>
    decreases |calls|
  {
    if calls == [] then []
    else
      match calls[0]
      case LogCall(r) => Batches(logged + [r], calls[1..])
      case FlushCall => [logged] + Batches([], calls[1..])
  }

  /** Every flush of every run writes the last records of its batch that fit, oldest first. */
  lemma {:induction false} FlushesWriteLast<R>(s: Ring<R>, logged: seq<R>, calls: seq<Call<R>>)
    requires s.Holds(logged)
    ensures |Outputs(s, calls)| == |Batches(logged, calls)|
    ensures forall k :: 0 <= k < |Outputs(s, calls)| ==>
        Outputs(s, calls)[k] == LastOf(Batches(logged, calls)[k], |s.recs|)
    decreases |calls|
  {
    hide LastOf, Ring.Log, Ring.Kept;
    if calls != [] {
      match calls[0]
      case LogCall(r) =>
        LogHolds(s, logged, r);
        LogKept(s, r);
        hide Ring.Holds;
        FlushesWriteLast(s.Log(r), logged + [r], calls[1..]);
      case FlushCall =>
        FlushHolds(s);
        FlushesWriteLast(s.Flushed(), [], calls[1..]);
    }
  }

  lemma HandlerRuns<R>(size: nat, blank: R, calls: seq<Call<R>>)
    requires size > 0
    ensures var s := Ring(seq(size, _ => blank), 0, false);
      && |Outputs(s, calls)| == |Batches([], calls)|
      && forall k :: 0 <= k < |Outputs(s, calls)| ==> Outputs(s, calls)[k] == LastOf(Batches([], calls)[k], size)
  {
    FlushesWriteLast(Ring(seq(size, _ => blank), 0, false), [], calls);
  }
}
