/** Slices without order: what the pool's connections and a signal's listeners are kept in. */
module Slices {

  /** s without its first c at or after i, the last element taking its place. */
  function SwapRemove<T(==)>(s: seq<T>, c: T, i: nat): seq<T>
    requires i <= |s|
    decreases |s| - i
  {
    if i == |s| then s
    else if s[i] == c then s[i := s[|s| - 1]][..|s| - 1]
    else SwapRemove(s, c, i + 1)
  }

  function Elements<T>(s: seq<T>): set<T> {
    set c | c in s
  }

  ghost predicate Distinct<T>(s: seq<T>) {
    forall i, j :: 0 <= i < j < |s| ==> s[i] != s[j]
  }

  /** How many times c is in s. */
  function Count<T(==)>(s: seq<T>, c: T): nat {
    if s == [] then 0 else Count(s[..|s| - 1], c) + if s[|s| - 1] == c then 1 else 0
  }

  lemma {:induction false} DistinctSize<T>(s: seq<T>)
    ensures |Elements(s)| <= |s|
    ensures Distinct(s) ==> |Elements(s)| == |s|
  {
    if s != [] {
      var k := |s| - 1;
      DistinctSize(s[..k]);
      assert s == s[..k] + [s[k]];
      assert Elements(s) == Elements(s[..k]) + {s[k]};
      if Distinct(s) {
        assert s[k] !in Elements(s[..k]);
      }
    }
  }

  lemma DistinctAppend<T>(s: seq<T>, c: T)
    requires Distinct(s) && c !in s
    ensures Distinct(s + [c]) && Elements(s + [c]) == Elements(s) + {c}
  {
  }

  lemma DistinctPop<T>(s: seq<T>)
    requires Distinct(s) && s != []
    ensures var k := |s| - 1; Distinct(s[..k]) && s[k] !in s[..k] && Elements(s[..k]) == Elements(s) - {s[k]}
  {
    var k := |s| - 1;
    assert s == s[..k] + [s[k]];
  }

  lemma {:induction false} SwapRemoved<T>(s: seq<T>, c: T, i: nat)
    requires Distinct(s) && i <= |s| && c !in s[..i]
    ensures var r := SwapRemove(s, c, i); Distinct(r) && Elements(r) == Elements(s) - {c} && |r| <= |s|
    decreases |s| - i
  {
    if i == |s| {
      assert s[..i] == s;
    } else if s[i] == c {
      SwappedOut(s, i);
    } else {
      assert s[..i + 1] == s[..i] + [s[i]];
      SwapRemoved(s, c, i + 1);
    }
  }

  lemma SwappedOut<T>(s: seq<T>, i: nat)
    requires Distinct(s) && i < |s|
    ensures var r := s[i := s[|s| - 1]][..|s| - 1]; Distinct(r) && Elements(r) == Elements(s) - {s[i]}
  {
    var k := |s| - 1;
    var r := s[i := s[k]][..k];
    forall c | c in s && c != s[i] ensures c in r {
      var j :| 0 <= j < |s| && s[j] == c;
      if j == k {
        assert r[i] == c;
      } else {
        assert r[j] == c;
      }
    }
  }

  lemma {:induction false} CountAppend<T>(s: seq<T>, x: T, c: T)
    ensures Count(s + [x], c) == Count(s, c) + if x == c then 1 else 0
  {
    assert (s + [x])[..|s|] == s;
  }

  lemma {:induction false} CountUpdate<T>(s: seq<T>, i: nat, x: T, c: T)
    requires i < |s|
    ensures Count(s[i := x], c) == Count(s, c) - (if s[i] == c then 1 else 0) + if x == c then 1 else 0
    decreases |s|
  {
    var k := |s| - 1;
    if i < k {
      CountUpdate(s[..k], i, x, c);
      assert s[i := x][..k] == s[..k][i := x];
    } else {
      assert s[i := x][..k] == s[..k];
    }
  }

  lemma {:induction false} CountAbsent<T>(s: seq<T>, c: T)
    requires c !in s
    ensures Count(s, c) == 0
    decreases |s|
  {
    if s != [] {
      CountAbsent(s[..|s| - 1], c);
    }
  }

  /** A swap-removal takes one occurrence of c away, and of nothing else. */
  lemma {:induction false} SwapRemoveCount<T>(s: seq<T>, c: T, d: T, i: nat)
    requires i <= |s| && c !in s[..i]
    ensures Count(SwapRemove(s, c, i), d) == Count(s, d) - if c == d && c in s then 1 else 0
    decreases |s| - i
  {
    if i == |s| {
      assert s[..i] == s;
      CountAbsent(s, c);
    } else if s[i] == c {
      CountUpdate(s, i, s[|s| - 1], d);
    } else {
      assert s[..i + 1] == s[..i] + [s[i]];
      SwapRemoveCount(s, c, d, i + 1);
    }
  }
}
