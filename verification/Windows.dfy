/** Windows of sequences: what a write through a slice leaves alone. */
module Windows {

  /** The n elements at off are the only part of a that differs from b. */
  ghost predicate OnlyChanges<T>(a: seq<T>, b: seq<T>, off: nat, n: nat) {
    && |a| == |b|
    && forall k :: 0 <= k < |a| && !(off <= k < off + n) ==> a[k] == b[k]
  }

  lemma SliceKept<T>(a: seq<T>, b: seq<T>, off: nat, n: nat, lo: nat, hi: nat)
    requires OnlyChanges(a, b, off, n) && lo <= hi <= |a|
    requires hi <= off || off + n <= lo
    ensures a[lo..hi] == b[lo..hi]
  {
  }

  /** Two writes inside one window. */
  lemma Compose<T>(a: seq<T>, b: seq<T>, c: seq<T>, off1: nat, n1: nat, off2: nat, n2: nat, off: nat, n: nat)
    requires OnlyChanges(a, b, off1, n1) && OnlyChanges(b, c, off2, n2)
    requires off <= off1 && off1 + n1 <= off + n && off <= off2 && off2 + n2 <= off + n
    ensures OnlyChanges(a, c, off, n)
  {
  }

  lemma SubSlice<T>(a: seq<T>, off: nat, n: nat, lo: nat, hi: nat)
    requires off + n <= |a| && lo <= hi <= n
    ensures a[off + lo..off + hi] == a[off..off + n][lo..hi]
  {
    var s, t := a[off + lo..off + hi], a[off..off + n][lo..hi];
    assert forall k :: 0 <= k < hi - lo ==> s[k] == a[off + lo + k] && t[k] == a[off + lo + k];
    assert s == t;
  }

  lemma Glue<T>(a: seq<T>, lo: nat, mid: nat, hi: nat)
    requires lo <= mid <= hi <= |a|
    ensures a[lo..hi] == a[lo..mid] + a[mid..hi]
  {
  }
}
