/** Joining sequences. */
module Sequences {

  lemma Assoc<T>(a: seq<T>, b: seq<T>, c: seq<T>)
    ensures a + b + c == a + (b + c)
  {
  }

  lemma Rejoin<T>(s: seq<T>, k: nat, a: seq<T>, b: seq<T>)
    requires k <= |s| && s[k..] == a + b
    ensures s == s[..k] + a + b
  {
    assert s == s[..k] + s[k..];
  }
}
