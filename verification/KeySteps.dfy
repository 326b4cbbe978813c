/** PBKDF2 and scrypt once more, step by step as RFC 2898 and RFC 7914 write them: given the
    intermediate values that the steps produce, the functions give their last one. */
module KeySteps {
  import opened Bytes
  import opened Octets
  import opened Salsa
  import opened ScryptSpec
  import Bits
  import P = Pbkdf2

  // ---- section 5.2 of RFC 2898 ----

  /** U_1, ..., U_c for block i. */
  ghost predicate Us(prf: P.Prf, password: seq<byte>, salt: seq<byte>, i: nat, us: seq<seq<byte>>) {
    && us != []
    && us[0] == prf.run(password, salt + [i / 0x100_0000 % 256, i / 0x1_0000 % 256, i / 0x100 % 256, i % 256])
    && forall j :: 0 <= j < |us| - 1 ==> UStep(prf, password, us, j)
  }

  predicate UStep(prf: P.Prf, password: seq<byte>, us: seq<seq<byte>>, j: nat)
    requires j + 1 < |us|
  {
    us[j + 1] == prf.run(password, us[j])
  }

  /** Their running exclusive-or. */
  ghost predicate Ts(size: nat, us: seq<seq<byte>>, ts: seq<seq<byte>>) {
    && |us| == |ts| > 0 && ts[0] == us[0]
    && (forall j :: 0 <= j < |us| ==> |us[j]| == |ts[j]| == size)
    && forall j :: 0 <= j < |us| - 1 ==> TStep(us, ts, j)
  }

  ghost predicate TStep(us: seq<seq<byte>>, ts: seq<seq<byte>>, j: nat)
    requires j + 1 < |us| == |ts|
  {
    |ts[j]| == |us[j + 1]| && ts[j + 1] == XorBytes(ts[j], us[j + 1])
  }

  lemma {:induction false} UIs(prf: P.Prf, password: seq<byte>, salt: seq<byte>, i: nat, us: seq<seq<byte>>, j: nat)
    requires Us(prf, password, salt, i, us) && j < |us|
    ensures P.U(prf, password, salt, i, j + 1) == us[j]
    decreases j
  {
    if j == 0 {
      P.CounterOctets(i);
    } else {
      UIs(prf, password, salt, i, us, j - 1);
      assert UStep(prf, password, us, j - 1);
    }
  }

  /** F is the exclusive-or of U_1, ..., U_c. */
  lemma {:induction false} FIs(prf: P.Prf, password: seq<byte>, salt: seq<byte>, i: nat, us: seq<seq<byte>>,
                               ts: seq<seq<byte>>, j: nat)
    requires prf.Valid() && Us(prf, password, salt, i, us) && Ts(prf.size, us, ts) && j < |us|
    ensures P.F(prf, password, salt, j + 1, i) == ts[j]
    decreases j
  {
    hide XorBytes;
    UIs(prf, password, salt, i, us, j);
    if j > 0 {
      FIs(prf, password, salt, i, us, ts, j - 1);
      hide P.U, Us;
      assert TStep(us, ts, j - 1);
    }
  }

  lemma {:induction false} BlocksAt(prf: P.Prf, password: seq<byte>, salt: seq<byte>, c: nat, l: nat, i: nat, k: nat)
    requires prf.Valid() && c >= 1 && i < l && k < prf.size
    ensures i * prf.size + k < |P.Blocks(prf, password, salt, c, l)|
    ensures P.Blocks(prf, password, salt, c, l)[i * prf.size + k] == P.F(prf, password, salt, c, i + 1)[k]
    decreases l
  {
    hide P.F;
    Bits.MulMonotone(prf.size, i + 1, l);
    assert prf.size * (i + 1) == i * prf.size + prf.size && prf.size * l == l * prf.size;
    if i < l - 1 {
      BlocksAt(prf, password, salt, c, l - 1, i, k);
    } else {
      assert |P.Blocks(prf, password, salt, c, l - 1)| == i * prf.size;
    }
  }

  /** Octet k of the derived key is octet k mod hLen of T_(k div hLen + 1). */
  lemma DerivedOctet(prf: P.Prf, password: seq<byte>, salt: seq<byte>, c: nat, dkLen: nat, k: nat)
    requires prf.Valid() && c >= 1 && k < dkLen
    ensures P.Derive(prf, password, salt, c, dkLen)[k] == P.F(prf, password, salt, c, k / prf.size + 1)[k % prf.size]
  {
    hide P.F, P.Blocks;
    var l := P.BlockCount(dkLen, prf.size);
    var q, rem := Bits.Divide(k, prf.size);
    assert prf.size * q == q * prf.size;
    assert prf.size * l == l * prf.size;
    if q >= l {
      Bits.MulMonotone(prf.size, l, q);
    }
    BlocksAt(prf, password, salt, c, l, q, rem);
  }

  // ---- section 4 of RFC 7914 ----

  /** X after 0, 1, ..., 2r of the steps of scryptBlockMix: it starts as the last 64 octets
      and is mixed with the 64-octet blocks one after another. */
  ghost predicate Chained(b: seq<byte>, r: nat, xs: seq<seq<byte>>) {
    && r > 0 && |b| == 128 * r && |xs| == 2 * r + 1
    && (forall j :: 0 <= j <= 2 * r ==> |xs[j]| == 64)
    && xs[0] == b[128 * r - 64..]
    && forall j: nat :: j < 2 * r ==> XStep(b, xs, j)
  }

  ghost predicate XStep(b: seq<byte>, xs: seq<seq<byte>>, j: nat)
    requires j + 1 < |xs| && 64 * j + 64 <= |b|
  {
    |xs[j]| == 64 && xs[j + 1] == SalsaOctets(XorBytes(xs[j], b[64 * j..64 * j + 64]))
  }

  lemma {:induction false} ChainIs(b: seq<byte>, r: nat, xs: seq<seq<byte>>, j: nat)
    requires Chained(b, r, xs) && j <= 2 * r
    ensures Chain(b, r, j) == xs[j]
    decreases j
  {
    hide SalsaOctets, XorBytes;
    if j > 0 {
      ChainIs(b, r, xs, j - 1);
      assert XStep(b, xs, j - 1);
    }
  }

  lemma {:induction false} EvensAt(b: seq<byte>, r: nat, n: nat, i: nat)
    requires IsBlocks(b, r) && i < n <= r
    ensures Evens(b, r, n)[64 * i..64 * i + 64] == Chain(b, r, 2 * i + 1)
    decreases n
  {
    hide Chain;
    var more := Evens(b, r, n - 1);
    if i < n - 1 {
      EvensAt(b, r, n - 1, i);
      assert Evens(b, r, n)[64 * i..64 * i + 64] == more[64 * i..64 * i + 64];
    }
  }

  lemma {:induction false} OddsAt(b: seq<byte>, r: nat, n: nat, i: nat)
    requires IsBlocks(b, r) && i < n <= r
    ensures Odds(b, r, n)[64 * i..64 * i + 64] == Chain(b, r, 2 * i + 2)
    decreases n
  {
    hide Chain;
    var more := Odds(b, r, n - 1);
    if i < n - 1 {
      OddsAt(b, r, n - 1, i);
      assert Odds(b, r, n)[64 * i..64 * i + 64] == more[64 * i..64 * i + 64];
    }
  }

  /** scryptBlockMix puts Y_0, Y_2, ..., Y_(2r-2) first and Y_1, Y_3, ..., Y_(2r-1) after
      them; Y_j is X after step j. */
  lemma BlockMixIs(b: seq<byte>, r: nat, xs: seq<seq<byte>>, i: nat)
    requires IsBlocks(b, r) && |xs| == 2 * r + 1 && Chained(b, r, xs) && i < r
    ensures BlockMix(b, r)[64 * i..64 * i + 64] == xs[2 * i + 1]
    ensures BlockMix(b, r)[64 * (r + i)..64 * (r + i) + 64] == xs[2 * i + 2]
  {
    hide Chained, Chain, BlockMix;
    ChainIs(b, r, xs, 2 * i + 1);
    ChainIs(b, r, xs, 2 * i + 2);
    BlockMixAt(b, r, i);
  }

  lemma BlockMixAt(b: seq<byte>, r: nat, i: nat)
    requires IsBlocks(b, r) && i < r
    ensures BlockMix(b, r)[64 * i..64 * i + 64] == Chain(b, r, 2 * i + 1)
    ensures BlockMix(b, r)[64 * (r + i)..64 * (r + i) + 64] == Chain(b, r, 2 * i + 2)
  {
    hide Evens, Odds, Chain, BlockMix;
    EvensAt(b, r, r, i);
    OddsAt(b, r, r, i);
    BlockMixHalves(b, r);
    var y, z := Evens(b, r, r), Odds(b, r, r);
    SliceLeft(y, z, 64 * i, 64 * i + 64);
    SliceRight(y, z, 64 * i, 64 * i + 64);
  }

  lemma BlockMixHalves(b: seq<byte>, r: nat)
    requires IsBlocks(b, r)
    ensures BlockMix(b, r) == Evens(b, r, r) + Odds(b, r, r)
  {
    hide Evens, Odds;
  }

  lemma SliceLeft<T>(y: seq<T>, z: seq<T>, lo: nat, hi: nat)
    requires lo <= hi <= |y|
    ensures (y + z)[lo..hi] == y[lo..hi]
  {
  }

  lemma SliceRight<T>(y: seq<T>, z: seq<T>, lo: nat, hi: nat)
    requires lo <= hi <= |z|
    ensures (y + z)[|y| + lo..|y| + hi] == z[lo..hi]
  {
  }

  /** Salsa20/8 on octets is Salsa20/8 on the words that they spell, least significant
      octet first. */
  lemma SalsaOctetsIs(b: seq<byte>, w: Block)
    requires |b| == 64
    requires forall i: nat :: i < 16 ==>
        var b0: nat, b1: nat, b2: nat, b3: nat := b[4 * i], b[4 * i + 1], b[4 * i + 2], b[4 * i + 3];
        w[i] == b0 + 0x100 * b1 + 0x1_0000 * b2 + 0x100_0000 * b3
    ensures SalsaOctets(b) == OctetsOf(Salsa8(w))
  {
    hide Salsa8;
    OctetsOfWordsAt(b, w);
    OctetsOfInjective(WordsOf(b), w);
  }

  // ---- section 5 ----

  /** V[0], ..., V[N-1]. */
  ghost predicate Table(b: seq<byte>, r: nat, n: nat, v: seq<seq<byte>>) {
    && r > 0 && |b| == 128 * r && |v| == n > 0
    && (forall j :: 0 <= j < n ==> |v[j]| == 128 * r)
    && v[0] == b
    && forall j :: 0 <= j < n - 1 ==> VStep(r, v, j)
  }

  ghost predicate VStep(r: nat, v: seq<seq<byte>>, j: nat)
    requires j + 1 < |v|
  {
    IsBlocks(v[j], r) && v[j + 1] == BlockMix(v[j], r)
  }

  /** X before and after each of the N steps that look up V, at the little-endian value of
      the last 64 octets of X. */
  ghost predicate LookedUp(r: nat, n: nat, v: seq<seq<byte>>, xs: seq<seq<byte>>) {
    && r > 0 && |v| == n > 0 && |xs| == n + 1
    && (forall j :: 0 <= j < n ==> |v[j]| == 128 * r)
    && (forall j :: 0 <= j <= n ==> |xs[j]| == 128 * r)
    && xs[0] == BlockMix(v[n - 1], r)
    && forall j: nat :: j < n ==> LookupStep(r, v, xs, j)
  }

  ghost predicate LookupStep(r: nat, v: seq<seq<byte>>, xs: seq<seq<byte>>, j: nat)
    requires j + 1 < |xs| && v != []
  {
    && IsBlocks(xs[j], r)
    && var row := v[LittleEndianValue(xs[j][128 * r - 64..]) % |v|];
      |row| == |xs[j]| && xs[j + 1] == BlockMix(XorBytes(xs[j], row), r)
  }

  lemma {:induction false} IterateIs(b: seq<byte>, r: nat, n: nat, v: seq<seq<byte>>, j: nat)
    requires Table(b, r, n, v) && j < n
    ensures Iterate(b, r, j) == v[j]
    decreases j
  {
    hide BlockMix;
    if j > 0 {
      IterateIs(b, r, n, v, j - 1);
      assert VStep(r, v, j - 1);
    }
  }

  lemma {:induction false} MixedIs(b: seq<byte>, r: nat, n: nat, v: seq<seq<byte>>, xs: seq<seq<byte>>, j: nat)
    requires Table(b, r, n, v) && LookedUp(r, n, v, xs) && j <= n
    ensures Mixed(b, r, n, j) == xs[j]
    decreases j
  {
    hide BlockMix, XorBytes, LittleEndianValue;
    if j == 0 {
      IterateIs(b, r, n, v, n - 1);
      hide Mixed;
      assert Iterate(b, r, n) == BlockMix(Iterate(b, r, n - 1), r);
      MixedNone(b, r, n);
    } else {
      var x := xs[j - 1];
      MixedIs(b, r, n, v, xs, j - 1);
      var k := LittleEndianValue(x[128 * r - 64..]) % n;
      IterateIs(b, r, n, v, k);
      assert Integerify(x, r) % n == k;
      hide Iterate, Integerify;
      assert LookupStep(r, v, xs, j - 1);
    }
  }

  lemma MixedNone(b: seq<byte>, r: nat, n: nat)
    requires IsBlocks(b, r) && n > 0
    ensures Mixed(b, r, n, 0) == Iterate(b, r, n)
  {
  }

  /** scryptROMix fills the table and then makes all N of the steps that look it up. */
  lemma ROMixIs(b: seq<byte>, r: nat, n: nat, v: seq<seq<byte>>, xs: seq<seq<byte>>)
    requires Table(b, r, n, v) && LookedUp(r, n, v, xs)
    ensures ROMix(b, r, n) == xs[n]
  {
    MixedIs(b, r, n, v, xs, n);
  }

  // ---- section 6 ----

  function Joined(bs: seq<seq<byte>>): seq<byte> {
    if bs == [] then [] else bs[0] + Joined(bs[1..])
  }

  /** Every block of 128r octets, mixed. */
  ghost predicate EachMixed(bs: seq<seq<byte>>, r: nat, n: nat, ms: seq<seq<byte>>)
    requires r > 0 && n > 0
  {
    && |bs| == |ms|
    && forall i :: 0 <= i < |bs| ==> |bs[i]| == 128 * r && ms[i] == ROMix(bs[i], r, n)
  }

  lemma {:induction false} MixBlocksIs(bs: seq<seq<byte>>, r: nat, n: nat, ms: seq<seq<byte>>)
    requires r > 0 && n > 0 && EachMixed(bs, r, n, ms)
    ensures MixBlocks(Joined(bs), r, n) == Joined(ms)
    decreases |bs|
  {
    hide ROMix;
    if bs != [] {
      MixBlocksIs(bs[1..], r, n, ms[1..]);
      var b := Joined(bs);
      assert b[..128 * r] == bs[0] && b[128 * r..] == Joined(bs[1..]);
    }
  }

  /** scrypt: one iteration of PBKDF2 gives p blocks, each is mixed, and one iteration of
      PBKDF2 with the mixed blocks as salt gives the key. */
  lemma ScryptIs(prf: P.Prf, password: seq<byte>, salt: seq<byte>, n: nat, r: nat, p: nat, dkLen: nat,
                 bs: seq<seq<byte>>, ms: seq<seq<byte>>)
    requires prf.Valid() && r > 0 && n > 0 && EachMixed(bs, r, n, ms)
    requires Joined(bs) == P.Derive(prf, password, salt, 1, p * 128 * r)
    ensures ScryptSpec.Derive(prf, password, salt, n, r, p, dkLen) == P.Derive(prf, password, Joined(ms), 1, dkLen)
  {
    hide P.Derive, MixBlocks, EachMixed;
    MixBlocksIs(bs, r, n, ms);
  }
}
