/** scrypt.go: the array code, proved against RFC 7914. A Go slice is an array and an
    offset; `xy` holds the two working buffers of smix. */
module Scrypt {
  import opened Wrappers
  import opened Bytes
  import opened Octets
  import opened Salsa
  import Bits
  import opened Windows
  import Pbkdf2
  import Spec = ScryptSpec

  method BlockCopy(dst: array<word>, dstOff: nat, src: array<word>, srcOff: nat, n: nat)
    requires dstOff + n <= dst.Length && srcOff + n <= src.Length
    modifies dst
    ensures dst[dstOff..dstOff + n] == old(src[srcOff..srcOff + n])
    ensures OnlyChanges(dst[..], old(dst[..]), dstOff, n)
  {
    forall k | 0 <= k < n {
      dst[dstOff + k] := src[srcOff + k];
    }
  }

  method BlockXor(dst: array<word>, dstOff: nat, src: array<word>, srcOff: nat, n: nat)
    requires dst != src && dstOff + n <= dst.Length && srcOff + n <= src.Length
    modifies dst
    ensures dst[dstOff..dstOff + n] == XorWords(old(dst[dstOff..dstOff + n]), src[srcOff..srcOff + n])
    ensures OnlyChanges(dst[..], old(dst[..]), dstOff, n)
  {
    hide XorWord;
    ghost var was := dst[..];
    for i := 0 to n
      invariant OnlyChanges(dst[..], was, dstOff, i)
      invariant forall k :: dstOff <= k < dstOff + i ==> dst[k] == XorWord(was[k], src[srcOff + (k - dstOff)])
    {
      dst[dstOff + i] := XorWord(dst[dstOff + i], src[srcOff + i]);
    }
  }

  /** One chunk of blockMix: salsaXOR from chunk i of the input window into dst. */
  method MixChunk(tmp: array<word>, xy: array<word>, inOff: nat, dst: nat, r: nat, i: nat, ghost w: seq<word>)
    requires r > 0 && tmp.Length == 16 && tmp != xy && i < 2 * r
    requires inOff + 32 * r <= xy.Length && dst + 16 <= xy.Length
    requires xy[inOff..inOff + 32 * r] == w
    requires OctetsOf(tmp[..]) == Spec.Chain(OctetsOf(w), r, i)
    modifies tmp, xy
    ensures OctetsOf(tmp[..]) == Spec.Chain(OctetsOf(w), r, i + 1)
    ensures xy[dst..dst + 16] == tmp[..]
    ensures OnlyChanges(xy[..], old(xy[..]), dst, 16)
  {
    hide Salsa8, OctetsOf, XorWords, Spec.Chain, OnlyChanges;
    Spec.ChainStep(w, tmp[..], r, i);
    SubSlice(xy[..], inOff, 32 * r, 16 * i, 16 * i + 16);
    SalsaXor(tmp, xy, inOff + i * 16, xy, dst);
  }

  /** The loop invariant of blockMix: after n rounds the even outputs so far lie in the
      first half of the output window and the odd ones in the second. */
  ghost predicate Halves(a: seq<word>, off: nat, r: nat, b: seq<byte>, n: nat)
    requires r > 0 && |b| == 128 * r && n <= r
  {
    && off + 32 * r <= |a|
    && OctetsOf(a[off..off + 16 * n]) == Spec.Evens(b, r, n)
    && OctetsOf(a[off + 16 * r..off + 16 * r + 16 * n]) == Spec.Odds(b, r, n)
  }

  /** The loop body of blockMix, for i == 2 * n. */
  method MixPair(tmp: array<word>, xy: array<word>, inOff: nat, outOff: nat, r: nat, i: nat, ghost n: nat, ghost w: seq<word>)
    requires r > 0 && tmp.Length == 16 && tmp != xy && i == 2 * n && n < r
    requires inOff + 32 * r <= xy.Length && outOff + 32 * r <= xy.Length
    requires inOff + 32 * r <= outOff || outOff + 32 * r <= inOff
    requires xy[inOff..inOff + 32 * r] == w
    requires OctetsOf(tmp[..]) == Spec.Chain(OctetsOf(w), r, i)
    requires Halves(xy[..], outOff, r, OctetsOf(w), n)
    modifies tmp, xy
    ensures OctetsOf(tmp[..]) == Spec.Chain(OctetsOf(w), r, i + 2)
    ensures Halves(xy[..], outOff, r, OctetsOf(w), n + 1)
    ensures OnlyChanges(xy[..], old(xy[..]), outOff, 32 * r)
  {
    hide OctetsOf, Spec.Chain, Halves, OnlyChanges;
    ghost var xy0 := xy[..];
    MixChunk(tmp, xy, inOff, outOff + i * 8, r, i, w);
    ghost var xy1, even := xy[..], tmp[..];
    SliceKept(xy1, xy0, outOff + i * 8, 16, inOff, inOff + 32 * r);
    MixChunk(tmp, xy, inOff, outOff + i * 8 + r * 16, r, i + 1, w);
    PairStep(xy0, xy1, xy[..], even, tmp[..], outOff, r, n, OctetsOf(w));
  }

  method BlockMix(tmp: array<word>, xy: array<word>, inOff: nat, outOff: nat, r: nat)
    requires r > 0 && tmp.Length == 16 && tmp != xy
    requires inOff + 32 * r <= xy.Length && outOff + 32 * r <= xy.Length
    requires inOff + 32 * r <= outOff || outOff + 32 * r <= inOff
    modifies tmp, xy
    ensures OctetsOf(xy[outOff..outOff + 32 * r]) == Spec.BlockMix(OctetsOf(old(xy[inOff..inOff + 32 * r])), r)
    ensures OnlyChanges(xy[..], old(xy[..]), outOff, 32 * r)
  {
    hide OctetsOf, Spec.Chain, Halves, OnlyChanges;
    ghost var was := xy[..];
    ghost var w := was[inOff..inOff + 32 * r];
    BlockCopy(tmp, 0, xy, inOff + (2 * r - 1) * 16, 16);
    assert tmp[..] == w[(2 * r - 1) * 16..];
    Start(w, was, outOff, r);
    var i := 0;
    ghost var n := 0;
    while i < 2 * r
      invariant i == 2 * n && 0 <= n <= r
      invariant OctetsOf(tmp[..]) == Spec.Chain(OctetsOf(w), r, i)
      invariant Halves(xy[..], outOff, r, OctetsOf(w), n)
      invariant OnlyChanges(xy[..], was, outOff, 32 * r)
    {
      ghost var xy0 := xy[..];
      SliceKept(xy0, was, outOff, 32 * r, inOff, inOff + 32 * r);
      MixPair(tmp, xy, inOff, outOff, r, i, n, w);
      Compose(xy[..], xy0, was, outOff, 32 * r, outOff, 32 * r, outOff, 32 * r);
      i, n := i + 2, n + 1;
    }
    Finish(xy[..], outOff, r, OctetsOf(w));
  }

  lemma Start(w: seq<word>, a: seq<word>, off: nat, r: nat)
    requires r > 0 && |w| == 32 * r && off + 32 * r <= |a|
    ensures OctetsOf(w[(2 * r - 1) * 16..]) == Spec.Chain(OctetsOf(w), r, 0)
    ensures Halves(a, off, r, OctetsOf(w), 0)
    ensures OnlyChanges(a, a, off, 32 * r)
  {
    OctetsOfSlice(w, (2 * r - 1) * 16, 32 * r);
    assert w[(2 * r - 1) * 16..32 * r] == w[(2 * r - 1) * 16..];
  }

  /** The two stores of one iteration extend the even and the odd half by a chunk each. */
  lemma PairStep(xy0: seq<word>, xy1: seq<word>, xy2: seq<word>, even: seq<word>, odd: seq<word>,
                 off: nat, r: nat, n: nat, b: seq<byte>)
    requires n < r && |b| == 128 * r
    requires off + 32 * r <= |xy0| == |xy1| == |xy2|
    requires OnlyChanges(xy1, xy0, off + 16 * n, 16) && xy1[off + 16 * n..off + 16 * n + 16] == even
    requires OnlyChanges(xy2, xy1, off + 16 * n + 16 * r, 16)
    requires xy2[off + 16 * n + 16 * r..off + 16 * n + 16 * r + 16] == odd
    requires Halves(xy0, off, r, b, n)
    requires OctetsOf(even) == Spec.Chain(b, r, 2 * n + 1) && OctetsOf(odd) == Spec.Chain(b, r, 2 * n + 2)
    ensures OnlyChanges(xy2, xy0, off, 32 * r)
    ensures Halves(xy2, off, r, b, n + 1)
  {
    hide OctetsOf, Spec.Chain, OnlyChanges;
    var mid, lo, hi := off + 16 * r, off + 16 * n, off + 16 * n + 16 * r;
    Compose(xy2, xy1, xy0, hi, 16, lo, 16, off, 32 * r);
    assert OctetsOf(xy2[off..lo + 16]) == OctetsOf(xy0[off..lo]) + OctetsOf(even) by {
      SliceKept(xy1, xy0, lo, 16, off, lo);
      SliceKept(xy2, xy1, hi, 16, off, lo);
      SliceKept(xy2, xy1, hi, 16, lo, lo + 16);
      Extend(xy2, off, lo, xy0[off..lo], even);
    }
    assert OctetsOf(xy2[mid..hi + 16]) == OctetsOf(xy0[mid..hi]) + OctetsOf(odd) by {
      SliceKept(xy1, xy0, lo, 16, mid, hi);
      SliceKept(xy2, xy1, hi, 16, mid, hi);
      Extend(xy2, mid, hi, xy0[mid..hi], odd);
    }
  }

  lemma Extend(a: seq<word>, lo: nat, mid: nat, prefix: seq<word>, chunk: seq<word>)
    requires lo <= mid && mid + 16 <= |a| && a[lo..mid] == prefix && a[mid..mid + 16] == chunk
    ensures OctetsOf(a[lo..mid + 16]) == OctetsOf(prefix) + OctetsOf(chunk)
  {
    Glue(a, lo, mid, mid + 16);
    OctetsOfConcat(prefix, chunk);
  }

  lemma Finish(a: seq<word>, off: nat, r: nat, b: seq<byte>)
    requires r > 0 && |b| == 128 * r && Halves(a, off, r, b, r)
    ensures OctetsOf(a[off..off + 32 * r]) == Spec.BlockMix(b, r)
  {
    hide OctetsOf, Spec.Evens, Spec.Odds;
    Glue(a, off, off + 16 * r, off + 32 * r);
    OctetsOfConcat(a[off..off + 16 * r], a[off + 16 * r..off + 32 * r]);
  }

  // ---- smix ----

  function Row(v: seq<word>, r: nat, j: nat): seq<word> {
    if j * (32 * r) + 32 * r <= |v| then v[j * (32 * r)..j * (32 * r) + 32 * r] else []
  }

  /** Rows 0..i of v hold V[0], ..., V[i-1] of section 5. */
  ghost predicate Rows(v: seq<word>, r: nat, b: seq<byte>, i: nat)
    requires r > 0 && |b| == 128 * r
  {
    forall j: nat :: j < i ==> OctetsOf(Row(v, r, j)) == Spec.Iterate(b, r, j)
  }

  /** v has room for n rows of 32*r words. */
  predicate HoldsRows(len: nat, n: nat, r: nat) {
    n * (32 * r) <= len
  }

  lemma RowFits(r: nat, n: nat, j: nat, len: nat)
    requires j < n && HoldsRows(len, n, r)
    ensures j * (32 * r) + 32 * r <= len
  {
    Bits.MulMonotone(32 * r, j + 1, n);
    assert (32 * r) * (j + 1) == j * (32 * r) + 32 * r && (32 * r) * n == n * (32 * r);
  }

  /** Writing row i leaves the rows before it alone. */
  lemma RowKept(v: seq<word>, was: seq<word>, r: nat, j: nat, i: nat)
    requires j < i && i * (32 * r) + 32 * r <= |v|
    requires OnlyChanges(v, was, i * (32 * r), 32 * r)
    ensures Row(v, r, j) == Row(was, r, j)
  {
    RowFits(r, i, j, i * (32 * r));
    SliceKept(v, was, i * (32 * r), 32 * r, j * (32 * r), j * (32 * r) + 32 * r);
  }

  lemma RowsExtend(v: seq<word>, was: seq<word>, r: nat, b: seq<byte>, i: nat)
    requires r > 0 && |b| == 128 * r && i * (32 * r) + 32 * r <= |v|
    requires Rows(was, r, b, i) && OnlyChanges(v, was, i * (32 * r), 32 * r)
    requires OctetsOf(v[i * (32 * r)..i * (32 * r) + 32 * r]) == Spec.Iterate(b, r, i)
    ensures Rows(v, r, b, i + 1)
  {
    hide OctetsOf, Spec.Iterate, OnlyChanges, Rows;
    assert v[i * (32 * r)..i * (32 * r) + 32 * r] == Row(v, r, i);
    hide Row;
    forall j: nat | j < i ensures OctetsOf(Row(v, r, j)) == Spec.Iterate(b, r, j) {
      RowKept(v, was, r, j, i);
      RowAt(was, r, b, i, j);
    }
    RowsFrom(v, r, b, i);
  }

  lemma RowAt(v: seq<word>, r: nat, b: seq<byte>, i: nat, j: nat)
    requires r > 0 && |b| == 128 * r && Rows(v, r, b, i) && j < i
    ensures OctetsOf(Row(v, r, j)) == Spec.Iterate(b, r, j)
  {
    hide OctetsOf, Spec.Iterate, Row;
  }

  lemma RowsFrom(v: seq<word>, r: nat, b: seq<byte>, i: nat)
    requires r > 0 && |b| == 128 * r
    requires forall j: nat :: j < i ==> OctetsOf(Row(v, r, j)) == Spec.Iterate(b, r, j)
    requires OctetsOf(Row(v, r, i)) == Spec.Iterate(b, r, i)
    ensures Rows(v, r, b, i + 1)
  {
    hide OctetsOf, Spec.Iterate, Row;
  }

  /** `for i := 0; i < 32*r; i++ { x[i] = ... }`: octets of b to words of x. */
  method Load(b: array<byte>, bOff: nat, xy: array<word>, r: nat)
    requires bOff + 128 * r <= b.Length && 32 * r <= xy.Length
    modifies xy
    ensures OctetsOf(xy[0..32 * r]) == b[bOff..bOff + 128 * r]
  {
    hide Pack, OctetsOf;
    ghost var s := b[bOff..bOff + 128 * r];
    var i, j := 0, 0;
    while i < 32 * r
      invariant 0 <= i <= 32 * r && j == 4 * i
      invariant forall q :: 0 <= q < i ==> xy[q] == WordAt(s, q)
    {
      PackValue(b[bOff + j], b[bOff + j + 1], b[bOff + j + 2], b[bOff + j + 3]);
      assert s[4 * i] == b[bOff + j] && s[4 * i + 1] == b[bOff + j + 1];
      assert s[4 * i + 2] == b[bOff + j + 2] && s[4 * i + 3] == b[bOff + j + 3];
      xy[i] := Pack(b[bOff + j], b[bOff + j + 1], b[bOff + j + 2], b[bOff + j + 3]);
      j := j + 4;
      i := i + 1;
    }
    OctetsOfWordsAt(s, xy[0..32 * r]);
  }

  /** The closing loop of smix: words of x back to octets of b. */
  method Store(b: array<byte>, bOff: nat, xy: array<word>, r: nat)
    requires bOff + 128 * r <= b.Length && 32 * r <= xy.Length
    modifies b
    ensures b[bOff..bOff + 128 * r] == OctetsOf(xy[0..32 * r])
    ensures OnlyChanges(b[..], old(b[..]), bOff, 128 * r)
  {
    hide OctetsOf, OctetOf;
    ghost var was := b[..];
    var j := 0;
    assert OctetsOf([]) == [];
    for i := 0 to 32 * r
      invariant j == 4 * i
      invariant OnlyChanges(b[..], was, bOff, 4 * i)
      invariant b[bOff..bOff + 4 * i] == OctetsOf(xy[0..i])
    {
      var v := xy[i];
      ghost var done := b[bOff..bOff + j];
      b[bOff + j + 0] := OctetOf(v, 0);
      b[bOff + j + 1] := OctetOf(v, 1);
      b[bOff + j + 2] := OctetOf(v, 2);
      b[bOff + j + 3] := OctetOf(v, 3);
      OctetsOfOne(v);
      OctetsOfConcat(xy[0..i], [v]);
      assert xy[0..i + 1] == xy[0..i] + [v];
      assert b[bOff..bOff + j + 4] == done + OctetsOf([v]);
      j := j + 4;
    }
  }

  /** Half an iteration of the first loop: save X in row i of v, then mix it. */
  method FillStep(tmp: array<word>, v: array<word>, xy: array<word>, from: nat, to: nat, r: nat, n: nat, i: nat,
                  ghost b: seq<byte>)
    requires r > 0 && |b| == 128 * r && tmp.Length == 16 && tmp != xy && v != xy && tmp != v
    requires from + 32 * r <= xy.Length && to + 32 * r <= xy.Length
    requires from + 32 * r <= to || to + 32 * r <= from
    requires i < n && HoldsRows(v.Length, n, r)
    requires OctetsOf(xy[from..from + 32 * r]) == Spec.Iterate(b, r, i) && Rows(v[..], r, b, i)
    modifies tmp, v, xy
    ensures OctetsOf(xy[to..to + 32 * r]) == Spec.Iterate(b, r, i + 1) && Rows(v[..], r, b, i + 1)
  {
    hide OctetsOf, Rows, Spec.BlockMix;
    RowFits(r, n, i, v.Length);
    ghost var was := v[..];
    BlockCopy(v, i * (32 * r), xy, from, 32 * r);
    RowsExtend(v[..], was, r, b, i);
    BlockMix(tmp, xy, from, to, r);
  }

  /** Half an iteration of the second loop: xor in the row that X selects, then mix. */
  method MixStep(tmp: array<word>, v: array<word>, xy: array<word>, from: nat, to: nat, r: nat, n: nat, ghost k: nat,
                 ghost b: seq<byte>, ghost i: nat)
    requires r > 0 && |b| == 128 * r && tmp.Length == 16 && tmp != xy && v != xy && tmp != v
    requires from + 32 * r <= xy.Length && to + 32 * r <= xy.Length
    requires from + 32 * r <= to || to + 32 * r <= from
    requires k <= 64 && n == Bits.Pow2(k) && HoldsRows(v.Length, n, r) && Rows(v[..], r, b, n)
    requires OctetsOf(xy[from..from + 32 * r]) == Spec.Mixed(b, r, n, i)
    modifies tmp, xy
    ensures OctetsOf(xy[to..to + 32 * r]) == Spec.Mixed(b, r, n, i + 1)
  {
    hide OctetsOf, Spec.BlockMix, Spec.Iterate, Spec.Integerify, Spec.LowWords, Bits.And, Bits.Pow2, XorWords, Rows;
    ghost var x := xy[from..from + 32 * r];
    var j := Bits.And(Spec.LowWords(xy[from..from + 32 * r], r), n - 1);
    Spec.IntegerifyMask(x, r, k);
    RowFits(r, n, j, v.Length);
    ghost var row := v[j * (32 * r)..j * (32 * r) + 32 * r];
    assert row == Row(v[..], r, j);
    RowAt(v[..], r, b, n, j);
    hide Row;
    OctetsOfXor(x, row);
    BlockXor(xy, from, v, j * (32 * r), 32 * r);
    BlockMix(tmp, xy, from, to, r);
  }

  /** After i steps of the first loop: x holds V[i] and the rows before i are filled. */
  ghost predicate Filled(xy: seq<word>, v: seq<word>, r: nat, n: nat, b: seq<byte>, i: nat) {
    && r > 0 && |b| == 128 * r && |xy| >= 64 * r && HoldsRows(|v|, n, r)
    && OctetsOf(xy[0..32 * r]) == Spec.Iterate(b, r, i)
    && Rows(v, r, b, i)
  }

  /** The body of the first loop of smix: x into y, then y back into x. */
  method FillPair(tmp: array<word>, v: array<word>, xy: array<word>, r: nat, n: nat, i: nat, ghost b: seq<byte>)
    requires tmp.Length == 16 && tmp != xy && v != xy && tmp != v && i + 1 < n
    requires Filled(xy[..], v[..], r, n, b, i)
    modifies tmp, v, xy
    ensures Filled(xy[..], v[..], r, n, b, i + 2)
  {
    hide OctetsOf, Rows, Spec.Iterate;
    var x, y := 0, 32 * r;
    FillStep(tmp, v, xy, x, y, r, n, i, b);
    FillStep(tmp, v, xy, y, x, r, n, i + 1, b);
  }

  /** The first loop of smix. */
  method Fill(tmp: array<word>, v: array<word>, xy: array<word>, r: nat, n: nat, ghost h: nat, ghost b: seq<byte>)
    requires tmp.Length == 16 && tmp != xy && v != xy && tmp != v && n == 2 * h
    requires Filled(xy[..], v[..], r, n, b, 0)
    modifies tmp, v, xy
    ensures Filled(xy[..], v[..], r, n, b, n)
  {
    hide *;
    var i := 0;
    ghost var m := 0;
    while i < n
      invariant i == 2 * m && 0 <= m <= h && Filled(xy[..], v[..], r, n, b, i)
    {
      FillPair(tmp, v, xy, r, n, i, b);
      i, m := i + 2, m + 1;
    }
  }

  /** After i steps of the second loop: x holds the mixed block, v all of V. */
  ghost predicate MixedTo(xy: seq<word>, v: seq<word>, r: nat, n: nat, k: nat, b: seq<byte>, i: nat) {
    && r > 0 && |b| == 128 * r && |xy| >= 64 * r && HoldsRows(|v|, n, r)
    && k <= 64 && n == Bits.Pow2(k)
    && OctetsOf(xy[0..32 * r]) == Spec.Mixed(b, r, n, i)
    && Rows(v, r, b, n)
  }

  /** The body of the second loop of smix. */
  method MixTwice(tmp: array<word>, v: array<word>, xy: array<word>, r: nat, n: nat, ghost k: nat,
                  ghost b: seq<byte>, ghost i: nat)
    requires tmp.Length == 16 && tmp != xy && v != xy && tmp != v
    requires MixedTo(xy[..], v[..], r, n, k, b, i)
    modifies tmp, xy
    ensures MixedTo(xy[..], v[..], r, n, k, b, i + 2)
  {
    hide OctetsOf, Rows, Spec.Mixed;
    var x, y := 0, 32 * r;
    MixStep(tmp, v, xy, x, y, r, n, k, b, i);
    MixStep(tmp, v, xy, y, x, r, n, k, b, i + 1);
  }

  /** The second loop of smix. */
  method Mix(tmp: array<word>, v: array<word>, xy: array<word>, r: nat, n: nat, ghost k: nat, ghost h: nat,
             ghost b: seq<byte>)
    requires tmp.Length == 16 && tmp != xy && v != xy && tmp != v && n == 2 * h
    requires MixedTo(xy[..], v[..], r, n, k, b, 0)
    modifies tmp, xy
    ensures MixedTo(xy[..], v[..], r, n, k, b, n)
  {
    hide *;
    var i := 0;
    ghost var m := 0;
    while i < n
      invariant i == 2 * m && 0 <= m <= h && MixedTo(xy[..], v[..], r, n, k, b, i)
    {
      MixTwice(tmp, v, xy, r, n, k, b, i);
      i, m := i + 2, m + 1;
    }
  }

  /** smix leaves scryptROMix of the window in the window. */
  method Smix(b: array<byte>, bOff: nat, r: nat, n: nat, v: array<word>, xy: array<word>, ghost k: nat)
    requires r > 0 && 1 <= k <= 64 && n == Bits.Pow2(k)
    requires bOff + 128 * r <= b.Length && HoldsRows(v.Length, n, r) && 64 * r <= xy.Length && v != xy
    modifies b, v, xy
    ensures b[bOff..bOff + 128 * r] == Spec.ROMix(old(b[bOff..bOff + 128 * r]), r, n)
    ensures OnlyChanges(b[..], old(b[..]), bOff, 128 * r)
  {
    hide OctetsOf, Spec.BlockMix, OnlyChanges, HoldsRows;
    ghost var s := b[bOff..bOff + 128 * r];
    ghost var h := Bits.Pow2(k - 1);
    var tmp := new word[16];
    Load(b, bOff, xy, r);
    assert Filled(xy[..], v[..], r, n, s, 0);
    Fill(tmp, v, xy, r, n, h, s);
    assert MixedTo(xy[..], v[..], r, n, k, s, 0);
    Mix(tmp, v, xy, r, n, k, h, s);
    Store(b, bOff, xy, r);
  }

  // ---- Key ----

  /** The guard of Key, for an int of the platform's width. `uint64(r)*uint64(p)` wraps. */
  predicate Accepts(n: int, r: nat, p: nat, maxInt: nat)
    requires r > 0 && p > 0
  {
    && !(n <= 1 || Bits.And(n, n - 1) != 0)
    && !((r * p) % 0x1_0000_0000_0000_0000 >= 0x4000_0000 || r > maxInt / 128 / p || r > maxInt / 256
         || n > maxInt / 128 / r)
  }

  lemma AtMostQuotient(x: nat, q: nat, m: nat)
    requires m > 0
    ensures x <= q / m <==> m * x <= q
  {
    var d, rem := Bits.Divide(q, m);
    if x <= d {
      Bits.MulMonotone(m, x, d);
    } else {
      Bits.MulMonotone(m, d + 1, x);
    }
  }

  /** What the guard means: N a power of two above one, r*p below 2^30 as documented, and
      no product of the parameters that the code forms overflows. */
  lemma AcceptsExactly(n: int, r: nat, p: nat, maxInt: nat)
    requires r > 0 && p > 0 && maxInt < 0x8000_0000_0000_0000
    ensures Accepts(n, r, p, maxInt) <==>
              && n > 1 && Bits.IsPowerOfTwo(n)
              && r * p < 0x4000_0000 && p * r <= maxInt / 128
              && 256 * r <= maxInt && r * n <= maxInt / 128
  {
    hide Bits.And, Bits.IsPowerOfTwo;
    AtMostQuotient(r, maxInt / 128, p);
    AtMostQuotient(r, maxInt, 256);
    if n > 1 {
      AtMostQuotient(n, maxInt / 128, r);
      Bits.AndPredecessor(n);
    }
    assert r * p == p * r;
    if p * r <= maxInt / 128 {
      assert p * r < 0x1_0000_0000_0000_0000;
    }
  }

  lemma AcceptedSizes(n: nat, r: nat, p: nat, maxInt: nat) returns (k: nat)
    requires r > 0 && p > 0 && maxInt < 0x8000_0000_0000_0000 && Accepts(n, r, p, maxInt)
    ensures 1 <= k <= 64 && n == Bits.Pow2(k)
    ensures 64 * r <= maxInt && 32 * n * r <= maxInt && p * 128 * r <= maxInt
  {
    hide Accepts;
    AcceptsExactly(n, r, p, maxInt);
    k :| n == Bits.Pow2(k);
    ProductSizes(n, r, p, maxInt);
    assert k != 0;
    hide Bits.Pow2;
    Bits.Pow2Values();
    Bits.ExponentBelow(k, 64);
  }

  lemma ProductSizes(n: nat, r: nat, p: nat, maxInt: nat)
    requires r > 0 && p * r <= maxInt / 128 && r * n <= maxInt / 128
    ensures n <= maxInt && 32 * n * r <= maxInt && p * 128 * r <= maxInt
  {
    assert r * n == n * r;
    Bits.MulAtLeast(n, r);
    assert 32 * n * r == 32 * (n * r) && p * 128 * r == 128 * (p * r);
  }

  /** scrypt.Key: an error exactly when the guard fails, otherwise the key of section 6 in
      the first keyLen octets of the array returned. */
  method Key(prf: Pbkdf2.Prf, password: seq<byte>, salt: seq<byte>, n: int, r: nat, p: nat, keyLen: nat, maxInt: nat)
    returns (res: Option<array<byte>>)
    requires prf.Valid() && r > 0 && p > 0 && maxInt < 0x8000_0000_0000_0000
    ensures res.None? <==> !Accepts(n, r, p, maxInt)
    ensures res.Some? ==> n > 0 && keyLen <= res.value.Length
    ensures res.Some? ==> res.value[..keyLen] == Spec.Derive(prf, password, salt, n, r, p, keyLen)
  {
    if !Accepts(n, r, p, maxInt) {
      return None;
    }
    hide *;
    ghost var k := AcceptedSizes(n, r, p, maxInt);
    var xy := new word[64 * r];
    var v := new word[32 * n * r];
    RowsFit(n, r);
    var len := p * 128 * r;
    var b := Pbkdf2.Key(prf, password, salt, 1, len);
    MixAll(b, r, n, p, v, xy, k);
    SpecUnfold(prf, password, salt, n, r, p, keyLen);
    var dk := Pbkdf2.Key(prf, password, b[..len], 1, keyLen);
    res := Some(dk);
  }

  /** The loop of Key: smix on each of the p blocks in turn. */
  method MixAll(b: array<byte>, r: nat, n: nat, p: nat, v: array<word>, xy: array<word>, ghost k: nat)
    requires r > 0 && 1 <= k <= 64 && n == Bits.Pow2(k) && p * 128 * r <= b.Length
    requires HoldsRows(v.Length, n, r) && 64 * r <= xy.Length && v != xy
    modifies b, v, xy
    ensures b[..p * 128 * r] == Spec.MixBlocks(old(b[..p * 128 * r]), r, n)
  {
    hide Spec.ROMix, Spec.MixBlocks, HoldsRows, Bits.Pow2, OnlyChanges;
    ghost var s := b[..p * 128 * r];
    var i := 0;
    assert b[..0] + Spec.MixBlocks(b[0..p * 128 * r], r, n) == Spec.MixBlocks(s, r, n);
    while i < p
      invariant 0 <= i <= p && i * 128 * r <= p * 128 * r
      invariant b[..i * 128 * r] + Spec.MixBlocks(b[i * 128 * r..p * 128 * r], r, n) == Spec.MixBlocks(s, r, n)
    {
      BlockBounds(i, p, r);
      ghost var b0 := b[..];
      Smix(b, i * 128 * r, r, n, v, xy, k);
      AdvanceBlock(b[..], b0, i * 128 * r, p * 128 * r, r, n);
      i := i + 1;
    }
    assert Spec.MixBlocks([], r, n) == [] by { EmptyBlocks(r, n); }
    assert b[p * 128 * r..p * 128 * r] == [];
  }

  lemma EmptyBlocks(r: nat, n: nat)
    requires r > 0 && n > 0
    ensures Spec.MixBlocks([], r, n) == []
  {
  }

  lemma BlockBounds(i: nat, p: nat, r: nat)
    requires i < p
    ensures (i + 1) * 128 * r == i * 128 * r + 128 * r <= p * 128 * r
  {
    Bits.MulMonotone(128 * r, i + 1, p);
    assert (128 * r) * (i + 1) == (i + 1) * 128 * r && (128 * r) * p == p * 128 * r;
    assert (i + 1) * 128 * r == i * 128 * r + 128 * r;
  }

  /** One call of smix moves one block from the untouched part to the finished part. */
  lemma AdvanceBlock(a: seq<byte>, was: seq<byte>, off: nat, end: nat, r: nat, n: nat)
    requires r > 0 && n > 0 && off + 128 * r <= end <= |was|
    requires OnlyChanges(a, was, off, 128 * r)
    requires a[off..off + 128 * r] == Spec.ROMix(was[off..off + 128 * r], r, n)
    ensures a[..off + 128 * r] + Spec.MixBlocks(a[off + 128 * r..end], r, n)
         == was[..off] + Spec.MixBlocks(was[off..end], r, n)
  {
    hide Spec.ROMix;
    var rest := was[off..end];
    assert rest[..128 * r] == was[off..off + 128 * r] && rest[128 * r..] == was[off + 128 * r..end];
    assert a[off + 128 * r..end] == was[off + 128 * r..end];
    assert a[..off + 128 * r] == was[..off] + a[off..off + 128 * r];
  }

  lemma RowsFit(n: nat, r: nat)
    ensures HoldsRows(32 * n * r, n, r)
  {
    assert n * (32 * r) == 32 * n * r;
  }

  lemma SpecUnfold(prf: Pbkdf2.Prf, password: seq<byte>, salt: seq<byte>, n: nat, r: nat, p: nat, dkLen: nat)
    requires prf.Valid() && r > 0 && n > 0
    ensures Spec.Derive(prf, password, salt, n, r, p, dkLen)
         == Pbkdf2.Derive(prf, password, Spec.MixBlocks(Pbkdf2.Derive(prf, password, salt, 1, p * 128 * r), r, n), 1, dkLen)
  {
  }
}
