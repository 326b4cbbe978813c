/** scrypt as RFC 7914 defines it, on octet strings. */
module ScryptSpec {
  import opened Bytes
  import opened Octets
  import opened Salsa
  import Bits
  import Pbkdf2

  /** Section 3: Salsa20/8 on 64 octets read as little-endian words. */
  function SalsaOctets(b: seq<byte>): (s: seq<byte>)
    requires |b| == 64
    ensures |s| == 64
  {
    OctetsOf(Salsa8(WordsOf(b)))
  }

  ghost predicate IsBlocks(b: seq<byte>, r: nat) {
    r > 0 && |b| == 128 * r
  }

  /** Section 4, step 2: the running X after i of the 2r chunks. */
  function Chain(b: seq<byte>, r: nat, i: nat): (x: seq<byte>)
    requires IsBlocks(b, r) && i <= 2 * r
    ensures |x| == 64
  {
    if i == 0 then b[64 * (2 * r - 1)..]
    else SalsaOctets(XorBytes(Chain(b, r, i - 1), b[64 * (i - 1)..64 * i]))
  }

  /** Y[0], Y[2], ..., the first n of them. */
  function Evens(b: seq<byte>, r: nat, n: nat): (y: seq<byte>)
    requires IsBlocks(b, r) && n <= r
    ensures |y| == 64 * n
  {
    if n == 0 then [] else Evens(b, r, n - 1) + Chain(b, r, 2 * n - 1)
  }

  /** Y[1], Y[3], ..., the first n of them. */
  function Odds(b: seq<byte>, r: nat, n: nat): (y: seq<byte>)
    requires IsBlocks(b, r) && n <= r
    ensures |y| == 64 * n
  {
    if n == 0 then [] else Odds(b, r, n - 1) + Chain(b, r, 2 * n)
  }

  /** Section 4: scryptBlockMix, the even outputs before the odd ones. */
  function BlockMix(b: seq<byte>, r: nat): (y: seq<byte>)
    requires IsBlocks(b, r)
    ensures |y| == 128 * r
  {
    Evens(b, r, r) + Odds(b, r, r)
  }

  /** Section 5, step 2: V[i], scryptBlockMix applied i times. */
  function Iterate(b: seq<byte>, r: nat, i: nat): (v: seq<byte>)
    requires IsBlocks(b, r)
    ensures |v| == 128 * r
  {
    if i == 0 then b else BlockMix(Iterate(b, r, i - 1), r)
  }

  /** Section 5: the last 64 octets as one little-endian integer. */
  function Integerify(b: seq<byte>, r: nat): nat
    requires IsBlocks(b, r)
  {
    LittleEndianValue(b[64 * (2 * r - 1)..])
  }

  /** Section 5, step 3: X after i of the N dependent steps. */
  function Mixed(b: seq<byte>, r: nat, n: nat, i: nat): (x: seq<byte>)
    requires IsBlocks(b, r) && n > 0
    ensures |x| == 128 * r
  {
    if i == 0 then Iterate(b, r, n)
    else
      var x := Mixed(b, r, n, i - 1);
      BlockMix(XorBytes(x, Iterate(b, r, Integerify(x, r) % n)), r)
  }

  /** Section 5: scryptROMix. */
  function ROMix(b: seq<byte>, r: nat, n: nat): (x: seq<byte>)
    requires IsBlocks(b, r) && n > 0
    ensures |x| == 128 * r
  {
    Mixed(b, r, n, n)
  }

  /** Section 6, step 2: every block of 128r octets mixed. */
  function MixBlocks(b: seq<byte>, r: nat, n: nat): (x: seq<byte>)
    requires r > 0 && n > 0
    ensures |x| <= |b|
  {
    if |b| < 128 * r then [] else ROMix(b[..128 * r], r, n) + MixBlocks(b[128 * r..], r, n)
  }

  /** Section 6: scrypt. */
  ghost function Derive(prf: Pbkdf2.Prf, password: seq<byte>, salt: seq<byte>, n: nat, r: nat, p: nat, dkLen: nat): (dk: seq<byte>)
    requires prf.Valid() && r > 0 && n > 0
    ensures |dk| == dkLen
  {
    var b := Pbkdf2.Derive(prf, password, salt, 1, p * 128 * r);
    Pbkdf2.Derive(prf, password, MixBlocks(b, r, n), 1, dkLen)
  }

  lemma WordsOfOctets(w: seq<word>)
    ensures WordsOf(OctetsOf(w)) == w
  {
    OctetsOfInjective(WordsOf(OctetsOf(w)), w);
  }

  /** One chunk of scryptBlockMix carried out on words. */
  lemma ChainStep(w: seq<word>, t: Block, r: nat, i: nat)
    requires r > 0 && |w| == 32 * r && i < 2 * r
    requires OctetsOf(t) == Chain(OctetsOf(w), r, i)
    ensures OctetsOf(Salsa8(XorWords(t, w[16 * i..16 * i + 16]))) == Chain(OctetsOf(w), r, i + 1)
  {
    hide Salsa8, OctetsOf, SalsaOctets, XorWords, XorBytes;
    var b, u := OctetsOf(w), w[16 * i..16 * i + 16];
    OctetsOfSlice(w, 16 * i, 16 * i + 16);
    SalsaOfXor(t, u);
    assert OctetsOf(u) == b[64 * i..64 * (i + 1)];
  }

  lemma SalsaOfXor(t: Block, u: Block)
    ensures OctetsOf(Salsa8(XorWords(t, u))) == SalsaOctets(XorBytes(OctetsOf(t), OctetsOf(u)))
  {
    hide Salsa8;
    OctetsOfXor(t, u);
    WordsOfOctets(XorWords(t, u));
  }

  /** The 64-bit number that `integer` reads: the first two words of the last chunk. */
  function LowWords(w: seq<word>, r: nat): nat
    requires r > 0 && |w| == 32 * r
  {
    var lo: nat, hi: nat := w[(2 * r - 1) * 16], w[(2 * r - 1) * 16 + 1];
    Bits.Or(lo, 0x1_0000_0000 * hi)
  }

  /** Masking that number with N-1 gives Integerify modulo N, for N a power of two. */
  lemma IntegerifyMask(w: seq<word>, r: nat, k: nat)
    requires r > 0 && |w| == 32 * r && k <= 64
    ensures Bits.And(LowWords(w, r), Bits.Pow2(k) - 1) == Integerify(OctetsOf(w), r) % Bits.Pow2(k)
  {
    hide Bits.Or, Bits.And, Bits.Pow2, OctetsOf;
    var lo: nat, hi: nat := w[(2 * r - 1) * 16], w[(2 * r - 1) * 16 + 1];
    Bits.Pow2Values();
    Bits.OrDisjoint(lo, hi, 32);
    Bits.AndMask(lo + 0x1_0000_0000 * hi, k);
    var high := IntegerifyLow(w, r);
    ModuloOfLow(lo + 0x1_0000_0000 * hi, high, k);
  }

  lemma IntegerifyLow(w: seq<word>, r: nat) returns (high: nat)
    requires r > 0 && |w| == 32 * r
    ensures Integerify(OctetsOf(w), r)
         == w[(2 * r - 1) * 16] + 0x1_0000_0000 * w[(2 * r - 1) * 16 + 1] + 0x1_0000_0000_0000_0000 * high
  {
    hide OctetsOf, LittleEndianValue, OctetOf;
    var j := (2 * r - 1) * 16;
    var last := w[j..j + 16];
    OctetsOfSlice(w, j, j + 16);
    var s := OctetsOf(last);
    assert OctetsOf(w)[64 * (2 * r - 1)..] == s;
    FirstWords(last);
    WordValue(last[0]);
    WordValue(last[1]);
    LowEight(s);
    high := LittleEndianValue(s[8..]);
  }

  lemma FirstWords(w: seq<word>)
    requires |w| >= 2
    ensures var s := OctetsOf(w); forall k: nat :: k < 4 ==> s[k] == OctetOf(w[0], k) && s[4 + k] == OctetOf(w[1], k)
  {
    hide OctetOf;
  }

  lemma LowEight(s: seq<byte>)
    requires |s| >= 8
    ensures LittleEndianValue(s) == s[0] + 0x100 * s[1] + 0x1_0000 * s[2] + 0x100_0000 * s[3]
         + 0x1_0000_0000 * (s[4] + 0x100 * s[5] + 0x1_0000 * s[6] + 0x100_0000 * s[7])
         + 0x1_0000_0000_0000_0000 * LittleEndianValue(s[8..])
  {
    LowFour(s);
    LowFour(s[4..]);
    assert s[4..][4..] == s[8..];
  }

  lemma LowFour(s: seq<byte>)
    requires |s| >= 4
    ensures LittleEndianValue(s) == s[0] + 0x100 * s[1] + 0x1_0000 * s[2] + 0x100_0000 * s[3]
                                    + 0x1_0000_0000 * LittleEndianValue(s[4..])
  {
    assert s[1..][1..] == s[2..] && s[2..][1..] == s[3..] && s[3..][1..] == s[4..];
    assert LittleEndianValue(s[3..]) == s[3] + 256 * LittleEndianValue(s[4..]);
    assert LittleEndianValue(s[2..]) == s[2] + 256 * LittleEndianValue(s[3..]);
  }

  /** Reducing the whole integer modulo a power of two N below 2^64 needs only its low 64 bits. */
  lemma ModuloOfLow(low: nat, high: nat, k: nat)
    requires k <= 64
    ensures (low + Bits.Pow2(64) * high) % Bits.Pow2(k) == low % Bits.Pow2(k)
  {
    hide Bits.Pow2;
    var n, m := Bits.Pow2(k), Bits.Pow2(64 - k);
    Bits.Pow2Sum(k, 64 - k);
    var q, rem := Bits.Divide(low, n);
    Regroup(n, m, q, rem, high);
    Bits.ModuloUnique(low + (n * m) * high, n, q + m * high, rem);
  }

  lemma Regroup(n: nat, m: nat, q: nat, rem: nat, high: nat)
    ensures n * q + rem + (n * m) * high == n * (q + m * high) + rem
  {
    assert (n * m) * high == n * (m * high);
  }
}
