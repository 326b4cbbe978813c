/** Octet strings and the little-endian 32-bit words that scrypt packs them into. */
module Octets {
  import opened Bytes
  import opened Salsa
  import Bits

  /** `b0 | b1<<8 | b2<<16 | b3<<24`, as smix assembles a word. */
  function Pack(b0: byte, b1: byte, b2: byte, b3: byte): nat {
    Bits.Or(Bits.Or(Bits.Or(b0, 0x100 * b1), 0x1_0000 * b2), 0x100_0000 * b3)
  }

  lemma PackValue(b0: byte, b1: byte, b2: byte, b3: byte)
    ensures Pack(b0, b1, b2, b3) == b0 + 0x100 * b1 + 0x1_0000 * b2 + 0x100_0000 * b3 < WORD
  {
    hide Bits.Or, Bits.Pow2;
    Bits.Pow2Values();
    Bits.OrDisjoint(b0, b1, 8);
    Bits.OrDisjoint(b0 + 0x100 * b1, b2, 16);
    Bits.OrDisjoint(b0 + 0x100 * b1 + 0x1_0000 * b2, b3, 24);
  }

  /** The octet `byte(v >> 8*k)`. */
  function OctetOf(v: word, k: nat): byte
    requires k < 4
  {
    if k == 0 then v % 0x100
    else if k == 1 then v / 0x100 % 0x100
    else if k == 2 then v / 0x1_0000 % 0x100
    else v / 0x100_0000 % 0x100
  }

  lemma WordValue(v: word)
    ensures v == OctetOf(v, 0) + 0x100 * OctetOf(v, 1) + 0x1_0000 * OctetOf(v, 2) + 0x100_0000 * OctetOf(v, 3)
  {
    hide OctetOf;
    var q1, b0 := Bits.Divide(v, 0x100);
    var q2, b1 := Bits.Divide(q1, 0x100);
    var b3, b2 := Bits.Divide(q2, 0x100);
    OctetValues(b0, b1, b2, b3);
  }

  lemma OctetValues(b0: byte, b1: byte, b2: byte, b3: byte)
    ensures var v := b0 + 0x100 * b1 + 0x1_0000 * b2 + 0x100_0000 * b3;
      v < WORD && OctetOf(v, 0) == b0 && OctetOf(v, 1) == b1 && OctetOf(v, 2) == b2 && OctetOf(v, 3) == b3
  {
    var v2 := b2 + 0x100 * b3;
    var v1 := b1 + 0x100 * v2;
    var v := b0 + 0x100 * v1;
    Bits.ModuloUnique(v, 0x100, v1, b0);
    Bits.ModuloUnique(v, 0x1_0000, v2, b0 + 0x100 * b1);
    Bits.ModuloUnique(v, 0x100_0000, b3, b0 + 0x100 * b1 + 0x1_0000 * b2);
    Bits.ModuloUnique(v1, 0x100, v2, b1);
    Bits.ModuloUnique(v2, 0x100, b3, b2);
  }

  lemma OctetOfXor(a: word, b: word, k: nat)
    requires k < 4
    ensures OctetOf(XorWord(a, b), k) == XorByte(OctetOf(a, k), OctetOf(b, k))
  {
    hide Bits.Xor;
    var a1, b1 := a / 0x100, b / 0x100;
    var a2, b2 := a1 / 0x100, b1 / 0x100;
    Bits.XorOctet(a, b);
    Bits.XorOctet(a1, b1);
    Bits.XorOctet(a2, b2);
    Bits.XorOctet(a2 / 0x100, b2 / 0x100);
    assert a / 0x1_0000 == a2 && b / 0x1_0000 == b2;
    assert a / 0x100_0000 == a2 / 0x100 && b / 0x100_0000 == b2 / 0x100;
  }

  function OctetsOf(w: seq<word>): (s: seq<byte>)
    ensures |s| == 4 * |w|
  {
    seq(4 * |w|, i requires 0 <= i < 4 * |w| => OctetOf(w[i / 4], i % 4))
  }

  /** The words whose little-endian octets are s. */
  function WordsOf(s: seq<byte>): (w: seq<word>)
    requires |s| % 4 == 0
    ensures |w| == |s| / 4
    ensures OctetsOf(w) == s
  {
    var w := seq(|s| / 4, i requires 0 <= i < |s| / 4 => WordAt(s, i));
    OctetsOfWordsAt(s, w);
    w
  }

  function WordAt(s: seq<byte>, i: nat): word
    requires 4 * i + 3 < |s|
  {
    var b0: nat, b1: nat, b2: nat, b3: nat := s[4 * i], s[4 * i + 1], s[4 * i + 2], s[4 * i + 3];
    b0 + 0x100 * b1 + 0x1_0000 * b2 + 0x100_0000 * b3
  }

  lemma OctetsOfWordsAt(s: seq<byte>, w: seq<word>)
    requires |s| == 4 * |w|
    requires forall i :: 0 <= i < |w| ==> w[i] == WordAt(s, i)
    ensures OctetsOf(w) == s
  {
    hide OctetOf;
    forall i | 0 <= i < |s| ensures OctetsOf(w)[i] == s[i] {
      var q := i / 4;
      assert w[q] == WordAt(s, q);
      OctetValues(s[4 * q], s[4 * q + 1], s[4 * q + 2], s[4 * q + 3]);
    }
  }

  /** Distinct word strings have distinct octets. */
  lemma OctetsOfInjective(a: seq<word>, b: seq<word>)
    requires OctetsOf(a) == OctetsOf(b)
    ensures a == b
  {
    hide OctetOf;
    assert |OctetsOf(a)| == 4 * |a| && |OctetsOf(b)| == 4 * |b|;
    forall i | 0 <= i < |a| ensures a[i] == b[i] {
      forall k: nat | k < 4 ensures OctetOf(a[i], k) == OctetOf(b[i], k) {
        assert (4 * i + k) / 4 == i && (4 * i + k) % 4 == k;
        assert OctetsOf(a)[4 * i + k] == OctetsOf(b)[4 * i + k];
      }
      WordValue(a[i]);
      WordValue(b[i]);
    }
  }

  lemma OctetsOfXor(a: seq<word>, b: seq<word>)
    requires |a| == |b|
    ensures OctetsOf(XorWords(a, b)) == XorBytes(OctetsOf(a), OctetsOf(b))
  {
    hide OctetOf, XorByte, XorWord;
    forall i | 0 <= i < 4 * |a|
      ensures OctetsOf(XorWords(a, b))[i] == XorBytes(OctetsOf(a), OctetsOf(b))[i]
    {
      OctetOfXor(a[i / 4], b[i / 4], i % 4);
    }
  }

  lemma OctetsOfSlice(w: seq<word>, lo: nat, hi: nat)
    requires lo <= hi <= |w|
    ensures OctetsOf(w[lo..hi]) == OctetsOf(w)[4 * lo..4 * hi]
  {
    hide OctetOf;
    forall i | 0 <= i < 4 * (hi - lo)
      ensures OctetsOf(w[lo..hi])[i] == OctetsOf(w)[4 * lo..4 * hi][i]
    {
      assert (4 * lo + i) / 4 == lo + i / 4 && (4 * lo + i) % 4 == i % 4;
    }
  }

  lemma OctetsOfConcat(a: seq<word>, b: seq<word>)
    ensures OctetsOf(a + b) == OctetsOf(a) + OctetsOf(b)
  {
    hide OctetOf;
    var w := a + b;
    OctetsOfSlice(w, 0, |a|);
    OctetsOfSlice(w, |a|, |w|);
    assert w[0..|a|] == a && w[|a|..|w|] == b;
    assert OctetsOf(w) == OctetsOf(w)[0..4 * |a|] + OctetsOf(w)[4 * |a|..4 * |w|];
  }

  lemma OctetsOfOne(v: word)
    ensures OctetsOf([v]) == [OctetOf(v, 0), OctetOf(v, 1), OctetOf(v, 2), OctetOf(v, 3)]
  {
    hide OctetOf;
  }

  /** The integer spelled by s, least significant octet first. */
  function LittleEndianValue(s: seq<byte>): (n: nat)
    ensures n < Pow256(|s|)
  {
    if s == [] then 0 else s[0] + 256 * LittleEndianValue(s[1..])
  }
}
