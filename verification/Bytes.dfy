/** Octets and the big-endian integers shared by the wire formats. */
module Bytes {
  import Bits

  type byte = n: nat | n < 256

  function XorByte(a: byte, b: byte): byte {
    Bits.Pow2Values();
    Bits.XorBelow(a, b, 8);
    Bits.Xor(a, b)
  }

  function XorBytes(a: seq<byte>, b: seq<byte>): (c: seq<byte>)
    requires |a| == |b|
    ensures |c| == |a|
  {
    seq(|a|, i requires 0 <= i < |a| => XorByte(a[i], b[i]))
  }

  function Pow256(k: nat): (p: nat)
    ensures p >= 1
  {
    if k == 0 then 1 else 256 * Pow256(k - 1)
  }

  /** The low k octets of n, most significant first. */
  function BigEndian(n: nat, k: nat): (s: seq<byte>)
    ensures |s| == k
  {
    if k == 0 then [] else BigEndian(n / 256, k - 1) + [n % 256]
  }

  /** The unsigned integer spelled by s, most significant octet first. */
  function BigEndianValue(s: seq<byte>): (n: nat)
    ensures n < Pow256(|s|)
  {
    if s == [] then 0 else BigEndianValue(s[..|s| - 1]) * 256 + s[|s| - 1]
  }

  lemma LastOctet(s: seq<byte>)
    requires s != []
    ensures BigEndianValue(s) == BigEndianValue(s[..|s| - 1]) * 256 + s[|s| - 1]
  {
  }

  lemma FourValue(s: seq<byte>)
    requires |s| == 4
    ensures var a: nat, b: nat, c: nat, d: nat := s[0], s[1], s[2], s[3];
      BigEndianValue(s) == 0x100_0000 * a + 0x1_0000 * b + 0x100 * c + d
  {
    assert s[..3][..2] == s[..2] && s[..2][..1] == s[..1] && s[..1][..0] == [];
    LastOctet(s);
    LastOctet(s[..3]);
    LastOctet(s[..2]);
    LastOctet(s[..1]);
    assert BigEndianValue([]) == 0;
    hide BigEndianValue;
  }

  lemma {:induction false} BigEndianRoundTrip(n: nat, k: nat)
    ensures BigEndianValue(BigEndian(n, k)) == n % Pow256(k)
  {
    if k > 0 {
      var s := BigEndian(n, k);
      assert s[..k - 1] == BigEndian(n / 256, k - 1);
      BigEndianRoundTrip(n / 256, k - 1);
      Bits.ModProduct(n, 256, Pow256(k - 1));
    }
  }

  lemma {:induction false} BigEndianOfValue(s: seq<byte>)
    ensures BigEndian(BigEndianValue(s), |s|) == s
  {
    if s != [] {
      var k := |s| - 1;
      BigEndianOfValue(s[..k]);
      var v, b := BigEndianValue(s[..k]), s[k];
      Bits.ModuloUnique(256 * v + b, 256, v, b);
      assert s == s[..k] + [s[k]];
    }
  }

  /** Octet i of the encoding is the number shifted right by the octets after it. */
  lemma {:induction false} BigEndianAt(n: nat, k: nat, i: nat)
    requires i < k
    ensures BigEndian(n, k)[i] == Bits.Shr(n, 8 * (k - 1 - i)) % 256
  {
    if i < k - 1 {
      BigEndianAt(n / 256, k - 1, i);
      Bits.ShrOctet(n);
      Bits.ShrSum(n, 8, 8 * (k - 2 - i));
    }
  }

  /** An n outside the range that k octets can spell does not survive. */
  lemma BigEndianExact(n: nat, k: nat)
    ensures BigEndianValue(BigEndian(n, k)) == n <==> n < Pow256(k)
  {
    BigEndianRoundTrip(n, k);
    if n < Pow256(k) {
      Bits.ModuloUnique(n, Pow256(k), 0, n);
    }
  }

  /** Go's conversion of an arbitrary integer to a signed two's complement word
      of k octets. */
  function WrapSigned(n: int, k: nat): (m: int)
    requires k >= 1
    ensures -(Pow256(k) / 2) <= m < Pow256(k) - Pow256(k) / 2
  {
    var u := n % Pow256(k);
    if u >= Pow256(k) - Pow256(k) / 2 then u - Pow256(k) else u
  }

  lemma SameModulo(x: int, m: nat, q: int)
    requires m >= 1
    ensures (x - m * q) % m == x % m
  {
    var d, rem := x / m, x % m;
    assert x - m * q == m * (d - q) + rem;
    Bits.ModuloUnique(x - m * q, m, d - q, rem);
  }

  lemma PowerValues()
    ensures Pow256(1) == 0x100 && Pow256(2) == 0x1_0000 && Pow256(4) == 0x1_0000_0000
    ensures Pow256(8) == 0x1_0000_0000_0000_0000
  {
    assert Pow256(3) == 0x100 * Pow256(2) && Pow256(5) == 0x100 * Pow256(4);
    assert Pow256(6) == 0x100 * Pow256(5) && Pow256(7) == 0x100 * Pow256(6);
  }

  /** Wrapping early changes nothing. */
  lemma WrapNested(v: int, d: int, k: nat)
    requires k >= 1
    ensures WrapSigned(WrapSigned(v, k) + d, k) == WrapSigned(v + d, k)
    ensures WrapSigned(v % Pow256(k), k) == WrapSigned(v, k)
  {
    var m := Pow256(k);
    var q := v / m;
    assert v % m == v - m * q;
    SameModulo(v + d, m, q);
    SameModulo(v + d, m, q + 1);
    SameModulo(v, m, q);
    assert m * (q + 1) == m * q + m;
  }

  predicate FitsSigned(n: int, k: nat)
    requires k >= 1
  {
    -(Pow256(k) / 2) <= n < Pow256(k) - Pow256(k) / 2
  }

  /** A signed integer in two's complement, most significant octet first. */
  function PutSigned(n: int, k: nat): (s: seq<byte>)
    ensures |s| == k
  {
    BigEndian(n % Pow256(k), k)
  }

  function GetSigned(s: seq<byte>): int
    requires |s| >= 1
  {
    WrapSigned(BigEndianValue(s), |s|)
  }

  lemma WrapSignedFits(n: int, k: nat)
    requires k >= 1
    ensures WrapSigned(n, k) == n <==> FitsSigned(n, k)
  {
    var m := Pow256(k);
    if FitsSigned(n, k) {
      if n >= 0 {
        Bits.ModuloUnique(n, m, 0, n);
      } else {
        Bits.ModuloUnique(n, m, -1, n + m);
      }
    }
  }

  lemma SignedRoundTrip(n: int, k: nat)
    requires k >= 1
    ensures GetSigned(PutSigned(n, k)) == WrapSigned(n, k)
    ensures GetSigned(PutSigned(n, k)) == n <==> FitsSigned(n, k)
  {
    var u := n % Pow256(k);
    BigEndianExact(u, k);
    assert u % Pow256(k) == u by { Bits.ModuloUnique(u, Pow256(k), 0, u); }
    WrapSignedFits(n, k);
  }
}
