/** The octets of a frame header themselves, as the figure of section 5.2 of RFC 6455 draws
    them: what the writer puts on the wire and what the reader makes of any octets. */
module FrameOctets {
  import opened Wrappers
  import opened Bytes
  import opened Framing
  import Bits

  function One(b: bool): nat {
    if b then 1 else 0
  }

  // ---- integers, octet by octet ----

  lemma TwoOctets(n: nat)
    requires n < 0x1_0000
    ensures BigEndian(n, 2) == [n / 256, n % 256]
  {
    assert BigEndian(n / 256, 1) == BigEndian(n / 256 / 256, 0) + [n / 256 % 256];
  }

  /** Octet i of the eight, most significant first. */
  lemma EightOctets(n: nat, i: nat)
    requires i < 8
    ensures BigEndian(n, 8)[i] == n / Bits.Pow2(8 * (7 - i)) % 256
  {
    hide BigEndian, Bits.Shr, Bits.Pow2;
    BigEndianAt(n, 8, i);
    Bits.ShrDivides(n, 8 * (7 - i));
  }

  lemma TwoValue(s: seq<byte>)
    requires |s| == 2
    ensures var a: nat, b: nat := s[0], s[1]; BigEndianValue(s) == 256 * a + b
  {
    assert s[..1][..0] == [];
    assert BigEndianValue(s[..1]) == s[0];
  }

  lemma EightValue(s: seq<byte>)
    requires |s| == 8
    ensures BigEndianValue(s) == 0x1_0000_0000 * BigEndianValue(s[..4]) + BigEndianValue(s[4..])
  {
    hide BigEndianValue;
    LastOctet(s);
    assert s[..7] == s[..4] + s[4..7] && s[..6] == s[..4] + s[4..6] && s[..5] == s[..4] + s[4..5];
    LastOctet(s[..7]);
    LastOctet(s[..6]);
    LastOctet(s[..5]);
    assert s[..7][..6] == s[..6] && s[..6][..5] == s[..5] && s[..5][..4] == s[..4];
    FourValue(s[4..]);
  }

  // ---- the first octet ----

  /** FIN is bit 7, the reserved bits are bits 6 to 4, and the opcode is the low four bits. */
  lemma FirstOctet(h: FrameHeader)
    requires h.opcode < 16
    ensures FirstByte(h) == 128 * One(h.fin) + 64 * One(h.rsv[0]) + 32 * One(h.rsv[1]) + 16 * One(h.rsv[2]) + h.opcode
  {
    FirstByteValue(h);
    FlagsSum(h);
    hide FirstByte, Flags;
  }

  /** An opcode of more than four bits runs into the flags. */
  lemma FirstOctetBits(h: FrameHeader, k: nat)
    requires k < 8
    ensures Bits.Has(FirstByte(h), k) <==>
        Bits.Has(h.opcode, k) || (k == 7 && h.fin) || (4 <= k < 7 && h.rsv[6 - k])
  {
    hide Bits.Or, Bits.Has, Flags;
    Bits.OrHas(16 * Flags(h, 3), h.opcode, k);
    FlagBits(h, k);
  }

  lemma FlagBits(h: FrameHeader, k: nat)
    requires k < 8
    ensures Bits.Has(16 * Flags(h, 3), k) <==> (k == 7 && h.fin) || (4 <= k < 7 && h.rsv[6 - k])
  {
    FlagsSum(h);
    hide Flags;
    EightPowers();
    hide Bits.Pow2;
    FourFlags(One(h.fin), One(h.rsv[0]), One(h.rsv[1]), One(h.rsv[2]));
  }

  lemma EightPowers()
    ensures Bits.Pow2(0) == 1 && Bits.Pow2(1) == 2 && Bits.Pow2(2) == 4 && Bits.Pow2(3) == 8
    ensures Bits.Pow2(4) == 16 && Bits.Pow2(5) == 32 && Bits.Pow2(6) == 64 && Bits.Pow2(7) == 128
  {
    assert Bits.Pow2(4) == 2 * Bits.Pow2(3) && Bits.Pow2(5) == 2 * Bits.Pow2(4);
    assert Bits.Pow2(6) == 2 * Bits.Pow2(5) && Bits.Pow2(7) == 2 * Bits.Pow2(6);
  }

  lemma FourFlags(b7: nat, b6: nat, b5: nat, b4: nat)
    requires b7 <= 1 && b6 <= 1 && b5 <= 1 && b4 <= 1
    ensures var c := 16 * (8 * b7 + 4 * b6 + 2 * b5 + b4);
      && c / 1 % 2 == 0 && c / 2 % 2 == 0 && c / 4 % 2 == 0 && c / 8 % 2 == 0
      && c / 16 % 2 == b4 && c / 32 % 2 == b5 && c / 64 % 2 == b6 && c / 128 % 2 == b7
  {
  }

  // ---- what is written ----

  /** The mask bit and the length: in seven bits up to 125, behind code 126 in two octets
      below 65536, behind code 127 in eight; the masking key comes last. */
  lemma WrittenOctets(h: FrameHeader, n: nat)
    requires h.KeyOk()
    ensures var s := HeaderBytes(h, n); var k := if h.mask.Some? then 4 else 0;
      && |s| >= 2 + k && s[0] == FirstByte(h) && (s[1] >= 128 <==> h.mask.Some?)
      && (n <= 125 ==> |s| == 2 + k && s[1] % 128 == n)
      && (126 <= n < 65536 ==> |s| == 4 + k && s[1] % 128 == 126 && s[2] == n / 256 && s[3] == n % 256)
      && (65536 <= n ==> |s| == 10 + k && s[1] % 128 == 127 && s[2..10] == BigEndian(n, 8))
      && (h.mask.Some? ==> s[|s| - 4..] == h.mask.value)
  {
    SecondByteValue(h.mask.Some?, ShortLength(n));
    if 126 <= n < 65536 {
      TwoOctets(n);
    }
    hide FirstByte, Bits.Or, BigEndian, HeaderBytes;
    HeaderPieces(h, n);
  }

  /** The header cut at its length and at its key. */
  lemma HeaderPieces(h: FrameHeader, n: nat)
    requires h.KeyOk()
    ensures var s := HeaderBytes(h, n); var k := LengthFields(ShortLength(n));
      && |s| == 2 + k + (if h.mask.Some? then 4 else 0)
      && s[0] == FirstByte(h) && s[1] == SecondByte(h.mask.Some?, ShortLength(n)) && s[2..2 + k] == BigEndian(n, k)
      && (k == 2 ==> s[2] == BigEndian(n, 2)[0] && s[3] == BigEndian(n, 2)[1])
      && (h.mask.Some? ==> s[|s| - 4..] == h.mask.value)
  {
    hide FirstByte, SecondByte, BigEndian, ShortLength, LengthFields;
  }

  // ---- what is read ----

  /** Any two octets start a header, and how many more it takes they say themselves. */
  lemma ReadOctets(s: seq<byte>)
    ensures |s| < 2 ==> ParseHeader(s) == Short
    ensures |s| >= 2 ==>
      var p := ParseHeader(s); var code, masked := s[1] % 128, s[1] >= 128;
      var k := if code <= 125 then 2 else if code == 126 then 4 else 10;
      && (p.Parsed? <==> |s| >= k + if masked then 4 else 0)
      && (p.Parsed? ==>
        && p.size == k + (if masked then 4 else 0)
        && p.h.mask == (if masked then Some(s[k..k + 4]) else None)
        && p.length == ReadLength(s, code))
  {
    if |s| >= 2 {
      OpcodeOf(s[0]);
      OpcodeOf(s[1]);
      hide Bits.And, Bits.Shr, FlagsOf, BigEndianValue, WrapSigned;
      if s[1] % 128 == 126 && |s| >= 4 {
        TwoValue(s[2..4]);
        SmallLength(BigEndianValue(s[2..4]));
      } else if s[1] % 128 == 127 && |s| >= 10 {
        SignedLength(BigEndianValue(s[2..10]));
      }
    }
  }

  /** The length that a code announces; eight octets are an int64, most significant first. */
  function ReadLength(s: seq<byte>, code: nat): int
    requires code <= 125 || (code == 126 && |s| >= 4) || (code > 126 && |s| >= 10)
  {
    if code <= 125 then code
    else if code == 126 then var a: nat, b: nat := s[2], s[3]; 256 * a + b
    else
      var n := BigEndianValue(s[2..10]);
      if n < 0x8000_0000_0000_0000 then n else n - 0x1_0000_0000_0000_0000
  }

  lemma SmallLength(n: nat)
    requires n < 0x1_0000
    ensures WrapSigned(n, 8) == n
  {
    PowerValues();
    WrapSignedFits(n, 8);
  }

  lemma SignedLength(n: nat)
    requires n < 0x1_0000_0000_0000_0000
    ensures WrapSigned(n, 8) == if n < 0x8000_0000_0000_0000 then n else n - 0x1_0000_0000_0000_0000
  {
    PowerValues();
  }

  lemma ReadFirstOctet(s: seq<byte>)
    requires ParseHeader(s).Parsed?
    ensures var h := ParseHeader(s).h;
      && h.opcode == s[0] % 16 && (h.fin <==> s[0] / 128 % 2 == 1)
      && (h.rsv[0] <==> s[0] / 64 % 2 == 1) && (h.rsv[1] <==> s[0] / 32 % 2 == 1) && (h.rsv[2] <==> s[0] / 16 % 2 == 1)
  {
    OpcodeOf(s[0]);
    FlagsRead(s[0]);
    hide Bits.And, Bits.Shr, FlagsOf, WrapSigned, BigEndianValue;
  }

  lemma FlagsRead(b: byte)
    ensures var (fin, rsv) := FlagsOf(b);
      && (fin <==> b / 128 % 2 == 1)
      && (rsv[0] <==> b / 64 % 2 == 1) && (rsv[1] <==> b / 32 % 2 == 1) && (rsv[2] <==> b / 16 % 2 == 1)
  {
    BitAt(b, 7);
    BitAt(b, 6);
    BitAt(b, 5);
    BitAt(b, 4);
    EightPowers();
    hide Bits.And, Bits.Shr, Bits.Pow2;
  }

  lemma BitAt(b: nat, k: nat)
    ensures Bits.And(Bits.Shr(b, k), 1) == b / Bits.Pow2(k) % 2
  {
    assert Bits.Pow2(1) == 2;
    hide Bits.And, Bits.Shr, Bits.Pow2;
    Bits.AndMask(Bits.Shr(b, k), 1);
    Bits.ShrDivides(b, k);
  }

  // ---- masking ----

  /** Octet i of a masked payload, bit by bit: key octet i modulo 4, counted from where the
      piece starts. */
  lemma MaskedBit(h: FrameHeader, pos: nat, data: seq<byte>, i: nat, k: nat)
    requires h.KeyOk() && i < |data|
    ensures Bits.Has(Payload(h, pos, data)[i], k) <==>
        if h.mask.Some? then Bits.Has(data[i], k) != Bits.Has(h.mask.value[(pos + i) % 4], k) else Bits.Has(data[i], k)
  {
    hide Bits.Has;
    if h.mask.Some? {
      Bits.XorHas(data[i], h.mask.value[(pos + i) % 4], k);
    }
  }
}
