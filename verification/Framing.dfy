/** hybi.go: one WebSocket frame on the wire (section 5.2 of RFC 6455), as the writer
    builds it and as the reader takes it apart. */
module Framing {
  import opened Wrappers
  import opened Bytes
  import Bits

  type Rsv = s: seq<bool> | |s| == 3 witness [false, false, false]

  /** hybiFrameHeader without its length; a nil MaskingKey is None. */
  datatype FrameHeader = FrameHeader(fin: bool, rsv: Rsv, opcode: byte, mask: Option<seq<byte>>)
  {
    predicate KeyOk() {
      mask.Some? ==> |mask.value| == 4
    }
  }

  // ---- the frame, as bytes ----

  function Bit(b: bool): nat {
    if b then 1 else 0
  }

  /** FIN and the first i reserved bits, FIN the most significant. */
  function Flags(h: FrameHeader, i: nat): (c: nat)
    requires i <= 3
    ensures c < Bits.Pow2(i + 1)
  {
    if i == 0 then Bit(h.fin) else 2 * Flags(h, i - 1) + Bit(h.rsv[i - 1])
  }

  function FirstByte(h: FrameHeader): byte {
    FlagsByte(h, h.opcode);
    Bits.Or(16 * Flags(h, 3), h.opcode)
  }

  lemma FlagsByte(h: FrameHeader, opcode: byte)
    ensures 16 * Flags(h, 3) < 256 && Bits.Or(16 * Flags(h, 3), opcode) < 256
  {
    Bits.Pow2Values();
    Bits.OrBelow(16 * Flags(h, 3), opcode, 8);
  }

  /** The seven-bit length field: the length itself, or the code of a longer form. */
  function ShortLength(n: nat): (b: byte)
    ensures b < 128
  {
    if n <= 125 then n else if n < 65536 then 126 else 127
  }

  function LengthFields(short: nat): nat {
    if short <= 125 then 0 else if short == 126 then 2 else 8
  }

  function SecondByte(masked: bool, short: byte): byte
    requires short < 128
  {
    SecondByteValue(masked, short);
    Bits.Or(if masked then 0x80 else 0, short)
  }

  lemma SecondByteValue(masked: bool, short: byte)
    requires short < 128
    ensures Bits.Or(if masked then 0x80 else 0, short) == short + 0x80 * Bit(masked)
  {
    hide Bits.Or, Bits.Pow2;
    Bits.Pow2Values();
    Bits.OrCommutes(if masked then 0x80 else 0, short);
    Bits.OrDisjoint(short, Bit(masked), 7);
  }

  function HeaderBytes(h: FrameHeader, n: nat): seq<byte> {
    [FirstByte(h), SecondByte(h.mask.Some?, ShortLength(n))] + BigEndian(n, LengthFields(ShortLength(n)))
    + (if h.mask.Some? then h.mask.value else [])
  }

  /** Section 5.3: payload octet i is masked with key octet i modulo 4, counting from pos. */
  function Masked(key: seq<byte>, pos: nat, data: seq<byte>): (s: seq<byte>)
    requires |key| == 4
    ensures |s| == |data|
  {
    seq(|data|, i requires 0 <= i < |data| => XorByte(data[i], key[(pos + i) % 4]))
  }

  function Payload(h: FrameHeader, pos: nat, data: seq<byte>): (s: seq<byte>)
    requires h.KeyOk()
    ensures |s| == |data|
  {
    if h.mask.Some? then Masked(h.mask.value, pos, data) else data
  }

  function Frame(h: FrameHeader, msg: seq<byte>): seq<byte>
    requires h.KeyOk()
  {
    HeaderBytes(h, |msg|) + Payload(h, 0, msg)
  }

  // ---- the reader ----

  datatype Parsed = Short | Parsed(h: FrameHeader, length: int, size: nat)

  function FlagsOf(b: byte): (bool, Rsv) {
    (Bits.And(Bits.Shr(b, 7), 1) != 0,
     [Bits.And(Bits.Shr(b, 6), 1) != 0, Bits.And(Bits.Shr(b, 5), 1) != 0, Bits.And(Bits.Shr(b, 4), 1) != 0])
  }

  lemma OpcodeOf(b: byte)
    ensures Bits.And(b, 0x0f) == b % 16 && Bits.And(b, 0x7f) == b % 128
    ensures Bits.And(b, 0x80) != 0 <==> b >= 128
  {
    hide Bits.And, Bits.Shr, Bits.Pow2;
    Bits.Pow2Values();
    Bits.AndMask(b, 4);
    Bits.AndMask(b, 7);
    Bits.AndBit(b, 7);
    Bits.ShrOctet(b);
  }

  /** NewFrameReader on the unread bytes s: Short when they end inside the header.
      The length is an int64, so an eight-octet length can come out negative. */
  function ParseHeader(s: seq<byte>): (p: Parsed)
    ensures p.Parsed? ==> 2 <= p.size <= |s| && p.h.KeyOk()
  {
    if |s| < 2 then Short
    else
      OpcodeOf(s[0]);
      OpcodeOf(s[1]);
      var short := Bits.And(s[1], 0x7f);
      var k := LengthFields(short);
      var masked := Bits.And(s[1], 0x80) != 0;
      var size := 2 + k + (if masked then 4 else 0);
      if |s| < size then Short
      else
        var length := if k == 0 then short else WrapSigned(BigEndianValue(s[2..2 + k]), 8);
        var (fin, rsv) := FlagsOf(s[0]);
        Parsed(FrameHeader(fin, rsv, Bits.And(s[0], 0x0f), if masked then Some(s[2 + k..2 + k + 4]) else None),
               length, size)
  }

  // ---- what is written is read back ----

  lemma FirstByteValue(h: FrameHeader)
    requires h.opcode < 16
    ensures FirstByte(h) == 16 * Flags(h, 3) + h.opcode
  {
    hide Bits.Or, Bits.Pow2, Flags;
    Bits.Pow2Values();
    Bits.OrCommutes(16 * Flags(h, 3), h.opcode);
    Bits.OrDisjoint(h.opcode, Flags(h, 3), 4);
  }

  lemma FlagsRead(h: FrameHeader, b: byte)
    requires b / 16 == Flags(h, 3)
    ensures FlagsOf(b) == (h.fin, h.rsv)
  {
    FlagsSum(h);
    hide Bits.And, Bits.Shr, Flags;
    ShiftedBit(b, 0);
    ShiftedBit(b, 1);
    ShiftedBit(b, 2);
    ShiftedBit(b, 3);
    SmallShifts(b / 16);
    FourBits(Bit(h.fin), Bit(h.rsv[0]), Bit(h.rsv[1]), Bit(h.rsv[2]));
    assert h.rsv == [h.rsv[0], h.rsv[1], h.rsv[2]];
  }

  lemma FlagsSum(h: FrameHeader)
    ensures Flags(h, 3) == 8 * Bit(h.fin) + 4 * Bit(h.rsv[0]) + 2 * Bit(h.rsv[1]) + Bit(h.rsv[2])
  {
    assert Flags(h, 1) == 2 * Flags(h, 0) + Bit(h.rsv[0]);
    assert Flags(h, 2) == 2 * Flags(h, 1) + Bit(h.rsv[1]);
  }

  lemma FourBits(b3: nat, b2: nat, b1: nat, b0: nat)
    requires b3 <= 1 && b2 <= 1 && b1 <= 1 && b0 <= 1
    ensures var c := 8 * b3 + 4 * b2 + 2 * b1 + b0;
      c % 2 == b0 && c / 2 % 2 == b1 && c / 2 / 2 % 2 == b2 && c / 8 % 2 == b3
  {
  }

  lemma SmallShifts(c: nat)
    ensures Bits.Shr(c, 0) == c && Bits.Shr(c, 1) == c / 2 && Bits.Shr(c, 2) == c / 2 / 2 && Bits.Shr(c, 3) == c / 8
  {
    Bits.ShrFour(c);
    assert Bits.Shr(c, 2) == Bits.Shr(c / 2, 1);
  }

  lemma ShiftedBit(b: nat, j: nat)
    ensures Bits.And(Bits.Shr(b, 4 + j), 1) == Bits.Shr(b / 16, j) % 2
  {
    assert Bits.Pow2(1) == 2;
    hide *;
    Bits.ShrSum(b, 4, j);
    Bits.ShrFour(b);
    Bits.AndMask(Bits.Shr(b, 4 + j), 1);
  }

  lemma LengthRead(n: nat)
    requires n < 0x8000_0000_0000_0000
    ensures var k := LengthFields(ShortLength(n));
      (if k == 0 then ShortLength(n) else WrapSigned(BigEndianValue(BigEndian(n, k)), 8)) == n
  {
    var k := LengthFields(ShortLength(n));
    PowerValues();
    if k > 0 {
      BigEndianExact(n, k);
      WrapSignedFits(n, 8);
    }
  }

  /** A written header, followed by anything, is read back with its length and size, for
      every opcode that fits its four bits; a wider opcode is not read back. */
  lemma HeaderRoundTrip(h: FrameHeader, n: nat, rest: seq<byte>)
    requires h.KeyOk() && n < 0x8000_0000_0000_0000
    ensures var p := ParseHeader(HeaderBytes(h, n) + rest);
      p.Parsed? && p.length == n && p.size == |HeaderBytes(h, n)| && p.h.mask == h.mask
      && (p.h == h <==> h.opcode < 16)
  {
    hide Bits.And, FlagsOf, FirstByte, SecondByte, BigEndian, BigEndianValue, WrapSigned;
    var s := HeaderBytes(h, n) + rest;
    HeaderSlices(h, n, rest);
    SecondByteRead(h.mask.Some?, ShortLength(n));
    LengthRead(n);
    OpcodeOf(s[0]);
    if h.opcode < 16 {
      FirstByteValue(h);
      FlagsRead(h, s[0]);
    }
  }

  lemma SecondByteRead(masked: bool, short: byte)
    requires short < 128
    ensures Bits.And(SecondByte(masked, short), 0x7f) == short
    ensures Bits.And(SecondByte(masked, short), 0x80) != 0 <==> masked
  {
    hide Bits.And, Bits.Or;
    SecondByteValue(masked, short);
    OpcodeOf(SecondByte(masked, short));
  }

  lemma HeaderSlices(h: FrameHeader, n: nat, rest: seq<byte>)
    requires h.KeyOk()
    ensures var k := LengthFields(ShortLength(n)); var s := HeaderBytes(h, n) + rest;
      && |HeaderBytes(h, n)| == 2 + k + (if h.mask.Some? then 4 else 0)
      && s[0] == FirstByte(h) && s[1] == SecondByte(h.mask.Some?, ShortLength(n))
      && s[2..2 + k] == BigEndian(n, k)
      && (h.mask.Some? ==> s[2 + k..2 + k + 4] == h.mask.value)
  {
    hide FirstByte, SecondByte, BigEndian, ShortLength;
    var k := LengthFields(ShortLength(n));
    var head := [FirstByte(h), SecondByte(h.mask.Some?, ShortLength(n))];
    var tail := (if h.mask.Some? then h.mask.value else []) + rest;
    assert HeaderBytes(h, n) + rest == head + BigEndian(n, k) + tail;
  }

  /** No header that reads as the same payload length is shorter than the one written,
      counting only the length form (section 5.2: the minimal number of bytes). */
  lemma ShortestLength(h: FrameHeader, n: nat, s: seq<byte>)
    requires h.KeyOk() && n < 0x8000_0000_0000_0000
    requires ParseHeader(s).Parsed? && ParseHeader(s).length == n && ParseHeader(s).h.mask.Some? == h.mask.Some?
    ensures |HeaderBytes(h, n)| <= ParseHeader(s).size
  {
    PowerValues();
    OpcodeOf(s[1]);
    var k := LengthFields(Bits.And(s[1], 0x7f));
    if k == 2 {
      WrapSignedFits(BigEndianValue(s[2..4]), 8);
    }
  }

  /** Unmasking is masking again, and it can be done piece by piece. */
  lemma MaskedTwice(key: seq<byte>, pos: nat, data: seq<byte>)
    requires |key| == 4
    ensures Masked(key, pos, Masked(key, pos, data)) == data
  {
    forall i | 0 <= i < |data| ensures Masked(key, pos, Masked(key, pos, data))[i] == data[i] {
      Bits.XorUndo(data[i], key[(pos + i) % 4]);
    }
  }

  lemma MaskedPieces(key: seq<byte>, pos: nat, a: seq<byte>, b: seq<byte>)
    requires |key| == 4
    ensures Masked(key, pos, a + b) == Masked(key, pos, a) + Masked(key, pos + |a|, b)
  {
    hide XorByte;
    forall i | 0 <= i < |a| + |b|
      ensures Masked(key, pos, a + b)[i] == (Masked(key, pos, a) + Masked(key, pos + |a|, b))[i]
    {
      if i >= |a| {
        assert (a + b)[i] == b[i - |a|] && pos + |a| + (i - |a|) == pos + i;
      }
    }
  }

  lemma PayloadTwice(h: FrameHeader, pos: nat, data: seq<byte>)
    requires h.KeyOk()
    ensures Payload(h, pos, Payload(h, pos, data)) == data
  {
    if h.mask.Some? {
      MaskedTwice(h.mask.value, pos, data);
    }
  }

  lemma PayloadPieces(h: FrameHeader, pos: nat, a: seq<byte>, b: seq<byte>)
    requires h.KeyOk()
    ensures Payload(h, pos, a + b) == Payload(h, pos, a) + Payload(h, pos + |a|, b)
  {
    if h.mask.Some? {
      MaskedPieces(h.mask.value, pos, a, b);
    }
  }
}
