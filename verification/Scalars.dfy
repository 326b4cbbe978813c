/** values.go: the decoders of single booleans, integers, oids, strings and octet strings,
    and their round trips with the encoders. Numbers sent as text are parsed by a library
    call, whose result is a parameter. */
module Scalars {
  import opened Wrappers
  import opened Bytes
  import opened Messages
  import opened Reader
  import opened Arrays
  import opened ArrayReader
  import Bind
  import Timestamp
  import WireLaws

  /** What is asked for: decodeInt2, decodeInt4, decodeInt8 and decodeOid. */
  datatype Number = Int2 | Int4 | Int8 | AnOid
  {
    function Oid(): int {
      match this case Int2 => 21 case Int4 => 23 case Int8 => 20 case AnOid => 26
    }

    function Width(): nat {
      match this case Int2 => 2 case Int4 => 4 case Int8 => 8 case AnOid => 4
    }
  }

  /** ReadString of the whole value; a NULL has been refused before, and no other size is
      negative. */
  function WholeText(v: V): (V, seq<byte>) {
    if v.left < 0 then (v, []) else var (v', b) := VTake(v, v.left); (v', Octets(b))
  }

  function DecodeNumber(v: V, kind: Number, dataType: int, format: int, parsed: Option<int>): (V, Option<int>) {
    if v.left == -1 || dataType != kind.Oid() then (Fail(v), None)
    else if format == 0 then
      var (v', s) := WholeText(v);
      if parsed.None? then (Fail(v'), None) else (v', parsed)
    else if format == 1 then
      if v.left != kind.Width() then (Fail(v), None) else var (v', n) := VInt(v, kind.Width()); (v', Some(n))
    else (Fail(v), None)
  }

  /** The text forms of a boolean are "t" and "f"; in binary, any octet but 0 is true. */
  function DecodeBool(v: V, dataType: int, format: int): (V, Option<bool>) {
    if v.left == -1 || dataType != 16 then (Fail(v), None)
    else if format == 0 then
      var (v', s) := WholeText(v);
      if s == ['t' as byte] then (v', Some(true))
      else if s == ['f' as byte] then (v', Some(false))
      else (Fail(v'), None)
    else if format == 1 then
      if v.left != 1 then (Fail(v), None) else var (v', n) := VInt(v, 1); (v', Some(n != 0))
    else (Fail(v), None)
  }

  function DecodeString(v: V): (V, Option<seq<byte>>) {
    if v.left == -1 then (Fail(v), None) else var (v', s) := WholeText(v); (v', Some(s))
  }

  /** decodeBytea of a binary value; NULL is nil and no error. */
  function DecodeBytea(v: V, dataType: int, format: int): (V, Option<seq<byte>>) {
    if v.left == -1 then (v, None)
    else if dataType != 17 || format != 1 then (Fail(v), None)
    else if v.left < 0 then (Fail(v), Some([]))
    else var (v', b) := VTake(v, v.left); (v', Some(Octets(b)))
  }

  /** decodeTimestampTz; the instant in nanoseconds since 1970. After an invalid size it
      reads on, in vain. */
  function DecodeTime(v: V, dataType: int, format: int, parsed: Option<int>): (V, Option<int>) {
    if v.left == -1 || dataType != 1184 then (Fail(v), None)
    else if format == 0 then
      var (v', s) := WholeText(v);
      if parsed.None? then (Fail(v'), None) else (v', parsed)
    else if format == 1 then
      var (v', n) := VInt(if v.left != 8 then Fail(v) else v, 8); (v', Some(Timestamp.Decode(n)))
    else (Fail(v), None)
  }

  // ---- values.go ----

  method ReadWhole(vr: ValueReader) returns (s: seq<byte>)
    modifies vr, vr.mr
    ensures (vr.View(), s) == WholeText(old(vr.View()))
  {
    hide VTake;
    s := [];
    if vr.valueBytesRemaining >= 0 {
      var b := vr.ReadN(vr.valueBytesRemaining);
      s := Octets(b);
    }
  }

  method ReadNumber(vr: ValueReader, kind: Number, dataType: int, format: int, parsed: Option<int>) returns (n: Option<int>)
    modifies vr, vr.mr
    ensures (vr.View(), n) == DecodeNumber(old(vr.View()), kind, dataType, format, parsed)
  {
    hide VInt, WholeText;
    if vr.valueBytesRemaining == -1 || dataType != kind.Oid() {
      vr.failed := true;
      return None;
    }
    if format == 0 {
      var s := ReadWhole(vr);
      if parsed.None? {
        vr.failed := true;
      }
      return parsed;
    }
    if format != 1 || vr.valueBytesRemaining != kind.Width() {
      vr.failed := true;
      return None;
    }
    var x := vr.ReadInt(kind.Width());
    n := Some(x);
  }

  method ReadBool(vr: ValueReader, dataType: int, format: int) returns (b: Option<bool>)
    modifies vr, vr.mr
    ensures (vr.View(), b) == DecodeBool(old(vr.View()), dataType, format)
  {
    hide VInt, WholeText;
    if vr.valueBytesRemaining == -1 || dataType != 16 {
      vr.failed := true;
      return None;
    }
    if format == 0 {
      var s := ReadWhole(vr);
      if s == ['t' as byte] {
        return Some(true);
      } else if s == ['f' as byte] {
        return Some(false);
      }
      vr.failed := true;
      return None;
    }
    if format != 1 || vr.valueBytesRemaining != 1 {
      vr.failed := true;
      return None;
    }
    var x := vr.ReadInt(1);
    b := Some(x != 0);
  }

  method ReadText(vr: ValueReader) returns (s: Option<seq<byte>>)
    modifies vr, vr.mr
    ensures (vr.View(), s) == DecodeString(old(vr.View()))
  {
    hide WholeText;
    if vr.valueBytesRemaining == -1 {
      vr.failed := true;
      return None;
    }
    var t := ReadWhole(vr);
    s := Some(t);
  }

  method ReadBytea(vr: ValueReader, dataType: int, format: int) returns (s: Option<seq<byte>>)
    modifies vr, vr.mr
    ensures (vr.View(), s) == DecodeBytea(old(vr.View()), dataType, format)
  {
    hide VTake;
    if vr.valueBytesRemaining == -1 {
      return None;
    }
    if dataType != 17 || format != 1 {
      vr.failed := true;
      return None;
    }
    var t := vr.ReadBytes(vr.valueBytesRemaining);
    s := Some(t);
  }

  method ReadTime(vr: ValueReader, dataType: int, format: int, parsed: Option<int>) returns (t: Option<int>)
    modifies vr, vr.mr
    ensures (vr.View(), t) == DecodeTime(old(vr.View()), dataType, format, parsed)
  {
    hide VInt, WholeText, Timestamp.Decode;
    if vr.valueBytesRemaining == -1 || dataType != 1184 || (format != 0 && format != 1) {
      vr.failed := true;
      return None;
    }
    if format == 0 {
      var s := ReadWhole(vr);
      if parsed.None? {
        vr.failed := true;
      }
      return parsed;
    }
    if vr.valueBytesRemaining != 8 {
      vr.failed := true;
    }
    var microsecSinceY2K := vr.ReadInt(8);
    t := Some(Timestamp.Decode(microsecSinceY2K));
  }

  // ---- what an encoder wrote is what its decoder returns ----

  /** An integer that the encoder accepts and that is not below its type's minimum is decoded
      as itself, and its column is used up. */
  lemma NumberRoundTrip(v: V, kind: Number, n: int, w: seq<byte>, after: seq<byte>, tail: seq<byte>)
    requires ArrayReader.Unread(v, w, after, tail) && FitsSigned(n, kind.Width())
    requires Bind.ValueOf(kind.Oid(), if kind.AnOid? then Bind.Oid(n) else Bind.Integer(n)) == Some(Some(w))
    ensures var (v', r) := DecodeNumber(v, kind, kind.Oid(), 1, None); r == Some(n) && ArrayReader.Unread(v', [], after, tail)
  {
    assert w == PutSigned(n, kind.Width()) && |w| == kind.Width();
    assert w + [] == w;
    hide ArrayReader.Unread, VInt, PutSigned, FitsSigned;
    IntUnread(v, n, kind.Width(), [], after, tail);
  }

  /** An integer that fits its type is accepted for it. */
  lemma Accepted(kind: Number, n: int)
    requires FitsSigned(n, kind.Width())
    ensures Bind.ValueOf(kind.Oid(), if kind.AnOid? then Bind.Oid(n) else Bind.Integer(n))
         == Some(Some(PutSigned(n, kind.Width())))
  {
    hide PutSigned;
    PowerValues();
  }

  lemma BoolRoundTrip(v: V, b: bool, w: seq<byte>, after: seq<byte>, tail: seq<byte>)
    requires ArrayReader.Unread(v, w, after, tail) && Bind.ValueOf(16, Bind.Bool(b)) == Some(Some(w))
    ensures var (v', r) := DecodeBool(v, 16, 1); r == Some(b) && ArrayReader.Unread(v', [], after, tail)
  {
    var n := if b then 1 else 0;
    PowerValues();
    BoolOctet(n);
    assert w == PutSigned(n, 1) && |w| == 1;
    assert w + [] == w;
    assert FitsSigned(n, 1);
    hide ArrayReader.Unread, VInt, PutSigned, FitsSigned;
    IntUnread(v, n, 1, [], after, tail);
  }

  lemma StringRoundTrip(v: V, s: seq<byte>, oid: int, w: seq<byte>, after: seq<byte>, tail: seq<byte>)
    requires ArrayReader.Unread(v, w, after, tail) && Bind.ValueOf(oid, Bind.Str(s)) == Some(Some(w))
    ensures var (v', r) := DecodeString(v); r == Some(s) && ArrayReader.Unread(v', [], after, tail)
  {
    assert w + [] == w;
    hide ArrayReader.Unread, VTake;
    TakeUnread(v, w, [], after, tail);
  }

  lemma ByteaRoundTrip(v: V, s: seq<byte>, w: seq<byte>, after: seq<byte>, tail: seq<byte>)
    requires ArrayReader.Unread(v, w, after, tail) && Bind.ValueOf(17, Bind.Octets(s)) == Some(Some(w))
    ensures var (v', r) := DecodeBytea(v, 17, 1); r == Some(s) && ArrayReader.Unread(v', [], after, tail)
  {
    assert w + [] == w;
    hide ArrayReader.Unread, VTake;
    TakeUnread(v, w, [], after, tail);
  }

  /** A time comes back floored to the microsecond exactly when its microseconds since 1970
      fit an int64. */
  lemma TimeRoundTrip(v: V, t: int, w: seq<byte>, after: seq<byte>, tail: seq<byte>)
    requires ArrayReader.Unread(v, w, after, tail) && Bind.ValueOf(1184, Bind.Time(t)) == Some(Some(w))
    ensures var (v', r) := DecodeTime(v, 1184, 1, None);
      && ArrayReader.Unread(v', [], after, tail) && r.Some?
      && (r == Some(Timestamp.FlooredMicros(t) * 1000) <==> FitsSigned(Timestamp.FlooredMicros(t), 8))
  {
    var n := Timestamp.Encode(t);
    assert w == PutSigned(n, 8) && |w| == 8;
    assert w + [] == w;
    WireLaws.TimeFits(t);
    hide ArrayReader.Unread, VInt, PutSigned, FitsSigned, Timestamp.Encode, Timestamp.Decode, Timestamp.FlooredMicros;
    IntUnread(v, n, 8, [], after, tail);
    Timestamp.RoundTrip(t);
  }

  /** A NULL, another type, another format and another width are all errors, except that a
      NULL octet string is nil; nothing of the column is read then. */
  lemma Refused(v: V, kind: Number, dataType: int, format: int, parsed: Option<int>)
    ensures v.left == -1 || dataType != kind.Oid() || (format != 0 && format != 1) || (format == 1 && v.left != kind.Width()) ==>
        DecodeNumber(v, kind, dataType, format, parsed) == (v.(failed := true), None)
    ensures v.left == -1 || dataType != 16 || (format != 0 && format != 1) || (format == 1 && v.left != 1) ==>
        DecodeBool(v, dataType, format) == (v.(failed := true), None)
    ensures v.left == -1 ==> DecodeString(v) == (v.(failed := true), None) && DecodeBytea(v, dataType, format) == (v, None)
    ensures v.left == -1 || dataType != 1184 || (format != 0 && format != 1) ==>
        DecodeTime(v, dataType, format, parsed) == (v.(failed := true), None)
    ensures v.left != -1 && v.left != 8 && dataType == 1184 && format == 1 ==>
        DecodeTime(v, dataType, format, parsed) == (v.(failed := true), Some(Timestamp.Decode(0)))
    ensures Int2.Oid() == 21 && Int4.Oid() == 23 && Int8.Oid() == 20 && AnOid.Oid() == 26
    ensures Int2.Width() == 2 && Int4.Width() == 4 && Int8.Width() == 8 && AnOid.Width() == 4
  {
  }

  /** The text of a boolean is one letter, and any octet but 0 is true in binary. */
  lemma BoolDecided(v: V)
    requires v.left != -1
    ensures DecodeBool(v, 16, 0).1 ==
        if WholeText(v).1 == [116] then Some(true) else if WholeText(v).1 == [102] then Some(false) else None
    ensures DecodeBool(v, 16, 0).1 == None ==> DecodeBool(v, 16, 0).0.failed
    ensures v.left == 1 ==> DecodeBool(v, 16, 1) == (VInt(v, 1).0, Some(VInt(v, 1).1 != 0))
  {
    hide VInt, WholeText;
  }
}
