/** values.go: the array decoders, and the round trip with the encoders. */
module ArrayReader {
  import opened Sequences
  import opened Wrappers
  import opened Bytes
  import opened Messages
  import opened Reader
  import opened Arrays
  import Bits

  /** What a decoder returns: a slice, a nil slice (a NULL array, or an error), or a run-time
      panic on a negative size. */
  datatype Decoded<T> = Slice(vals: seq<T>) | NilSlice | Panicked

  // ---- decoding, as functions ----

  function Fail(v: V): V {
    v.(failed := true)
  }

  function VInt(v: V, width: nat): (V, int) {
    var (v', b) := VTake(v, width); (v', IntOf(b))
  }

  /** The length that decode1dArrayHeader returns, or its error. */
  function HeaderLength(v: V): (V, Option<int>) {
    var (v1, dims) := VInt(v, 4);
    if dims == 0 then (v1, Some(0))
    else if dims != 1 then (v1, None)
    else
      var (v2, _) := VInt(v1, 4);
      var (v3, _) := VInt(v2, 4);
      var (v4, length) := VInt(v3, 4);
      var (v5, first) := VInt(v4, 4);
      (v5, if first == 1 then Some(length) else None)
  }

  /** The checks that every array decoder makes before its header. */
  datatype Entry = IsNull | BadType | Binary

  function Check(v: V, typeOk: bool, format: int): Entry {
    if v.left == -1 then IsNull else if !typeOk || format != BINARY_FORMAT then BadType else Binary
  }

  function ElementValue(kind: Kind, n: int): int {
    if kind.BoolKind? then (if n == 1 then 1 else 0) else n
  }

  /** One element; None when its size is wrong. */
  function NextElement(v: V, kind: Kind): (V, Option<int>) {
    var (v1, size) := VInt(v, 4);
    if size != kind.Size() then (Fail(v1), None)
    else var (v2, x) := VInt(v1, kind.Size()); (v2, Some(ElementValue(kind, x)))
  }

  function DecodeElements(v: V, kind: Kind, vals: seq<int>, n: nat): (V, Decoded<int>)
    decreases n
  {
    if n == 0 then (v, Slice(vals))
    else
      match NextElement(v, kind)
      case (v1, None) => (v1, NilSlice)
      case (v1, Some(x)) => DecodeElements(v1, kind, vals + [x], n - 1)
  }

  function Decode(v: V, kind: Kind, dataType: int, format: int): (V, Decoded<int>) {
    match Check(v, dataType == kind.ArrayOid(), format)
    case IsNull => (v, NilSlice)
    case BadType => (Fail(v), NilSlice)
    case Binary =>
      match HeaderLength(v)
      case (v1, None) => (Fail(v1), NilSlice)
      case (v1, Some(n)) => if n < 0 then (v1, Panicked) else DecodeElements(v1, kind, [], n)
  }

  function DecodeTexts(v: V, vals: seq<seq<byte>>, n: nat): (V, Decoded<seq<byte>>)
    decreases n
  {
    if n == 0 then (v, Slice(vals))
    else
      var (v1, size) := VInt(v, 4);
      if size == -1 then (Fail(v1), NilSlice)
      else if size < 0 then (v1, Panicked)
      else
        var (v2, s) := VTake(v1, size);
        DecodeTexts(v2, vals + [match s case Some(t) => t case None => []], n - 1)
  }

  function DecodeText(v: V, dataType: int, format: int): (V, Decoded<seq<byte>>) {
    match Check(v, dataType == TEXT_ARRAY_OID || dataType == VARCHAR_ARRAY_OID, format)
    case IsNull => (v, NilSlice)
    case BadType => (Fail(v), NilSlice)
    case Binary =>
      match HeaderLength(v)
      case (v1, None) => (Fail(v1), NilSlice)
      case (v1, Some(n)) => if n < 0 then (v1, Panicked) else DecodeTexts(v1, [], n)
  }

  // ---- the round trip ----

  /** rest is exactly what is left of the value. */
  ghost predicate Unread(v: V, rest: seq<byte>, after: seq<byte>, tail: seq<byte>) {
    InColumn(v, rest, after, tail) && v.left == |rest|
  }

  lemma TakeUnread(v: V, a: seq<byte>, b: seq<byte>, after: seq<byte>, tail: seq<byte>)
    requires Unread(v, a + b, after, tail)
    ensures Unread(VTake(v, |a|).0, b, after, tail) && VTake(v, |a|).1 == Some(a)
  {
    ValueRead(v, |a|, a + b, after, tail);
    LeftBound(v, |a|, a + b, after, tail);
    hide Take;
    Sub32Signed(v.left, |a|);
    assert (a + b)[|a|..] == b && (a + b)[..|a|] == a;
  }

  lemma IntUnread(v: V, n: int, width: nat, more: seq<byte>, after: seq<byte>, tail: seq<byte>)
    requires width >= 1 && FitsSigned(n, width) && Unread(v, PutSigned(n, width) + more, after, tail)
    ensures VInt(v, width).1 == n && Unread(VInt(v, width).0, more, after, tail)
  {
    hide PutSigned, GetSigned, Unread;
    TakeUnread(v, PutSigned(n, width), more, after, tail);
    SignedRoundTrip(n, width);
  }

  lemma Fits32(n: int)
    requires -0x8000_0000 <= n < 0x8000_0000
    ensures FitsSigned(n, 4)
  {
    PowerValues();
  }

  lemma HeaderUnread(v: V, oid: int, n: nat, more: seq<byte>, after: seq<byte>, tail: seq<byte>)
    requires 0 <= oid < 0x8000_0000 && n < 0x8000_0000 && Unread(v, Header(oid, n) + more, after, tail)
    ensures HeaderLength(v).1 == Some(n) && Unread(HeaderLength(v).0, more, after, tail)
  {
    var e := PutSigned(1, 4) + more;
    var d := PutSigned(n, 4) + e;
    var c := PutSigned(oid, 4) + d;
    var b := PutSigned(0, 4) + c;
    HeaderShape(oid, n, more);
    hide VInt, Unread, PutSigned, FitsSigned;
    Fits32(0);
    Fits32(1);
    Fits32(oid);
    Fits32(n);
    IntUnread(v, 1, 4, b, after, tail);
    var v1 := VInt(v, 4).0;
    IntUnread(v1, 0, 4, c, after, tail);
    var v2 := VInt(v1, 4).0;
    IntUnread(v2, oid, 4, d, after, tail);
    var v3 := VInt(v2, 4).0;
    IntUnread(v3, n, 4, e, after, tail);
    IntUnread(VInt(v3, 4).0, 1, 4, more, after, tail);
  }

  lemma HeaderShape(oid: int, n: nat, more: seq<byte>)
    ensures Header(oid, n) + more
         == PutSigned(1, 4) + (PutSigned(0, 4) + (PutSigned(oid, 4) + (PutSigned(n, 4) + (PutSigned(1, 4) + more))))
  {
    hide PutSigned;
  }

  lemma {:induction false} ElementsFront(kind: Kind, vals: seq<int>)
    requires vals != []
    ensures Elements(kind, vals) == Element(kind, vals[0]) + Elements(kind, vals[1..])
    decreases |vals|
  {
    hide Element;
    var k := |vals| - 1;
    if k == 0 {
      assert vals[..0] == [] && vals[1..] == [];
      assert [] + Element(kind, vals[0]) == Element(kind, vals[0]) + [];
    } else {
      ElementsFront(kind, vals[..k]);
      assert vals[1..][..k - 1] == vals[..k][1..];
      assert Elements(kind, vals) == Elements(kind, vals[..k]) + Element(kind, vals[k]);
      assert Elements(kind, vals[1..]) == Elements(kind, vals[..k][1..]) + Element(kind, vals[k]);
      hide *;
      Assoc(Element(kind, vals[0]), Elements(kind, vals[..k][1..]), Element(kind, vals[k]));
    }
  }

  lemma ElementUnread(v: V, kind: Kind, n: int, more: seq<byte>, after: seq<byte>, tail: seq<byte>)
    requires kind.Holds(n) && Unread(v, Element(kind, n) + more, after, tail)
    ensures NextElement(v, kind).1 == Some(n) && Unread(NextElement(v, kind).0, more, after, tail)
  {
    Fits32(kind.Size());
    var body := PutSigned(n, kind.Size()) + more;
    assert Element(kind, n) + more == PutSigned(kind.Size(), 4) + body;
    assert FitsSigned(n, kind.Size()) by { PowerValues(); }
    hide PutSigned, Unread, VInt, Element;
    IntUnread(v, kind.Size(), 4, body, after, tail);
    IntUnread(VInt(v, 4).0, n, kind.Size(), more, after, tail);
  }

  ghost predicate AllHold(kind: Kind, vals: seq<int>) {
    forall n :: n in vals ==> kind.Holds(n)
  }

  lemma HoldSplit(kind: Kind, vals: seq<int>)
    requires vals != [] && AllHold(kind, vals)
    ensures kind.Holds(vals[0]) && AllHold(kind, vals[1..])
  {
  }

  lemma {:induction false} ElementsUnread(v: V, kind: Kind, done: seq<int>, vals: seq<int>, after: seq<byte>, tail: seq<byte>)
    requires AllHold(kind, vals) && Unread(v, Elements(kind, vals), after, tail)
    ensures DecodeElements(v, kind, done, |vals|).1 == Slice(done + vals)
    ensures Unread(DecodeElements(v, kind, done, |vals|).0, [], after, tail)
    decreases |vals|
  {
    if vals == [] {
      assert done + [] == done;
    } else {
      var n, more := vals[0], vals[1..];
      ElementsFront(kind, vals);
      HoldSplit(kind, vals);
      assert vals == [n] + more;
      Assoc(done, [n], more);
      hide Elements, Element, Unread, NextElement, Kind.Holds, AllHold;
      ElementUnread(v, kind, n, Elements(kind, more), after, tail);
      ElementsUnread(NextElement(v, kind).0, kind, done + [n], more, after, tail);
    }
  }

  /** The decoder returns what the encoder wrote, and stops exactly at its end. */
  lemma ArrayRoundTrip(v: V, kind: Kind, vals: seq<int>, after: seq<byte>, tail: seq<byte>)
    requires AllHold(kind, vals) && Unread(v, ArrayBody(kind, vals), after, tail)
    ensures var (v', d) := Decode(v, kind, kind.ArrayOid(), BINARY_FORMAT);
      d == Slice(vals) && Unread(v', [], after, tail)
  {
    LengthSmall(v, kind, vals, after, tail);
    hide Header, Elements, Unread, HeaderLength, DecodeElements, AllHold;
    HeaderUnread(v, kind.Oid(), |vals|, Elements(kind, vals), after, tail);
    ElementsUnread(HeaderLength(v).0, kind, [], vals, after, tail);
    assert [] + vals == vals;
  }

  lemma LengthSmall(v: V, kind: Kind, vals: seq<int>, after: seq<byte>, tail: seq<byte>)
    requires Unread(v, ArrayBody(kind, vals), after, tail)
    ensures |vals| < 0x8000_0000 && v.left != -1
  {
    ElementsSize(kind, vals);
    hide Header, Elements;
    Bits.MulMonotone(|vals|, 1, 4 + kind.Size());
  }

  lemma {:induction false} TextElementsFront(vals: seq<seq<byte>>)
    requires vals != []
    ensures TextElements(vals) == TextElement(vals[0]) + TextElements(vals[1..])
    decreases |vals|
  {
    hide TextElement;
    var k := |vals| - 1;
    if k == 0 {
      assert vals[..0] == [] && vals[1..] == [];
      assert [] + TextElement(vals[0]) == TextElement(vals[0]) + [];
    } else {
      TextElementsFront(vals[..k]);
      assert vals[1..][..k - 1] == vals[..k][1..];
      Assoc(TextElement(vals[0]), TextElements(vals[..k][1..]), TextElement(vals[k]));
    }
  }

  lemma TextUnread(v: V, t: seq<byte>, more: seq<byte>, after: seq<byte>, tail: seq<byte>)
    requires Unread(v, TextElement(t) + more, after, tail)
    ensures var (v1, size) := VInt(v, 4);
      size == |t| && VTake(v1, |t|).1 == Some(t) && Unread(VTake(v1, |t|).0, more, after, tail)
  {
    assert |t| < 0x8000_0000;
    Fits32(|t|);
    Assoc(PutSigned(|t|, 4), t, more);
    hide PutSigned, Unread, VInt, VTake, FitsSigned;
    IntUnread(v, |t|, 4, t + more, after, tail);
    TakeUnread(VInt(v, 4).0, t, more, after, tail);
  }

  lemma {:induction false} TextsUnread(v: V, done: seq<seq<byte>>, vals: seq<seq<byte>>, after: seq<byte>, tail: seq<byte>)
    requires Unread(v, TextElements(vals), after, tail)
    ensures var (v', d) := DecodeTexts(v, done, |vals|);
      d == Slice(done + vals) && Unread(v', [], after, tail)
    decreases |vals|
  {
    if vals == [] {
      assert done + [] == done;
    } else {
      var t, more := vals[0], vals[1..];
      TextElementsFront(vals);
      assert vals == [t] + more;
      Assoc(done, [t], more);
      hide TextElements, TextElement, Unread, VInt, VTake;
      TextUnread(v, t, TextElements(more), after, tail);
      TextsUnread(VTake(VInt(v, 4).0, |t|).0, done + [t], more, after, tail);
    }
  }

  lemma TextArrayRoundTrip(v: V, vals: seq<seq<byte>>, oid: int, dataType: int, after: seq<byte>, tail: seq<byte>)
    requires (oid == TEXT_OID && dataType == TEXT_ARRAY_OID) || (oid == VARCHAR_OID && dataType == VARCHAR_ARRAY_OID)
    requires Unread(v, TextArrayBody(oid, vals), after, tail)
    ensures var (v', d) := DecodeText(v, dataType, BINARY_FORMAT);
      d == Slice(vals) && Unread(v', [], after, tail)
  {
    TextElementsSize(vals);
    assert |vals| < 0x8000_0000 && v.left != -1;
    hide Header, TextElements, Unread, HeaderLength, DecodeTexts;
    HeaderUnread(v, oid, |vals|, TextElements(vals), after, tail);
    TextsUnread(HeaderLength(v).0, [], vals, after, tail);
    assert [] + vals == vals;
  }

  // ---- ValueReader, the object ----

  class ValueReader {
    const mr: MsgReader
    var valueBytesRemaining: int
    var failed: bool

    ghost function View(): V
      reads this, mr
    {
      V(mr.View(), valueBytesRemaining, failed)
    }

    constructor (mr: MsgReader, size: int)
      ensures this.mr == mr && View() == V(mr.View(), size, false)
    {
      this.mr := mr;
      valueBytesRemaining, failed := size, false;
    }

    method ReadN(k: nat) returns (b: Option<seq<byte>>)
      modifies this, mr
      ensures VTake(old(View()), k) == (View(), b)
    {
      if failed {
        return None;
      }
      valueBytesRemaining := Sub32(valueBytesRemaining, k);
      if valueBytesRemaining < 0 {
        failed := true;
        return None;
      }
      b := mr.ReadN(k);
    }

    /** ReadByte, ReadInt16, ReadInt32 and ReadInt64. */
    method ReadInt(width: nat) returns (n: int)
      modifies this, mr
      ensures VInt(old(View()), width) == (View(), n)
    {
      hide VTake;
      var b := ReadN(width);
      n := IntOf(b);
    }

    /** ReadBytes: unlike ReadString it refuses a negative count. */
    method ReadBytes(count: int) returns (b: seq<byte>)
      modifies this, mr
      ensures count < 0 ==> View() == Fail(old(View())) && b == []
      ensures count >= 0 ==> View() == VTake(old(View()), count).0
      ensures count >= 0 ==> b == match VTake(old(View()), count).1 case Some(s) => s case None => []
    {
      hide VTake;
      if count < 0 {
        failed := true;
        return [];
      }
      var s := ReadN(count);
      b := match s case Some(t) => t case None => [];
    }

    method DecodeArrayHeader() returns (length: Option<int>)
      modifies this, mr
      ensures HeaderLength(old(View())) == (View(), length)
    {
      hide VInt;
      var numDims := ReadInt(4);
      if numDims == 0 {
        return Some(0);
      }
      if numDims != 1 {
        return None;
      }
      var hasNull := ReadInt(4);
      var oid := ReadInt(4);
      var n := ReadInt(4);
      var first := ReadInt(4);
      length := if first != 1 then None else Some(n);
    }

    method DecodeElement(kind: Kind) returns (x: Option<int>)
      modifies this, mr
      ensures NextElement(old(View()), kind) == (View(), x)
    {
      hide VInt;
      var size := ReadInt(4);
      if size != kind.Size() {
        failed := true;
        return None;
      }
      var n := ReadInt(kind.Size());
      x := Some(ElementValue(kind, n));
    }

    /** decodeBoolArray, decodeInt2Array, decodeInt4Array and decodeInt8Array. */
    method DecodeArray(kind: Kind, dataType: int, format: int) returns (d: Decoded<int>)
      modifies this, mr
      ensures Decode(old(View()), kind, dataType, format) == (View(), d)
    {
      hide HeaderLength, NextElement;
      if valueBytesRemaining == -1 {
        return NilSlice;
      }
      if dataType != kind.ArrayOid() || format != BINARY_FORMAT {
        failed := true;
        return NilSlice;
      }
      var length := DecodeArrayHeader();
      if length.None? {
        failed := true;
        return NilSlice;
      }
      if length.value < 0 {
        return Panicked;
      }
      var a: seq<int> := [];
      ghost var v := View();
      for i := 0 to length.value
        invariant DecodeElements(View(), kind, a, length.value - i) == DecodeElements(v, kind, [], length.value)
      {
        var x := DecodeElement(kind);
        if x.None? {
          return NilSlice;
        }
        a := a + [x.value];
      }
      d := Slice(a);
    }

    method DecodeTextArray(dataType: int, format: int) returns (d: Decoded<seq<byte>>)
      modifies this, mr
      ensures DecodeText(old(View()), dataType, format) == (View(), d)
    {
      hide HeaderLength, VTake;
      if valueBytesRemaining == -1 {
        return NilSlice;
      }
      if (dataType != TEXT_ARRAY_OID && dataType != VARCHAR_ARRAY_OID) || format != BINARY_FORMAT {
        failed := true;
        return NilSlice;
      }
      var length := DecodeArrayHeader();
      if length.None? {
        failed := true;
        return NilSlice;
      }
      if length.value < 0 {
        return Panicked;
      }
      var a: seq<seq<byte>> := [];
      ghost var v := View();
      for i := 0 to length.value
        invariant DecodeTexts(View(), a, length.value - i) == DecodeTexts(v, [], length.value)
      {
        var size := ReadInt(4);
        if size == -1 {
          failed := true;
          return NilSlice;
        }
        if size < 0 {
          return Panicked;
        }
        var s := ReadN(size);
        a := a + [match s case Some(t) => t case None => []];
      }
      d := Slice(a);
    }
  }
}
