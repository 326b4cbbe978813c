/** values.go: one-dimensional binary arrays. The encoders of bool, int2, int4 and int8
    arrays are one loop at four element types, and so are their decoders; text arrays
    have loops of their own. */
module Arrays {
  import opened Sequences
  import opened Bytes
  import opened Messages

  const BINARY_FORMAT: int := 1
  const VARCHAR_OID: int := 1043
  const TEXT_OID: int := 25
  const TEXT_ARRAY_OID: int := 1009
  const VARCHAR_ARRAY_OID: int := 1015

  datatype Kind = BoolKind | Int2Kind | Int4Kind | Int8Kind
  {
    function Size(): (n: nat)
      ensures 1 <= n <= 8
    {
      match this case BoolKind => 1 case Int2Kind => 2 case Int4Kind => 4 case Int8Kind => 8
    }

    function Oid(): int {
      match this case BoolKind => 16 case Int2Kind => 21 case Int4Kind => 23 case Int8Kind => 20
    }

    function ArrayOid(): int {
      match this case BoolKind => 1000 case Int2Kind => 1005 case Int4Kind => 1007 case Int8Kind => 1016
    }

    /** A value of the element type; a bool is 0 or 1. */
    predicate Holds(n: int) {
      if BoolKind? then n == 0 || n == 1 else FitsSigned(n, Size())
    }
  }

  // ---- the wire form ----

  function Element(kind: Kind, n: int): (s: seq<byte>)
    ensures |s| == 4 + kind.Size()
  {
    PutSigned(kind.Size(), 4) + PutSigned(n, kind.Size())
  }

  function Elements(kind: Kind, vals: seq<int>): seq<byte> {
    if vals == [] then [] else Elements(kind, vals[..|vals| - 1]) + Element(kind, vals[|vals| - 1])
  }

  lemma {:induction false} ElementsSize(kind: Kind, vals: seq<int>)
    ensures |Elements(kind, vals)| == |vals| * (4 + kind.Size())
  {
    if vals != [] {
      ElementsSize(kind, vals[..|vals| - 1]);
      assert (|vals| - 1) * (4 + kind.Size()) + (4 + kind.Size()) == |vals| * (4 + kind.Size());
    }
  }

  function TextElement(t: seq<byte>): seq<byte> {
    PutSigned(|t|, 4) + t
  }

  function TextElements(vals: seq<seq<byte>>): seq<byte> {
    if vals == [] then [] else TextElements(vals[..|vals| - 1]) + TextElement(vals[|vals| - 1])
  }

  function TotalSize(vals: seq<seq<byte>>): nat {
    if vals == [] then 0 else TotalSize(vals[..|vals| - 1]) + |vals[|vals| - 1]|
  }

  /** Dimensions, no NULLs, element type, length, lower bound. */
  function Header(oid: int, n: nat): (s: seq<byte>)
    ensures |s| == 20
  {
    PutSigned(1, 4) + PutSigned(0, 4) + PutSigned(oid, 4) + PutSigned(n, 4) + PutSigned(1, 4)
  }

  function ArrayBody(kind: Kind, vals: seq<int>): seq<byte> {
    Header(kind.Oid(), |vals|) + Elements(kind, vals)
  }

  function TextArrayBody(oid: int, vals: seq<seq<byte>>): seq<byte> {
    Header(oid, |vals|) + TextElements(vals)
  }

  lemma {:induction false} TextElementsSize(vals: seq<seq<byte>>)
    ensures |TextElements(vals)| == |vals| * 4 + TotalSize(vals)
  {
    if vals != [] {
      TextElementsSize(vals[..|vals| - 1]);
    }
  }

  /** A parameter: the length that is written first, and the octets that follow. */
  function Param(body: seq<byte>): seq<byte> {
    PutSigned(|body|, 4) + body
  }

  // ---- encoding ----

  /** encodeArrayHeader, given the size of the whole array. */
  method WriteHeader(w: WriteBuf, size: nat, oid: int, length: nat)
    requires w.Valid()
    modifies w`buf
    ensures w.Valid() && w.Current() == Msg(old(w.Current()).t, old(w.Current()).payload + (PutSigned(size, 4) + Header(oid, length)))
  {
    hide PutSigned;
    ghost var p := w.Current().payload;
    w.WriteInt(size, 4);
    w.WriteInt(1, 4);
    w.WriteInt(0, 4);
    w.WriteInt(oid, 4);
    w.WriteInt(length, 4);
    w.WriteInt(1, 4);
    Flatten(p, PutSigned(size, 4), PutSigned(1, 4), PutSigned(0, 4), PutSigned(oid, 4), PutSigned(length, 4), PutSigned(1, 4));
  }

  lemma Flatten<T>(p: seq<T>, a: seq<T>, b: seq<T>, c: seq<T>, d: seq<T>, e: seq<T>, f: seq<T>)
    ensures p + a + b + c + d + e + f == p + (a + (b + c + d + e + f))
  {
  }

  /** encodeBoolArray, encodeInt2Array, encodeInt4Array and encodeInt8Array: the size
      computed before the loop is the number of octets that the loop writes. */
  method EncodeArray(w: WriteBuf, kind: Kind, vals: seq<int>)
    requires w.Valid() && forall n :: n in vals ==> kind.Holds(n)
    modifies w`buf
    ensures w.Valid() && w.Current() == Msg(old(w.Current()).t, old(w.Current()).payload + Param(ArrayBody(kind, vals)))
  {
    hide PutSigned, Header;
    ghost var p := w.Current().payload;
    WriteHeader(w, 20 + |vals| * (4 + kind.Size()), kind.Oid(), |vals|);
    ghost var start := w.Current().payload;
    assert vals[..0] == [];
    for i := 0 to |vals|
      invariant w.Valid() && w.Current() == Msg(old(w.Current()).t, start + Elements(kind, vals[..i]))
    {
      assert vals[..i + 1][..i] == vals[..i];
      WriteElement(w, kind, vals[i]);
      Assoc(start, Elements(kind, vals[..i]), Element(kind, vals[i]));
    }
    assert vals[..|vals|] == vals;
    ParamIs(p, kind, vals);
  }

  lemma ParamIs(p: seq<byte>, kind: Kind, vals: seq<int>)
    ensures p + (PutSigned(20 + |vals| * (4 + kind.Size()), 4) + Header(kind.Oid(), |vals|)) + Elements(kind, vals)
         == p + Param(ArrayBody(kind, vals))
  {
    ElementsSize(kind, vals);
    hide PutSigned, Header, Elements;
    Assoc(p, PutSigned(|ArrayBody(kind, vals)|, 4) + Header(kind.Oid(), |vals|), Elements(kind, vals));
    Assoc(PutSigned(|ArrayBody(kind, vals)|, 4), Header(kind.Oid(), |vals|), Elements(kind, vals));
  }

  method WriteElement(w: WriteBuf, kind: Kind, n: int)
    requires w.Valid() && kind.Holds(n)
    modifies w`buf
    ensures w.Valid() && w.Current() == Msg(old(w.Current()).t, old(w.Current()).payload + Element(kind, n))
  {
    ghost var p := w.Current().payload;
    w.WriteInt(kind.Size(), 4);
    if kind.BoolKind? {
      BoolOctet(n);
      w.WriteByte(n);
    } else {
      w.WriteInt(n, kind.Size());
    }
    Assoc(p, PutSigned(kind.Size(), 4), PutSigned(n, kind.Size()));
  }

  lemma BoolOctet(n: int)
    requires n == 0 || n == 1
    ensures PutSigned(n, 1) == [n]
  {
    assert Pow256(1) == 256;
    assert BigEndian(n, 1) == BigEndian(0, 0) + [n];
  }

  /** encodeTextArray. */
  method EncodeTextArray(w: WriteBuf, vals: seq<seq<byte>>, oid: int)
    requires w.Valid()
    modifies w`buf
    ensures w.Valid() && w.Current() == Msg(old(w.Current()).t, old(w.Current()).payload + Param(TextArrayBody(oid, vals)))
  {
    hide PutSigned, Header;
    ghost var p := w.Current().payload;
    var total := 0;
    assert vals[..0] == [];
    for i := 0 to |vals|
      invariant total == TotalSize(vals[..i])
    {
      assert vals[..i + 1][..i] == vals[..i];
      total := total + |vals[i]|;
    }
    WriteHeader(w, 20 + |vals| * 4 + total, oid, |vals|);
    ghost var start := w.Current().payload;
    for i := 0 to |vals|
      invariant w.Valid() && w.Current() == Msg(old(w.Current()).t, start + TextElements(vals[..i]))
    {
      assert vals[..i + 1][..i] == vals[..i];
      w.WriteInt(|vals[i]|, 4);
      w.WriteBytes(vals[i]);
      Assoc(start + TextElements(vals[..i]), PutSigned(|vals[i]|, 4), vals[i]);
      Assoc(start, TextElements(vals[..i]), TextElement(vals[i]));
    }
    assert vals[..|vals|] == vals;
    TextParamIs(p, vals, oid);
  }

  lemma TextParamIs(p: seq<byte>, vals: seq<seq<byte>>, oid: int)
    ensures p + (PutSigned(20 + |vals| * 4 + TotalSize(vals), 4) + Header(oid, |vals|)) + TextElements(vals)
         == p + Param(TextArrayBody(oid, vals))
  {
    TextElementsSize(vals);
    hide PutSigned, Header, TextElements, TotalSize;
    Assoc(p, PutSigned(20 + |vals| * 4 + TotalSize(vals), 4) + Header(oid, |vals|), TextElements(vals));
    Assoc(PutSigned(20 + |vals| * 4 + TotalSize(vals), 4), Header(oid, |vals|), TextElements(vals));
  }
}
