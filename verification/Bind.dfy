/** conn.go: sendPreparedQuery, the Bind, Execute and Sync messages, and a reader of the
    Bind payload as the 'Message Formats' section of protocol 3.0 lays it out. */
module Bind {
  import opened Sequences
  import opened Wrappers
  import opened Bytes
  import opened Messages
  import opened Reader
  import opened Arrays
  import Timestamp

  const TEXT_FORMAT: int := 0

  /** An argument, as the type switches tell arguments apart. Converted stands for the
      types whose octets come from library calls: floats, dates and timestamps. */
  datatype Arg =
    | Nil
    | Encoder(format: int, out: seq<byte>, ok: bool)
    | Str(s: seq<byte>)
    | Bool(flag: bool)
    | Integer(n: int)
    | Oid(o: int)
    | Octets(bytes: seq<byte>)
    | Time(t: int)
    | Slice(kind: Kind, vals: seq<int>)
    | Texts(texts: seq<seq<byte>>)
    | Converted(oid: int, bytes: seq<byte>)

  /** Oids whose values are sent in binary: the case list of the format loop. */
  predicate BinaryOid(oid: int) {
    oid in {16, 17, 21, 23, 20, 700, 701, 1184, 1185, 1115, 1000, 1005, 1007, 1016, 1021, 1022, 1009, 1015, 26}
  }

  function FormatOf(oid: int, arg: Arg): int {
    match arg
    case Encoder(f, _, _) => f
    case Str(_) => TEXT_FORMAT
    case _ => if BinaryOid(oid) then BINARY_FORMAT else TEXT_FORMAT
  }

  /** Oids whose conversions are library calls. */
  predicate ConvertedOid(oid: int) {
    oid in {700, 701, 1021, 1022, 1082, 1114, 1115, 1185}
  }

  /** The value of an argument other than an Encoder, as a column; None is an error. An
      integer is only checked against the upper bound of its oid. */
  function ValueOf(oid: int, arg: Arg): Option<Column>
    requires !arg.Encoder?
  {
    match arg
    case Nil => Some(None)
    case Str(s) => Some(Some(s))
    case Bool(b) => if oid == 16 then Some(Some([if b then 1 else 0])) else None
    case Integer(n) =>
      if oid == 21 && n <= 0x7fff then Some(Some(PutSigned(n, 2)))
      else if oid == 23 && n <= 0x7fff_ffff then Some(Some(PutSigned(n, 4)))
      else if oid == 20 && n <= 0x7fff_ffff_ffff_ffff then Some(Some(PutSigned(n, 8)))
      else None
    case Oid(o) => if oid == 26 then Some(Some(PutSigned(o, 4))) else None
    case Octets(b) => if oid == 17 || oid == TEXT_OID || oid == VARCHAR_OID then Some(Some(b)) else None
    case Time(t) => if oid == 1184 then Some(Some(PutSigned(Timestamp.Encode(t), 8))) else None
    case Slice(kind, vals) =>
      if oid == kind.ArrayOid() && (forall n :: n in vals ==> kind.Holds(n)) then Some(Some(ArrayBody(kind, vals))) else None
    case Texts(ts) =>
      if oid == TEXT_ARRAY_OID then Some(Some(TextArrayBody(TEXT_OID, ts)))
      else if oid == VARCHAR_ARRAY_OID then Some(Some(TextArrayBody(VARCHAR_OID, ts)))
      else None
    case Converted(o, b) => if oid == o && ConvertedOid(oid) then Some(Some(b)) else None
  }

  /** The octets that one argument adds to the message. */
  function ArgBytes(oid: int, arg: Arg): Option<seq<byte>> {
    if arg.Encoder? then (if arg.ok then Some(arg.out) else None)
    else match ValueOf(oid, arg) case None => None case Some(c) => Some(ColumnBytes(c))
  }

  function AllFormats(oids: seq<int>, args: seq<Arg>): (fs: seq<int>)
    requires |oids| == |args|
    ensures |fs| == |args|
  {
    seq(|args|, i requires 0 <= i < |args| => FormatOf(oids[i], args[i]))
  }

  function AllArgs(oids: seq<int>, args: seq<Arg>): Option<seq<byte>>
    requires |oids| == |args|
  {
    if args == [] then Some([])
    else
      var k := |args| - 1;
      match (AllArgs(oids[..k], args[..k]), ArgBytes(oids[k], args[k]))
      case (Some(s), Some(t)) => Some(s + t)
      case _ => None
  }

  function Int16s(ns: seq<int>): seq<byte> {
    if ns == [] then [] else Int16s(ns[..|ns| - 1]) + PutSigned(ns[|ns| - 1], 2)
  }

  /** The payload of Bind: unnamed portal, statement, formats, parameters, result formats. */
  function BindPayload(name: seq<byte>, formats: seq<int>, count: nat, params: seq<byte>, results: seq<int>): seq<byte> {
    [0] + (name + [0]) + (PutSigned(|formats|, 2) + Int16s(formats)) + (PutSigned(count, 2) + params)
    + (PutSigned(|results|, 2) + Int16s(results))
  }

  function Query(name: seq<byte>, oids: seq<int>, args: seq<Arg>, params: seq<byte>, results: seq<int>): seq<Msg>
    requires |oids| == |args|
  {
    [Msg('B' as byte, BindPayload(name, AllFormats(oids, args), |args|, params, results)),
     Msg('E' as byte, [0] + PutSigned(0, 4)),
     Msg('S' as byte, [])]
  }

  // ---- sendPreparedQuery ----

  /** A length and that many octets: how every scalar encoder writes its value. */
  method WriteSized(w: WriteBuf, b: seq<byte>)
    requires w.Valid()
    modifies w`buf
    ensures w.Valid() && w.Current() == Msg(old(w.Current()).t, old(w.Current()).payload + ColumnBytes(Some(b)))
  {
    hide PutSigned;
    ghost var p := w.Current().payload;
    w.WriteInt(|b|, 4);
    w.WriteBytes(b);
    Assoc(p, PutSigned(|b|, 4), b);
  }

  /** encodeInt2, encodeInt4, encodeInt8 and encodeOid: a fixed width, and only an upper bound. */
  method WriteIntArg(w: WriteBuf, n: int, width: nat)
    requires w.Valid()
    modifies w`buf
    ensures w.Valid() && w.Current() == Msg(old(w.Current()).t, old(w.Current()).payload + ColumnBytes(Some(PutSigned(n, width))))
  {
    hide PutSigned;
    ghost var p := w.Current().payload;
    w.WriteInt(width, 4);
    w.WriteInt(n, width);
    Assoc(p, PutSigned(width, 4), PutSigned(n, width));
  }

  method EncodeInt(w: WriteBuf, oid: int, n: int) returns (ok: bool)
    requires w.Valid()
    modifies w`buf
    ensures w.Valid() && (ok <==> ArgBytes(oid, Integer(n)).Some?)
    ensures ok ==> w.Current() == Msg(old(w.Current()).t, old(w.Current()).payload + ArgBytes(oid, Integer(n)).value)
  {
    hide PutSigned;
    if oid == 21 {
      if n > 0x7fff {
        return false;
      }
      WriteIntArg(w, n, 2);
    } else if oid == 23 {
      if n > 0x7fff_ffff {
        return false;
      }
      WriteIntArg(w, n, 4);
    } else if oid == 20 {
      if n > 0x7fff_ffff_ffff_ffff {
        return false;
      }
      WriteIntArg(w, n, 8);
    } else {
      return false;
    }
    return true;
  }

  /** The switch over one argument's value. Whatever the encoder, arrays included, it writes
      a column: a length and exactly that many octets, or the length of a NULL. */
  method EncodeArg(w: WriteBuf, oid: int, arg: Arg) returns (ok: bool)
    requires w.Valid()
    modifies w`buf
    ensures w.Valid() && (ok <==> ArgBytes(oid, arg).Some?)
    ensures ok ==> w.Current() == Msg(old(w.Current()).t, old(w.Current()).payload + ArgBytes(oid, arg).value)
    ensures ok && !arg.Encoder? ==> ValueOf(oid, arg).Some?
    ensures ok && !arg.Encoder? ==>
      w.Current() == Msg(old(w.Current()).t, old(w.Current()).payload + ColumnBytes(ValueOf(oid, arg).value))
  {
    hide PutSigned, ArrayBody, TextArrayBody, Timestamp.Encode;
    ok := true;
    match arg {
      case Nil => w.WriteInt(-1, 4);
      case Encoder(_, out, good) =>
        w.WriteBytes(out);
        ok := good;
      case Str(s) => WriteSized(w, s);
      case Bool(b) =>
        ok := oid == 16;
        if ok {
          WriteSized(w, [if b then 1 else 0]);
        }
      case Integer(n) => ok := EncodeInt(w, oid, n);
      case Oid(o) =>
        ok := oid == 26;
        if ok {
          WriteIntArg(w, o, 4);
        }
      case Octets(b) =>
        ok := oid == 17 || oid == TEXT_OID || oid == VARCHAR_OID;
        if ok {
          WriteSized(w, b);
        }
      case Time(t) =>
        ok := oid == 1184;
        if ok {
          WriteIntArg(w, Timestamp.Encode(t), 8);
        }
      case Slice(kind, vals) =>
        ok := oid == kind.ArrayOid() && (forall n :: n in vals ==> kind.Holds(n));
        if ok {
          EncodeArray(w, kind, vals);
        }
      case Texts(texts) =>
        ok := oid == TEXT_ARRAY_OID || oid == VARCHAR_ARRAY_OID;
        if ok {
          EncodeTextArray(w, texts, if oid == TEXT_ARRAY_OID then TEXT_OID else VARCHAR_OID);
        }
      case Converted(o, b) =>
        ok := oid == o && ConvertedOid(oid);
        if ok {
          WriteSized(w, b);
        }
    }
  }

  method WriteInt16s(w: WriteBuf, ns: seq<int>)
    requires w.Valid()
    modifies w`buf
    ensures w.Valid()
    ensures w.Current() == Msg(old(w.Current()).t, old(w.Current()).payload + (PutSigned(|ns|, 2) + Int16s(ns)))
  {
    hide PutSigned;
    ghost var p := w.Current().payload;
    w.WriteInt(|ns|, 2);
    ghost var start := w.Current().payload;
    assert ns[..0] == [];
    for i := 0 to |ns|
      invariant w.Valid() && w.Current() == Msg(old(w.Current()).t, start + Int16s(ns[..i]))
    {
      assert ns[..i + 1][..i] == ns[..i];
      w.WriteInt(ns[i], 2);
      Assoc(start, Int16s(ns[..i]), PutSigned(ns[i], 2));
    }
    assert ns[..|ns|] == ns;
    Assoc(p, PutSigned(|ns|, 2), Int16s(ns));
  }

  lemma {:induction false} AllArgsPrefix(oids: seq<int>, args: seq<Arg>, k: nat)
    requires |oids| == |args| && k <= |args| && AllArgs(oids[..k], args[..k]).None?
    ensures AllArgs(oids, args).None?
    decreases |args|
  {
    if k < |args| {
      assert oids[..|args| - 1][..k] == oids[..k] && args[..|args| - 1][..k] == args[..k];
      AllArgsPrefix(oids[..|args| - 1], args[..|args| - 1], k);
    } else {
      assert oids[..k] == oids && args[..k] == args;
    }
  }

  /** The second loop: every argument in turn, giving up at the first error. */
  method WriteArgs(w: WriteBuf, oids: seq<int>, args: seq<Arg>) returns (ok: bool)
    requires w.Valid() && |oids| == |args|
    modifies w`buf
    ensures w.Valid() && (ok <==> AllArgs(oids, args).Some?)
    ensures ok ==> w.Current() == Msg(old(w.Current()).t, old(w.Current()).payload + (PutSigned(|args|, 2) + AllArgs(oids, args).value))
  {
    hide PutSigned, ArgBytes;
    ghost var p := w.Current().payload;
    w.WriteInt(|args|, 2);
    ghost var start := w.Current().payload;
    for i := 0 to |args|
      invariant w.Valid() && AllArgs(oids[..i], args[..i]).Some?
      invariant w.Current() == Msg(old(w.Current()).t, start + AllArgs(oids[..i], args[..i]).value)
    {
      ArgsStep(oids, args, i);
      ok := EncodeArg(w, oids[i], args[i]);
      if !ok {
        AllArgsPrefix(oids, args, i + 1);
        return;
      }
      Assoc(start, AllArgs(oids[..i], args[..i]).value, ArgBytes(oids[i], args[i]).value);
    }
    assert oids[..|args|] == oids && args[..|args|] == args;
    Assoc(p, PutSigned(|args|, 2), AllArgs(oids, args).value);
    ok := true;
  }

  lemma ArgsStep(oids: seq<int>, args: seq<Arg>, i: nat)
    requires |oids| == |args| && i < |args|
    ensures var prev := AllArgs(oids[..i], args[..i]); var one := ArgBytes(oids[i], args[i]);
      AllArgs(oids[..i + 1], args[..i + 1])
      == if prev.Some? && one.Some? then Some(prev.value + one.value) else None
  {
    hide ArgBytes;
    assert oids[..i + 1][..i] == oids[..i] && args[..i + 1][..i] == args[..i];
  }

  /** What is written to the connection, or None when an error stops the query unsent. */
  method SendPreparedQuery(name: seq<byte>, oids: seq<int>, args: seq<Arg>, results: seq<int>) returns (sent: Option<seq<byte>>)
    ensures |oids| != |args| ==> sent == None
    ensures |oids| == |args| ==>
              sent == match AllArgs(oids, args) case None => None
                      case Some(params) => Some(EncodeAll(Query(name, oids, args, params, results)))
  {
    hide AllArgs, AllFormats, FormatOf, Int16s, PutSigned;
    if |oids| != |args| {
      return None;
    }
    var w := new WriteBuf('B' as byte);
    w.WriteByte(0);
    w.WriteCString(name);
    var formats := AllFormats(oids, args);
    WriteInt16s(w, formats);
    ghost var head := w.Current().payload;
    var ok := WriteArgs(w, oids, args);
    if !ok {
      return None;
    }
    WriteInt16s(w, results);
    ghost var params := AllArgs(oids, args).value;
    BindShape(name, formats, |args|, params, results, head);
    w.StartMsg('E' as byte);
    w.WriteByte(0);
    w.WriteInt(0, 4);
    assert [] + [0] + PutSigned(0, 4) == [0] + PutSigned(0, 4);
    ghost var bind, execute := w.done, w.Current();
    assert bind == [Msg('B' as byte, BindPayload(name, formats, |args|, params, results))];
    w.StartMsg('S' as byte);
    w.CloseMsg();
    assert w.done + [w.Current()] == Query(name, oids, args, params, results);
    sent := Some(w.buf);
  }

  lemma BindShape(name: seq<byte>, formats: seq<int>, count: nat, params: seq<byte>, results: seq<int>, head: seq<byte>)
    requires head == [] + [0] + name + [0] + (PutSigned(|formats|, 2) + Int16s(formats))
    ensures head + (PutSigned(count, 2) + params) + (PutSigned(|results|, 2) + Int16s(results))
         == BindPayload(name, formats, count, params, results)
  {
    hide PutSigned, Int16s;
    assert [] + [0] + name + [0] == [0] + (name + [0]);
  }

  // ---- the server's reading of Bind ----

  datatype BindMsg = BindMsg(portal: seq<byte>, name: seq<byte>, formats: seq<int>, params: seq<Column>, results: seq<int>)

  function CString(s: seq<byte>): Option<(seq<byte>, seq<byte>)> {
    var i := ZeroAt(s);
    if i == |s| then None else Some((s[..i], s[i + 1..]))
  }

  function ReadInt16s(s: seq<byte>, n: nat): Option<(seq<int>, seq<byte>)>
    decreases n
  {
    if n == 0 then Some(([], s))
    else if |s| < 2 then None
    else
      match ReadInt16s(s[2..], n - 1)
      case None => None
      case Some((ns, rest)) => Some(([GetSigned(s[..2])] + ns, rest))
  }

  /** An Int16 count and that many Int16s. */
  function CountedInt16s(s: seq<byte>): Option<(seq<int>, seq<byte>)> {
    if |s| < 2 || GetSigned(s[..2]) < 0 then None else ReadInt16s(s[2..], GetSigned(s[..2]))
  }

  function ReadColumns(s: seq<byte>, n: nat): Option<(seq<Column>, seq<byte>)>
    decreases n
  {
    if n == 0 then Some(([], s))
    else if |s| < 4 then None
    else
      var size := GetSigned(s[..4]);
      var len := if size == -1 then 0 else size;
      if len < 0 || |s| < 4 + len then None
      else
        match ReadColumns(s[4 + len..], n - 1)
        case None => None
        case Some((cs, rest)) => Some(([if size == -1 then None else Some(s[4..4 + len])] + cs, rest))
  }

  function ParseBind(s: seq<byte>): Option<BindMsg> {
    match CString(s)
    case None => None
    case Some((portal, s1)) =>
      match CString(s1)
      case None => None
      case Some((name, s2)) =>
        match CountedInt16s(s2)
        case None => None
        case Some((formats, s3)) =>
          if |s3| < 2 || GetSigned(s3[..2]) < 0 then None
          else
            match ReadColumns(s3[2..], GetSigned(s3[..2]))
            case None => None
            case Some((params, s4)) =>
              match CountedInt16s(s4)
              case None => None
              case Some((results, s5)) =>
                if s5 == [] then Some(BindMsg(portal, name, formats, params, results)) else None
  }

  lemma CStringRead(name: seq<byte>, rest: seq<byte>)
    requires 0 !in name
    ensures CString(name + [0] + rest) == Some((name, rest))
  {
    var s := name + [0] + rest;
    var i := ZeroAt(s);
    assert s[|name|] == 0 && s[..|name|] == name;
    assert s[|name|] !in s[..i];
    assert s[|name| + 1..] == rest;
  }

  predicate Int16(n: int) {
    -0x8000 <= n < 0x8000
  }

  lemma Int16Read(n: int, rest: seq<byte>)
    requires Int16(n)
    ensures |PutSigned(n, 2) + rest| >= 2
    ensures GetSigned((PutSigned(n, 2) + rest)[..2]) == n && (PutSigned(n, 2) + rest)[2..] == rest
  {
    hide PutSigned, GetSigned;
    PowerValues();
    SignedRoundTrip(n, 2);
    assert (PutSigned(n, 2) + rest)[..2] == PutSigned(n, 2);
  }

  lemma {:induction false} Int16sFront(ns: seq<int>)
    requires ns != []
    ensures Int16s(ns) == PutSigned(ns[0], 2) + Int16s(ns[1..])
    decreases |ns|
  {
    hide PutSigned;
    var k := |ns| - 1;
    if k == 0 {
      assert ns[..0] == [] && ns[1..] == [];
      assert [] + PutSigned(ns[0], 2) == PutSigned(ns[0], 2) + [];
    } else {
      Int16sFront(ns[..k]);
      assert ns[1..][..k - 1] == ns[..k][1..];
      Assoc(PutSigned(ns[0], 2), Int16s(ns[..k][1..]), PutSigned(ns[k], 2));
    }
  }

  lemma {:induction false} Int16sRead(ns: seq<int>, rest: seq<byte>)
    requires forall n :: n in ns ==> Int16(n)
    ensures ReadInt16s(Int16s(ns) + rest, |ns|) == Some((ns, rest))
    decreases |ns|
  {
    if ns == [] {
      assert [] + rest == rest;
    } else {
      var more := Int16s(ns[1..]) + rest;
      Int16sFront(ns);
      Int16sRead(ns[1..], rest);
      assert ns == [ns[0]] + ns[1..];
      hide PutSigned, GetSigned, Int16s;
      Assoc(PutSigned(ns[0], 2), Int16s(ns[1..]), rest);
      Int16Read(ns[0], more);
    }
  }

  lemma CountedRead(ns: seq<int>, rest: seq<byte>)
    requires |ns| < 0x8000 && forall n :: n in ns ==> Int16(n)
    ensures CountedInt16s(PutSigned(|ns|, 2) + Int16s(ns) + rest) == Some((ns, rest))
  {
    hide PutSigned, GetSigned, Int16s, ReadInt16s;
    Assoc(PutSigned(|ns|, 2), Int16s(ns), rest);
    Int16Read(|ns|, Int16s(ns) + rest);
    Int16sRead(ns, rest);
  }

  lemma ColumnRead(c: Column, rest: seq<byte>)
    requires c.Some? ==> |c.value| < 0x8000_0000
    ensures var s := ColumnBytes(c) + rest;
      |s| >= 4 && GetSigned(s[..4]) == SizeOf(c) && s[4..] == Body(c) + rest
  {
    hide PutSigned, GetSigned;
    PowerValues();
    SignedRoundTrip(SizeOf(c), 4);
    assert ColumnBytes(c) == PutSigned(SizeOf(c), 4) + Body(c);
    assert (ColumnBytes(c) + rest)[..4] == PutSigned(SizeOf(c), 4);
  }

  lemma ColumnStep(c: Column, s: seq<byte>, rest: seq<byte>, n: nat)
    requires (c.Some? ==> |c.value| < 0x8000_0000) && s == ColumnBytes(c) + rest
    ensures ReadColumns(s, n + 1) == match ReadColumns(rest, n)
                                     case None => None
                                     case Some((cs, after)) => Some(([c] + cs, after))
  {
    ColumnRead(c, rest);
    hide GetSigned, ColumnBytes;
    assert s[4 + |Body(c)|..] == s[4..][|Body(c)|..] == rest;
    assert s[4..4 + |Body(c)|] == s[4..][..|Body(c)|] == Body(c);
  }

  lemma ColumnFound(c: Column, s: seq<byte>, rest: seq<byte>, cs: seq<Column>, after: seq<byte>)
    requires (c.Some? ==> |c.value| < 0x8000_0000) && s == ColumnBytes(c) + rest
    requires ReadColumns(rest, |cs|) == Some((cs, after))
    ensures ReadColumns(s, |cs| + 1) == Some(([c] + cs, after))
  {
    hide *;
    ColumnStep(c, s, rest, |cs|);
  }

  ghost predicate SmallColumns(cols: seq<Column>) {
    forall c :: c in cols ==> c.Some? ==> |c.value| < 0x8000_0000
  }

  lemma {:induction false} ColumnsRead(cols: seq<Column>, rest: seq<byte>)
    requires SmallColumns(cols)
    ensures ReadColumns(RowBytes(cols) + rest, |cols|) == Some((cols, rest))
    decreases |cols|
  {
    if cols == [] {
      assert [] + rest == rest;
    } else {
      RowSplit(cols, rest);
      hide *;
      ColumnsRead(cols[1..], rest);
      ColumnFound(cols[0], RowBytes(cols) + rest, RowBytes(cols[1..]) + rest, cols[1..], rest);
      assert [cols[0]] + cols[1..] == cols;
    }
  }

  lemma RowSplit(cols: seq<Column>, rest: seq<byte>)
    requires cols != [] && SmallColumns(cols)
    ensures SmallColumns(cols[1..]) && (cols[0].Some? ==> |cols[0].value| < 0x8000_0000)
    ensures RowBytes(cols) + rest == ColumnBytes(cols[0]) + (RowBytes(cols[1..]) + rest)
  {
    hide ColumnBytes;
    assert cols[0] in cols;
    Assoc(ColumnBytes(cols[0]), RowBytes(cols[1..]), rest);
  }

  /** The arguments are columns: every built-in encoder writes a length and that many
      octets, and so must every Encoder. */
  ghost predicate AreColumns(oids: seq<int>, args: seq<Arg>, cols: seq<Column>) {
    && |oids| == |args| == |cols|
    && forall i :: 0 <= i < |args| ==> ArgBytes(oids[i], args[i]) == Some(ColumnBytes(cols[i]))
  }

  lemma {:induction false} ArgsAreRow(oids: seq<int>, args: seq<Arg>, cols: seq<Column>)
    requires AreColumns(oids, args, cols)
    ensures AllArgs(oids, args) == Some(RowBytes(cols))
    decreases |args|
  {
    hide ArgBytes, ColumnBytes;
    if args != [] {
      var k := |args| - 1;
      ArgsAreRow(oids[..k], args[..k], cols[..k]);
      RowAppend(cols[..k], cols[k]);
      assert cols == cols[..k] + [cols[k]];
    }
  }

  lemma {:induction false} RowAppend(cols: seq<Column>, c: Column)
    ensures RowBytes(cols + [c]) == RowBytes(cols) + ColumnBytes(c)
    decreases |cols|
  {
    hide ColumnBytes;
    if cols == [] {
      assert [] + [c] == [c] && RowBytes([c]) == ColumnBytes(c) + RowBytes([]);
      assert [] + ColumnBytes(c) == ColumnBytes(c) + [];
    } else {
      RowAppend(cols[1..], c);
      assert (cols + [c])[1..] == cols[1..] + [c];
      Assoc(ColumnBytes(cols[0]), RowBytes(cols[1..]), ColumnBytes(c));
    }
  }

  /** The query that is sent is read by the server as exactly the statement, formats,
      parameters and result formats that it was built from. */
  lemma BindRoundTrip(name: seq<byte>, oids: seq<int>, args: seq<Arg>, cols: seq<Column>, results: seq<int>)
    requires 0 !in name && AreColumns(oids, args, cols) && |args| < 0x8000 && |results| < 0x8000
    requires SmallColumns(cols)
    requires forall n :: n in AllFormats(oids, args) ==> Int16(n)
    requires forall n :: n in results ==> Int16(n)
    ensures AllArgs(oids, args) == Some(RowBytes(cols))
    ensures ParseBind(BindPayload(name, AllFormats(oids, args), |args|, RowBytes(cols), results))
         == Some(BindMsg([], name, AllFormats(oids, args), cols, results))
  {
    ArgsAreRow(oids, args, cols);
    hide AllFormats, AllArgs, ArgBytes, CString, CountedInt16s, ReadColumns, RowBytes, PutSigned, GetSigned, Int16s;
    var fs := AllFormats(oids, args);
    var s4 := PutSigned(|results|, 2) + Int16s(results) + [];
    var s3 := PutSigned(|args|, 2) + (RowBytes(cols) + s4);
    var s2 := PutSigned(|fs|, 2) + Int16s(fs) + s3;
    var s1 := name + [0] + s2;
    PayloadShape(name, fs, |args|, RowBytes(cols), results);
    CStringRead([], s1);
    CStringRead(name, s2);
    CountedRead(fs, s3);
    Int16Read(|args|, RowBytes(cols) + s4);
    ColumnsRead(cols, s4);
    CountedRead(results, []);
  }

  lemma NoRowLimit()
    ensures ([0] + PutSigned(0, 4))[1..] == PutSigned(0, 4) && GetSigned(PutSigned(0, 4)) == 0
  {
    PowerValues();
    SignedRoundTrip(0, 4);
  }

  /** What sendPreparedQuery sends, read by a server: the Bind of that statement, those
      parameters and formats, an Execute of the unnamed portal without a row limit, and a
      Sync, which is empty. */
  lemma SentIsRead(name: seq<byte>, oids: seq<int>, args: seq<Arg>, cols: seq<Column>, results: seq<int>)
    requires 0 !in name && AreColumns(oids, args, cols) && |args| < 0x8000 && |results| < 0x8000
    requires SmallColumns(cols)
    requires forall n :: n in AllFormats(oids, args) ==> Int16(n)
    requires forall n :: n in results ==> Int16(n)
    requires |BindPayload(name, AllFormats(oids, args), |args|, RowBytes(cols), results)| < 0x8000_0000
    ensures AllArgs(oids, args).Some?
    ensures var ms := Query(name, oids, args, AllArgs(oids, args).value, results);
      && ReadAll(EncodeAll(ms)) == ms && |ms| == 3
      && ms[0].t == 'B' as byte && ms[1].t == 'E' as byte && ms[2].t == 'S' as byte
      && ParseBind(ms[0].payload) == Some(BindMsg([], name, AllFormats(oids, args), cols, results))
      && |ms[1].payload| == 5 && ms[1].payload[0] == 0 && GetSigned(ms[1].payload[1..]) == 0
      && ms[2].payload == []
  {
    BindRoundTrip(name, oids, args, cols, results);
    NoRowLimit();
    hide AllArgs, AllFormats, BindPayload, ParseBind, AreColumns, ReadAll, EncodeAll, RowBytes, PutSigned;
    SplitsBack(Query(name, oids, args, RowBytes(cols), results));
  }

  lemma PayloadShape(name: seq<byte>, fs: seq<int>, count: nat, params: seq<byte>, results: seq<int>)
    ensures var s4 := PutSigned(|results|, 2) + Int16s(results) + [];
      var s3 := PutSigned(count, 2) + (params + s4);
      var s2 := PutSigned(|fs|, 2) + Int16s(fs) + s3;
      BindPayload(name, fs, count, params, results) == [] + [0] + (name + [0] + s2)
  {
    hide PutSigned, Int16s;
  }

  /** encodeInt2 and encodeInt4 check no lower bound: what they accept is what the server
      reads exactly when it is not below the type's least value. */
  lemma IntArgExact(n: int)
    ensures ValueOf(21, Integer(n)).Some? ==>
              (GetSigned(ValueOf(21, Integer(n)).value.value) == n <==> -0x8000 <= n)
    ensures ValueOf(23, Integer(n)).Some? ==>
              (GetSigned(ValueOf(23, Integer(n)).value.value) == n <==> -0x8000_0000 <= n)
  {
    hide PutSigned, GetSigned;
    PowerValues();
    SignedRoundTrip(n, 2);
    SignedRoundTrip(n, 4);
  }

  /** The least integer below int2 is accepted and arrives as the greatest int2. */
  lemma IntArgExample()
    ensures ValueOf(21, Integer(-0x8001)).Some? && GetSigned(ValueOf(21, Integer(-0x8001)).value.value) == 0x7fff
  {
    hide PutSigned, GetSigned;
    PowerValues();
    SignedRoundTrip(-0x8001, 2);
  }
}
