/** messages.go: WriteBuf, which appends messages to one buffer and patches each length
    in place, against the message format of the PostgreSQL frontend/backend protocol 3.0:
    a type octet, a four-octet length that counts itself, and the payload. */
module Messages {
  import opened Wrappers
  import opened Bytes

  datatype Msg = Msg(t: byte, payload: seq<byte>)

  /** uint32 of the length: PutUint32 keeps its low 32 bits. */
  function Encode(m: Msg): seq<byte> {
    [m.t] + BigEndian(|m.payload| + 4, 4) + m.payload
  }

  function EncodeAll(ms: seq<Msg>): seq<byte> {
    if ms == [] then [] else EncodeAll(ms[..|ms| - 1]) + Encode(ms[|ms| - 1])
  }

  lemma EncodeAppend(ms: seq<Msg>, m: Msg)
    ensures EncodeAll(ms + [m]) == EncodeAll(ms) + Encode(m)
  {
    assert (ms + [m])[..|ms|] == ms;
  }

  lemma {:induction false} EncodeConcat(a: seq<Msg>, b: seq<Msg>)
    ensures EncodeAll(a + b) == EncodeAll(a) + EncodeAll(b)
    decreases |b|
  {
    hide Encode;
    if b == [] {
      assert a + b == a;
    } else {
      var c, m := b[..|b| - 1], b[|b| - 1];
      assert a + b == (a + c) + [m];
      EncodeConcat(a, c);
      EncodeAppend(a + c, m);
    }
  }

  /** What an int32 length word says about the payload that follows it. */
  function DeclaredLength(word: seq<byte>): int
    requires |word| == 4
  {
    WrapSigned(WrapSigned(BigEndianValue(word), 4) - 4, 4)
  }

  /** The first message of s and what follows it. */
  function ReadMsg(s: seq<byte>): Option<(Msg, seq<byte>)> {
    if |s| < 5 then None
    else
      var n := DeclaredLength(s[1..5]);
      if n < 0 || |s| - 5 < n then None else Some((Msg(s[0], s[5..5 + n]), s[5 + n..]))
  }

  function ReadAll(s: seq<byte>): (ms: seq<Msg>)
    decreases |s|
  {
    match ReadMsg(s)
    case None => []
    case Some((m, rest)) => [m] + ReadAll(rest)
  }

  predicate Fits(m: Msg) {
    |m.payload| < 0x8000_0000
  }

  /** The length word is read back as the payload's length exactly when the payload is
      shorter than 2 GiB; that the length counts itself costs nothing, as both the
      addition and the subtraction of four wrap. */
  lemma LengthWord(m: Msg)
    ensures DeclaredLength(BigEndian(|m.payload| + 4, 4)) == |m.payload| <==> Fits(m)
  {
    PowerValues();
    var n := |m.payload| + 4;
    BigEndianRoundTrip(n, 4);
    WrapNested(n, 0, 4);
    WrapNested(n, -4, 4);
    WrapSignedFits(|m.payload|, 4);
  }

  lemma ReadEncoded(m: Msg, rest: seq<byte>)
    requires Fits(m)
    ensures ReadMsg(Encode(m) + rest) == Some((m, rest))
  {
    hide BigEndian, DeclaredLength;
    var word := BigEndian(|m.payload| + 4, 4);
    var s := Encode(m) + rest;
    LengthWord(m);
    assert s == [m.t] + word + m.payload + rest;
    assert s[1..5] == word && s[5..5 + |m.payload|] == m.payload && s[5 + |m.payload|..] == rest;
  }

  /** The buffer splits back into its messages in one way only. */
  lemma {:induction false} SplitsBack(ms: seq<Msg>)
    requires forall m :: m in ms ==> Fits(m)
    ensures ReadAll(EncodeAll(ms)) == ms
    decreases |ms|
  {
    if ms != [] {
      var m, more := ms[0], ms[1..];
      assert ms == [m] + more;
      EncodeConcat([m], more);
      EncodeAppend([], m);
      assert [] + [m] == [m] && [] + Encode(m) == Encode(m);
      ReadEncoded(m, EncodeAll(more));
      SplitsBack(more);
      hide Encode, ReadMsg;
    }
  }

  // ---- WriteBuf ----

  class WriteBuf {
    var buf: seq<byte>
    var sizeIdx: nat
    ghost var done: seq<Msg>

    ghost predicate Valid()
      reads this
    {
      && 1 <= sizeIdx && sizeIdx + 4 <= |buf|
      && buf[..sizeIdx - 1] == EncodeAll(done)
    }

    /** The message being written. */
    ghost function Current(): Msg
      requires Valid()
      reads this
    {
      Msg(buf[sizeIdx - 1], buf[sizeIdx + 4..])
    }

    /** newWriteBuf(c.wbuf[0:0], t) */
    constructor (t: byte)
      ensures Valid() && done == [] && Current() == Msg(t, [])
    {
      buf := [t, 0, 0, 0, 0];
      sizeIdx := 1;
      done := [];
    }

    /** Patch the length of the current message; it can still be written to. */
    method CloseMsg()
      requires Valid()
      modifies `buf
      ensures Valid() && Current() == old(Current())
      ensures buf == EncodeAll(done + [Current()])
    {
      ghost var m := Current();
      buf := buf[..sizeIdx] + BigEndian(|buf| - sizeIdx, 4) + buf[sizeIdx + 4..];
      EncodeAppend(done, m);
      assert buf == EncodeAll(done) + ([m.t] + BigEndian(|m.payload| + 4, 4) + m.payload);
    }

    method StartMsg(t: byte)
      requires Valid()
      modifies this
      ensures Valid() && done == old(done + [Current()]) && Current() == Msg(t, [])
    {
      CloseMsg();
      done := done + [Current()];
      buf := buf + [t, 0, 0, 0, 0];
      sizeIdx := |buf| - 4;
    }

    method WriteBytes(b: seq<byte>)
      requires Valid()
      modifies `buf
      ensures Valid() && Current() == Msg(old(Current()).t, old(Current()).payload + b)
    {
      ghost var old_buf := buf;
      buf := buf + b;
      assert buf[..sizeIdx - 1] == old_buf[..sizeIdx - 1];
    }

    method WriteByte(b: byte)
      requires Valid()
      modifies `buf
      ensures Valid() && Current() == Msg(old(Current()).t, old(Current()).payload + [b])
    {
      WriteBytes([b]);
    }

    method WriteCString(s: seq<byte>)
      requires Valid()
      modifies `buf
      ensures Valid() && Current() == Msg(old(Current()).t, old(Current()).payload + s + [0])
    {
      WriteBytes(s);
      WriteBytes([0]);
    }

    method WriteInt(n: int, width: nat)
      requires Valid()
      modifies `buf
      ensures Valid() && Current() == Msg(old(Current()).t, old(Current()).payload + PutSigned(n, width))
    {
      WriteBytes(PutSigned(n, width));
    }
  }

  // ---- any sequence of operations ----

  datatype Op = Start(t: byte) | Close | Put(bytes: seq<byte>) | CString(s: seq<byte>) | Int(n: int, width: nat)

  /** What one operation does to the messages, the last one being open. */
  function Apply(ms: seq<Msg>, op: Op): (r: seq<Msg>)
    requires ms != []
    ensures r != []
  {
    var last := ms[|ms| - 1];
    match op
    case Start(t) => ms + [Msg(t, [])]
    case Close => ms
    case Put(b) => ms[|ms| - 1 := Msg(last.t, last.payload + b)]
    case CString(s) => ms[|ms| - 1 := Msg(last.t, last.payload + s + [0])]
    case Int(n, w) => ms[|ms| - 1 := Msg(last.t, last.payload + PutSigned(n, w))]
  }

  /** The messages that a sequence of operations means. */
  function Meaning(ms: seq<Msg>, ops: seq<Op>): (r: seq<Msg>)
    requires ms != []
    ensures r != []
    decreases |ops|
  {
    if ops == [] then ms else Meaning(Apply(ms, ops[0]), ops[1..])
  }

  method Perform(wb: WriteBuf, op: Op)
    requires wb.Valid()
    modifies wb
    ensures wb.Valid() && wb.done + [wb.Current()] == Apply(old(wb.done + [wb.Current()]), op)
  {
    hide EncodeAll, WriteBuf.Valid, WriteBuf.Current;
    ghost var done, last := wb.done, wb.Current();
    match op {
      case Start(t) => wb.StartMsg(t);
      case Close => wb.CloseMsg();
      case Put(b) => wb.WriteBytes(b);
      case CString(s) => wb.WriteCString(s);
      case Int(n, w) => wb.WriteInt(n, w);
    }
  }

  /** After any operations and a final closeMsg the buffer is the encoding of their
      meaning, whatever closes and patches happened on the way. */
  method Replay(t: byte, ops: seq<Op>) returns (wb: WriteBuf)
    ensures fresh(wb) && wb.Valid() && wb.buf == EncodeAll(Meaning([Msg(t, [])], ops))
  {
    hide Apply, EncodeAll, WriteBuf.Valid, WriteBuf.Current;
    wb := new WriteBuf(t);
    ghost var start := [Msg(t, [])];
    assert [] + [wb.Current()] == start;
    assert ops[0..] == ops;
    for i := 0 to |ops|
      invariant fresh(wb) && wb.Valid()
      invariant Meaning(wb.done + [wb.Current()], ops[i..]) == Meaning(start, ops)
    {
      assert ops[i..][1..] == ops[i + 1..];
      Perform(wb, ops[i]);
    }
    wb.CloseMsg();
  }
}
