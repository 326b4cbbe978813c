/** The WebSocket connection as an object: bufio buffers as sequences of octets, the
    current frame as a field that Read sets and clears. Every method does to the state
    what the functions of Stream say. */
module Conn {
  import opened Sequences
  import opened Wrappers
  import opened Bytes
  import opened Framing
  import opened Stream
  import Bits

  /** A frame written by this side; `answer` marks pongs and closes. */
  datatype Wrote = Wrote(h: FrameHeader, payload: seq<byte>, answer: bool)

  ghost function Output(log: seq<Wrote>): seq<byte>
    requires forall w :: w in log ==> w.h.KeyOk()
  {
    if log == [] then [] else
      assert log[|log| - 1] in log;
      Output(log[..|log| - 1]) + Frame(log[|log| - 1].h, log[|log| - 1].payload)
  }

  ghost function Answers(log: seq<Wrote>): seq<Sent> {
    if log == [] then []
    else
      var w := log[|log| - 1];
      Answers(log[..|log| - 1]) + (if w.answer then [Sent(w.h.opcode, w.payload)] else [])
  }

  lemma LogGrows(log: seq<Wrote>, w: Wrote)
    requires w.h.KeyOk() && forall x :: x in log ==> x.h.KeyOk()
    ensures Output(log + [w]) == Output(log) + Frame(w.h, w.payload)
    ensures Answers(log + [w]) == Answers(log) + if w.answer then [Sent(w.h.opcode, w.payload)] else []
  {
    var more := log + [w];
    assert more[..|more| - 1] == log && more[|more| - 1] == w;
  }

  /** Or-ing in the next reserved bit. */
  lemma FlagStep(h: FrameHeader, i: nat)
    requires i < 3
    ensures var b := Flags(h, i) * Bits.Pow2(7 - i);
      (if h.rsv[i] then Bits.Or(b, Bits.Pow2(6 - i)) else b) == Flags(h, i + 1) * Bits.Pow2(6 - i)
  {
    hide Bits.Or;
    var c, m := Flags(h, i), Bits.Pow2(6 - i);
    assert Bits.Pow2(7 - i) == 2 * m && Flags(h, i + 1) == 2 * c + Bit(h.rsv[i]);
    Scale(c, m);
    Bits.OrCommutes((2 * m) * c, m);
    Bits.OrDisjoint(m, c, 7 - i);
  }

  lemma Scale(c: nat, m: nat)
    ensures c * (2 * m) == (2 * m) * c && c * (2 * m) + m == (2 * c + 1) * m && c * (2 * m) == (2 * c) * m
  {
  }

  lemma LengthOctet(n: nat, k: nat, i: nat)
    requires i < k
    ensures Bits.And(Bits.Shr(n, (k - i - 1) * 8), 0xff) == BigEndian(n, k)[i]
  {
    BigEndianAt(n, k, i);
    Bits.Pow2Values();
    Bits.AndMask(Bits.Shr(n, (k - i - 1) * 8), 8);
  }

  class Conn {
    const server: bool
    var unread: seq<byte>
    var written: seq<byte>
    var frame: Option<OpenFrame>
    var payloadType: byte
    ghost var log: seq<Wrote>

    ghost predicate Valid()
      reads this
    {
      && (frame.Some? ==> frame.value.Valid())
      && (forall w :: w in log ==> w.h.KeyOk() && w.h.mask.Some? == !server)
      && written == Output(log)
    }

    ghost function View(): State
      reads this
    {
      State(server, unread, frame, payloadType, Answers(log))
    }

    lemma WrittenIsOutput()
      requires Valid()
      ensures (forall w :: w in log ==> w.h.KeyOk()) && written == Output(log)
    {
    }

    constructor (server: bool, incoming: seq<byte>)
      ensures Valid() && View() == State(server, incoming, None, 0, []) && written == [] && log == []
      ensures this.server == server && frame == None && unread == incoming
    {
      this.server := server;
      unread, written, frame, payloadType, log := incoming, [], None, 0, [];
    }

    method ReadByte() returns (b: byte, eof: bool)
      modifies `unread
      ensures eof <==> old(unread) == []
      ensures !eof ==> b == old(unread)[0] && unread == old(unread)[1..]
      ensures eof ==> unread == []
    {
      b, eof := 0, true;
      if unread != [] {
        b, eof, unread := unread[0], false, unread[1..];
      }
    }

    // ---- writing ----

    static method FlagsOctet(h: FrameHeader) returns (b: nat)
      ensures b == FirstByte(h)
    {
      hide FirstByte, Bits.Or;
      Bits.Pow2Values();
      b := if h.fin then 0x80 else 0;
      for i := 0 to 3
        invariant b == Flags(h, i) * Bits.Pow2(7 - i)
      {
        FlagStep(h, i);
        if h.rsv[i] {
          var j := 6 - i;
          b := Bits.Or(b, Bits.Pow2(j));
        }
      }
      b := Bits.Or(b, h.opcode);
      FirstIs(h, b);
    }

    /** The octets of a frame header, unless the masking key has a bad length. */
    static method BuildHeader(h: FrameHeader, length: nat) returns (header: seq<byte>, ok: bool)
      ensures ok <==> h.KeyOk()
      ensures ok ==> header == HeaderBytes(h, length)
    {
      hide FirstByte, SecondByte, Bits.Or, Bits.And;
      var b: nat := FlagsOctet(h);
      header := [b];
      var lengthFields := 0;
      b := if h.mask.Some? then 0x80 else 0;
      if length <= 125 {
        b := Bits.Or(b, length);
      } else if length < 65536 {
        b := Bits.Or(b, 126);
        lengthFields := 2;
      } else {
        b := Bits.Or(b, 127);
        lengthFields := 8;
      }
      SecondIs(h.mask.Some?, ShortLength(length), b);
      header := header + [b];
      ghost var start := header;
      ghost var lengthBytes := BigEndian(length, lengthFields);
      for i := 0 to lengthFields
        invariant header == start + lengthBytes[..i]
      {
        var j := (lengthFields - i - 1) * 8;
        LengthOctet(length, lengthFields, i);
        header := header + [Bits.And(Bits.Shr(length, j), 0xff)];
      }
      ok := true;
      if h.mask.Some? {
        if |h.mask.value| != 4 {
          return [], false;
        }
        header := header + h.mask.value;
      }
    }

    static lemma FirstIs(h: FrameHeader, b: nat)
      requires b == Bits.Or(Flags(h, 3) * Bits.Pow2(4), h.opcode)
      ensures b < 256 && b == FirstByte(h)
    {
      Bits.Pow2Values();
      FlagsByte(h, h.opcode);
    }

    static lemma SecondIs(masked: bool, short: byte, b: nat)
      requires short < 128 && b == Bits.Or(if masked then 0x80 else 0, short)
      ensures b < 256 && b == SecondByte(masked, short)
    {
      SecondByteValue(masked, short);
    }

    /** hybiFrameWriter.Write. */
    method WriteFrame(h: FrameHeader, msg: seq<byte>) returns (n: nat, ok: bool)
      modifies `written
      ensures ok <==> h.KeyOk()
      ensures ok ==> n == |msg| && written == old(written) + Frame(h, msg)
      ensures !ok ==> n == 0 && written == old(written)
    {
      hide HeaderBytes, XorByte;
      var header;
      header, ok := BuildHeader(h, |msg|);
      n := 0;
      if ok {
        written := written + header;
        if h.mask.Some? {
          var data := new byte[|msg|];
          for i := 0 to |msg|
            invariant forall k :: 0 <= k < i ==> data[k] == XorByte(msg[k], h.mask.value[k % 4])
            modifies data
          {
            data[i] := XorByte(msg[i], h.mask.value[i % 4]);
          }
          assert data[..] == Masked(h.mask.value, 0, msg);
          written := written + data[..];
        } else {
          written := written + msg;
        }
        Assoc(old(written), header, Payload(h, 0, msg));
        n := |msg|;
      }
    }

    /** The header of a frame that this side writes: final, no extension bits, and masked
        exactly when this side is the client. */
    ghost predicate Own(h: FrameHeader, opcode: byte) {
      h.fin && h.opcode == opcode && h.rsv == [false, false, false] && h.KeyOk() && h.mask.Some? == !server
    }

    /** generateMaskingKey for a client; a server does not mask. */
    method NewHeader(opcode: byte) returns (h: FrameHeader)
      ensures Own(h, opcode)
    {
      var mask: Option<seq<byte>> := None;
      if !server {
        var k0: byte, k1: byte, k2: byte, k3: byte := *, *, *, *;
        mask := Some([k0, k1, k2, k3]);
      }
      h := FrameHeader(true, [false, false, false], opcode, mask);
    }

    method Send(opcode: byte, msg: seq<byte>, ghost answer: bool)
      requires Valid()
      modifies `written, `log
      ensures Valid()
      ensures exists h: FrameHeader ::
          Own(h, opcode) && written == old(written) + Frame(h, msg) && log == old(log) + [Wrote(h, msg, answer)]
      ensures View() == old(View()).(sent := old(View()).sent + if answer then [Sent(opcode, msg)] else [])
    {
      hide Frame;
      var h := NewHeader(opcode);
      LogGrows(log, Wrote(h, msg, answer));
      var _, _ := WriteFrame(h, msg);
      log := log + [Wrote(h, msg, answer)];
    }

    // ---- reading ----

    /** Octets k..k+n of the input, one ReadByte at a time, folded into a length. */
    method ReadLength(fields: nat) returns (length: int, eof: bool)
      requires 1 <= fields <= 8
      modifies `unread
      ensures eof <==> |old(unread)| < fields
      ensures eof ==> unread == []
      ensures !eof ==> length == WrapSigned(BigEndianValue(old(unread)[..fields]), 8) && unread == old(unread)[fields..]
    {
      hide WrapSigned, BigEndianValue;
      ghost var s := unread;
      length, eof := 0, false;
      WrapOfNothing();
      for i := 0 to fields
        invariant !eof && i <= |s| && unread == s[i..]
        invariant length == WrapSigned(BigEndianValue(s[..i]), 8)
      {
        var b;
        b, eof := ReadByte();
        if eof {
          return;
        }
        assert s[..i + 1] == s[..i] + [b];
        WrapStep(s[..i], b);
        length := WrapSigned(length * 256 + b, 8);
      }
    }

    /** The masking key, one ReadByte at a time. */
    method ReadKey() returns (key: seq<byte>, eof: bool)
      modifies `unread
      ensures eof <==> |old(unread)| < 4
      ensures eof ==> unread == []
      ensures !eof ==> key == old(unread)[..4] && unread == old(unread)[4..]
    {
      ghost var s := unread;
      key, eof := [], false;
      for i := 0 to 4
        invariant !eof && i <= |s| && unread == s[i..] && key == s[..i]
      {
        var b;
        b, eof := ReadByte();
        if eof {
          return;
        }
        key := key + [b];
      }
    }

    method NewFrameReader() returns (p: Parsed)
      modifies `unread
      ensures p == ParseHeader(old(unread))
      ensures unread == if p.Parsed? then old(unread)[p.size..] else []
    {
      hide Bits.And, Bits.Shr, WrapSigned, BigEndianValue;
      ghost var s := unread;
      var b0, eof := ReadByte();
      if eof {
        return Short;
      }
      var (fin, rsv) := FlagsOf(b0);
      OpcodeOf(b0);
      var opcode := Bits.And(b0, 0x0f);
      var b1;
      b1, eof := ReadByte();
      if eof {
        return Short;
      }
      OpcodeOf(b1);
      var masked := Bits.And(b1, 0x80) != 0;
      var short := Bits.And(b1, 0x7f);
      var length: int := short;
      var lengthFields := LengthFields(short);
      if lengthFields > 0 {
        length, eof := ReadLength(lengthFields);
        if eof {
          return Short;
        }
        assert s[2..][..lengthFields] == s[2..2 + lengthFields];
      }
      var mask: Option<seq<byte>> := None;
      if masked {
        var key;
        key, eof := ReadKey();
        if eof {
          return Short;
        }
        assert s[2 + lengthFields..][..4] == s[2 + lengthFields..2 + lengthFields + 4];
        mask := Some(key);
      }
      p := Parsed(FrameHeader(fin, rsv, opcode, mask), length, 2 + lengthFields + (if masked then 4 else 0));
    }

    /** hybiFrameReader.Read on the open frame: fill msg, then unmask it in place. */
    method FrameRead(msg: array<byte>, ready: nat) returns (n: nat, eof: bool)
      requires Valid() && frame.Some?
      modifies this, msg
      ensures Valid() && frame.Some? && n <= msg.Length
      ensures var (st, data) := ReadFrame(old(View()), msg.Length, ready);
        View() == st && (eof <==> data.None?) && (!eof ==> msg[..n] == data.value)
      ensures written == old(written) && log == old(log)
    {
      hide XorByte;
      var f := frame.value;
      n, eof := 0, true;
      if f.left <= 0 {
        return;
      }
      if msg.Length == 0 {
        return 0, false;
      }
      if unread == [] {
        return;
      }
      n, eof := Amount(msg.Length, f.left, ready, |unread|), false;
      ghost var raw := unread[..n];
      forall k | 0 <= k < n {
        msg[k] := unread[k];
      }
      unread := unread[n..];
      assert msg[..n] == raw;
      Unmask(msg, n, f.h, f.pos);
      frame := Some(f.(pos := f.pos + n, left := f.left - n));
    }

    /** The unmasking loop: the first n octets of msg, which are octets pos.. of the frame. */
    static method Unmask(msg: array<byte>, n: nat, h: FrameHeader, pos: nat)
      requires h.KeyOk() && n <= msg.Length
      modifies msg
      ensures msg[..n] == Payload(h, pos, old(msg[..n]))
    {
      hide XorByte;
      ghost var raw := msg[..n];
      if h.mask.Some? {
        for i := 0 to n
          invariant forall k :: 0 <= k < n ==>
            msg[k] == if k < i then XorByte(raw[k], h.mask.value[(pos + k) % 4]) else raw[k]
        {
          msg[i] := XorByte(msg[i], h.mask.value[(pos + i) % 4]);
        }
      }
    }

    /** io.ReadFull, io.ReadAll and io.Copy on a frame: read after read, each returning any
        positive number of octets, until `limit` of them or the end of the frame. */
    method ReadUpTo(f: OpenFrame, limit: nat) returns (data: seq<byte>, g: OpenFrame)
      requires f.Valid()
      modifies `unread
      ensures var n := if f.left <= 0 then 0 else Min(limit, Min(f.left, |old(unread)|));
        && data == Payload(f.h, f.pos, old(unread)[..n]) && unread == old(unread)[n..]
        && g == f.(pos := f.pos + n, left := f.left - n)
    {
      hide Payload;
      data, g := [], f;
      ghost var s := unread;
      while |data| < limit && g.left > 0 && unread != []
        invariant |data| <= |s| && (f.left > 0 ==> |data| <= f.left) && |data| <= limit
        invariant f.left <= 0 ==> |data| == 0
        invariant unread == s[|data|..] && g == f.(pos := f.pos + |data|, left := f.left - |data|)
        invariant data == Payload(f.h, f.pos, s[..|data|])
        decreases |unread|
      {
        var room := Min(limit - |data|, Min(g.left, |unread|));
        var n: nat :| 1 <= n <= room;
        PayloadPieces(f.h, f.pos, s[..|data|], unread[..n]);
        assert s[..|data|] + unread[..n] == s[..|data| + n];
        data := data + Payload(g.h, g.pos, unread[..n]);
        unread := unread[n..];
        g := g.(pos := g.pos + n, left := g.left - n);
      }
    }

    /** All that is left of a frame. */
    method ReadRest(f: OpenFrame) returns (data: seq<byte>)
      requires Valid() && f.Valid()
      modifies `unread
      ensures Valid() && View() == old(View()).(stream := AfterFrame(f, old(unread)))
      ensures data == Payload(f.h, f.pos, old(unread)[..if f.left <= 0 then 0 else Min(f.left, |old(unread)|)])
    {
      hide Payload;
      ghost var s := unread;
      var g;
      data, g := ReadUpTo(f, |unread|);
      assert unread == AfterFrame(f, s);
    }

    /** hybiFrameHandler.HandleFrame. */
    method HandleFrame(f: OpenFrame) returns (handled: Handled)
      requires Valid() && f.Valid() && f.pos == 0
      modifies this
      ensures Valid() && frame == old(frame)
      ensures Stream.HandleFrame(old(View()), f) == (View(), handled)
    {
      hide Payload;
      if server != f.h.mask.Some? {
        Send(CLOSE, [1002 / 256, 1002 % 256], true);
        return Fail(Eof);
      }
      if f.h.opcode == CONTINUATION {
        return Deliver(f.(h := f.h.(opcode := payloadType)));
      } else if f.h.opcode == TEXT || f.h.opcode == BINARY {
        payloadType := f.h.opcode;
        return Deliver(f);
      } else if f.h.opcode == CLOSE {
        return Fail(Eof);
      } else if f.h.opcode == PING {
        ghost var s := unread;
        var pingMsg, g := ReadUpTo(f, MAX_CONTROL);
        if |pingMsg| == 0 {
          PingEnds(s, f);
          return Fail(Eof);
        }
        var rest, _ := ReadUpTo(g, |unread|);
        PingLeaves(s, f, |pingMsg|, |rest|);
        Send(PONG, pingMsg, true);
        return Nothing;
      } else if f.h.opcode == PONG {
        return Fail(NotImplemented);
      }
      return Deliver(f);
    }

    /** NewFrameReader and HandleFrame, the common part of Read and Receive. */
    method NextFrame() returns (handled: Handled)
      requires Valid()
      modifies this
      ensures Valid() && frame == old(frame)
      ensures Stream.NextFrame(old(View())) == (View(), handled)
    {
      hide ParseHeader, Stream.HandleFrame;
      var p := NewFrameReader();
      if p.Short? {
        return Fail(Eof);
      }
      handled := HandleFrame(OpenFrame(p.h, 0, p.length));
    }

    /** One turn of Conn.Read: an answer, or `goto again`. */
    method Turn(msg: array<byte>, ready: nat) returns (n: nat, answer: Option<Result>)
      requires Valid()
      modifies this, msg
      ensures Valid() && n <= msg.Length
      ensures answer.Some? ==> Stream.Read(old(View()), msg.Length, ready) == (View(), answer.value)
      ensures answer.Some? ==> if answer.value.Data? then answer.value.bytes == msg[..n] else n == 0
      ensures answer.None? ==> Stream.Read(old(View()), msg.Length, ready) == Stream.Read(View(), msg.Length, ready)
      ensures answer.None? ==> |unread| < |old(unread)| || (|unread| == |old(unread)| && old(frame).Some? && frame.None?)
    {
      hide ReadFrame, Stream.NextFrame, Stream.Read;
      ReadTurn(View(), msg.Length, ready);
      if frame.None? {
        var handled := NextFrame();
        if handled.Fail? {
          return 0, Some(handled.r);
        } else if handled.Deliver? {
          frame := Some(handled.f);
        }
      } else {
        var eof;
        n, eof := FrameRead(msg, ready);
        if !eof {
          return n, Some(Data(msg[..n]));
        }
        frame := None;
      }
      return 0, None;
    }

    /** Conn.Read. */
    method Read(msg: array<byte>, ready: nat) returns (n: nat, r: Result)
      requires Valid()
      modifies this, msg
      ensures Valid() && n <= msg.Length
      ensures Stream.Read(old(View()), msg.Length, ready) == (View(), r)
      ensures if r.Data? then r.bytes == msg[..n] else n == 0
    {
      hide Stream.Read;
      while true
        invariant Valid()
        invariant Stream.Read(View(), msg.Length, ready) == Stream.Read(old(View()), msg.Length, ready)
        decreases |unread|, if frame.Some? then 1 else 0
      {
        var answer;
        n, answer := Turn(msg, ready);
        if answer.Some? {
          return n, answer.value;
        }
      }
    }

    /** Conn.Write and Codec.Send: one data frame. */
    method Write(opcode: byte, msg: seq<byte>)
      requires Valid()
      modifies `written, `log
      ensures Valid() && View() == old(View())
      ensures exists h: FrameHeader ::
          Own(h, opcode) && written == old(written) + Frame(h, msg) && log == old(log) + [Wrote(h, msg, false)]
    {
      Send(opcode, msg, false);
    }

    /** `again:` in Receive: frames until one carries data. */
    method ReceiveNext() returns (r: Received)
      requires Valid() && frame.None?
      modifies this
      ensures Valid()
      ensures Stream.ReceiveNext(old(View())) == (View(), r)
    {
      while true
        invariant Valid() && frame.None?
        invariant Stream.ReceiveNext(old(View())) == Stream.ReceiveNext(View())
        decreases |unread|
      {
        hide Stream.NextFrame, Stream.ReceiveNext, Payload;
        ReceiveTurn(View());
        var handled := NextFrame();
        if handled.Fail? {
          return Failed(handled.r);
        }
        if handled.Deliver? {
          var data := ReadRest(handled.f);
          return Message(handled.f.h.opcode, data);
        }
      }
    }

    /** Codec.Receive up to Unmarshal: the payload type and octets of one frame. */
    method Receive() returns (r: Received)
      requires Valid()
      modifies this
      ensures Valid()
      ensures Stream.Receive(old(View())) == (View(), r)
    {
      hide Payload, Stream.ReceiveNext;
      if frame.Some? {
        var _ := ReadRest(frame.value);
        frame := None;
      }
      r := ReceiveNext();
    }
  }

  lemma PingEnds(s: seq<byte>, f: OpenFrame)
    requires (if f.left <= 0 then 0 else Min(MAX_CONTROL, Min(f.left, |s|))) == 0
    ensures s[0..] == s
  {
  }

  /** Reading 125 octets and then the rest is skipping the frame. */
  lemma PingLeaves(s: seq<byte>, f: OpenFrame, n: nat, m: nat)
    requires n == (if f.left <= 0 then 0 else Min(MAX_CONTROL, Min(f.left, |s|))) && n > 0
    requires m == if f.left - n <= 0 then 0 else Min(|s| - n, Min(f.left - n, |s| - n))
    ensures s[n..][m..] == AfterFrame(f, s)
  {
  }

  /** One turn of `goto again`. */
  lemma ReadTurn(st: State, len: nat, ready: nat)
    requires st.Valid()
    ensures st.frame.None? ==>
              var (st1, handled) := Stream.NextFrame(st);
              && (handled.Fail? ==> Stream.Read(st, len, ready) == (st1, handled.r))
              && (handled.Nothing? ==> Stream.Read(st, len, ready) == Stream.Read(st1, len, ready))
              && (handled.Deliver? ==> Stream.Read(st, len, ready) == Stream.Read(st1.(frame := Some(handled.f)), len, ready))
    ensures st.frame.Some? ==>
              var (st1, data) := ReadFrame(st, len, ready);
              && (data.Some? ==> Stream.Read(st, len, ready) == (st1, Data(data.value)))
              && (data.None? ==> Stream.Read(st, len, ready) == Stream.Read(st1.(frame := None), len, ready))
  {
    hide Stream.NextFrame, ReadFrame;
  }

  /** One turn of `goto again` in Receive. */
  lemma ReceiveTurn(st: State)
    requires st.Valid()
    ensures var (st1, handled) := Stream.NextFrame(st);
      && (handled.Fail? ==> Stream.ReceiveNext(st) == (st1, Failed(handled.r)))
      && (handled.Nothing? ==> Stream.ReceiveNext(st) == Stream.ReceiveNext(st1))
      && (handled.Deliver? ==>
        var f := handled.f;
        var n := if f.left <= 0 then 0 else Min(f.left, |st1.stream|);
        Stream.ReceiveNext(st)
          == (st1.(stream := AfterFrame(f, st1.stream)), Message(f.h.opcode, Payload(f.h, f.pos, st1.stream[..n]))))
  {
    hide Stream.NextFrame, Payload;
  }

  lemma WrapOfNothing()
    ensures WrapSigned(BigEndianValue([]), 8) == 0
  {
    WrapSignedFits(0, 8);
  }

  /** Wrapping after every octet is the same as wrapping once at the end. */
  lemma WrapStep(s: seq<byte>, b: byte)
    ensures WrapSigned(WrapSigned(BigEndianValue(s), 8) * 256 + b, 8) == WrapSigned(BigEndianValue(s + [b]), 8)
  {
    assert (s + [b])[..|s|] == s;
    var v, m := BigEndianValue(s), Pow256(8);
    PowerValues();
    var q := if v % m >= m - m / 2 then v / m + 1 else v / m;
    assert WrapSigned(v, 8) == v - m * q;
    assert (v - m * q) * 256 + b == (v * 256 + b) - m * (256 * q);
    SameModulo(v * 256 + b, m, 256 * q);
  }
}
