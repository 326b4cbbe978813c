/** What the reader does with a frame of each opcode of section 5.2 of RFC 6455, by number:
    0 continues, 1 and 2 start text and binary messages, 8 closes, 9 is a ping and 10 a pong. */
module Opcodes {
  import opened Sequences
  import opened Wrappers
  import opened Bytes
  import opened Framing
  import opened Stream
  import opened Delivery

  /** A frame that starts at the front of the stream and is masked as its direction demands. */
  ghost predicate Starts(st: State, h: FrameHeader, payload: seq<byte>, after: seq<byte>) {
    && st.frame == None && h.KeyOk() && h.opcode < 16 && |payload| < 0x8000_0000_0000_0000
    && h.mask.Some? == st.server && st.stream == Frame(h, payload) + after
  }

  lemma FrameStarts(st: State, h: FrameHeader, payload: seq<byte>, after: seq<byte>)
    requires h.KeyOk() && h.opcode < 16 && |payload| < 0x8000_0000_0000_0000 && st.stream == Frame(h, payload) + after
    ensures NextFrame(st)
         == HandleFrame(st.(stream := Payload(h, 0, payload) + after), OpenFrame(h, 0, |payload|))
  {
    hide ParseHeader, Frame, Payload, HandleFrame;
    WireHead(Item(h, payload), after);
  }

  /** Any frame but a control frame is opened, whatever its opcode, with its payload ahead; a
      continuation takes the opcode of the last text or binary frame, which is remembered. */
  lemma DataOpcodes(st: State, h: FrameHeader, payload: seq<byte>, after: seq<byte>)
    requires Starts(st, h, payload, after) && h.opcode != 8 && h.opcode != 9 && h.opcode != 10
    ensures var (st1, handled) := NextFrame(st);
      && handled == Deliver(OpenFrame(h.(opcode := if h.opcode == 0 then st.payloadType else h.opcode), 0, |payload|))
      && st1 == st.(stream := Payload(h, 0, payload) + after,
                    payloadType := if h.opcode == 1 || h.opcode == 2 then h.opcode else st.payloadType)
  {
    FrameStarts(st, h, payload, after);
    hide Frame, Payload, NextFrame;
  }

  /** A ping is answered with its first 125 octets under opcode 10, and skipped; an empty
      one ends the stream. */
  lemma PingOpcode(st: State, h: FrameHeader, payload: seq<byte>, after: seq<byte>)
    requires Starts(st, h, payload, after) && h.opcode == 9
    ensures payload != [] ==>
        NextFrame(st) == (st.(stream := after, sent := st.sent + [Sent(10, if |payload| <= 125 then payload else payload[..125])]),
                          Nothing)
    ensures payload == [] ==> NextFrame(st).1 == Fail(Eof) && NextFrame(st).0.sent == st.sent
  {
    FrameStarts(st, h, payload, after);
    hide Frame, NextFrame, HandleFrame;
    PingHandled(st.(stream := Payload(h, 0, payload) + after), h, payload, after);
  }

  lemma PingHandled(st: State, h: FrameHeader, payload: seq<byte>, after: seq<byte>)
    requires h.KeyOk() && h.mask.Some? == st.server && h.opcode == 9 && st.stream == Payload(h, 0, payload) + after
    ensures var (st1, handled) := HandleFrame(st, OpenFrame(h, 0, |payload|));
      if payload == [] then handled == Fail(Eof) && st1.sent == st.sent
      else
        handled == Nothing
        && st1 == st.(stream := after, sent := st.sent + [Sent(10, if |payload| <= 125 then payload else payload[..125])])
  {
    var n := if |payload| <= 125 then |payload| else 125;
    PayloadPrefix(h, 0, payload, after, n);
    hide Payload;
    assert payload[..|payload|] == payload;
    assert (Payload(h, 0, payload) + after)[|payload|..] == after;
  }

  /** A close frame ends the stream, and is neither read nor answered. */
  lemma CloseOpcode(st: State, h: FrameHeader, payload: seq<byte>, after: seq<byte>)
    requires Starts(st, h, payload, after) && h.opcode == 8
    ensures NextFrame(st).1 == Fail(Eof) && NextFrame(st).0.sent == st.sent
  {
    FrameStarts(st, h, payload, after);
    hide Frame, Payload, NextFrame, HandleFrame;
    FramesRefused(st.(stream := Payload(h, 0, payload) + after), OpenFrame(h, 0, |payload|));
  }

  /** A pong is an error. */
  lemma PongOpcode(st: State, h: FrameHeader, payload: seq<byte>, after: seq<byte>)
    requires Starts(st, h, payload, after) && h.opcode == 10
    ensures NextFrame(st).1 == Fail(NotImplemented) && NextFrame(st).0.sent == st.sent
  {
    FrameStarts(st, h, payload, after);
    hide Frame, Payload, NextFrame, HandleFrame;
    FramesRefused(st.(stream := Payload(h, 0, payload) + after), OpenFrame(h, 0, |payload|));
  }

  /** A frame masked towards a client, or unmasked towards a server, ends the stream with a
      close frame of status 1002. */
  lemma WrongMask(st: State, h: FrameHeader, payload: seq<byte>, after: seq<byte>)
    requires st.frame == None && h.KeyOk() && h.opcode < 16 && |payload| < 0x8000_0000_0000_0000
    requires h.mask.Some? != st.server && st.stream == Frame(h, payload) + after
    ensures NextFrame(st).1 == Fail(Eof) && NextFrame(st).0.sent == st.sent + [Sent(8, [1002 / 256, 1002 % 256])]
  {
    FrameStarts(st, h, payload, after);
    hide Frame, Payload, NextFrame, HandleFrame;
    FramesRefused(st.(stream := Payload(h, 0, payload) + after), OpenFrame(h, 0, |payload|));
  }

  lemma FramesRefused(st: State, f: OpenFrame)
    requires f.Valid() && f.pos == 0
    ensures f.h.mask.Some? != st.server ==>
        HandleFrame(st, f) == (st.(sent := st.sent + [Sent(8, [1002 / 256, 1002 % 256])]), Fail(Eof))
    ensures f.h.mask.Some? == st.server && f.h.opcode == 8 ==> HandleFrame(st, f) == (st, Fail(Eof))
    ensures f.h.mask.Some? == st.server && f.h.opcode == 10 ==> HandleFrame(st, f) == (st, Fail(NotImplemented))
  {
    hide Payload, AfterFrame;
    assert 1002 / 256 == 3 && 1002 % 256 == 234;
  }

  // ---- over runs ----

  /** A frame that the reader does not get past, and how it ends. */
  ghost predicate Terminal(server: bool, h: FrameHeader, payload: seq<byte>, r: Result, sent: seq<Sent>) {
    && h.KeyOk() && h.opcode < 16 && |payload| < 0x8000_0000_0000_0000
    && if h.mask.Some? != server then r == Eof && sent == [Sent(8, [1002 / 256, 1002 % 256])]
       else if h.opcode == 8 || (h.opcode == 9 && payload == []) then r == Eof && sent == []
       else h.opcode == 10 && r == NotImplemented && sent == []
  }

  lemma TerminalEnds(server: bool, h: FrameHeader, payload: seq<byte>, r: Result, sent: seq<Sent>, after: seq<byte>)
    requires Terminal(server, h, payload, r, sent)
    ensures Tail(Frame(h, payload) + after, r, sent).Ends(server)
  {
    hide Frame, NextFrame;
    var tail := Tail(Frame(h, payload) + after, r, sent);
    forall st: State | st.server == server && st.stream == tail.bytes ensures tail.Stops(st) {
      var st' := st.(frame := None);
      SameNextFrame(st, st');
      if h.mask.Some? != server {
        WrongMask(st', h, payload, after);
      } else if h.opcode == 8 {
        CloseOpcode(st', h, payload, after);
      } else if h.opcode == 9 {
        PingOpcode(st', h, payload, after);
      } else {
        PongOpcode(st', h, payload, after);
      }
    }
  }

  /** The open frame plays no part in reading the next header. */
  lemma SameNextFrame(st: State, st': State)
    requires st' == st.(frame := st'.frame)
    ensures NextFrame(st).1 == NextFrame(st').1 && NextFrame(st).0.sent == NextFrame(st').0.sent
  {
    hide ParseHeader, Payload;
  }

  /** Data frames and pings, then a frame that ends the stream, then anything: the reads
      return a prefix of the data and then the error; nothing of the last frame or of what
      follows it is ever returned. */
  lemma ReadsStop(st: State, items: seq<Item>, h: FrameHeader, payload: seq<byte>, r: Result, sent: seq<Sent>,
                  after: seq<byte>, calls: seq<Call>)
    requires h.KeyOk() && st.frame == None && Legal(st.server, items) && Terminal(st.server, h, payload, r, sent)
    requires st.stream == Wire(items) + (Frame(h, payload) + after)
    ensures var run := Reads(st, calls); var tail := Tail(Frame(h, payload) + after, r, sent);
      && run.out <= Deliverable(items)
      && (run.ended ==> run.out == Deliverable(items) && run.st.sent == st.sent + Replies(items, tail))
      && ((forall c :: c in calls ==> c.len > 0) && |calls| > |Deliverable(items)| ==> run.ended)
    ensures (forall i :: i in items ==> !i.IsEmptyPing()) ==>
        Replies(items, Tail(Frame(h, payload) + after, r, sent)) == Pongs(items) + sent
  {
    hide Frame, Wire, Reads, Deliverable, Terminal, Legal, Tail.Ends;
    var tail := Tail(Frame(h, payload) + after, r, sent);
    TerminalEnds(st.server, h, payload, r, sent, after);
    assert Holds(st, [], items, tail);
    ToTheEnd(st, items, calls, tail);
    if forall i :: i in items ==> !i.IsEmptyPing() {
      AllReplies(items, tail);
    }
  }

  lemma {:induction false} AllReplies(items: seq<Item>, tail: Tail)
    requires forall i :: i in items ==> !i.IsEmptyPing()
    ensures Replies(items, tail) == Pongs(items) + tail.sent
    ensures EndOf(items, tail) == tail.r
    decreases |items|
  {
    if items == [] {
      assert [] + tail.sent == tail.sent;
    } else {
      assert items[0] in items;
      AllReplies(items[1..], tail);
      Assoc(if items[0].IsPing() then [items[0].Pong()] else [], Pongs(items[1..]), tail.sent);
    }
  }

  /** Receive stops there too: after the whole messages of the items it fails. */
  lemma ReceivesStop(st: State, items: seq<Item>, h: FrameHeader, payload: seq<byte>, r: Result, sent: seq<Sent>,
                     after: seq<byte>, n: nat)
    requires h.KeyOk() && st.frame == None && st.Valid() && Legal(st.server, items) && Terminal(st.server, h, payload, r, sent)
    requires st.stream == Wire(items) + (Frame(h, payload) + after)
    ensures Receives(st, n) == Prefix(Messages(items, st.payloadType), n)
  {
    hide Frame, Wire, Receives, Messages, Terminal, Legal, Tail.Ends;
    var tail := Tail(Frame(h, payload) + after, r, sent);
    TerminalEnds(st.server, h, payload, r, sent, after);
    assert Holds(st, [], items, tail);
    ReceiveAll(st, [], items, n, tail);
  }
}
