/** websocket.go and the frame handler of hybi.go as functions of the connection's state,
    and what a whole run of reads delivers. */
module Stream {
  import opened Sequences
  import opened Wrappers
  import opened Bytes
  import opened Framing

  const CONTINUATION: byte := 0
  const TEXT: byte := 1
  const BINARY: byte := 2
  const CLOSE: byte := 8
  const PING: byte := 9
  const PONG: byte := 10
  const MAX_CONTROL: nat := 125

  /** A frame being read: the octets read so far and the octets its limit still allows. */
  datatype OpenFrame = OpenFrame(h: FrameHeader, pos: nat, left: int)
  {
    ghost predicate Valid() { h.KeyOk() }
  }

  /** A frame that this side has written in answer. */
  datatype Sent = Sent(opcode: byte, payload: seq<byte>)

  datatype State = State(server: bool, stream: seq<byte>, frame: Option<OpenFrame>, payloadType: byte, sent: seq<Sent>)
  {
    ghost predicate Valid() { frame.Some? ==> frame.value.Valid() }
  }

  datatype Result = Data(bytes: seq<byte>) | Eof | NotImplemented

  function Min(a: int, b: int): int {
    if a <= b then a else b
  }

  // ---- one frame ----

  /** How many octets one read returns: no more than the buffer, the frame and the input
      hold, and of those as many as have arrived, at least one. */
  function Amount(len: nat, left: int, ready: nat, available: nat): (n: nat)
    requires left > 0 && len > 0 && available > 0
    ensures 1 <= n <= len && n <= left && n <= available
  {
    Min(Min(len, left), Min(available, if ready == 0 then 1 else ready))
  }

  /** hybiFrameReader.Read behind its io.LimitReader; None is io.EOF. */
  function ReadFrame(st: State, len: nat, ready: nat): (r: (State, Option<seq<byte>>))
    requires st.Valid() && st.frame.Some?
    ensures r.0.Valid() && |r.0.stream| <= |st.stream| && r.0.frame.Some?
  {
    var f := st.frame.value;
    if f.left <= 0 then (st, None)
    else if len == 0 then (st, Some([]))
    else if st.stream == [] then (st, None)
    else
      var n := Amount(len, f.left, ready, |st.stream|);
      (st.(stream := st.stream[n..], frame := Some(f.(pos := f.pos + n, left := f.left - n))),
       Some(Payload(f.h, f.pos, st.stream[..n])))
  }

  /** What is left of the stream when the rest of frame f has been read. */
  function AfterFrame(f: OpenFrame, stream: seq<byte>): seq<byte> {
    stream[if f.left <= 0 then 0 else Min(f.left, |stream|)..]
  }

  datatype Handled = Deliver(f: OpenFrame) | Nothing | Fail(r: Result)

  /** HandleFrame, for a frame whose header has just been read. */
  function HandleFrame(st: State, f: OpenFrame): (r: (State, Handled))
    requires f.Valid() && f.pos == 0
    ensures |r.0.stream| <= |st.stream| && r.0.frame == st.frame
    ensures r.1.Deliver? ==> r.1.f.Valid()
    ensures r.1.Fail? ==> !r.1.r.Data?
  {
    if st.server != f.h.mask.Some? then (st.(sent := st.sent + [Sent(CLOSE, [3, 234])]), Fail(Eof))
    else if f.h.opcode == CONTINUATION then (st, Deliver(f.(h := f.h.(opcode := st.payloadType))))
    else if f.h.opcode == TEXT || f.h.opcode == BINARY then (st.(payloadType := f.h.opcode), Deliver(f))
    else if f.h.opcode == CLOSE then (st, Fail(Eof))
    else if f.h.opcode == PING then
      var n := if f.left <= 0 then 0 else Min(MAX_CONTROL, Min(f.left, |st.stream|));
      if n == 0 then (st, Fail(Eof))
      else
        (st.(stream := AfterFrame(f, st.stream), sent := st.sent + [Sent(PONG, Payload(f.h, 0, st.stream[..n]))]),
         Nothing)
    else if f.h.opcode == PONG then (st, Fail(NotImplemented))
    else (st, Deliver(f))
  }

  // ---- Conn ----

  /** NewFrameReader and then HandleFrame. */
  function NextFrame(st: State): (r: (State, Handled))
    ensures |r.0.stream| <= |st.stream| && r.0.frame == st.frame
    ensures !r.1.Fail? ==> |r.0.stream| < |st.stream|
    ensures r.1.Deliver? ==> r.1.f.Valid()
    ensures r.1.Fail? ==> !r.1.r.Data?
  {
    match ParseHeader(st.stream)
    case Short => (st.(stream := []), Fail(Eof))
    case Parsed(h, length, size) => HandleFrame(st.(stream := st.stream[size..]), OpenFrame(h, 0, length))
  }

  /** Conn.Read into a buffer of len octets, with `ready` octets arrived at each read. */
  function Read(st: State, len: nat, ready: nat): (r: (State, Result))
    requires st.Valid()
    ensures r.0.Valid()
    decreases |st.stream|, if st.frame.Some? then 1 else 0
  {
    if st.frame.None? then
      var (st1, handled) := NextFrame(st);
      match handled
      case Fail(e) => (st1, e)
      case Nothing => Read(st1, len, ready)
      case Deliver(f) => Read(st1.(frame := Some(f)), len, ready)
    else
      var (st1, data) := ReadFrame(st, len, ready);
      match data
      case Some(bytes) => (st1, Data(bytes))
      case None => Read(st1.(frame := None), len, ready)
  }

  datatype Received = Message(payloadType: byte, data: seq<byte>) | Failed(r: Result)

  /** Codec.Receive: discard what is left of the current frame, then one whole frame. */
  function Receive(st: State): (r: (State, Received))
    requires st.Valid()
    ensures r.0.Valid()
  {
    if st.frame.Some? then ReceiveNext(st.(stream := AfterFrame(st.frame.value, st.stream), frame := None))
    else ReceiveNext(st)
  }

  function ReceiveNext(st: State): (r: (State, Received))
    requires st.Valid()
    ensures r.0.Valid()
    decreases |st.stream|
  {
    var (st1, handled) := NextFrame(st);
    match handled
    case Fail(e) => (st1, Failed(e))
    case Nothing => ReceiveNext(st1)
    case Deliver(f) =>
      var n := if f.left <= 0 then 0 else Min(f.left, |st1.stream|);
      (st1.(stream := AfterFrame(f, st1.stream)), Message(f.h.opcode, Payload(f.h, f.pos, st1.stream[..n])))
  }

  // ---- what the other side wrote ----

  datatype AnyItem = Item(h: FrameHeader, payload: seq<byte>)
  {
    /** A data frame, a continuation, or a ping, masked as the direction requires. */
    ghost predicate Legal(server: bool) {
      && h.mask.Some? == server && h.opcode < 16
      && h.opcode != CLOSE && h.opcode != PONG && |payload| < 0x8000_0000_0000_0000
    }

    predicate IsPing() { h.opcode == PING }

    predicate IsEmptyPing() { IsPing() && payload == [] }

    function Pong(): Sent { Sent(PONG, payload[..Min(MAX_CONTROL, |payload|)]) }
  }

  type Item = i: AnyItem | i.h.KeyOk() witness Item(FrameHeader(true, [false, false, false], TEXT, None), [])

  ghost predicate Legal(server: bool, items: seq<Item>) {
    forall i :: i in items ==> i.Legal(server)
  }

  function Wire(items: seq<Item>): seq<byte> {
    if items == [] then [] else Frame(items[0].h, items[0].payload) + Wire(items[1..])
  }

  /** The payload octets that reads can reach: an empty ping ends the stream. */
  function Deliverable(items: seq<Item>): seq<byte> {
    if items == [] || items[0].IsEmptyPing() then []
    else (if items[0].IsPing() then [] else items[0].payload) + Deliverable(items[1..])
  }

  /** One pong per ping before that, with the first 125 octets of its payload. */
  function Pongs(items: seq<Item>): seq<Sent> {
    if items == [] || items[0].IsEmptyPing() then []
    else (if items[0].IsPing() then [items[0].Pong()] else []) + Pongs(items[1..])
  }

  /** What comes after the items: octets on which NextFrame fails, with what error, and what
      it sends before that. */
  datatype Tail = Tail(bytes: seq<byte>, r: Result, sent: seq<Sent>)
  {
    ghost predicate Ends(server: bool) {
      forall st: State :: st.server == server && st.stream == bytes ==> Stops(st)
    }

    ghost predicate Stops(st: State) {
      NextFrame(st).1 == Fail(r) && NextFrame(st).0.sent == st.sent + sent
    }
  }

  const NOTHING: Tail := Tail([], Eof, [])

  function More(items: seq<Item>, tail: Tail): seq<byte> {
    Wire(items) + tail.bytes
  }

  /** The stream holds the masked rest of the open frame, then the frames of items, and then
      the tail. */
  ghost predicate Holds(st: State, rest: seq<byte>, items: seq<Item>, tail: Tail) {
    && st.Valid() && Legal(st.server, items) && tail.Ends(st.server)
    && match st.frame
       case None => rest == [] && st.stream == More(items, tail)
       case Some(f) => f.left == |rest| && st.stream == Payload(f.h, f.pos, rest) + More(items, tail)
  }

  /** What is sent while the items and the tail are read. */
  function Replies(items: seq<Item>, tail: Tail): seq<Sent> {
    if items == [] then tail.sent
    else if items[0].IsEmptyPing() then []
    else (if items[0].IsPing() then [items[0].Pong()] else []) + Replies(items[1..], tail)
  }

  /** The error that reading them ends with. */
  function EndOf(items: seq<Item>, tail: Tail): Result {
    if items == [] then tail.r else if items[0].IsEmptyPing() then Eof else EndOf(items[1..], tail)
  }

  // ---- one step ----

  lemma LegalSplit(server: bool, items: seq<Item>)
    requires items != [] && Legal(server, items)
    ensures items[0].Legal(server) && Legal(server, items[1..])
  {
    assert items[0] in items;
  }

  /** The header at the front of the wire, and what follows it. */
  lemma WireHead(it: Item, more: seq<byte>)
    requires it.h.opcode < 16 && |it.payload| < 0x8000_0000_0000_0000
    ensures var s := Frame(it.h, it.payload) + more; var p := ParseHeader(s);
      p.Parsed? && p.h == it.h && p.length == |it.payload| && s[p.size..] == Payload(it.h, 0, it.payload) + more
  {
    hide HeaderBytes, ParseHeader, Payload;
    var body := Payload(it.h, 0, it.payload) + more;
    assert Frame(it.h, it.payload) + more == HeaderBytes(it.h, |it.payload|) + body;
    HeaderRoundTrip(it.h, |it.payload|, body);
  }

  /** Reading the first n octets of a masked payload. */
  lemma PayloadPrefix(h: FrameHeader, pos: nat, rest: seq<byte>, after: seq<byte>, n: nat)
    requires h.KeyOk() && n <= |rest|
    ensures var s := Payload(h, pos, rest) + after;
      && Payload(h, pos, s[..n]) == rest[..n]
      && s[n..] == Payload(h, pos + n, rest[n..]) + after
  {
    hide Payload;
    var a, b := rest[..n], rest[n..];
    assert rest == a + b;
    PayloadPieces(h, pos, a, b);
    PayloadTwice(h, pos, a);
    var s := Payload(h, pos, rest) + after;
    assert s[..n] == Payload(h, pos, a);
    assert s[n..] == Payload(h, pos + n, b) + after;
  }

  /** What HandleFrame does with the frame of it, its payload at the front of the stream:
      a ping is answered and skipped, a data frame is opened, an empty ping ends it all. */
  ghost predicate Stepped(st: State, it: Item, items: seq<Item>, st1: State, handled: Handled, tail: Tail) {
    if it.IsEmptyPing() then handled == Fail(Eof) && st1.sent == st.sent
    else if it.IsPing() then handled == Nothing && Holds(st1, [], items, tail) && st1.sent == st.sent + [it.Pong()]
    else
      && handled.Deliver? && handled.f.pos == 0 && st1.sent == st.sent
      && Holds(st1.(frame := Some(handled.f)), it.payload, items, tail)
      && handled.f.h.opcode == if it.h.opcode == CONTINUATION then st.payloadType else it.h.opcode
  }

  lemma HandleStep(st: State, it: Item, items: seq<Item>, tail: Tail)
    requires st.frame.None? && it.Legal(st.server) && Legal(st.server, items) && tail.Ends(st.server)
    requires st.stream == Payload(it.h, 0, it.payload) + More(items, tail)
    ensures var (st1, handled) := HandleFrame(st, OpenFrame(it.h, 0, |it.payload|));
      Stepped(st, it, items, st1, handled, tail)
  {
    hide Legal, More, Tail.Ends;
    if it.IsPing() {
      PayloadPrefix(it.h, 0, it.payload, More(items, tail), Min(MAX_CONTROL, |it.payload|));
      hide Payload;
      assert st.stream[|it.payload|..] == More(items, tail);
    }
  }

  lemma NextFrameStep(st: State, it: Item, items: seq<Item>, tail: Tail)
    requires st.frame.None? && Holds(st, [], [it] + items, tail)
    ensures var (st1, handled) := NextFrame(st); Stepped(st, it, items, st1, handled, tail)
  {
    LegalSplit(st.server, [it] + items);
    assert ([it] + items)[1..] == items;
    assert Wire([it] + items) == Frame(it.h, it.payload) + Wire(items);
    Assoc(Frame(it.h, it.payload), Wire(items), tail.bytes);
    assert st.stream == Frame(it.h, it.payload) + More(items, tail);
    hide ParseHeader, More, Legal, Tail.Ends, Frame, HandleFrame, Stepped, Payload;
    WireHead(it, More(items, tail));
    HandleStep(st.(stream := Payload(it.h, 0, it.payload) + More(items, tail)), it, items, tail);
    SteppedFrom(st, st.(stream := Payload(it.h, 0, it.payload) + More(items, tail)), it, items,
                NextFrame(st).0, NextFrame(st).1, tail);
  }

  lemma SteppedFrom(st: State, st': State, it: Item, items: seq<Item>, st1: State, handled: Handled, tail: Tail)
    requires st.sent == st'.sent && st.payloadType == st'.payloadType && Stepped(st', it, items, st1, handled, tail)
    ensures Stepped(st, it, items, st1, handled, tail)
  {
  }

  lemma NextFrameEnd(st: State, tail: Tail)
    requires st.frame.None? && Holds(st, [], [], tail)
    ensures NextFrame(st).1 == Fail(tail.r) && NextFrame(st).0.sent == st.sent + tail.sent
  {
    hide NextFrame;
    assert [] + tail.bytes == tail.bytes;
    assert tail.Stops(st);
  }

  lemma NothingEnds(server: bool)
    ensures NOTHING.Ends(server)
  {
  }
}
