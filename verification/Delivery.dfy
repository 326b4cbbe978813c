/** Whole runs of Conn.Read and Codec.Receive against what the other side wrote. */
module Delivery {
  import opened Sequences
  import opened Wrappers
  import opened Bytes
  import opened Framing
  import opened Stream

  lemma Cons<T>(s: seq<T>)
    requires s != []
    ensures s == [s[0]] + s[1..]
  {
  }

  // ---- Conn.Read ----

  /** A read inside an open frame returns the next octets of its payload. */
  lemma ReadFrameStep(st: State, rest: seq<byte>, items: seq<Item>, len: nat, ready: nat, tail: Tail) returns (rest': seq<byte>)
    requires Holds(st, rest, items, tail) && st.frame.Some?
    ensures var (st1, data) := ReadFrame(st, len, ready);
      && st1.sent == st.sent && st1.server == st.server
      && (data.None? <==> rest == []) && (data.None? ==> st1 == st)
      && (data.Some? ==> Holds(st1, rest', items, tail) && rest == data.value + rest' && (len > 0 ==> data.value != []))
  {
    rest' := rest;
    if rest != [] && len > 0 {
      var f := st.frame.value;
      var n := Amount(len, f.left, ready, |st.stream|);
      PayloadPrefix(f.h, f.pos, rest, More(items, tail), n);
      hide Payload, More, Tail.Ends, Legal;
      rest' := rest[n..];
      assert rest == rest[..n] + rest[n..];
    }
  }

  /** Reads of the open frame, one after the other, up to its end: what they return, whether
      the end was met, and what is left of the input. */
  function Pieces(st: State, calls: seq<Call>): (seq<byte>, bool, seq<byte>)
    requires st.Valid() && st.frame.Some?
    decreases |calls|
  {
    if calls == [] then ([], false, st.stream)
    else
      match ReadFrame(st, calls[0].len, calls[0].ready)
      case (st1, Some(bytes)) => var (more, ended, left) := Pieces(st1, calls[1..]); (bytes + more, ended, left)
      case (st1, None) => ([], true, st1.stream)
  }

  /** The open frame's payload and what follows are both read exactly, in any chunking. */
  lemma {:induction false} PiecesRead(st: State, rest: seq<byte>, after: seq<byte>, calls: seq<Call>)
    requires st.Valid() && st.frame.Some? && st.frame.value.left == |rest|
    requires st.stream == Payload(st.frame.value.h, st.frame.value.pos, rest) + after
    ensures var (out, ended, left) := Pieces(st, calls);
      && out <= rest && (ended ==> out == rest && left == after)
      && ((forall c :: c in calls ==> c.len > 0) && |calls| > |rest| ==> ended)
    decreases |calls|
  {
    hide Payload;
    if calls != [] && rest != [] {
      var f, len := st.frame.value, calls[0].len;
      var n := if len == 0 then 0 else Amount(len, f.left, calls[0].ready, |st.stream|);
      PayloadPrefix(f.h, f.pos, rest, after, if n <= |rest| then n else 0);
      PiecesRead(ReadFrame(st, len, calls[0].ready).0, rest[n..], after, calls[1..]);
      assert rest == rest[..n] + rest[n..];
    }
  }

  /** A written frame followed by any octets: its header is read back and, in any chunking,
      its payload, and exactly the trailing octets are left; enough non-empty buffers reach
      its end. */
  lemma FrameRoundTrip(h: FrameHeader, msg: seq<byte>, after: seq<byte>, server: bool, calls: seq<Call>)
    requires h.KeyOk() && h.opcode < 16 && |msg| < 0x8000_0000_0000_0000
    ensures var s := Frame(h, msg) + after; var p := ParseHeader(s);
      && p.Parsed? && p.h == h && p.length == |msg|
      && var st := State(server, s[p.size..], Some(OpenFrame(p.h, 0, p.length)), 0, []);
        var (out, ended, left) := Pieces(st, calls);
        && out <= msg && (ended ==> out == msg && left == after)
        && ((forall c :: c in calls ==> c.len > 0) && |calls| > |msg| ==> ended)
  {
    hide Frame, ParseHeader, Payload;
    WireHead(Item(h, msg), after);
    var p := ParseHeader(Frame(h, msg) + after);
    var st := State(server, (Frame(h, msg) + after)[p.size..], Some(OpenFrame(p.h, 0, p.length)), 0, []);
    PiecesRead(st, msg, after, calls);
  }

  /** One Read either returns the next octets of the stream, or is at its end; every ping
      it passed has been answered. */
  lemma {:induction false} ReadStep(st: State, rest: seq<byte>, items: seq<Item>, len: nat, ready: nat, tail: Tail)
    returns (rest': seq<byte>, items': seq<Item>)
    requires Holds(st, rest, items, tail)
    ensures var (st1, r) := Read(st, len, ready);
      if r.Data? then
        && Holds(st1, rest', items', tail) && (len > 0 ==> r.bytes != [])
        && rest + Deliverable(items) == r.bytes + (rest' + Deliverable(items'))
        && st.sent + Replies(items, tail) == st1.sent + Replies(items', tail)
      else
        r == EndOf(items, tail) && rest + Deliverable(items) == [] && st1.sent == st.sent + Replies(items, tail)
    decreases |st.stream|, if st.frame.Some? then 1 else 0
  {
    hide Payload, More, Tail.Ends, Legal, Amount, NextFrame;
    if st.frame.Some? {
      items' := items;
      rest' := ReadFrameStep(st, rest, items, len, ready, tail);
      hide ReadFrame;
      if rest == [] {
        CloseFrame(st, items, tail);
        rest', items' := ReadStep(st.(frame := None), [], items, len, ready, tail);
      } else {
        Assoc(ReadFrame(st, len, ready).1.value, rest', Deliverable(items));
      }
    } else if items == [] {
      NextFrameEnd(st, tail);
      rest', items' := [], [];
    } else {
      Cons(items);
      NextFrameStep(st, items[0], items[1..], tail);
      rest', items' := ReadOn(st, items, len, ready, tail);
    }
  }

  lemma CloseFrame(st: State, items: seq<Item>, tail: Tail)
    requires Holds(st, [], items, tail) && st.frame.Some?
    ensures Holds(st.(frame := None), [], items, tail)
  {
    hide More, Tail.Ends, Legal;
  }

  /** The continuation of ReadStep once the header of items[0] has been handled. */
  lemma {:induction false} ReadOn(st: State, items: seq<Item>, len: nat, ready: nat, tail: Tail)
    returns (rest': seq<byte>, items': seq<Item>)
    requires st.frame.None? && st.Valid() && items != []
    requires Stepped(st, items[0], items[1..], NextFrame(st).0, NextFrame(st).1, tail)
    ensures var (st1, r) := Read(st, len, ready);
      if r.Data? then
        && Holds(st1, rest', items', tail) && (len > 0 ==> r.bytes != [])
        && [] + Deliverable(items) == r.bytes + (rest' + Deliverable(items'))
        && st.sent + Replies(items, tail) == st1.sent + Replies(items', tail)
      else
        r == EndOf(items, tail) && [] + Deliverable(items) == [] && st1.sent == st.sent + Replies(items, tail)
    decreases |st.stream|, 0, 0
  {
    var it, more := items[0], items[1..];
    CountsSplit(items, tail);
    hide More, Tail.Ends, Legal, Holds, NextFrame, Deliverable, Replies, EndOf;
    var (st1, handled) := NextFrame(st);
    rest', items' := [], [];
    if it.IsEmptyPing() {
    } else if it.IsPing() {
      rest', items' := ReadStep(st1, [], more, len, ready, tail);
      Assoc(st.sent, [it.Pong()], Replies(more, tail));
    } else {
      rest', items' := ReadStep(st1.(frame := Some(handled.f)), it.payload, more, len, ready, tail);
    }
  }

  lemma CountsSplit(items: seq<Item>, tail: Tail)
    requires items != []
    ensures items[0].IsEmptyPing() ==> Deliverable(items) == [] && Replies(items, tail) == []
    ensures items[0].IsPing() && !items[0].IsEmptyPing() ==>
              [] + Deliverable(items) == [] + Deliverable(items[1..]) && Replies(items, tail) == [items[0].Pong()] + Replies(items[1..], tail)
    ensures !items[0].IsPing() ==>
              [] + Deliverable(items) == items[0].payload + Deliverable(items[1..]) && Replies(items, tail) == Replies(items[1..], tail)
    ensures EndOf(items, tail) == if items[0].IsEmptyPing() then Eof else EndOf(items[1..], tail)
  {
  }

  // ---- runs of Conn.Read ----

  /** A call of Read: the size of its buffer, and how much has arrived by then. */
  datatype Call = Call(len: nat, ready: nat)

  /** The octets that calls in a row return, up to the first error, and the state after. */
  datatype Run = Run(out: seq<byte>, ended: bool, st: State)

  function Reads(st: State, calls: seq<Call>): Run
    requires st.Valid()
    decreases |calls|
  {
    if calls == [] then Run([], false, st)
    else
      match Read(st, calls[0].len, calls[0].ready)
      case (st1, Data(bytes)) => var more := Reads(st1, calls[1..]); more.(out := bytes + more.out)
      case (st1, _) => Run([], true, st1)
  }

  /** What is still to come after a run that has not ended. */
  lemma {:induction false} ReadsDeliver(st: State, rest: seq<byte>, items: seq<Item>, calls: seq<Call>, tail: Tail)
    returns (rest': seq<byte>, items': seq<Item>)
    requires Holds(st, rest, items, tail)
    ensures var run := Reads(st, calls);
      if run.ended then run.out == rest + Deliverable(items) && run.st.sent == st.sent + Replies(items, tail)
      else
        && Holds(run.st, rest', items', tail)
        && rest + Deliverable(items) == run.out + (rest' + Deliverable(items'))
        && st.sent + Replies(items, tail) == run.st.sent + Replies(items', tail)
        && ((forall c :: c in calls ==> c.len > 0) ==> |run.out| >= |calls|)
    decreases |calls|
  {
    assert st.Valid();
    hide Holds, Read, Replies, Deliverable;
    rest', items' := rest, items;
    if calls != [] {
      var rest1, items1 := ReadStep(st, rest, items, calls[0].len, calls[0].ready, tail);
      var (st1, r) := Read(st, calls[0].len, calls[0].ready);
      if r.Data? {
        rest', items' := ReadsDeliver(st1, rest1, items1, calls[1..], tail);
        Assoc(r.bytes, Reads(st1, calls[1..]).out, rest' + Deliverable(items'));
      }
    }
  }

  /** However the other side's frames are cut by buffers and arrivals, what successive reads
      return is a prefix of the deliverable octets; a run that meets its error has returned
      all of them and sent every answer, one pong for each ping before the end; and with
      non-empty buffers the error comes after at most one call per octet and one more. */
  lemma ToTheEnd(st: State, items: seq<Item>, calls: seq<Call>, tail: Tail)
    requires Holds(st, [], items, tail)
    ensures var run := Reads(st, calls);
      && run.out <= Deliverable(items) && run.st.sent <= st.sent + Replies(items, tail)
      && (run.ended ==> run.out == Deliverable(items) && run.st.sent == st.sent + Replies(items, tail))
      && ((forall c :: c in calls ==> c.len > 0) && |calls| > |Deliverable(items)| ==> run.ended)
  {
    hide Holds, Deliverable, Replies;
    var rest', items' := ReadsDeliver(st, [], items, calls, tail);
    assert [] + Deliverable(items) == Deliverable(items);
  }

  /** The same when nothing follows: the answers are the pongs. */
  lemma EndToEnd(st: State, items: seq<Item>, calls: seq<Call>)
    requires Holds(st, [], items, NOTHING)
    ensures var run := Reads(st, calls);
      && run.out <= Deliverable(items) && run.st.sent <= st.sent + Pongs(items)
      && (run.ended ==> run.out == Deliverable(items) && run.st.sent == st.sent + Pongs(items))
      && ((forall c :: c in calls ==> c.len > 0) && |calls| > |Deliverable(items)| ==> run.ended)
  {
    hide Holds, Reads, Deliverable;
    ToTheEnd(st, items, calls, NOTHING);
    OnlyPongs(items);
  }

  lemma {:induction false} OnlyPongs(items: seq<Item>)
    ensures Replies(items, NOTHING) == Pongs(items)
    decreases |items|
  {
    if items != [] {
      OnlyPongs(items[1..]);
    }
  }

  /** A stream that holds whole frames and nothing after them. */
  lemma HoldsWire(st: State, items: seq<Item>)
    requires st.frame == None && Legal(st.server, items) && st.stream == Wire(items)
    ensures Holds(st, [], items, NOTHING)
  {
    hide Wire, Legal, Tail.Ends;
    NothingEnds(st.server);
    assert Wire(items) + [] == Wire(items);
  }

  /** The payloads of all data frames, deliverable or not. */
  function AllData(items: seq<Item>): seq<byte> {
    if items == [] then [] else (if items[0].IsPing() then [] else items[0].payload) + AllData(items[1..])
  }

  /** The payloads that follow the first empty ping. */
  function Lost(items: seq<Item>): seq<byte> {
    if items == [] then [] else if items[0].IsEmptyPing() then AllData(items[1..]) else Lost(items[1..])
  }

  /** All data is deliverable exactly when no data octet follows an empty ping. */
  lemma {:induction false} AllDelivered(items: seq<Item>)
    ensures AllData(items) == Deliverable(items) + Lost(items)
    ensures Deliverable(items) == AllData(items) <==> Lost(items) == []
  {
    if items != [] && !items[0].IsEmptyPing() {
      AllDelivered(items[1..]);
      var own := if items[0].IsPing() then [] else items[0].payload;
      Assoc(own, Deliverable(items[1..]), Lost(items[1..]));
    }
    assert |AllData(items)| == |Deliverable(items)| + |Lost(items)|;
  }

  /** One such stream: an empty ping, and then a frame of one octet, which no run of reads
      returns. */
  lemma EmptyPingExample(st: State, calls: seq<Call>) returns (items: seq<Item>)
    requires st.Valid() && !st.server && st.frame == None && st.sent == []
    requires st.stream == Frame(FrameHeader(true, [false, false, false], PING, None), [])
                        + Frame(FrameHeader(true, [false, false, false], BINARY, None), [7])
    ensures st.stream == Wire(items) && Legal(false, items) && AllData(items) == [7] && |AllPongs(items)| == 1
    ensures Reads(st, calls).out == [] && Reads(st, calls).st.sent == []
    ensures |calls| > 0 && (forall c :: c in calls ==> c.len > 0) ==> Reads(st, calls).ended
  {
    var ping: Item := Item(FrameHeader(true, [false, false, false], PING, None), []);
    var data: Item := Item(FrameHeader(true, [false, false, false], BINARY, None), [7]);
    items := [ping, data];
    TwoItems(ping, data);
    hide Frame, Reads, Wire, AllData, AllPongs;
    HoldsWire(st, items);
    EndToEnd(st, items, calls);
  }

  lemma OneItem(i: Item)
    ensures Wire([i]) == Frame(i.h, i.payload)
    ensures AllData([i]) == if i.IsPing() then [] else i.payload
    ensures AllPongs([i]) == if i.IsPing() then [i.Pong()] else []
  {
    hide Frame;
    assert [i][1..] == [];
  }

  lemma TwoItems(i: Item, j: Item)
    ensures Wire([i, j]) == Frame(i.h, i.payload) + Frame(j.h, j.payload)
    ensures AllData([i, j]) == (if i.IsPing() then [] else i.payload) + if j.IsPing() then [] else j.payload
    ensures AllPongs([i, j]) == (if i.IsPing() then [i.Pong()] else []) + if j.IsPing() then [j.Pong()] else []
  {
    OneItem(j);
    hide Frame;
    assert [i, j][1..] == [j];
  }

  /** A pong for every ping, deliverable or not. */
  function AllPongs(items: seq<Item>): seq<Sent> {
    if items == [] then [] else (if items[0].IsPing() then [items[0].Pong()] else []) + AllPongs(items[1..])
  }

  /** Every ping is answered exactly when none is empty. */
  lemma {:induction false} AllAnswered(items: seq<Item>)
    ensures |Pongs(items)| <= |AllPongs(items)|
    ensures Pongs(items) == AllPongs(items) <==> forall i :: i in items ==> !i.IsEmptyPing()
  {
    if items != [] {
      AllAnswered(items[1..]);
      AnsweredSplit(items);
      assert forall i :: i in items <==> i == items[0] || i in items[1..];
    }
  }

  lemma AnsweredSplit(items: seq<Item>)
    requires items != [] && |Pongs(items[1..])| <= |AllPongs(items[1..])|
    ensures |Pongs(items)| <= |AllPongs(items)|
    ensures Pongs(items) == AllPongs(items) <==> !items[0].IsEmptyPing() && Pongs(items[1..]) == AllPongs(items[1..])
  {
    var own := if items[0].IsPing() then [items[0].Pong()] else [];
    var all := AllPongs(items[1..]);
    assert AllPongs(items) == own + all && |own + all| == |own| + |all|;
    if items[0].IsEmptyPing() {
      assert |AllPongs(items)| > 0 == |Pongs(items)|;
    } else {
      var some := Pongs(items[1..]);
      assert Pongs(items) == own + some;
      assert (own + some)[|own|..] == some && (own + all)[|own|..] == all;
    }
  }

  // ---- Codec.Receive ----

  /** items from the first data frame on, or nothing if an empty ping comes first. */
  function FromData(items: seq<Item>): seq<Item> {
    if items == [] || items[0].IsEmptyPing() then []
    else if items[0].IsPing() then FromData(items[1..])
    else items
  }

  function TypeOf(it: Item, payloadType: byte): byte {
    if it.h.opcode == CONTINUATION then payloadType else it.h.opcode
  }

  /** The handler remembers the last text or binary opcode for the continuations after it. */
  function Remembered(it: Item, payloadType: byte): byte {
    if it.h.opcode == TEXT || it.h.opcode == BINARY then it.h.opcode else payloadType
  }

  /** One data frame, one message. */
  function Messages(items: seq<Item>, payloadType: byte): seq<Received>
    decreases |items|
  {
    if items == [] || items[0].IsEmptyPing() then []
    else if items[0].IsPing() then Messages(items[1..], payloadType)
    else [Message(TypeOf(items[0], payloadType), items[0].payload)]
         + Messages(items[1..], Remembered(items[0], payloadType))
  }

  lemma NextFrameRemembers(st: State, it: Item, items: seq<Item>, tail: Tail)
    requires st.frame.None? && Holds(st, [], [it] + items, tail) && !it.IsEmptyPing()
    ensures NextFrame(st).0.payloadType == Remembered(it, st.payloadType)
  {
    LegalSplit(st.server, [it] + items);
    assert ([it] + items)[1..] == items;
    assert st.stream == Frame(it.h, it.payload) + More(items, tail);
    WireHead(it, More(items, tail));
    hide ParseHeader, More, Tail.Ends, Frame, Payload, AfterFrame, Legal, Holds;
  }

  /** The whole payload of a frame just opened, and the frames after it. */
  lemma WholePayload(st: State, it: Item, items: seq<Item>, f: OpenFrame, tail: Tail)
    requires Holds(st.(frame := Some(f)), it.payload, items, tail) && f.pos == 0 && st.frame.None?
    ensures var n := if f.left <= 0 then 0 else Min(f.left, |st.stream|);
      && Payload(f.h, f.pos, st.stream[..n]) == it.payload
      && Holds(st.(stream := AfterFrame(f, st.stream)), [], items, tail)
  {
    PayloadPrefix(f.h, 0, it.payload, More(items, tail), |it.payload|);
    hide Payload, More, Tail.Ends, Legal;
    assert it.payload[..|it.payload|] == it.payload;
    assert st.stream[|it.payload|..] == More(items, tail);
  }

  /** ReceiveNext returns the first message, and leaves the stream at the frame after it. */
  ghost predicate Receiving(st: State, items: seq<Item>, st1: State, r: Received, tail: Tail) {
    var ms := Messages(items, st.payloadType);
    if ms == [] then r == Failed(EndOf(items, tail))
    else
      && FromData(items) != []
      && r == ms[0] && Holds(st1, [], FromData(items)[1..], tail) && st1.frame.None?
      && ms[1..] == Messages(FromData(items)[1..], st1.payloadType)
  }

  lemma {:induction false} ReceiveNextStep(st: State, items: seq<Item>, tail: Tail)
    requires st.frame.None? && Holds(st, [], items, tail)
    ensures var (st1, r) := ReceiveNext(st); Receiving(st, items, st1, r, tail)
    decreases |items|
  {
    if items == [] {
      NextFrameEnd(st, tail);
    } else {
      Cons(items);
      NextFrameStep(st, items[0], items[1..], tail);
      var it, more := items[0], items[1..];
      if !it.IsEmptyPing() {
        NextFrameRemembers(st, it, more, tail);
        hide NextFrame, More, Tail.Ends, Legal, AfterFrame, Messages, FromData, Payload;
        var (st1, handled) := NextFrame(st);
        if it.IsPing() {
          ReceiveNextStep(st1, more, tail);
          SkipPing(st, items, st1, ReceiveNext(st1).0, ReceiveNext(st1).1, tail);
        } else {
          WholePayload(st1, it, more, handled.f, tail);
          hide Holds;
          TakeData(st, items, ReceiveNext(st).0, tail);
        }
      }
    }
  }

  lemma SkipPing(st: State, items: seq<Item>, st': State, st1: State, r: Received, tail: Tail)
    requires items != [] && items[0].IsPing() && !items[0].IsEmptyPing() && st'.payloadType == st.payloadType
    requires Receiving(st', items[1..], st1, r, tail)
    ensures Receiving(st, items, st1, r, tail)
  {
    hide Holds;
  }

  lemma TakeData(st: State, items: seq<Item>, st1: State, tail: Tail)
    requires items != [] && !items[0].IsPing() && Holds(st1, [], items[1..], tail) && st1.frame.None?
    requires st1.payloadType == Remembered(items[0], st.payloadType)
    ensures Receiving(st, items, st1, Message(TypeOf(items[0], st.payloadType), items[0].payload), tail)
  {
    hide Holds;
  }

  lemma AfterOpenFrame(st: State, rest: seq<byte>, items: seq<Item>, tail: Tail)
    requires Holds(st, rest, items, tail) && st.frame.Some?
    ensures Holds(st.(stream := AfterFrame(st.frame.value, st.stream), frame := None), [], items, tail)
  {
    var f := st.frame.value;
    PayloadPrefix(f.h, f.pos, rest, More(items, tail), |rest|);
    hide Payload, More, Tail.Ends, Legal;
    assert st.stream[|rest|..] == More(items, tail);
  }

  lemma ReceiveStep(st: State, rest: seq<byte>, items: seq<Item>, tail: Tail)
    requires Holds(st, rest, items, tail)
    ensures Receiving(st, items, Receive(st).0, Receive(st).1, tail)
  {
    if st.frame.None? {
      ReceiveNextStep(st, items, tail);
    } else {
      AfterOpenFrame(st, rest, items, tail);
      hide AfterFrame, Messages, FromData;
      ReceiveNextStep(st.(stream := AfterFrame(st.frame.value, st.stream), frame := None), items, tail);
    }
  }

  /** What n calls of Receive return, up to the first failure. */
  function Receives(st: State, n: nat): seq<Received>
    requires st.Valid()
    decreases n
  {
    if n == 0 then []
    else
      match Receive(st)
      case (st1, Message(t, d)) => [Message(t, d)] + Receives(st1, n - 1)
      case (st1, Failed(e)) => []
  }

  /** Send and Receive correspond one to one: wherever in a frame a reader starts, n calls of
      Receive return the next n whole data frames, each as one message of its own type. */
  lemma {:induction false} ReceiveAll(st: State, rest: seq<byte>, items: seq<Item>, n: nat, tail: Tail)
    requires st.Valid() && Holds(st, rest, items, tail)
    ensures var ms := Messages(items, st.payloadType); Receives(st, n) == Prefix(ms, n)
    decreases n
  {
    hide *;
    if n == 0 {
      ReceiveNone(st, Messages(items, st.payloadType));
    } else {
      ReceiveStep(st, rest, items, tail);
      ReceivesUnfold(st, n);
      var st1 := Receive(st).0;
      if Messages(items, st.payloadType) != [] {
        var more := AfterFirst(st, items, st1, Receive(st).1, tail);
        ReceiveAll(st1, [], more, n - 1, tail);
      }
      Chain(st, items, n, st1, Receive(st).1, Receives(st1, n - 1), Receives(st, n), tail);
    }
  }

  lemma ReceiveNone(st: State, ms: seq<Received>)
    requires st.Valid()
    ensures Receives(st, 0) == Prefix(ms, 0)
  {
  }

  lemma AfterFirst(st: State, items: seq<Item>, st1: State, r: Received, tail: Tail) returns (more: seq<Item>)
    requires Receiving(st, items, st1, r, tail) && Messages(items, st.payloadType) != []
    ensures Holds(st1, [], more, tail) && Messages(more, st1.payloadType) == Messages(items, st.payloadType)[1..]
  {
    hide Messages, Holds, FromData;
    more := FromData(items)[1..];
  }

  lemma Chain(st: State, items: seq<Item>, n: nat, st1: State, r: Received, later: seq<Received>, all: seq<Received>, tail: Tail)
    requires n > 0 && Receiving(st, items, st1, r, tail) && all == if r.Message? then [r] + later else []
    requires var ms := Messages(items, st.payloadType); ms != [] ==> later == Prefix(ms[1..], n - 1)
    ensures var ms := Messages(items, st.payloadType); all == Prefix(ms, n)
  {
    if Messages(items, st.payloadType) != [] {
      MessagesAreMessages(items, st.payloadType);
      FirstOf(Messages(items, st.payloadType), n);
    }
    hide Messages, Holds, FromData;
  }

  lemma ReceivesUnfold(st: State, n: nat)
    requires st.Valid() && n > 0
    ensures var (st1, r) := Receive(st);
      Receives(st, n) == if r.Message? then [r] + Receives(st1, n - 1) else []
  {
    hide Receive;
  }

  lemma MessagesAreMessages(items: seq<Item>, payloadType: byte)
    requires Messages(items, payloadType) != []
    ensures Messages(items, payloadType)[0].Message?
    decreases |items|
  {
    if items[0].IsPing() {
      MessagesAreMessages(items[1..], payloadType);
    }
  }

  function Prefix<T>(s: seq<T>, n: nat): seq<T> {
    if n <= |s| then s[..n] else s
  }

  lemma FirstOf<T>(s: seq<T>, n: nat)
    requires s != [] && n > 0
    ensures Prefix(s, n) == [s[0]] + Prefix(s[1..], n - 1)
  {
  }
}
