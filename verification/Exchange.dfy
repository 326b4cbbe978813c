/** One side writes, the other reads: websocket.go from Conn.Write to Conn.Read. */
module Exchange {
  import opened Sequences
  import opened Wrappers
  import opened Bytes
  import opened Framing
  import opened Stream
  import opened Delivery
  import C = Conn
  import FrameOctets

  /** The frames that a side has written, as the items of the other side's stream. */
  function ItemsOf(log: seq<C.Wrote>): (items: seq<Item>)
    requires forall w :: w in log ==> w.h.KeyOk()
    ensures |items| == |log|
  {
    if log == [] then []
    else
      var w := log[|log| - 1];
      assert w in log;
      ItemsOf(log[..|log| - 1]) + [Item(w.h, w.payload)]
  }

  /** What a side may write if the other is to read it: data frames and pings. */
  ghost predicate Sendable(server: bool, log: seq<C.Wrote>) {
    forall w :: w in log ==> w.h.KeyOk() && AnyItem.Item(w.h, w.payload).Legal(!server)
  }

  lemma {:induction false} WireAppend(items: seq<Item>, i: Item)
    ensures Wire(items + [i]) == Wire(items) + Frame(i.h, i.payload)
    decreases |items|
  {
    if items == [] {
      assert [i][1..] == [] && [] + [i] == [i];
      assert Wire([i]) == Frame(i.h, i.payload) + Wire([]);
    } else {
      hide Frame;
      assert (items + [i])[1..] == items[1..] + [i];
      WireAppend(items[1..], i);
      Assoc(Frame(items[0].h, items[0].payload), Wire(items[1..]), Frame(i.h, i.payload));
    }
  }

  /** What a side has written is the wire of legal items for the other side. */
  lemma {:induction false} OutputIsWire(server: bool, log: seq<C.Wrote>)
    requires Sendable(server, log)
    ensures C.Output(log) == Wire(ItemsOf(log)) && Legal(!server, ItemsOf(log))
    decreases |log|
  {
    if log != [] {
      var k := |log| - 1;
      var w := log[k];
      assert w in log;
      OutputIsWire(server, log[..k]);
      WireAppend(ItemsOf(log[..k]), Item(w.h, w.payload));
    }
  }

  /** A log of data frames and pings on one side, and reads on the other, in whatever sizes
      and however they arrive: what is read is a prefix of the data, what is sent back a
      prefix of the pongs, and both are whole once a read meets the end, as it does when
      the buffers are non-empty and there are enough of them. */
  lemma LogIsRead(server: bool, log: seq<C.Wrote>, st: State, calls: seq<Call>)
    requires Sendable(server, log)
    requires st.Valid() && st.server == !server && st.frame == None && st.sent == [] && st.stream == C.Output(log)
    ensures var items := ItemsOf(log); var run := Reads(st, calls);
      && run.out <= Deliverable(items) && run.st.sent <= Pongs(items)
      && (run.ended ==> run.out == Deliverable(items) && run.st.sent == Pongs(items))
      && ((forall c :: c in calls ==> c.len > 0) && |calls| > |Deliverable(items)| ==> run.ended)
  {
    OutputIsWire(server, log);
    hide *;
    ItemsAreRead(st, ItemsOf(log), calls);
  }

  lemma ItemsAreRead(st: State, items: seq<Item>, calls: seq<Call>)
    requires st.Valid() && st.frame == None && st.sent == [] && Legal(st.server, items) && st.stream == Wire(items)
    ensures var run := Reads(st, calls);
      && run.out <= Deliverable(items) && run.st.sent <= Pongs(items)
      && (run.ended ==> run.out == Deliverable(items) && run.st.sent == Pongs(items))
      && ((forall c :: c in calls ==> c.len > 0) && |calls| > |Deliverable(items)| ==> run.ended)
  {
    hide Wire, Legal, Holds, Deliverable, Pongs, Reads;
    HoldsWire(st, items);
    EndToEnd(st, items, calls);
    assert [] + Pongs(items) == Pongs(items);
  }

  /** The frame that Conn.Write appends, octet by octet from the front: final, without
      extension bits, of the opcode given, masked exactly when a client writes it, and then
      the payload. */
  lemma OwnFrame(a: C.Conn, h: FrameHeader, opcode: byte, msg: seq<byte>)
    requires a.Own(h, opcode) && opcode < 16
    ensures var s := Frame(h, msg); var n := |HeaderBytes(h, |msg|)|;
      && |s| == n + |msg| && 2 <= n && s[0] == 128 + opcode && (s[1] >= 128 <==> !a.server)
      && s[..n] == HeaderBytes(h, |msg|) && s[n..] == Payload(h, 0, msg)
      && (h.mask.Some? <==> !a.server)
  {
    FrameOctets.FirstOctet(h);
    FrameOctets.WrittenOctets(h, |msg|);
    hide HeaderBytes, Payload, FirstByte;
  }

  // ---- messages ----

  /** A message: the payload type it is written with, and its octets. */
  datatype Msg = Msg(opcode: byte, data: seq<byte>)
  {
    predicate Writable() {
      opcode < 16 && opcode != CLOSE && opcode != PING && opcode != PONG && |data| < 0x8000_0000_0000_0000
    }
  }

  lemma TextAndBinary(m: Msg)
    requires (m.opcode == 1 || m.opcode == 2) && |m.data| < 0x8000_0000_0000_0000
    ensures m.Writable()
  {
  }

  function Joined(msgs: seq<Msg>): seq<byte> {
    if msgs == [] then [] else msgs[0].data + Joined(msgs[1..])
  }

  /** Frame by frame, the items carry the messages. */
  ghost predicate Carry(items: seq<Item>, msgs: seq<Msg>) {
    && |items| == |msgs|
    && forall i :: 0 <= i < |msgs| ==> items[i].h.opcode == msgs[i].opcode && items[i].payload == msgs[i].data
  }

  lemma {:induction false} CarryDelivers(items: seq<Item>, msgs: seq<Msg>)
    requires Carry(items, msgs) && forall m :: m in msgs ==> m.Writable()
    ensures Deliverable(items) == Joined(msgs) && Pongs(items) == []
    decreases |items|
  {
    if items != [] {
      assert msgs[0] in msgs;
      CarryDelivers(items[1..], msgs[1..]);
    }
  }

  // ---- writing ----

  lemma LogCarries(server: bool, log: seq<C.Wrote>, w: C.Wrote, msgs: seq<Msg>, m: Msg)
    requires Sendable(server, log) && Carry(ItemsOf(log), msgs) && m.Writable()
    requires w.h.KeyOk() && w.h.mask.Some? == !server && w.h.opcode == m.opcode && w.payload == m.data
    ensures Sendable(server, log + [w]) && Carry(ItemsOf(log + [w]), msgs + [m])
  {
    assert (log + [w])[..|log|] == log;
  }

  /** Conn.Write for each message in turn, on a fresh connection. */
  method WriteAll(server: bool, msgs: seq<Msg>) returns (a: C.Conn)
    requires forall m :: m in msgs ==> m.Writable()
    ensures fresh(a) && a.server == server
    ensures exists items :: Carry(items, msgs) && Legal(!server, items) && a.written == Wire(items)
  {
    hide Carry, ItemsOf, Wire, Legal, AnyItem.Legal, C.Conn.Valid, C.Conn.View;
    a := new C.Conn(server, []);
    NothingWritten(server);
    for i := 0 to |msgs|
      invariant fresh(a) && a.server == server && a.Valid()
      invariant Sendable(server, a.log) && Carry(ItemsOf(a.log), msgs[..i])
    {
      assert msgs[i] in msgs;
      WriteNext(a, msgs[..i], msgs[i]);
      assert msgs[..i + 1] == msgs[..i] + [msgs[i]];
    }
    OutputIsWire(server, a.log);
    a.WrittenIsOutput();
    assert msgs[..|msgs|] == msgs;
  }

  lemma NothingWritten(server: bool)
    ensures Sendable(server, []) && Carry(ItemsOf([]), [])
  {
  }

  method WriteNext(a: C.Conn, ghost msgs: seq<Msg>, m: Msg)
    requires a.Valid() && Sendable(a.server, a.log) && Carry(ItemsOf(a.log), msgs) && m.Writable()
    modifies a
    ensures a.Valid() && Sendable(a.server, a.log) && Carry(ItemsOf(a.log), msgs + [m])
  {
    hide Sendable, Carry, ItemsOf, C.Conn.Valid, C.Conn.View;
    ghost var was := a.log;
    a.Write(m.opcode, m.data);
    LogCarries(a.server, was, a.log[|was|], msgs, m);
  }

  // ---- writing and reading ----

  lemma ReadsUnfold(st: State, calls: seq<Call>)
    requires st.Valid() && calls != []
    ensures var (st1, r) := Read(st, calls[0].len, calls[0].ready); var run := Reads(st, calls);
      if r.Data? then run.out == r.bytes + Reads(st1, calls[1..]).out && run.ended == Reads(st1, calls[1..]).ended
      else run.out == [] && run.ended
  {
    hide Read;
  }

  /** One Conn.Read after another, up to the first error: what they return together. */
  method ReadAll(b: C.Conn, calls: seq<Call>) returns (out: seq<byte>, ended: bool)
    requires b.Valid()
    modifies b
    ensures b.Valid()
    ensures var run := Reads(old(b.View()), calls); out == run.out && ended == run.ended
  {
    hide Reads, Read;
    ghost var all := Reads(b.View(), calls);
    out, ended := [], false;
    assert calls[0..] == calls && [] + all.out == all.out;
    for i := 0 to |calls|
      invariant b.Valid()
      invariant all.out == out + Reads(b.View(), calls[i..]).out
      invariant all.ended == Reads(b.View(), calls[i..]).ended
    {
      ReadsUnfold(b.View(), calls[i..]);
      assert calls[i..][1..] == calls[i + 1..];
      var msg := new byte[calls[i].len];
      var n, r := b.Read(msg, calls[i].ready);
      if !r.Data? {
        return out, true;
      }
      Assoc(out, msg[..n], Reads(b.View(), calls[i + 1..]).out);
      out := out + msg[..n];
    }
    ReadsNone(b.View());
    assert calls[|calls|..] == [] && out + [] == out;
  }

  lemma ReadsNone(st: State)
    requires st.Valid()
    ensures Reads(st, []).out == [] && !Reads(st, []).ended
  {
  }

  /** Messages written on one side and read on the other, in whatever sizes and however they
      arrive: what the reads return is a prefix of the messages joined, all of it once a
      read meets the end, and non-empty buffers meet it. */
  method Talk(server: bool, msgs: seq<Msg>, calls: seq<Call>) returns (out: seq<byte>, ended: bool)
    requires forall m :: m in msgs ==> m.Writable()
    ensures out <= Joined(msgs) && (ended ==> out == Joined(msgs))
    ensures (forall c :: c in calls ==> c.len > 0) && |calls| > |Joined(msgs)| ==> ended
  {
    var a := WriteAll(server, msgs);
    ghost var items :| Carry(items, msgs) && Legal(!server, items) && a.written == Wire(items);
    var b := new C.Conn(!server, a.written);
    hide Deliverable, Joined, Pongs, Reads, Wire, Legal;
    CarryDelivers(items, msgs);
    HoldsWire(b.View(), items);
    EndToEnd(b.View(), items, calls);
    out, ended := ReadAll(b, calls);
  }
}
