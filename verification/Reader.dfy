/** msg_reader.go and value_reader.go: reads that keep a byte budget for the message and a
    second one for the value inside it, and the column cursor of query.go. */
module Reader {
  import opened Sequences
  import opened Wrappers
  import opened Bytes
  import opened Messages

  datatype ReadError = NoError | PastEnd | IoFailed

  /** msgReader: the unread input, msgBytesRemaining, and err. */
  datatype R = R(stream: seq<byte>, remaining: int, err: ReadError)

  /** Subtraction of int32 values. */
  function Sub32(a: int, b: int): int {
    WrapSigned(a - b, 4)
  }

  // ---- msgReader, as functions ----

  /** readByte, readInt16, readInt32, readInt64, readString and readBytes: the next k octets
      of the message, or none and an error. */
  function Take(r: R, k: nat): (R, Option<seq<byte>>) {
    if r.err != NoError then (r, None)
    else if Sub32(r.remaining, k) < 0 then (r.(remaining := Sub32(r.remaining, k), err := PastEnd), None)
    else if |r.stream| < k then (R([], Sub32(r.remaining, k), IoFailed), None)
    else (R(r.stream[k..], Sub32(r.remaining, k), NoError), Some(r.stream[..k]))
  }

  /** The position of the first NUL of s, or |s|. */
  function ZeroAt(s: seq<byte>): (i: nat)
    ensures i <= |s| && (i < |s| ==> s[i] == 0) && 0 !in s[..i]
  {
    if s == [] || s[0] == 0 then 0
    else
      assert s[..1 + ZeroAt(s[1..])] == [s[0]] + s[1..][..ZeroAt(s[1..])];
      1 + ZeroAt(s[1..])
  }

  /** readCString looks for its NUL before it looks at the budget. */
  function TakeCString(r: R): (R, Option<seq<byte>>) {
    if r.err != NoError then (r, None)
    else
      var i := ZeroAt(r.stream);
      if i == |r.stream| then (r.(stream := [], err := IoFailed), None)
      else if Sub32(r.remaining, i + 1) < 0 then (R(r.stream[i + 1..], Sub32(r.remaining, i + 1), PastEnd), None)
      else (R(r.stream[i + 1..], Sub32(r.remaining, i + 1), NoError), Some(r.stream[..i]))
  }

  /** What rxMsg skips before it reads: the unread part of the current message. */
  function Skip(r: R): seq<byte> {
    r.stream[if r.remaining <= 0 then 0 else if r.remaining < |r.stream| then r.remaining else |r.stream|..]
  }

  datatype Received = Received(t: byte, r: R) | Unread | Broken

  /** rxMsg: once err is set it returns type 0 and no error, and reads nothing. */
  function Rx(r: R): Received {
    if r.err != NoError then Unread
    else
      var s := Skip(r);
      if |s| < 5 then Broken else Received(s[0], R(s[5..], DeclaredLength(s[1..5]), NoError))
  }

  // ---- any mix of reads leaves the next message where it is ----

  datatype ReadOp = ReadN(k: nat) | ReadCString

  function Apply(r: R, op: ReadOp): (R, Option<seq<byte>>) {
    match op
    case ReadN(k) => Take(r, k)
    case ReadCString => TakeCString(r)
  }

  function ApplyAll(r: R, ops: seq<ReadOp>): R
    decreases |ops|
  {
    if ops == [] then r else ApplyAll(Apply(r, ops[0]).0, ops[1..])
  }

  /** The unread part of the current message is followed by tail. */
  ghost predicate Aligned(r: R, tail: seq<byte>) {
    && r.err == NoError && 0 <= r.remaining <= |r.stream| && r.remaining < 0x8000_0000
    && r.stream[r.remaining..] == tail
  }

  /** Every read asks for an int32's worth at most: the counts are int32, and the C string
      it returns is shorter than 2 GiB. */
  ghost predicate Int32Read(r: R, op: ReadOp) {
    if op.ReadN? then op.k < 0x8000_0000 else ZeroAt(r.stream) + 1 < 0x8000_0000
  }

  ghost predicate Int32Reads(r: R, ops: seq<ReadOp>)
    decreases |ops|
  {
    ops != [] ==> Int32Read(r, ops[0]) && Int32Reads(Apply(r, ops[0]).0, ops[1..])
  }

  lemma Sub32Exact(a: int, b: int)
    requires 0 <= a < 0x8000_0000 && 0 <= b < 0x8000_0000
    ensures Sub32(a, b) == a - b
  {
    PowerValues();
    WrapSignedFits(a - b, 4);
  }

  lemma ApplyAligned(r: R, op: ReadOp, tail: seq<byte>)
    requires Aligned(r, tail) && Int32Read(r, op)
    ensures Apply(r, op).0.err == NoError ==> Aligned(Apply(r, op).0, tail)
  {
    hide Sub32;
    var k := if op.ReadN? then op.k else ZeroAt(r.stream) + 1;
    Sub32Exact(r.remaining, k);
    if k <= r.remaining {
      assert r.stream[k..][r.remaining - k..] == r.stream[r.remaining..];
    }
  }

  lemma {:induction false} ApplyAllAligned(r: R, ops: seq<ReadOp>, tail: seq<byte>)
    requires Aligned(r, tail) && Int32Reads(r, ops) && ApplyAll(r, ops).err == NoError
    ensures Aligned(ApplyAll(r, ops), tail)
    decreases |ops|
  {
    hide Aligned, Apply, Int32Read;
    if ops != [] {
      ApplyAligned(r, ops[0], tail);
      if Apply(r, ops[0]).0.err != NoError {
        ErrorSticks(Apply(r, ops[0]).0, ops[1..]);
      }
      ApplyAllAligned(Apply(r, ops[0]).0, ops[1..], tail);
    }
  }

  lemma {:induction false} ErrorSticks(r: R, ops: seq<ReadOp>)
    requires r.err != NoError
    ensures ApplyAll(r, ops) == r
    decreases |ops|
  {
    if ops != [] {
      ErrorSticks(r, ops[1..]);
    }
  }

  /** Whatever was read of one message, and however little, the next rxMsg reads the next
      message from its start and is aligned with what follows it. */
  lemma NextMessage(r: R, ops: seq<ReadOp>, m: Msg, after: seq<byte>)
    requires Aligned(r, Encode(m) + after) && Int32Reads(r, ops) && Fits(m)
    requires ApplyAll(r, ops).err == NoError
    ensures Rx(ApplyAll(r, ops)) == Received(m.t, R(m.payload + after, |m.payload|, NoError))
    ensures Aligned(R(m.payload + after, |m.payload|, NoError), after)
  {
    ApplyAllAligned(r, ops, Encode(m) + after);
    hide *;
    RxAligned(ApplyAll(r, ops), m, after);
  }

  lemma RxAligned(r: R, m: Msg, after: seq<byte>)
    requires Aligned(r, Encode(m) + after) && Fits(m)
    ensures Rx(r) == Received(m.t, R(m.payload + after, |m.payload|, NoError))
    ensures Aligned(R(m.payload + after, |m.payload|, NoError), after)
  {
    hide DeclaredLength, BigEndian;
    LengthWord(m);
    var s := Encode(m) + after;
    var word := BigEndian(|m.payload| + 4, 4);
    assert s == [m.t] + word + m.payload + after;
    assert s[1..5] == word && s[5..] == m.payload + after;
    assert Skip(r) == s;
  }

  /** After a failed read rxMsg reports no error, gives type 0, and never moves again. */
  lemma StuckAfterError(r: R, ops: seq<ReadOp>)
    requires r.err != NoError
    ensures ApplyAll(r, ops) == r && Rx(ApplyAll(r, ops)) == Unread
  {
    ErrorSticks(r, ops);
  }

  // ---- msgReader, the object ----

  class MsgReader {
    var stream: seq<byte>
    var msgBytesRemaining: int
    var err: ReadError

    ghost function View(): R
      reads this
    {
      R(stream, msgBytesRemaining, err)
    }

    constructor (input: seq<byte>)
      ensures View() == R(input, 0, NoError)
    {
      stream, msgBytesRemaining, err := input, 0, NoError;
    }

    method RxMsg() returns (t: byte, failed: bool)
      modifies this
      ensures match Rx(old(View()))
              case Unread => t == 0 && !failed && View() == old(View())
              case Broken => failed && stream == [] && err == NoError
              case Received(t', r') => t == t' && !failed && View() == r'
    {
      if err != NoError {
        return 0, false;
      }
      if msgBytesRemaining > 0 {
        stream := stream[if msgBytesRemaining < |stream| then msgBytesRemaining else |stream|..];
      }
      if |stream| < 5 {
        // the length is decoded from whatever the scratch buffer holds
        msgBytesRemaining := *;
        stream := [];
        return 0, true;
      }
      t, failed := stream[0], false;
      msgBytesRemaining := DeclaredLength(stream[1..5]);
      stream := stream[5..];
    }

    /** The common part of every fixed-size read. */
    method ReadN(k: nat) returns (b: Option<seq<byte>>)
      modifies this
      ensures Take(old(View()), k) == (View(), b)
    {
      if err != NoError {
        return None;
      }
      msgBytesRemaining := Sub32(msgBytesRemaining, k);
      if msgBytesRemaining < 0 {
        err := PastEnd;
        return None;
      }
      if |stream| < k {
        stream, err := [], IoFailed;
        return None;
      }
      b := Some(stream[..k]);
      stream := stream[k..];
    }

    method ReadByte() returns (b: byte)
      modifies this
      ensures View() == Take(old(View()), 1).0
      ensures b == match Take(old(View()), 1).1 case Some(s) => s[0] case None => 0
    {
      var s := ReadN(1);
      b := match s case Some(s) => s[0] case None => 0;
    }

    /** readInt16, readInt32 and readInt64, for a width of 2, 4 and 8. */
    method ReadInt(width: nat) returns (n: int)
      requires width >= 1
      modifies this
      ensures View() == Take(old(View()), width).0
      ensures n == match Take(old(View()), width).1 case Some(s) => GetSigned(s) case None => 0
    {
      var s := ReadN(width);
      n := match s case Some(s) => GetSigned(s) case None => 0;
    }

    method ReadCString() returns (b: seq<byte>)
      modifies this
      ensures View() == TakeCString(old(View())).0
      ensures b == match TakeCString(old(View())).1 case Some(s) => s case None => []
    {
      if err != NoError {
        return [];
      }
      var i := ZeroAt(stream);
      if i == |stream| {
        stream, err := [], IoFailed;
        return [];
      }
      b := stream[..i];
      stream := stream[i + 1..];
      msgBytesRemaining := Sub32(msgBytesRemaining, i + 1);
      if msgBytesRemaining < 0 {
        err := PastEnd;
        return [];
      }
    }
  }

  // ---- ValueReader ----

  /** ValueReader: the message reader, valueBytesRemaining, and whether err is set. */
  datatype V = V(r: R, left: int, failed: bool)
  {
    predicate Ok() { !failed && r.err == NoError }
  }

  function VTake(v: V, k: nat): (V, Option<seq<byte>>) {
    if v.failed then (v, None)
    else if Sub32(v.left, k) < 0 then (v.(left := Sub32(v.left, k), failed := true), None)
    else var (r, b) := Take(v.r, k); (V(r, Sub32(v.left, k), false), b)
  }

  /** An int32 count. */
  type Count = k: nat | k < 0x8000_0000

  function VTakeAll(v: V, ks: seq<Count>): V
    decreases |ks|
  {
    if ks == [] then v else VTakeAll(VTake(v, ks[0]).0, ks[1..])
  }

  /** The octets that those reads return, joined. */
  function VOctets(v: V, ks: seq<Count>): seq<byte>
    decreases |ks|
  {
    if ks == [] then []
    else
      var (v', b) := VTake(v, ks[0]);
      Octets(b) + VOctets(v', ks[1..])
  }

  /** How many octets a list of reads asks for. */
  function Total(ks: seq<Count>): nat {
    if ks == [] then 0 else ks[0] + Total(ks[1..])
  }

  function Octets(b: Option<seq<byte>>): seq<byte> {
    match b case Some(s) => s case None => []
  }

  /** The octets that a successful ValueReader read returns, as an integer. */
  function IntOf(b: Option<seq<byte>>): int {
    match b case Some(s) => (if s == [] then 0 else GetSigned(s)) case None => 0
  }

  // ---- columns ----

  /** nextColumn, when there is a next column: skip what is left of the value, then read the
      size of the next one. A NULL column has size -1. */
  function NextColumn(v: V): V {
    var r := if v.left > 0 then Take(v.r, v.left).0 else v.r;
    var (r', size) := Take(r, 4);
    V(r', IntOf(size), false)
  }

  /** A column of a DataRow: NULL, or its octets. */
  type Column = Option<seq<byte>>

  function ColumnBytes(c: Column): seq<byte> {
    match c case None => PutSigned(-1, 4) case Some(b) => PutSigned(|b|, 4) + b
  }

  function RowBytes(cols: seq<Column>): seq<byte> {
    if cols == [] then [] else ColumnBytes(cols[0]) + RowBytes(cols[1..])
  }

  function Body(c: Column): seq<byte> {
    match c case None => [] case Some(b) => b
  }

  function SizeOf(c: Column): int {
    match c case None => -1 case Some(b) => |b|
  }

  /** `rest` of the current column is unread, then come `after`, the rest of the row, and
      `tail`, the next message. */
  ghost predicate InColumn(v: V, rest: seq<byte>, after: seq<byte>, tail: seq<byte>) {
    && v.Ok() && v.r.stream == rest + after + tail
    && v.r.remaining == |rest| + |after| < 0x8000_0000
    && (if rest == [] then v.left <= 0 else v.left == |rest|) && -0x8000_0000 <= v.left
  }

  lemma Sub32Signed(a: int, b: int)
    requires -0x8000_0000 <= a < 0x8000_0000 && 0 <= b < 0x8000_0000
    ensures a >= 0 ==> Sub32(a, b) == a - b
    ensures a == 0 && b > 0 ==> Sub32(a, b) < 0
  {
    PowerValues();
    if a >= 0 {
      WrapSignedFits(a - b, 4);
    }
  }

  /** A read that succeeds takes the next octets of the column and of nothing else. */
  lemma ValueRead(v: V, k: nat, rest: seq<byte>, after: seq<byte>, tail: seq<byte>)
    requires InColumn(v, rest, after, tail) && 0 <= v.left && k < 0x8000_0000
    ensures var (v', b) := VTake(v, k);
      if k <= |rest| then InColumn(v', rest[k..], after, tail) && b == Some(rest[..k]) else v'.failed
  {
    hide Sub32;
    Sub32Signed(v.left, k);
    Sub32Signed(v.r.remaining, k);
    if k <= |rest| {
      var s := rest + after + tail;
      assert s[k..] == rest[k..] + after + tail && s[..k] == rest[..k];
    }
  }

  lemma {:induction false} ValueReads(v: V, ks: seq<Count>, rest: seq<byte>, after: seq<byte>, tail: seq<byte>)
    returns (rest': seq<byte>)
    requires InColumn(v, rest, after, tail) && (0 <= v.left || ks == [])
    requires VTakeAll(v, ks).Ok()
    ensures InColumn(VTakeAll(v, ks), rest', after, tail) && rest == VOctets(v, ks) + rest'
    ensures |VOctets(v, ks)| == Total(ks)
    decreases |ks|
  {
    rest' := rest;
    if ks != [] {
      var k := ks[0];
      ValueRead(v, k, rest, after, tail);
      ReadsUnfold(v, ks);
      if k <= |rest| {
        LeftBound(v, k, rest, after, tail);
        assert Total(ks) == k + Total(ks[1..]);
        hide *;
        rest' := ValueReads(VTake(v, k).0, ks[1..], rest[k..], after, tail);
        Rejoin(rest, k, VOctets(VTake(v, k).0, ks[1..]), rest');
      } else {
        FailureSticks(VTake(v, k).0, ks[1..]);
      }
    }
  }

  lemma ReadsUnfold(v: V, ks: seq<Count>)
    requires ks != []
    ensures VTakeAll(v, ks) == VTakeAll(VTake(v, ks[0]).0, ks[1..])
    ensures VTake(v, ks[0]).1.Some? ==> VOctets(v, ks) == VTake(v, ks[0]).1.value + VOctets(VTake(v, ks[0]).0, ks[1..])
  {
    hide VTake;
  }

  lemma LeftBound(v: V, k: nat, rest: seq<byte>, after: seq<byte>, tail: seq<byte>)
    requires InColumn(v, rest, after, tail) && 0 <= v.left && k <= |rest|
    ensures 0 <= VTake(v, k).0.left
  {
    hide Sub32;
    Sub32Signed(v.left, k);
  }

  lemma {:induction false} FailureSticks(v: V, ks: seq<Count>)
    requires v.failed
    ensures VTakeAll(v, ks) == v
    decreases |ks|
  {
    if ks != [] {
      FailureSticks(v, ks[1..]);
    }
  }

  lemma SkipRest(v: V, rest: seq<byte>, after: seq<byte>, tail: seq<byte>)
    requires InColumn(v, rest, after, tail)
    ensures (if v.left > 0 then Take(v.r, v.left).0 else v.r) == R(after + tail, |after|, NoError)
  {
    hide Sub32;
    Sub32Signed(v.r.remaining, |rest|);
    assert (rest + after + tail)[|rest|..] == after + tail;
    assert [] + after + tail == after + tail;
  }

  lemma ReadSize(c: Column, more: seq<byte>, tail: seq<byte>)
    requires |ColumnBytes(c)| + |more| < 0x8000_0000
    ensures var (r, size) := Take(R(ColumnBytes(c) + more + tail, |ColumnBytes(c)| + |more|, NoError), 4);
      r == R(Body(c) + more + tail, |Body(c)| + |more|, NoError) && IntOf(size) == SizeOf(c)
  {
    hide Sub32, PutSigned, GetSigned;
    var word := PutSigned(SizeOf(c), 4);
    assert ColumnBytes(c) == word + Body(c);
    Sub32Signed(|ColumnBytes(c)| + |more|, 4);
    var s := ColumnBytes(c) + more + tail;
    assert s[4..] == Body(c) + more + tail && s[..4] == word;
    PowerValues();
    SignedRoundTrip(SizeOf(c), 4);
  }

  /** However much of its column was read, nextColumn lands on the next column. */
  lemma NextColumnLands(v: V, rest: seq<byte>, cols: seq<Column>, tail: seq<byte>)
    requires cols != [] && InColumn(v, rest, RowBytes(cols), tail)
    ensures InColumn(NextColumn(v), Body(cols[0]), RowBytes(cols[1..]), tail)
    ensures NextColumn(v).left == SizeOf(cols[0])
  {
    assert RowBytes(cols) == ColumnBytes(cols[0]) + RowBytes(cols[1..]);
    SkipRest(v, rest, RowBytes(cols), tail);
    assert |RowBytes(cols)| < 0x8000_0000;
    hide *;
    Landing(v, cols[0], RowBytes(cols[1..]), tail);
  }

  /** Reading a size where a column starts. */
  lemma Landing(v: V, c: Column, more: seq<byte>, tail: seq<byte>)
    requires |ColumnBytes(c)| + |more| < 0x8000_0000
    requires (if v.left > 0 then Take(v.r, v.left).0 else v.r)
          == R(ColumnBytes(c) + more + tail, |ColumnBytes(c)| + |more|, NoError)
    ensures InColumn(NextColumn(v), Body(c), more, tail) && NextColumn(v).left == SizeOf(c)
  {
    ReadSize(c, more, tail);
    assert |ColumnBytes(c)| >= |Body(c)|;
    hide ColumnBytes, Take, IntOf;
  }

  /** What is met of a column: the size that nextColumn reports, and what is then read. */
  datatype Met = Met(size: int, octets: seq<byte>)

  /** Walking a row, each column being read by its own list of reads. */
  function Walk(v: V, plan: seq<seq<Count>>): (ms: seq<Met>)
    ensures |ms| == |plan|
    decreases |plan|
  {
    if plan == [] then []
    else
      var v' := NextColumn(v);
      [Met(v'.left, VOctets(v', plan[0]))] + Walk(VTakeAll(v', plan[0]), plan[1..])
  }

  /** No read of the walk fails. */
  ghost predicate WalkOk(v: V, plan: seq<seq<Count>>)
    decreases |plan|
  {
    plan != [] ==>
      var v' := VTakeAll(NextColumn(v), plan[0]);
      v'.Ok() && WalkOk(v', plan[1..])
  }

  /** What n octets read of column c meet: its whole size, and its first n octets. */
  ghost predicate IsOf(m: Met, c: Column, n: nat) {
    m.size == SizeOf(c) && n <= |Body(c)| && m.octets == Body(c)[..n]
  }

  /** A NULL is not read from. */
  lemma NullUnread(v: V, ks: seq<Count>)
    requires v.left == -1 && VTakeAll(v, ks).Ok()
    ensures ks == []
  {
    if ks != [] {
      NegativeFails(v, ks[0]);
      FailureSticks(VTake(v, ks[0]).0, ks[1..]);
    }
  }

  lemma NegativeFails(v: V, k: Count)
    requires v.left == -1
    ensures VTake(v, k).0.failed
  {
    PowerValues();
    WrapSignedFits(-1 - k, 4);
  }

  lemma {:induction false} ReadColumn(v: V, rest: seq<byte>, cols: seq<Column>, tail: seq<byte>, ks: seq<Count>)
    returns (rest': seq<byte>)
    requires cols != [] && InColumn(v, rest, RowBytes(cols), tail) && VTakeAll(NextColumn(v), ks).Ok()
    ensures InColumn(VTakeAll(NextColumn(v), ks), rest', RowBytes(cols[1..]), tail)
    ensures IsOf(Met(NextColumn(v).left, VOctets(NextColumn(v), ks)), cols[0], Total(ks))
  {
    NextColumnLands(v, rest, cols, tail);
    hide InColumn, NextColumn, VTakeAll, RowBytes, VOctets, Total;
    var v' := NextColumn(v);
    if v'.left == -1 {
      NullUnread(v', ks);
    }
    rest' := ValueReads(v', ks, Body(cols[0]), RowBytes(cols[1..]), tail);
  }

  /** A row entered without unread octets of a value is walked column by column, NULLs
      included, however little of each column is decoded: what is met is each column's size
      and, of its octets, exactly as many from the start as were asked for. */
  lemma {:induction false} RowWalk(v: V, rest: seq<byte>, cols: seq<Column>, tail: seq<byte>, plan: seq<seq<Count>>)
    requires InColumn(v, rest, RowBytes(cols), tail) && |plan| == |cols| && WalkOk(v, plan)
    ensures forall i :: 0 <= i < |cols| ==> IsOf(Walk(v, plan)[i], cols[i], Total(plan[i]))
    decreases |cols|
  {
    if cols != [] {
      var rest' := ReadColumn(v, rest, cols, tail, plan[0]);
      hide InColumn, NextColumn, VTakeAll, RowBytes, IsOf;
      RowWalk(VTakeAll(NextColumn(v), plan[0]), rest', cols[1..], tail, plan[1..]);
    }
  }

  /** Rows.Next keeps the value reader of the row before. Whatever follows the new row, its
      first column is found exactly when no octet of the old row's last value was left
      unread: otherwise as many octets of the new row are skipped, or the read fails. */
  lemma StaleValue(v: V, cols: seq<Column>, tail: seq<byte>)
    requires cols != [] && v.Ok() && v.r.stream == RowBytes(cols) + tail
    requires v.r.remaining == |RowBytes(cols)| < 0x8000_0000 && -0x8000_0000 <= v.left < 0x8000_0000
    ensures InColumn(NextColumn(v), Body(cols[0]), RowBytes(cols[1..]), tail) <==> v.left <= 0
  {
    if v.left <= 0 {
      EnterRow(v, RowBytes(cols), tail);
      hide *;
      NextColumnLands(v, [], cols, tail);
    } else {
      RowLength(cols);
      hide *;
      SkipsTooMuch(v, Body(cols[0]), RowBytes(cols[1..]), tail);
    }
  }

  lemma EnterRow(v: V, row: seq<byte>, tail: seq<byte>)
    requires v.Ok() && v.r.stream == row + tail && v.r.remaining == |row| < 0x8000_0000
    requires -0x8000_0000 <= v.left <= 0
    ensures InColumn(v, [], row, tail)
  {
    assert [] + row + tail == row + tail;
  }

  lemma SkipsTooMuch(v: V, rest: seq<byte>, after: seq<byte>, tail: seq<byte>)
    requires v.left > 0 && |v.r.stream| == 4 + |rest| + |after| + |tail|
    ensures !InColumn(NextColumn(v), rest, after, tail)
  {
    hide Take, IntOf;
    TakeShortens(v.r, v.left);
    TakeShortens(Take(v.r, v.left).0, 4);
    assert NextColumn(v).r == Take(Take(v.r, v.left).0, 4).0;
  }

  lemma RowLength(cols: seq<Column>)
    requires cols != []
    ensures |RowBytes(cols)| == 4 + |Body(cols[0])| + |RowBytes(cols[1..])|
  {
  }

  lemma TakeShortens(r: R, k: nat)
    ensures var r' := Take(r, k).0; r'.err == NoError ==> r.err == NoError && |r'.stream| == |r.stream| - k
  {
  }

  /** One such row: after one unread octet of the row before, the column of size 1 that
      holds 7 is taken for a column of size 263. */
  lemma StaleExample()
    ensures var row := RowBytes([Some([7])]);
      && NextColumn(V(R(row, 5, NoError), 0, false)).left == 1
      && NextColumn(V(R(row, 5, NoError), 1, false)).left == 263
  {
    var row: seq<byte> := [0, 0, 0, 1, 7];
    ExampleRow();
    hide Sub32, GetSigned, RowBytes;
    FourOctets([0, 0, 0, 1]);
    FourOctets([0, 0, 1, 7]);
    Sub32Exact(5, 1);
    Sub32Exact(5, 4);
    Sub32Exact(4, 4);
    assert row[..4] == [0, 0, 0, 1];
    assert row[1..][..4] == [0, 0, 1, 7];
  }

  lemma ExampleRow()
    ensures RowBytes([Some([7])]) == [0, 0, 0, 1, 7]
  {
    PowerValues();
    assert BigEndian(1, 4) == BigEndian(0, 3) + [1];
    assert BigEndian(0, 3) == BigEndian(0, 2) + [0] && BigEndian(0, 2) == BigEndian(0, 1) + [0];
    assert BigEndian(0, 1) == [0];
    assert 1 % Pow256(4) == 1;
    assert RowBytes([Some([7])]) == ColumnBytes(Some([7])) + RowBytes([]);
  }

  lemma FourOctets(s: seq<byte>)
    requires |s| == 4 && s[0] == 0
    ensures var a: nat, b: nat, c: nat := s[1], s[2], s[3]; GetSigned(s) == 65536 * a + 256 * b + c
  {
    assert s[..3][..2] == s[..2] && s[..2][..1] == s[..1] && s[..1][..0] == [];
    assert BigEndianValue(s[..1]) == 0;
    assert BigEndianValue(s[..2]) == 256 * BigEndianValue(s[..1]) + s[1];
    assert BigEndianValue(s[..3]) == 256 * BigEndianValue(s[..2]) + s[2];
    PowerValues();
    WrapSignedFits(BigEndianValue(s), 4);
  }
}
