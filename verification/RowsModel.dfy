/** query.go and tx.go: the life of a result set and of a transaction, as functions of
    their fields, the connection's liveness and the messages that will arrive. */
module RowsModel {

  /** A message as the loops of Rows tell messages apart. Harmless and Failing are those
      that processContextFreeMsg accepts and turns into an error; a fatal error kills the
      connection, and Unknown is any type that no loop knows. A short message ends before
      the fields that are read from it, which leaves the message reader stuck. */
  datatype Event =
    | RowDescription
    | DataRow(fieldCount: int, short: bool)
    | CommandComplete
    | BindComplete
    | ReadyForQuery(short: bool)
    | Harmless(short: bool)
    | Failing(fatal: bool, short: bool)
    | Unknown

  /** The connection: what will arrive before reading fails, whether it is alive, whether
      the message reader is stuck on a failed read, and whether the last message received
      was ReadyForQuery. */
  datatype Link = Link(incoming: seq<Event>, alive: bool, stuck: bool, ready: bool)
  {
    /** After reading the fields of a message, or a column. */
    function Read(short: bool): Link { this.(stuck := stuck || short) }

    /** After an error message. */
    function Failed(fatal: bool): Link { this.(alive := alive && !fatal) }

    /** The server has said that it is ready for a query, and its answer can be read. */
    predicate Clean() { alive && ready && !stuck }
  }

  /** conn.rxMsg: a dead connection and a failed read are errors; a stuck reader reports
      type 0, which no loop knows. */
  function RxMsg(l: Link): (r: (Link, Event, bool))
    ensures |r.0.incoming| <= |l.incoming|
    ensures !r.2 && !r.1.Unknown? ==> |r.0.incoming| < |l.incoming|
  {
    if !l.alive then (l, Unknown, true)
    else if l.stuck then (l, Unknown, false)
    else if l.incoming == [] then (l.(alive := false), Unknown, true)
    else
      var e := l.incoming[0];
      (l.(incoming := l.incoming[1..], ready := e.ReadyForQuery?), e, false)
  }

  /** The fields of Rows that decide its life; `released` counts its calls of Release. */
  datatype Rows = Rows(pooled: bool, closed: bool, err: bool, fields: nat, columnIdx: nat, released: nat)

  type Pair = (Rows, Link)

  function Closed(r: Rows): Rows {
    if r.closed then r
    else r.(pooled := false, released := if r.pooled then r.released + 1 else r.released, closed := true)
  }

  function ReadUntilReady(r: Rows, l: Link): (p: Pair)
    ensures p.0 == Closed(r)
    decreases |l.incoming|
  {
    var (l1, e, failed) := RxMsg(l);
    if failed then (Closed(r), l1)
    else
      match e
      case ReadyForQuery(short) => (Closed(r), l1.Read(short))
      case Failing(fatal, short) => (Closed(r), l1.Read(short).Failed(fatal))
      case Unknown => (Closed(r), l1)
      case Harmless(short) => ReadUntilReady(r, l1.Read(short))
      case _ => ReadUntilReady(r, l1)
  }

  function Close(r: Rows, l: Link): (p: Pair)
    ensures p.0 == Closed(r)
  {
    if r.closed then (r, l) else ReadUntilReady(r, l)
  }

  function Abort(r: Rows): Rows {
    if r.err then r else Closed(r.(err := true))
  }

  function Fatal(r: Rows, l: Link): Pair {
    if r.err then (r, l) else Close(r.(err := true), l)
  }

  /** Next, and whether there is a row. */
  function Next(r: Rows, l: Link): (Rows, Link, bool) {
    if r.closed then (r, l, false) else NextMsg(r.(columnIdx := 0), l)
  }

  function NextMsg(r: Rows, l: Link): (Rows, Link, bool)
    decreases |l.incoming|
  {
    var (l1, e, failed) := RxMsg(l);
    if failed then NoRow(Fatal(r, l1))
    else
      match e
      case ReadyForQuery(short) => (Closed(r), l1.Read(short), false)
      case DataRow(n, short) =>
        var l2 := l1.Read(short);
        if (if short then 0 else n) != r.fields then NoRow(Fatal(r, l2)) else (r, l2, true)
      case Failing(fatal, short) => NoRow(Fatal(r, l1.Read(short).Failed(fatal)))
      case RowDescription => NoRow(Fatal(r, l1))
      case Unknown => NoRow(Fatal(r, l1))
      case Harmless(short) => NextMsg(r, l1.Read(short))
      case _ => NextMsg(r, l1)
  }

  function NoRow(p: Pair): (Rows, Link, bool) {
    (p.0, p.1, false)
  }

  /** Decoding one column: whether the value reader reports an error, and whether the message
      reader is stuck after it. Scan looks only at the former. */
  datatype Decoding = Decoding(failed: bool, stuck: bool)

  /** Scan of an open row into |dest| destinations; the flag is its error. */
  function Scan(r: Rows, l: Link, dest: seq<Decoding>): (Rows, Link, bool) {
    if r.fields != |dest| then var (r2, l2) := Fatal(r, l); (r2, l2, true) else ScanColumns(r, l, dest)
  }

  function ScanColumns(r: Rows, l: Link, dest: seq<Decoding>): (Rows, Link, bool)
    decreases |dest|
  {
    if dest == [] then (r, l, false)
    else
      var r1, l1 := r.(columnIdx := r.columnIdx + 1), l.Read(dest[0].stuck);
      if dest[0].failed then var (r2, l2) := Fatal(r1, l1); (r2, l2, true)
      else ScanColumns(r1, l1, dest[1..])
  }

  /** Row.Scan, the whole of it. */
  function RowScan(r: Rows, l: Link, dest: seq<Decoding>): Pair {
    if r.err then (r, l)
    else
      var (r1, l1, more) := Next(r, l);
      if !more then (r1, l1)
      else
        var (r2, l2, _) := Scan(r1, l1, dest);
        Close(r2, l2)
  }

  // ---- the life of a result set ----

  /** An error closes the rows, and the pooled connection has been released exactly when
      they are closed. */
  ghost predicate Inv(r: Rows) {
    && (r.err ==> r.closed)
    && r.pooled == !r.closed
    && r.released == if r.closed then 1 else 0
  }

  datatype Call = NextCall | ScanCall(dest: seq<Decoding>) | CloseCall | FatalCall

  /** Scan decodes a row that Next has just found, and only once. */
  predicate Legal(r: Rows, inRow: bool, call: Call) {
    call.ScanCall? ==> inRow && !r.closed
  }

  /** The rows, the connection, and whether an unscanned row is open. */
  function Perform(r: Rows, l: Link, call: Call): (Rows, Link, bool) {
    match call
    case NextCall => Next(r, l)
    case ScanCall(dest) => var (r1, l1, _) := Scan(r, l, dest); (r1, l1, false)
    case CloseCall => var (r1, l1) := Close(r, l); (r1, l1, false)
    case FatalCall => var (r1, l1) := Fatal(r, l); (r1, l1, false)
  }

  predicate LegalAll(r: Rows, l: Link, inRow: bool, calls: seq<Call>)
    decreases |calls|
  {
    calls != [] ==>
      Legal(r, inRow, calls[0]) && var (r1, l1, row) := Perform(r, l, calls[0]); LegalAll(r1, l1, row, calls[1..])
  }

  function PerformAll(r: Rows, l: Link, calls: seq<Call>): Pair
    decreases |calls|
  {
    if calls == [] then (r, l) else var (r1, l1, _) := Perform(r, l, calls[0]); PerformAll(r1, l1, calls[1..])
  }

  lemma FatalInv(r: Rows, l: Link)
    requires Inv(r)
    ensures Inv(Fatal(r, l).0) && Fatal(r, l).0.closed
  {
    hide ReadUntilReady;
  }

  lemma {:induction false} NextMsgInv(r: Rows, l: Link)
    requires Inv(r) && !r.closed
    ensures var (r1, _, more) := NextMsg(r, l); Inv(r1) && (more <==> !r1.closed) && (more ==> !r1.err && r1 == r)
    decreases |l.incoming|
  {
    var (l1, e, failed) := RxMsg(l);
    forall l' ensures Inv(Fatal(r, l').0) && Fatal(r, l').0.closed {
      FatalInv(r, l');
    }
    hide RxMsg, Fatal;
    if !failed && (e.CommandComplete? || e.BindComplete?) {
      NextMsgInv(r, l1);
    } else if !failed && e.Harmless? {
      NextMsgInv(r, l1.Read(e.short));
    }
  }

  lemma {:induction false} ScanColumnsInv(r: Rows, l: Link, dest: seq<Decoding>)
    requires Inv(r) && !r.closed
    ensures var (r1, _, failed) := ScanColumns(r, l, dest); Inv(r1) && (failed ==> r1.closed && r1.err)
    decreases |dest|
  {
    if dest != [] {
      var r1, l1 := r.(columnIdx := r.columnIdx + 1), l.Read(dest[0].stuck);
      if dest[0].failed {
        FatalInv(r1, l1);
        hide ReadUntilReady;
      } else {
        ScanColumnsInv(r1, l1, dest[1..]);
      }
    }
  }

  lemma PerformInv(r: Rows, l: Link, inRow: bool, call: Call)
    requires Inv(r) && Legal(r, inRow, call)
    ensures Inv(Perform(r, l, call).0) && r.released <= Perform(r, l, call).0.released <= 1
    ensures (call.CloseCall? || call.FatalCall?) ==> Perform(r, l, call).0.closed
    ensures call.NextCall? && !Perform(r, l, call).2 ==> Perform(r, l, call).0.closed
  {
    FatalInv(r, l);
    hide NextMsg, ScanColumns, Fatal, ReadUntilReady;
    if !r.closed {
      NextMsgInv(r.(columnIdx := 0), l);
      if call.ScanCall? && r.fields == |call.dest| {
        ScanColumnsInv(r, l, call.dest);
      }
    }
  }

  /** Over every message stream and every legal sequence of calls. */
  lemma {:induction false} LifeInv(r: Rows, l: Link, inRow: bool, calls: seq<Call>)
    requires Inv(r) && LegalAll(r, l, inRow, calls)
    ensures Inv(PerformAll(r, l, calls).0) && PerformAll(r, l, calls).0.released <= 1
    decreases |calls|
  {
    hide Perform, Legal;
    if calls != [] {
      PerformInv(r, l, inRow, calls[0]);
      var (r1, l1, row) := Perform(r, l, calls[0]);
      LifeInv(r1, l1, row, calls[1..]);
    }
  }

  /** A scan after a Next that found a row releases only if it closes. */
  lemma ScannedInv(r: Rows, l: Link, dest: seq<Decoding>)
    requires Inv(r)
    ensures var (r1, l1, more) := Next(r, l);
      more ==> !r.closed && !r1.closed && Inv(r1) && Inv(Scan(r1, l1, dest).0)
  {
    if !r.closed {
      NextMsgInv(r.(columnIdx := 0), l);
      var (r1, l1, more) := Next(r, l);
      if more {
        FatalInv(r1, l1);
        if r1.fields == |dest| {
          ScanColumnsInv(r1, l1, dest);
        }
      }
    }
  }

  /** Row.Scan always returns with the connection released, and released once. */
  lemma RowScanReleases(r: Rows, l: Link, dest: seq<Decoding>)
    requires Inv(r)
    ensures Inv(RowScan(r, l, dest).0) && RowScan(r, l, dest).0.closed && RowScan(r, l, dest).0.released == 1
  {
    if !r.err && !r.closed {
      var (r1, l1, more) := Next(r, l);
      NextMsgInv(r.(columnIdx := 0), l);
      if more {
        FatalInv(r1, l1);
        if r1.fields == |dest| {
          ScanColumnsInv(r1, l1, dest);
        }
        hide NextMsg, ScanColumns, ReadUntilReady;
      }
    }
  }

  // ---- in what state a connection goes back ----

  /** Messages that readUntilReadyForQuery does not get past; a short one of those it skips
      is met as an unknown message at the next turn. */
  predicate Stops(e: Event) {
    e.ReadyForQuery? || e.Failing? || e.Unknown? || e == Harmless(true)
  }

  /** Message k is the first that stops the reading. */
  ghost predicate FirstStop(incoming: seq<Event>, k: nat) {
    k < |incoming| && Stops(incoming[k]) && forall j :: 0 <= j < k ==> !Stops(incoming[j])
  }

  /** The stop is a whole ReadyForQuery. */
  ghost predicate Drains(incoming: seq<Event>) {
    exists k: nat :: FirstStop(incoming, k) && incoming[k] == ReadyForQuery(false)
  }

  /** The stop is one that leaves the connection alive, but not ready for a query. */
  ghost predicate Dirties(incoming: seq<Event>) {
    exists k: nat :: FirstStop(incoming, k) && incoming[k] != ReadyForQuery(false)
      && !(incoming[k].Failing? && incoming[k].fatal)
  }

  /** Closing open rows releases their connection alive and drained to ReadyForQuery exactly
      when a whole ReadyForQuery comes before any error; it releases the connection alive
      but unready when its reader is stuck or something else stops the reading, such as an
      error that is not fatal. */
  lemma ClosedClean(r: Rows, l: Link)
    requires !r.closed
    ensures Close(r, l).1.Clean() <==> l.alive && !l.stuck && Drains(l.incoming)
    ensures Close(r, l).1.alive && !Close(r, l).1.Clean() <==> l.alive && (l.stuck || Dirties(l.incoming))
  {
    hide ReadUntilReady, Drains, Dirties;
    if l.alive && !l.stuck {
      Drained(r, l);
    } else {
      Unread(r, l);
    }
  }

  /** Rows closed while the server is answering with an error: their connection goes back to
      the pool alive, with the ReadyForQuery of the old query still to come. */
  lemma UndrainedExample()
    ensures var r := Rows(true, false, false, 1, 0, 0);
      var l := Link([CommandComplete, Failing(false, false), ReadyForQuery(false)], true, false, false);
      && Close(r, l).0.released == 1 && Close(r, l).1.alive && !Close(r, l).1.Clean()
      && Close(r, l).1.incoming == [ReadyForQuery(false)]
  {
    var r := Rows(true, false, false, 1, 0, 0);
    var l1 := Link([Failing(false, false), ReadyForQuery(false)], true, false, false);
    assert ReadUntilReady(r, l1).1 == Link([ReadyForQuery(false)], true, false, false);
  }

  lemma Unread(r: Rows, l: Link)
    requires !l.alive || l.stuck
    ensures ReadUntilReady(r, l).1 == l
  {
  }

  lemma {:induction false} Drained(r: Rows, l: Link)
    requires l.alive && !l.stuck
    ensures ReadUntilReady(r, l).1.Clean() <==> Drains(l.incoming)
    ensures ReadUntilReady(r, l).1.alive && !ReadUntilReady(r, l).1.Clean() <==> Dirties(l.incoming)
    decreases |l.incoming|
  {
    var s := l.incoming;
    if s == [] {
      assert !Drains(s) && !Dirties(s);
    } else {
      var l1 := RxMsg(l).0;
      if Stops(s[0]) {
        StopHere(s);
        hide Drains, Dirties;
        if s[0].Harmless? {
          Unread(r, l1.Read(true));
        }
      } else {
        StopLater(s);
        hide Drains, Dirties;
        Drained(r, l1);
      }
    }
  }

  lemma StopHere(s: seq<Event>)
    requires s != [] && Stops(s[0])
    ensures Drains(s) <==> s[0] == ReadyForQuery(false)
    ensures Dirties(s) <==> s[0] != ReadyForQuery(false) && !(s[0].Failing? && s[0].fatal)
  {
    assert FirstStop(s, 0);
  }

  lemma StopLater(s: seq<Event>)
    requires s != [] && !Stops(s[0])
    ensures Drains(s) <==> Drains(s[1..])
    ensures Dirties(s) <==> Dirties(s[1..])
  {
    forall k: nat ensures FirstStop(s[1..], k) <==> FirstStop(s, k + 1) {
      if FirstStop(s[1..], k) {
        forall j | 0 <= j < k + 1 ensures !Stops(s[j]) {
          assert j > 0 ==> s[j] == s[1..][j - 1];
        }
      }
      if FirstStop(s, k + 1) {
        assert forall j :: 0 <= j < k ==> s[1..][j] == s[j + 1];
      }
    }
    StopShift(s);
  }

  lemma StopShift(s: seq<Event>)
    requires s != [] && !Stops(s[0])
    requires forall k: nat :: FirstStop(s[1..], k) <==> FirstStop(s, k + 1)
    ensures Drains(s) <==> Drains(s[1..])
    ensures Dirties(s) <==> Dirties(s[1..])
  {
    forall k: nat | FirstStop(s, k) ensures k > 0 && FirstStop(s[1..], k - 1) && s[k] == s[1..][k - 1] {
      assert FirstStop(s, (k - 1) + 1);
    }
    forall k: nat | FirstStop(s[1..], k) ensures FirstStop(s, k + 1) && s[k + 1] == s[1..][k] {
    }
  }

  // ---- ConnPool.Query ----

  /** Rows from the pool, and how often the pool itself released the connection. Without
      a connection nothing is held; a query that fails is aborted before the rows are
      given the pool, and the pool releases. */
  function PoolQuery(acquired: bool, sent: bool, fields: nat): (Rows, nat) {
    if !acquired then (Rows(false, true, true, 0, 0, 0), 0)
    else
      var rows := Rows(false, false, false, fields, 0, 0);
      if !sent then (Abort(rows), 1) else (rows.(pooled := true), 0)
  }

  /** QueryRow and Scan: whatever goes wrong on the way, an acquired connection is released
      exactly once in all. */
  lemma QueryRowReleases(acquired: bool, sent: bool, fields: nat, l: Link, dest: seq<Decoding>)
    ensures var (r, byPool) := PoolQuery(acquired, sent, fields);
      RowScan(r, l, dest).0.released + byPool == if acquired then 1 else 0
  {
    if acquired && sent {
      RowScanReleases(PoolQuery(acquired, sent, fields).0, l, dest);
    }
  }

  // ---- Tx ----

  /** A transaction; `released` counts its calls of Release. */
  datatype Tx = Tx(pooled: bool, closed: bool, released: nat)

  function CloseTx(t: Tx): Tx {
    Tx(false, true, if t.pooled then t.released + 1 else t.released)
  }

  /** Commit and Rollback differ only in the SQL they run; the flag is ErrTxClosed. The
      transaction closes whether or not that SQL succeeds. */
  function Finish(t: Tx): (Tx, bool) {
    if t.closed then (t, true) else (CloseTx(t), false)
  }

  function FinishAll(t: Tx, n: nat): Tx
    decreases n
  {
    if n == 0 then t else FinishAll(Finish(t).0, n - 1)
  }

  lemma {:induction false} FinishedOnce(t: Tx, n: nat)
    requires t.closed ==> !t.pooled
    ensures FinishAll(t, n).released == t.released + if n > 0 && t.pooled then 1 else 0
    ensures FinishAll(t, n).closed <==> t.closed || n > 0
    decreases n
  {
    if n > 0 {
      FinishedOnce(Finish(t).0, n - 1);
    }
  }

  lemma {:induction false} FinishLast(t: Tx, n: nat)
    ensures FinishAll(t, n + 1) == Finish(FinishAll(t, n)).0
    decreases n
  {
    if n > 0 {
      FinishLast(Finish(t).0, n - 1);
    }
  }

  /** The connection of a transaction that the pool began is released exactly once, by the
      first of any number of commits and rollbacks, and never before it. */
  lemma TxReleases(n: nat)
    ensures FinishAll(Tx(true, false, 0), n).released == if n > 0 then 1 else 0
  {
    FinishedOnce(Tx(true, false, 0), n);
  }
}
