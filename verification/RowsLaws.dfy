/** What a caller of Rows sees: which message decides a call of Next, when Scan fails, and
    that every error is recorded. */
module RowsLaws {
  import opened RowsModel

  /** Messages that Next reads past. */
  predicate Skipped(e: Event) {
    e.CommandComplete? || e.BindComplete? || e == Harmless(false)
  }

  /** A row of the right number of columns; the count of a short message reads as 0. */
  predicate IsRow(e: Event, fields: nat) {
    e.DataRow? && fields == if e.short then 0 else e.fieldCount
  }

  lemma FatalRecords(r: Rows, l: Link)
    ensures Fatal(r, l).0.err && (!r.err ==> Fatal(r, l).0.closed)
  {
    hide ReadUntilReady;
  }

  lemma UnreadRecords(r: Rows, l: Link)
    requires !l.alive || l.stuck
    ensures NextMsg(r, l) == NoRow(Fatal(r, l))
  {
    hide Fatal;
  }

  /** The first message that Next does not read past decides the call: there is a row exactly
      when it is one of the right number of columns, and the rows end without an error exactly
      when it is ReadyForQuery. A server's error, a row of another width, and any message that
      has no place there are errors. */
  lemma {:induction false} NextMsgDecided(r: Rows, l: Link, k: nat)
    requires !r.err && !r.closed && l.alive && !l.stuck && k < |l.incoming|
    requires !Skipped(l.incoming[k]) && forall j :: 0 <= j < k ==> Skipped(l.incoming[j])
    ensures var (r1, l1, more) := NextMsg(r, l); var e := l.incoming[k];
      && (more <==> IsRow(e, r.fields))
      && (r1.err <==> !IsRow(e, r.fields) && !e.ReadyForQuery?)
      && (more ==> r1 == r && l1 == Link(l.incoming[k + 1..], true, e.short, false))
      && (e.ReadyForQuery? ==> r1.closed && l1 == Link(l.incoming[k + 1..], true, e.short, true))
      && (r1.err ==> r1.closed)
    decreases k
  {
    var e, l1 := l.incoming[0], RxMsg(l).0;
    if k > 0 {
      assert l1.incoming[k - 1] == l.incoming[k];
      assert forall j :: 0 <= j < k - 1 ==> l1.incoming[j] == l.incoming[j + 1];
      assert l1.incoming[k..] == l.incoming[k + 1..];
      NextMsgDecided(r, if e.Harmless? then l1.Read(false) else l1, k - 1);
    } else {
      hide Fatal;
      forall l' ensures Fatal(r, l').0.err && Fatal(r, l').0.closed {
        FatalRecords(r, l');
      }
      if e.Harmless? {
        UnreadRecords(r, l1.Read(true));
      }
    }
  }

  /** When everything that arrives is read past, the failed read is an error. */
  lemma {:induction false} NextMsgUndecided(r: Rows, l: Link)
    requires !r.err && !r.closed && forall e :: e in l.incoming ==> Skipped(e)
    ensures var (r1, _, more) := NextMsg(r, l); !more && r1.err && r1.closed
    decreases |l.incoming|
  {
    forall l' ensures Fatal(r, l').0.err && Fatal(r, l').0.closed {
      FatalRecords(r, l');
    }
    hide Fatal;
    if l.alive && !l.stuck && l.incoming != [] {
      var e, l1 := l.incoming[0], RxMsg(l).0;
      assert e in l.incoming && Skipped(e);
      NextMsgUndecided(r, if e.Harmless? then l1.Read(false) else l1);
    }
  }

  /** The same for Next, which starts at the first column. */
  lemma NextDecided(r: Rows, l: Link, k: nat)
    requires !r.err && !r.closed && l.alive && !l.stuck && k < |l.incoming|
    requires !Skipped(l.incoming[k]) && forall j :: 0 <= j < k ==> Skipped(l.incoming[j])
    ensures var (r1, l1, more) := Next(r, l); var e := l.incoming[k];
      && (more <==> IsRow(e, r.fields))
      && (r1.err <==> !IsRow(e, r.fields) && !e.ReadyForQuery?)
      && (more ==> r1 == r.(columnIdx := 0) && l1 == Link(l.incoming[k + 1..], true, e.short, false))
      && (!more ==> r1.closed)
      && (e.ReadyForQuery? ==> l1 == Link(l.incoming[k + 1..], true, e.short, true))
  {
    hide NextMsg;
    NextMsgDecided(r.(columnIdx := 0), l, k);
  }

  lemma NextUndecided(r: Rows, l: Link)
    requires !r.err && !r.closed
    requires !l.alive || l.stuck || forall e :: e in l.incoming ==> Skipped(e)
    ensures var (r1, _, more) := Next(r, l); !more && r1.err && r1.closed
  {
    var r0 := r.(columnIdx := 0);
    if !l.alive || l.stuck {
      UnreadRecords(r0, l);
      FatalRecords(r0, l);
    } else {
      NextMsgUndecided(r0, l);
    }
    hide NextMsg, Fatal;
  }

  /** A server's error as the very next message: the rows end, and say so. */
  lemma ServerError(r: Rows, l: Link, fatal: bool, short: bool, rest: seq<Event>)
    requires !r.err && !r.closed && l.alive && !l.stuck && l.incoming == [Failing(fatal, short)] + rest
    ensures Next(r, l).0.err && Next(r, l).0.closed && !Next(r, l).2
  {
    hide Next;
    NextDecided(r, l, 0);
  }

  /** Closing reads up to and including the first message that stops it, and leaves the
      connection as that message does; what comes after is still to come. */
  lemma {:induction false} CloseDecided(r: Rows, l: Link, k: nat)
    requires !r.closed && l.alive && !l.stuck && FirstStop(l.incoming, k)
    ensures Close(r, l).1 ==
        match l.incoming[k]
        case ReadyForQuery(short) => Link(l.incoming[k + 1..], true, short, true)
        case Failing(fatal, short) => Link(l.incoming[k + 1..], !fatal, short, false)
        case Harmless(_) => Link(l.incoming[k + 1..], true, true, false)
        case _ => Link(l.incoming[k + 1..], true, false, false)
    ensures Close(r, l).0.err == r.err && Close(r, l).0.closed
    decreases k
  {
    var e, l1 := l.incoming[0], RxMsg(l).0;
    if k > 0 {
      assert l1.incoming[k - 1] == l.incoming[k] && l1.incoming[k..] == l.incoming[k + 1..];
      assert forall j :: 0 <= j < k - 1 ==> l1.incoming[j] == l.incoming[j + 1];
      assert FirstStop(l1.incoming, k - 1);
      CloseDecided(r, l1, k - 1);
    } else if e.Harmless? {
      Unread(r, l1.Read(true));
    }
  }

  /** Every error given to the rows is recorded, and closes them, unless there was one. */
  lemma ErrorsRecorded(r: Rows, l: Link)
    ensures Abort(r).err && Fatal(r, l).0.err
    ensures !r.err ==> Abort(r).closed && Fatal(r, l).0.closed
    ensures r.err ==> Abort(r) == r && Fatal(r, l) == (r, l)
  {
    hide ReadUntilReady;
  }

  // ---- Scan ----

  /** Scan fails exactly when it is given another number of destinations than there are
      columns, or some column's value reader fails; then the rows are closed and record it,
      and otherwise they are left at the column after the last. */
  lemma ScanDecided(r: Rows, l: Link, dest: seq<Decoding>)
    requires !r.err && !r.closed
    ensures var (r1, l1, failed) := Scan(r, l, dest);
      && (failed <==> |dest| != r.fields || exists i :: 0 <= i < |dest| && dest[i].failed)
      && (r1.err <==> failed) && (r1.closed <==> failed)
      && (!failed ==> r1 == r.(columnIdx := r.columnIdx + |dest|)
                      && l1 == l.(stuck := l.stuck || exists i :: 0 <= i < |dest| && dest[i].stuck))
  {
    if |dest| == r.fields {
      ScanColumnsDecided(r, l, dest);
    } else {
      FatalRecords(r, l);
    }
    hide Fatal, ScanColumns;
  }

  lemma {:induction false} ScanColumnsDecided(r: Rows, l: Link, dest: seq<Decoding>)
    requires !r.err && !r.closed
    ensures var (r1, l1, failed) := ScanColumns(r, l, dest);
      && (failed <==> exists i :: 0 <= i < |dest| && dest[i].failed)
      && (r1.err <==> failed) && (r1.closed <==> failed)
      && (!failed ==> r1 == r.(columnIdx := r.columnIdx + |dest|)
                      && l1 == l.(stuck := l.stuck || exists i :: 0 <= i < |dest| && dest[i].stuck))
    decreases |dest|
  {
    if dest != [] {
      var r1, l1 := r.(columnIdx := r.columnIdx + 1), l.Read(dest[0].stuck);
      FatalRecords(r1, l1);
      hide Fatal;
      SomeOf(dest);
      if !dest[0].failed {
        ScanColumnsDecided(r1, l1, dest[1..]);
      }
    }
  }

  lemma SomeOf(dest: seq<Decoding>)
    requires dest != []
    ensures (exists i :: 0 <= i < |dest| && dest[i].failed)
       <==> dest[0].failed || exists i :: 0 <= i < |dest[1..]| && dest[1..][i].failed
    ensures (exists i :: 0 <= i < |dest| && dest[i].stuck)
       <==> dest[0].stuck || exists i :: 0 <= i < |dest[1..]| && dest[1..][i].stuck
  {
    assert dest == [dest[0]] + dest[1..];
  }

  /** Row.Scan: an error is recorded exactly when there was one before, when Next ended with
      one, or when scanning its row failed; no row and no error is ErrNoRows. */
  lemma RowScanRecords(r: Rows, l: Link, dest: seq<Decoding>)
    requires Inv(r)
    ensures var (r1, l1, more) := Next(r, l);
      RowScan(r, l, dest).0.err <==> r.err || r1.err || (more && Scan(r1, l1, dest).2)
  {
    if !r.err {
      var (r1, l1, more) := Next(r, l);
      ScannedInv(r, l, dest);
      if more {
        ScanDecided(r1, l1, dest);
      }
    }
    hide Next, Scan, ReadUntilReady;
  }

  /** A refused Acquire and a query that was not sent are errors of the rows returned. */
  lemma QueryRecords(acquired: bool, sent: bool, fields: nat)
    ensures var (r, byPool) := PoolQuery(acquired, sent, fields);
      && (r.err <==> !acquired || !sent) && (r.closed <==> r.err) && (r.pooled <==> acquired && sent)
      && (byPool == 1 <==> acquired && !sent)
  {
  }

  // ---- whole lives ----

  /** Rows as the pool hands them out, after any legal calls on any stream: an error means
      closed, and the connection has been released once if they are closed and not at all
      if they are not. */
  lemma Lives(fields: nat, l: Link, calls: seq<Call>)
    requires LegalAll(Rows(true, false, false, fields, 0, 0), l, false, calls)
    ensures var r := PerformAll(Rows(true, false, false, fields, 0, 0), l, calls).0;
      (r.err ==> r.closed) && r.released == (if r.closed then 1 else 0) && r.pooled == !r.closed
  {
    LifeInv(Rows(true, false, false, fields, 0, 0), l, false, calls);
    hide PerformAll, LegalAll;
  }

  /** Next, Close and Fatal may be called at any time, and Scan on the row just found. */
  lemma LegalCalls(r: Rows, inRow: bool, dest: seq<Decoding>)
    ensures Legal(r, inRow, NextCall) && Legal(r, inRow, CloseCall) && Legal(r, inRow, FatalCall)
    ensures Legal(r, inRow, ScanCall(dest)) <==> inRow && !r.closed
  {
  }
}
