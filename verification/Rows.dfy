/** query.go and tx.go: result sets and transactions over a connection taken from the pool. */
module Rows {

  import opened Wrappers
  import M = RowsModel
  import P = ConnPool

  class Conn {
    const id: P.ConnId
    var link: M.Link

    constructor (id: P.ConnId, link: M.Link)
      ensures this.id == id && this.link == link
    {
      this.id := id;
      this.link := link;
    }

    /** rxMsg: the next message, and whether reading it failed, which kills the connection. */
    method RxMsg() returns (e: M.Event, failed: bool)
      modifies this
      ensures M.RxMsg(old(link)) == (link, e, failed)
    {
      if !link.alive {
        return M.Unknown, true;
      }
      if link.stuck {
        return M.Unknown, false;
      }
      if link.incoming == [] {
        link := link.(alive := false);
        return M.Unknown, true;
      }
      e, failed := link.incoming[0], false;
      link := link.(incoming := link.incoming[1..], ready := e.ReadyForQuery?);
    }

    /** Reading fields of the current message, as many as it holds or too many for it. */
    method ReadFields(short: bool)
      modifies this
      ensures link == old(link).Read(short)
    {
      if short {
        link := link.(stuck := true);
      }
    }

    /** processContextFreeMsg; whether it returns an error. */
    method ProcessContextFree(e: M.Event) returns (failed: bool)
      modifies this
      ensures failed <==> !e.Harmless?
      ensures link == match e
        case Harmless(short) => old(link).Read(short)
        case Failing(fatal, short) => old(link).Read(short).Failed(fatal)
        case _ => old(link)
    {
      failed := !e.Harmless?;
      if e.Harmless? || e.Failing? {
        ReadFields(e.short);
      }
      if e.Failing? && e.fatal {
        link := link.(alive := false);
      }
    }
  }

  class Rows {
    const home: P.ConnPool
    const conn: Conn
    const fields: nat
    var pool: P.ConnPool?
    var columnIdx: nat
    var err: bool
    var closed: bool
    ghost var released: nat

    constructor (home: P.ConnPool, conn: Conn, fields: nat)
      ensures Valid() && View() == M.Rows(false, false, false, fields, 0, 0)
      ensures this.home == home && this.conn == conn
    {
      this.home, this.conn, this.fields := home, conn, fields;
      pool, columnIdx, err, closed, released := null, 0, false, false, 0;
    }

    ghost predicate Valid()
      reads this
    {
      pool == null || pool == home
    }

    ghost function View(): M.Rows
      reads this
    {
      M.Rows(pool != null, closed, err, fields, columnIdx, released)
    }

    /** The pool has changed by one release of the connection, or not at all, as
        `released` says. */
    twostate predicate PoolMoved()
      reads this, home, conn
    {
      if released == old(released) then home.View() == old(home.View())
      else home.View() == P.ReleaseStep(old(home.View()), conn.id, conn.link.alive)
    }

    method MarkClosed()
      requires Valid()
      modifies this, home
      ensures Valid() && View() == M.Closed(old(View())) && PoolMoved()
    {
      if closed {
        return;
      }
      if pool != null {
        pool.Release(conn.id, conn.link.alive);
        pool := null;
        released := released + 1;
      }
      closed := true;
    }

    method ReadUntilReadyForQuery()
      requires Valid()
      modifies this, home, conn
      ensures Valid() && (View(), conn.link) == M.ReadUntilReady(old(View()), old(conn.link)) && PoolMoved()
    {
      while true
        invariant Valid() && View() == old(View()) && home.View() == old(home.View())
        invariant M.ReadUntilReady(View(), conn.link) == M.ReadUntilReady(old(View()), old(conn.link))
        decreases |conn.link.incoming|
      {
        var e, failed := conn.RxMsg();
        if failed {
          MarkClosed();
          return;
        }
        if e.ReadyForQuery? {
          conn.ReadFields(e.short);
          MarkClosed();
          return;
        } else if !e.RowDescription? && !e.DataRow? && !e.CommandComplete? && !e.BindComplete? {
          failed := conn.ProcessContextFree(e);
          if failed {
            MarkClosed();
            return;
          }
        }
      }
    }

    method Close()
      requires Valid()
      modifies this, home, conn
      ensures Valid() && (View(), conn.link) == M.Close(old(View()), old(conn.link)) && PoolMoved()
    {
      if closed {
        return;
      }
      ReadUntilReadyForQuery();
      assert closed;
      MarkClosed();
    }

    method Abort()
      requires Valid()
      modifies this, home
      ensures Valid() && View() == M.Abort(old(View())) && PoolMoved()
    {
      if err {
        return;
      }
      err := true;
      MarkClosed();
    }

    method Fatal()
      requires Valid()
      modifies this, home, conn
      ensures Valid() && (View(), conn.link) == M.Fatal(old(View()), old(conn.link)) && PoolMoved()
    {
      if err {
        return;
      }
      err := true;
      Close();
    }

    method Next() returns (more: bool)
      requires Valid()
      modifies this, home, conn
      ensures Valid() && (View(), conn.link, more) == M.Next(old(View()), old(conn.link)) && PoolMoved()
    {
      if closed {
        return false;
      }
      columnIdx := 0;
      while true
        invariant Valid() && View() == old(View()).(columnIdx := 0) && home.View() == old(home.View())
        invariant M.NextMsg(View(), conn.link) == M.NextMsg(old(View()).(columnIdx := 0), old(conn.link))
        decreases |conn.link.incoming|
      {
        var e, failed := conn.RxMsg();
        if failed {
          Fatal();
          return false;
        }
        if e.ReadyForQuery? {
          conn.ReadFields(e.short);
          MarkClosed();
          return false;
        } else if e.DataRow? {
          conn.ReadFields(e.short);
          var fieldCount := if e.short then 0 else e.fieldCount;
          if fieldCount != fields {
            Fatal();
            return false;
          }
          return true;
        } else if !e.CommandComplete? && !e.BindComplete? {
          failed := conn.ProcessContextFree(e);
          if failed {
            Fatal();
            return false;
          }
        }
      }
    }

    method Scan(dest: seq<M.Decoding>) returns (failed: bool)
      requires Valid()
      modifies this, home, conn
      ensures Valid() && (View(), conn.link, failed) == M.Scan(old(View()), old(conn.link), dest) && PoolMoved()
    {
      if fields != |dest| {
        Fatal();
        return true;
      }
      var i := 0;
      while i < |dest|
        invariant 0 <= i <= |dest| && Valid() && home.View() == old(home.View()) && released == old(released)
        invariant M.ScanColumns(View(), conn.link, dest[i..]) == M.ScanColumns(old(View()), old(conn.link), dest)
      {
        assert dest[i..][1..] == dest[i + 1..];
        columnIdx := columnIdx + 1;
        conn.ReadFields(dest[i].stuck);
        if dest[i].failed {
          Fatal();
          return true;
        }
        i := i + 1;
      }
      failed := false;
    }

    /** (*Row).Scan, on the rows that QueryRow returned. */
    method RowScan(dest: seq<M.Decoding>)
      requires Valid()
      modifies this, home, conn
      ensures Valid() && (View(), conn.link) == M.RowScan(old(View()), old(conn.link), dest)
      ensures M.Inv(old(View())) ==> PoolMoved() && closed && released == 1
    {
      if M.Inv(old(View())) {
        M.RowScanReleases(old(View()), old(conn.link), dest);
      }
      if err {
        return;
      }
      ghost var r0, l0 := View(), conn.link;
      var more := Next();
      if !more {
        return;
      }
      var _ := Scan(dest);
      if M.Inv(r0) {
        M.ScannedInv(r0, l0, dest);
      }
      Close();
    }
  }

  /** ConnPool.Query on the connection that Acquire returned, if it did; the query is sent
      or fails. The pool itself releases what a failed query held. */
  method Query(home: P.ConnPool, conn: Conn, acquired: bool, sent: bool, fields: nat) returns (rows: Rows)
    modifies home
    ensures fresh(rows) && rows.Valid() && rows.home == home && rows.conn == conn
    ensures rows.View() == M.PoolQuery(acquired, sent, fields).0
    ensures home.View() == if M.PoolQuery(acquired, sent, fields).1 == 0 then old(home.View())
      else P.ReleaseStep(old(home.View()), conn.id, conn.link.alive)
  {
    if !acquired {
      rows := new Rows(home, conn, 0);
      rows.closed, rows.err := true, true;
      return;
    }
    rows := new Rows(home, conn, fields);
    if !sent {
      rows.Abort();
      home.Release(conn.id, conn.link.alive);
      return;
    }
    rows.pool := home;
  }

  datatype TxResult = ErrTxClosed | Ran(ok: bool)

  class Tx {
    const home: P.ConnPool
    const conn: Conn
    var pool: P.ConnPool?
    var closed: bool
    ghost var released: nat

    /** A transaction that ConnPool.Begin returns. */
    constructor (home: P.ConnPool, conn: Conn)
      ensures Valid() && View() == M.Tx(true, false, 0) && this.home == home && this.conn == conn
    {
      this.home, this.conn := home, conn;
      pool, closed, released := home, false, 0;
    }

    ghost predicate Valid()
      reads this
    {
      pool == null || pool == home
    }

    ghost function View(): M.Tx
      reads this
    {
      M.Tx(pool != null, closed, released)
    }

    twostate predicate PoolMoved()
      reads this, home, conn
    {
      if released == old(released) then home.View() == old(home.View())
      else home.View() == P.ReleaseStep(old(home.View()), conn.id, conn.link.alive)
    }

    method Close()
      requires Valid()
      modifies this, home
      ensures Valid() && View() == M.CloseTx(old(View())) && PoolMoved()
    {
      if pool != null {
        pool.Release(conn.id, conn.link.alive);
        pool := null;
        released := released + 1;
      }
      closed := true;
    }

    /** Commit; Exec leaves the connection as `after` and succeeds or not. */
    method Commit(after: M.Link, ok: bool) returns (r: TxResult)
      requires Valid()
      modifies this, home, conn
      ensures Valid() && (View(), r.ErrTxClosed?) == M.Finish(old(View())) && PoolMoved()
      ensures r == if old(closed) then ErrTxClosed else Ran(ok)
      ensures conn.link == if old(closed) then old(conn.link) else after
    {
      if closed {
        return ErrTxClosed;
      }
      conn.link := after;
      Close();
      r := Ran(ok);
    }

    /** Rollback, likewise. */
    method Rollback(after: M.Link, ok: bool) returns (r: TxResult)
      requires Valid()
      modifies this, home, conn
      ensures Valid() && (View(), r.ErrTxClosed?) == M.Finish(old(View())) && PoolMoved()
      ensures r == if old(closed) then ErrTxClosed else Ran(ok)
      ensures conn.link == if old(closed) then old(conn.link) else after
    {
      if closed {
        return ErrTxClosed;
      }
      conn.link := after;
      Close();
      r := Ran(ok);
    }
  }

  /** ConnPool.Begin on the connection that Acquire returned, if it did; the statement that
      begins leaves the connection as `after` and succeeds or not. When it fails the
      connection is neither released nor given to a transaction that would. */
  method Begin(home: P.ConnPool, conn: Conn, acquired: bool, after: M.Link, ok: bool) returns (tx: Tx?)
    modifies conn
    ensures tx != null <==> acquired && ok
    ensures tx != null ==> fresh(tx) && tx.Valid() && tx.View() == M.Tx(true, false, 0) && tx.home == home && tx.conn == conn
    ensures home.View() == old(home.View()) && conn.link == if acquired then after else old(conn.link)
  {
    if !acquired {
      return null;
    }
    conn.link := after;
    if !ok {
      return null;
    }
    tx := new Tx(home, conn);
  }

  /** A pool whose only connection was acquired for a begin that failed: it is not available
      any more, and Close waits. */
  method FailedBeginExample() returns (home: P.ConnPool, done: bool)
    ensures home.View() == P.Pool([0], [], 2, true) && !done
  {
    var failed;
    home, failed := P.ConnPool.NewConnPool(2, Some(0));
    var acquired := home.Acquire(None);
    var link := M.Link([], true, false, true);
    var conn := new Conn(0, link);
    var tx := Begin(home, conn, true, link, false);
    assert tx == null;
    var ended;
    done, ended := home.Close();
  }

  /** One end of a transaction: Commit or Rollback, and how its statement leaves the connection. */
  datatype End = End(commit: bool, after: M.Link, ok: bool)

  /** A transaction's whole life: the pool changes by one release, at its first end, exactly
      when it began and was ended at all. */
  method Transact(home: P.ConnPool, conn: Conn, acquired: bool, after: M.Link, ok: bool, ends: seq<End>)
    modifies home, conn
    ensures home.View() ==
      if acquired && ok && ends != [] then P.ReleaseStep(old(home.View()), conn.id, ends[0].after.alive)
      else old(home.View())
  {
    var tx := Begin(home, conn, acquired, after, ok);
    if tx != null {
      for i := 0 to |ends|
        invariant tx.Valid() && tx.home == home && tx.conn == conn && tx.closed == (i > 0)
        invariant home.View() ==
            if i > 0 then P.ReleaseStep(old(home.View()), conn.id, ends[0].after.alive) else old(home.View())
        invariant tx.View() == M.FinishAll(M.Tx(true, false, 0), i)
      {
        M.FinishedOnce(M.Tx(true, false, 0), i);
        M.FinishedOnce(M.Tx(true, false, 0), i + 1);
        M.FinishLast(M.Tx(true, false, 0), i);
        if ends[i].commit {
          var _ := tx.Commit(ends[i].after, ends[i].ok);
        } else {
          var _ := tx.Rollback(ends[i].after, ends[i].ok);
        }
      }
    }
  }
}
