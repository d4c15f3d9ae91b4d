/**
 * `TransactionContext` (`src/executor/transaction.rs`): the connection a transaction runs on and
 * whether it has been finished. The connection is set once, by `begin`, and only `drop` takes it.
 */
module Transaction {
  import opened Wrappers
  import opened Errors
  import opened Udbc

  /** What `begin` reports for the n-th acquire of a driver: the acquire's error, else `begin`'s answer. */
  function BeginOutcome(pool: Driver, n: nat): (r: Result<(), DbError>)
    ensures pool.refuse(n).Some? ==> r == Err(pool.refuse(n).value)
    ensures pool.refuse(n).None? ==> r == pool.db.control(n, [], BeginCall)
  {
    if pool.refuse(n).Some? then Err(pool.refuse(n).value) else pool.db.control(n, [], BeginCall)
  }

  class TransactionContext {
    var conn: Option<Connection>
    var committed: bool

    constructor (c: Connection)
      ensures conn == Some(c) && !committed
    {
      conn := Some(c);
      committed := false;
    }

    /** The connection, as a frame. */
    function ConnSet(): set<object>
      reads this
    {
      if conn.Some? then {conn.value} else {}
    }

    /** The answer a control call would get now: the connection's, or `Ok` when there is none. */
    function Reply(c: Call): Result<(), DbError>
      reads this, ConnSet()
    {
      if conn.Some? then conn.value.db.control(conn.value.id, conn.value.log, c) else Ok(())
    }

    /**
     * `begin`: acquire a connection and begin on it. Either step's error is returned and no
     * context exists; otherwise the context holds that fresh connection, not yet committed.
     */
    static method Begin(pool: Driver) returns (r: Result<TransactionContext, DbError>)
      modifies pool
      ensures pool.attempts == old(pool.attempts) + 1
      ensures r.Err? <==> BeginOutcome(pool, old(pool.attempts)).Err?
      ensures r.Err? ==> r.error == BeginOutcome(pool, old(pool.attempts)).error
      ensures r.Ok? ==> fresh(r.value) && !r.value.committed && r.value.conn.Some?
      ensures r.Ok? ==> var c := r.value.conn.value;
        fresh(c) && c.id == old(pool.attempts) && c.db == pool.db && c.log == [BeginCall]
    {
      var a := pool.Acquire();
      if a.Err? {
        return Err(a.error);
      }
      var c := a.value;
      var b := c.Control(BeginCall);
      if b.Err? {
        return Err(b.error);
      }
      var ctx := new TransactionContext(c);
      r := Ok(ctx);
    }

    /**
     * `commit`: commit on the connection if there is one. A failure is returned with `committed`
     * unchanged; success, or no connection, sets it. The connection stays in place.
     */
    method Commit() returns (r: Result<(), DbError>)
      modifies this, ConnSet()
      ensures r == old(Reply(CommitCall))
      ensures conn == old(conn)
      ensures committed == (r.Ok? || old(committed))
      ensures conn.Some? ==> conn.value.log == old(conn.value.log) + [CommitCall]
    {
      if conn.Some? {
        var c := conn.value;
        r := c.Control(CommitCall);
        if r.Err? {
          return;
        }
      } else {
        r := Ok(());
      }
      committed := true;
    }

    /** `rollback`: roll back on the connection if there is one; `committed` is set only on success. */
    method Rollback() returns (r: Result<(), DbError>)
      modifies this, ConnSet()
      ensures r == old(Reply(RollbackCall))
      ensures conn == old(conn)
      ensures committed == (r.Ok? || old(committed))
      ensures conn.Some? ==> conn.value.log == old(conn.value.log) + [RollbackCall]
    {
      if conn.Some? {
        var c := conn.value;
        r := c.Control(RollbackCall);
      } else {
        r := Ok(());
      }
      if r.Ok? {
        committed := true;
      }
    }

    /** `connection_mut`. */
    function ConnectionMut(): Option<Connection>
      reads this
    {
      conn
    }

    /**
     * `drop`: a context that was neither committed nor rolled back gives its connection up to one
     * rollback, whose answer is discarded; any other context is left as it is.
     */
    method Drop()
      modifies this, ConnSet()
      ensures committed == old(committed)
      ensures old(!committed && conn.Some?) ==> conn.None? && old(conn.value).log == old(conn.value.log) + [RollbackCall]
      ensures old(committed || conn.None?) ==> conn == old(conn) && unchanged(ConnSet())
    {
      if !committed && conn.Some? {
        var c := conn.value;
        conn := None;
        var _ := c.Control(RollbackCall);
      }
    }
  }
}
