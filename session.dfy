/**
 * `Session` (`src/executor/session.rs`): transactions kept per driver name in the thread's
 * transaction map, and the routing of `execute`, `query_raw` and `last_insert_id` to the
 * transaction's connection when one is active, or to a freshly acquired connection otherwise.
 *
 * The thread-local map and the process-wide template cache are passed explicitly as an `Env`;
 * every method is one sequential step on it.
 */
module Sessions {
  import opened Wrappers
  import opened Ints
  import opened Values
  import opened Errors
  import opened Render
  import opened Engine
  import opened Udbc
  import opened Transaction
  import opened Exec

  const CLOSED: string := "Transaction connection closed"

  /** The thread's view of the world: its transaction map (`TX_CONTEXT`) and the template cache. */
  class Env {
    var contexts: map<string, TransactionContext>
    const templates: TemplateCache
    /** How deep `<include>` is followed when rendering. */
    const includeDepth: nat

    constructor (templates: TemplateCache, includeDepth: nat)
      ensures contexts == map[] && this.templates == templates && this.includeDepth == includeDepth
    {
      contexts := map[];
      this.templates := templates;
      this.includeDepth := includeDepth;
    }

    /**
     * The invariant the session operations keep: every active transaction still holds its
     * connection and is unfinished, and no context is filed under two names.
     */
    ghost predicate Valid()
      reads this, contexts.Values
    {
      (forall k :: k in contexts ==> contexts[k].conn.Some? && !contexts[k].committed)
      && (forall k1, k2 :: k1 in contexts && k2 in contexts && k1 != k2 ==> contexts[k1] != contexts[k2])
    }

    /** The context filed under `key`, as a frame. */
    function CtxSet(key: string): set<object>
      reads this
    {
      if key in contexts then {contexts[key]} else {}
    }

    /** The connection of the context filed under `key`, as a frame. */
    function ConnAt(key: string): set<object>
      reads this, contexts.Values
    {
      if key in contexts then contexts[key].ConnSet() else {}
    }
  }

  /**
   * Where a routed call goes: an active transaction without a connection, the transaction's
   * connection (its database, identity and history), or the pool's n-th acquire.
   */
  datatype Route = Closed | InTx(db: Database, id: nat, log: seq<Call>) | Fresh(attempt: nat)

  /** The route the next call takes after one call `c` went along `route`. */
  function Advance(route: Route, c: Call): Route {
    match route
    case Closed => Closed
    case InTx(db, id, log) => InTx(db, id, log + [c])
    case Fresh(n) => Fresh(n + 1)
  }

  /** Whether a call along `route` reaches a connection. */
  predicate Connects(route: Route, pool: Driver) {
    route.InTx? || (route.Fresh? && pool.refuse(route.attempt).None?)
  }

  /** What `execute` returns along `route` for the rendered statement `sp`. */
  function ExecOutcome(route: Route, pool: Driver, sp: (string, Params)): (r: Result<u64, DbError>)
    ensures route.Closed? ==> r == Err(DbError(CLOSED))
    ensures route.Fresh? && pool.refuse(route.attempt).Some? ==> r == Err(pool.refuse(route.attempt).value)
  {
    match route
    case Closed => Err(DbError(CLOSED))
    case InTx(db, id, log) => db.affected(id, log, sp.0, sp.1)
    case Fresh(n) => if pool.refuse(n).Some? then Err(pool.refuse(n).value) else pool.db.affected(n, [], sp.0, sp.1)
  }

  /** What `query_raw` returns along `route` for the rendered query `sp`. */
  function QueryOutcome(route: Route, pool: Driver, sp: (string, Params)): (r: Result<seq<Row>, DbError>)
    ensures route.Closed? ==> r == Err(DbError(CLOSED))
    ensures route.Fresh? && pool.refuse(route.attempt).Some? ==> r == Err(pool.refuse(route.attempt).value)
  {
    match route
    case Closed => Err(DbError(CLOSED))
    case InTx(db, id, log) => db.rows(id, log, sp.0, sp.1)
    case Fresh(n) => if pool.refuse(n).Some? then Err(pool.refuse(n).value) else pool.db.rows(n, [], sp.0, sp.1)
  }

  /** What `last_insert_id` returns along `route`. */
  function IdOutcome(route: Route, pool: Driver): (r: Result<u64, DbError>)
    ensures route.Closed? ==> r == Err(DbError(CLOSED))
    ensures route.Fresh? && pool.refuse(route.attempt).Some? ==> r == Err(pool.refuse(route.attempt).value)
  {
    match route
    case Closed => Err(DbError(CLOSED))
    case InTx(db, id, log) => db.insertId(id, log)
    case Fresh(n) => if pool.refuse(n).Some? then Err(pool.refuse(n).value) else pool.db.insertId(n, [])
  }

  /** The cache after a routed call: the template is looked up only once a connection is in hand. */
  function CacheAfter(route: Route, pool: Driver, entries: Cache, name: string, sql: string): Cache {
    if Connects(route, pool) then Cached(entries, name, sql) else entries
  }

  /** Where a routed call over `pool` goes now. */
  function RouteFor(env: Env, pool: Driver): Route
    reads env, env.contexts.Values, env.ConnAt(pool.name), pool
  {
    if pool.name in env.contexts then
      var ctx := env.contexts[pool.name];
      if ctx.conn.Some? then InTx(ctx.conn.value.db, ctx.conn.value.id, ctx.conn.value.log) else Closed
    else Fresh(pool.attempts)
  }

  class Session {
    const pool: Driver

    constructor (pool: Driver)
      ensures this.pool == pool
    {
      this.pool := pool;
    }

    /** `is_transaction_active`: the map has an entry under the driver's name. */
    predicate IsTransactionActive(env: Env)
      reads env
    {
      pool.name in env.contexts
    }

    /**
     * `begin`: refused while the name has an entry; otherwise a transaction is begun and filed
     * under the name only if that succeeds.
     */
    method Begin(env: Env) returns (r: Result<(), DbError>)
      modifies env, pool
      ensures pool.name in old(env.contexts) ==>
        r == Err(DbError("Transaction already started for '" + pool.name + "'"))
        && env.contexts == old(env.contexts) && pool.attempts == old(pool.attempts)
      ensures pool.name !in old(env.contexts) ==>
        pool.attempts == old(pool.attempts) + 1
        && (r.Err? <==> BeginOutcome(pool, old(pool.attempts)).Err?)
        && (r.Err? ==> r.error == BeginOutcome(pool, old(pool.attempts)).error)
      ensures r.Err? ==> env.contexts == old(env.contexts)
      ensures r.Ok? ==> pool.name in env.contexts && env.contexts == old(env.contexts)[pool.name := env.contexts[pool.name]]
      ensures r.Ok? ==> var ctx := env.contexts[pool.name];
        fresh(ctx) && !ctx.committed && ctx.conn.Some? && fresh(ctx.conn.value)
        && ctx.conn.value.id == old(pool.attempts) && ctx.conn.value.db == pool.db && ctx.conn.value.log == [BeginCall]
      ensures old(env.Valid()) ==> env.Valid()
    {
      var key := pool.name;
      if key in env.contexts {
        return Err(DbError("Transaction already started for '" + key + "'"));
      }
      var ctx := TransactionContext.Begin(pool);
      if ctx.Err? {
        return Err(ctx.error);
      }
      env.contexts := env.contexts[key := ctx.value];
      r := Ok(());
    }

    /**
     * `commit`: with no entry, `Ok` and nothing changes. Otherwise the context commits; success
     * removes the entry, failure returns the error and keeps it.
     */
    method Commit(env: Env) returns (r: Result<(), DbError>)
      modifies env, env.CtxSet(pool.name), env.ConnAt(pool.name)
      ensures pool.name !in old(env.contexts) ==> r == Ok(()) && env.contexts == old(env.contexts)
      ensures pool.name in old(env.contexts) ==> r == old(env.contexts[pool.name].Reply(CommitCall))
      ensures pool.name in old(env.contexts) ==>
        env.contexts == if r.Ok? then old(env.contexts) - {pool.name} else old(env.contexts)
      ensures pool.name in old(env.contexts) ==> var ctx := old(env.contexts[pool.name]);
        ctx.committed == (r.Ok? || old(ctx.committed)) && ctx.conn == old(ctx.conn)
        && (ctx.conn.Some? ==> ctx.conn.value.log == old(ctx.conn.value.log) + [CommitCall])
      ensures old(env.Valid()) ==> env.Valid()
    {
      var key := pool.name;
      if key !in env.contexts {
        return Ok(());
      }
      var ctx := env.contexts[key];
      r := ctx.Commit();
      if r.Err? {
        return;
      }
      env.contexts := env.contexts - {key};
    }

    /** `rollback`: as `commit`, with a rollback on the transaction's connection. */
    method Rollback(env: Env) returns (r: Result<(), DbError>)
      modifies env, env.CtxSet(pool.name), env.ConnAt(pool.name)
      ensures pool.name !in old(env.contexts) ==> r == Ok(()) && env.contexts == old(env.contexts)
      ensures pool.name in old(env.contexts) ==> r == old(env.contexts[pool.name].Reply(RollbackCall))
      ensures pool.name in old(env.contexts) ==>
        env.contexts == if r.Ok? then old(env.contexts) - {pool.name} else old(env.contexts)
      ensures pool.name in old(env.contexts) ==> var ctx := old(env.contexts[pool.name]);
        ctx.committed == (r.Ok? || old(ctx.committed)) && ctx.conn == old(ctx.conn)
        && (ctx.conn.Some? ==> ctx.conn.value.log == old(ctx.conn.value.log) + [RollbackCall])
      ensures old(env.Valid()) ==> env.Valid()
    {
      var key := pool.name;
      if key !in env.contexts {
        return Ok(());
      }
      var ctx := env.contexts[key];
      r := ctx.Rollback();
      if r.Err? {
        return;
      }
      env.contexts := env.contexts - {key};
    }

    /**
     * The connection a routed call uses: the transaction's (or the closed-connection error) when
     * the name has an entry, else the result of a fresh `acquire`.
     */
    method ConnectionFor(env: Env) returns (c: Result<Connection, DbError>)
      modifies pool
      ensures pool.attempts == old(pool.attempts) + (if old(RouteFor(env, pool)).Fresh? then 1 else 0)
      ensures old(RouteFor(env, pool)).Closed? ==> c == Err(DbError(CLOSED))
      ensures old(RouteFor(env, pool)).InTx? ==> c == Ok(env.contexts[pool.name].conn.value)
      ensures old(RouteFor(env, pool)).Fresh? && pool.refuse(old(pool.attempts)).Some? ==> c == Err(pool.refuse(old(pool.attempts)).value)
      ensures old(RouteFor(env, pool)).Fresh? && pool.refuse(old(pool.attempts)).None? ==>
        c.Ok? && fresh(c.value) && c.value.id == old(pool.attempts) && c.value.db == pool.db && c.value.log == []
    {
      var key := pool.name;
      if key in env.contexts {
        var ctx := env.contexts[key];
        var conn := ctx.ConnectionMut();
        if conn.Some? {
          c := Ok(conn.value);
        } else {
          c := Err(DbError(CLOSED));
        }
      } else {
        c := pool.Acquire();
      }
    }

    /**
     * `execute` of a named template: the transaction's connection or a fresh one executes the
     * rendered statement; the pool is asked for a connection only outside a transaction.
     */
    method ExecuteNamed(env: Env, name: string, sql: string, args: Value) returns (r: Result<u64, DbError>)
      modifies pool, env.templates, env.ConnAt(pool.name)
      ensures var sp := old(Rendered(pool.placeholder, env.templates.entries, name, sql, args, env.includeDepth));
        r == ExecOutcome(old(RouteFor(env, pool)), pool, sp)
        && RouteFor(env, pool) == Advance(old(RouteFor(env, pool)), ExecuteCall(sp.0, sp.1))
      ensures pool.attempts == old(pool.attempts) + (if old(RouteFor(env, pool)).Fresh? then 1 else 0)
      ensures env.templates.entries == CacheAfter(old(RouteFor(env, pool)), pool, old(env.templates.entries), name, sql)
    {
      var c := ConnectionFor(env);
      if c.Err? {
        return Err(c.error);
      }
      r := ExecuteConn(c.value, pool, env.templates, env.includeDepth, name, sql, args);
    }

    /** `query_raw` of a named template, routed as `execute` is. */
    method QueryRawNamed(env: Env, name: string, sql: string, args: Value) returns (r: Result<seq<Row>, DbError>)
      modifies pool, env.templates, env.ConnAt(pool.name)
      ensures var sp := old(Rendered(pool.placeholder, env.templates.entries, name, sql, args, env.includeDepth));
        r == QueryOutcome(old(RouteFor(env, pool)), pool, sp)
        && RouteFor(env, pool) == Advance(old(RouteFor(env, pool)), QueryCall(sp.0, sp.1))
      ensures pool.attempts == old(pool.attempts) + (if old(RouteFor(env, pool)).Fresh? then 1 else 0)
      ensures env.templates.entries == CacheAfter(old(RouteFor(env, pool)), pool, old(env.templates.entries), name, sql)
    {
      var c := ConnectionFor(env);
      if c.Err? {
        return Err(c.error);
      }
      r := QueryConn(c.value, pool, env.templates, env.includeDepth, name, sql, args);
    }

    /** `execute`: the SQL text is also the template's cache name. */
    method Execute(env: Env, sql: string, args: Value) returns (r: Result<u64, DbError>)
      modifies pool, env.templates, env.ConnAt(pool.name)
      ensures var sp := old(Rendered(pool.placeholder, env.templates.entries, sql, sql, args, env.includeDepth));
        r == ExecOutcome(old(RouteFor(env, pool)), pool, sp)
        && RouteFor(env, pool) == Advance(old(RouteFor(env, pool)), ExecuteCall(sp.0, sp.1))
      ensures pool.attempts == old(pool.attempts) + (if old(RouteFor(env, pool)).Fresh? then 1 else 0)
      ensures env.templates.entries == CacheAfter(old(RouteFor(env, pool)), pool, old(env.templates.entries), sql, sql)
    {
      r := ExecuteNamed(env, sql, sql, args);
    }

    /** `query_raw`: the SQL text is also the template's cache name. */
    method QueryRaw(env: Env, sql: string, args: Value) returns (r: Result<seq<Row>, DbError>)
      modifies pool, env.templates, env.ConnAt(pool.name)
      ensures var sp := old(Rendered(pool.placeholder, env.templates.entries, sql, sql, args, env.includeDepth));
        r == QueryOutcome(old(RouteFor(env, pool)), pool, sp)
        && RouteFor(env, pool) == Advance(old(RouteFor(env, pool)), QueryCall(sp.0, sp.1))
      ensures pool.attempts == old(pool.attempts) + (if old(RouteFor(env, pool)).Fresh? then 1 else 0)
      ensures env.templates.entries == CacheAfter(old(RouteFor(env, pool)), pool, old(env.templates.entries), sql, sql)
    {
      r := QueryRawNamed(env, sql, sql, args);
    }

    /** `query`: `query_raw`, then every row through `from_value`. */
    method Query<R>(env: Env, sql: string, args: Value, fromValue: Value -> Result<R, DbError>)
      returns (r: Result<seq<R>, DbError>)
      modifies pool, env.templates, env.ConnAt(pool.name)
      ensures var sp := old(Rendered(pool.placeholder, env.templates.entries, sql, sql, args, env.includeDepth));
        var rows := QueryOutcome(old(RouteFor(env, pool)), pool, sp);
        r == (if rows.Err? then Err(rows.error) else MapRows(rows.value, fromValue))
        && RouteFor(env, pool) == Advance(old(RouteFor(env, pool)), QueryCall(sp.0, sp.1))
      ensures pool.attempts == old(pool.attempts) + (if old(RouteFor(env, pool)).Fresh? then 1 else 0)
      ensures env.templates.entries == CacheAfter(old(RouteFor(env, pool)), pool, old(env.templates.entries), sql, sql)
    {
      var rows := QueryRaw(env, sql, args);
      if rows.Err? {
        return Err(rows.error);
      }
      r := MapRows(rows.value, fromValue);
    }

    /** `last_insert_id`, routed as `execute` is: outside a transaction it asks a fresh connection. */
    method LastInsertId(env: Env) returns (r: Result<u64, DbError>)
      modifies pool, env.ConnAt(pool.name)
      ensures r == IdOutcome(old(RouteFor(env, pool)), pool)
      ensures RouteFor(env, pool) == Advance(old(RouteFor(env, pool)), LastInsertIdCall)
      ensures pool.attempts == old(pool.attempts) + (if old(RouteFor(env, pool)).Fresh? then 1 else 0)
    {
      var c := ConnectionFor(env);
      if c.Err? {
        return Err(c.error);
      }
      r := c.value.LastInsertId();
    }
  }

  /** While the invariant holds, an active transaction always has its connection to route to. */
  lemma ValidNeverClosed(env: Env, s: Session)
    requires env.Valid()
    ensures s.IsTransactionActive(env) ==> RouteFor(env, s.pool).InTx?
    ensures !s.IsTransactionActive(env) ==> RouteFor(env, s.pool).Fresh?
  {
  }

  /** The map is keyed by name: two sessions over drivers of the same name share one transaction. */
  lemma SharedByName(env: Env, s1: Session, s2: Session)
    requires s1.pool.name == s2.pool.name
    ensures s1.IsTransactionActive(env) == s2.IsTransactionActive(env)
    ensures RouteFor(env, s1.pool).InTx? ==> RouteFor(env, s2.pool) == RouteFor(env, s1.pool)
  {
  }

  /**
   * Outside a transaction, a statement and a following `last_insert_id` go to two different
   * acquires, so the id is asked of a connection on which nothing has been executed.
   */
  lemma IdAfterExecuteOutside(pool: Driver, n: nat, sp: (string, Params))
    requires pool.refuse(n).None? && pool.refuse(n + 1).None?
    ensures IdOutcome(Advance(Fresh(n), ExecuteCall(sp.0, sp.1)), pool) == pool.db.insertId(n + 1, [])
  {
  }

  /** Inside a transaction, `last_insert_id` is asked of the connection that executed the statement, after it. */
  lemma IdAfterExecuteInside(db: Database, id: nat, log: seq<Call>, pool: Driver, sp: (string, Params))
    ensures IdOutcome(Advance(InTx(db, id, log), ExecuteCall(sp.0, sp.1)), pool) == db.insertId(id, log + [ExecuteCall(sp.0, sp.1)])
  {
  }
}
