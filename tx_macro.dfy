/**
 * The `#[transaction]` attribute (`uorm-macros/src/transaction.rs`): reading its
 * `database = "..."` argument, and the block it wraps around a function body, which begins a
 * transaction only when none is active for that database, then commits on success or rolls back
 * on failure.
 *
 * The wrapped body is represented by its result; what the body does to the database in between
 * goes through the same session and is not part of this model. The result type is a `Result`
 * whose error is the crate's error, so `from_db_error(e)` is `Err(e)` and `is_ok` is `Ok?`.
 */
module TransactionMacro {
  import opened Wrappers
  import opened Errors
  import opened Udbc
  import opened Transaction
  import opened Sessions
  import opened Mappers
  import opened DriverManagers

  /** The right-hand side of a `key = value` argument. */
  datatype MetaValue = LitStr(s: string) | OtherLit | OtherExpr

  /** One attribute argument: `path = value`, a bare path, or `path(...)`; a path is its segments. */
  datatype Meta = NameValue(path: seq<string>, value: MetaValue) | PathMeta(path: seq<string>) | ListMeta(path: seq<string>)

  /** `database = "<name>"` with a single-segment path. */
  predicate NamesDatabase(m: Meta) {
    m.NameValue? && |m.path| == 1 && m.path[0] == "database" && m.value.LitStr?
  }

  /** The database the arguments name: the last `database = "..."`; every other argument is ignored. */
  function DatabaseArg(metas: seq<Meta>): Option<string>
    decreases |metas|
  {
    if metas == [] then None
    else
      var m := metas[|metas| - 1];
      if NamesDatabase(m) then Some(m.value.s) else DatabaseArg(metas[..|metas| - 1])
  }

  /** `TransactionArgs::parse`: one pass over the arguments, each `database = "..."` overwriting the last. */
  method ParseArgs(metas: seq<Meta>) returns (database: Option<string>)
    ensures database == DatabaseArg(metas)
  {
    database := None;
    for i := 0 to |metas|
      invariant database == DatabaseArg(metas[..i])
    {
      var m := metas[i];
      assert metas[..i + 1][..i] == metas[..i];
      if m.NameValue? && |m.path| == 1 && m.path[0] == "database" && m.value.LitStr? {
        database := Some(m.value.s);
      }
    }
    assert metas[..|metas|] == metas;
  }

  /** The driver name the wrapper uses: the argument, else `"default"`. */
  function DbName(database: Option<string>): string {
    database.UnwrapOr("default")
  }

  /** Without a `database = "..."` argument the wrapper uses the driver `"default"`. */
  lemma {:induction false} DefaultDatabase(metas: seq<Meta>)
    requires forall i :: 0 <= i < |metas| ==> !NamesDatabase(metas[i])
    ensures DatabaseArg(metas) == None && DbName(DatabaseArg(metas)) == "default"
    decreases |metas|
  {
    if metas != [] {
      var init := metas[..|metas| - 1];
      assert forall i :: 0 <= i < |init| ==> init[i] == metas[i];
      DefaultDatabase(init);
    }
  }

  /** The last `database = "..."` argument decides, whatever comes after it. */
  lemma {:induction false} LastDatabaseWins(metas: seq<Meta>, k: nat)
    requires k < |metas| && NamesDatabase(metas[k])
    requires forall j :: k < j < |metas| ==> !NamesDatabase(metas[j])
    ensures DatabaseArg(metas) == Some(metas[k].value.s)
    decreases |metas|
  {
    if k < |metas| - 1 {
      var init := metas[..|metas| - 1];
      assert forall j :: 0 <= j < |init| ==> init[j] == metas[j];
      LastDatabaseWins(init, k);
    }
  }

  /** An argument that is not a string `database` is ignored wherever it stands. */
  lemma {:induction false} OthersIgnored(a: seq<Meta>, m: Meta, b: seq<Meta>)
    requires !NamesDatabase(m)
    ensures DatabaseArg(a + [m] + b) == DatabaseArg(a + b)
    decreases |b|
  {
    if b == [] {
      assert a + [m] + b == a + [m];
      assert (a + [m])[..|a|] == a;
      assert a + b == a;
    } else {
      var b0 := b[..|b| - 1];
      assert (a + [m] + b)[..|a + [m] + b| - 1] == a + [m] + b0;
      assert (a + b)[..|a + b| - 1] == a + b0;
      OthersIgnored(a, m, b0);
    }
  }

  /**
   * The generated block: look up the mapper of the database (the program stops when there is
   * none), start a transaction only if none is active for its driver name, run the body, and,
   * if this block started the transaction, commit after success or roll back after failure.
   * `ran` tells whether the body ran.
   */
  method Transactional<T>(manager: DriverManager, env: Env, database: Option<string>, body: Result<T, DbError>)
    returns (r: Result<T, DbError>, ran: bool)
    requires DbName(database) in manager.pools
    modifies env, manager.pools[DbName(database)]
    modifies env.CtxSet(manager.pools[DbName(database)].name), env.ConnAt(manager.pools[DbName(database)].name)
    ensures var pool := manager.pools[DbName(database)];
      pool.name in old(env.contexts) ==>
        r == body && ran && env.contexts == old(env.contexts) && pool.attempts == old(pool.attempts)
        && unchanged(env.CtxSet(pool.name)) && unchanged(env.ConnAt(pool.name))
    ensures var pool := manager.pools[DbName(database)];
      pool.name !in old(env.contexts) && BeginOutcome(pool, old(pool.attempts)).Err? ==>
        r == Err(BeginOutcome(pool, old(pool.attempts)).error) && !ran && env.contexts == old(env.contexts)
    ensures var pool := manager.pools[DbName(database)]; var n := old(pool.attempts);
      pool.name !in old(env.contexts) && BeginOutcome(pool, n).Ok? ==>
        var finish := pool.db.control(n, [BeginCall], if body.Ok? then CommitCall else RollbackCall);
        ran
        && r == (if body.Ok? && finish.Err? then Err(finish.error) else body)
        && (pool.name in env.contexts <==> finish.Err?)
        && env.contexts - {pool.name} == old(env.contexts)
    ensures old(env.Valid()) ==> env.Valid()
  {
    var mapper := manager.MapperByName(DbName(database));
    var session := new Session(mapper.value.pool);
    var active := session.IsTransactionActive(env);
    if active {
      return body, true;
    }
    r, ran := InNewTransaction(session, env, body);
  }

  /** No transaction is active: begin one, run the body, then commit after success or roll back after failure. */
  method InNewTransaction<T>(session: Session, env: Env, body: Result<T, DbError>)
    returns (r: Result<T, DbError>, ran: bool)
    requires session.pool.name !in env.contexts
    modifies env, session.pool, env.CtxSet(session.pool.name), env.ConnAt(session.pool.name)
    ensures var pool := session.pool;
      BeginOutcome(pool, old(pool.attempts)).Err? ==>
        r == Err(BeginOutcome(pool, old(pool.attempts)).error) && !ran && env.contexts == old(env.contexts)
    ensures var pool := session.pool; var n := old(pool.attempts);
      BeginOutcome(pool, n).Ok? ==>
        var finish := pool.db.control(n, [BeginCall], if body.Ok? then CommitCall else RollbackCall);
        ran
        && r == (if body.Ok? && finish.Err? then Err(finish.error) else body)
        && (pool.name in env.contexts <==> finish.Err?)
        && env.contexts - {pool.name} == old(env.contexts)
    ensures old(env.Valid()) ==> env.Valid()
  {
    var b := session.Begin(env);
    if b.Err? {
      return Err(b.error), false;
    }
    ran := true;
    r := body;
    if r.Ok? {
      var c := session.Commit(env);
      if c.Err? {
        return Err(c.error), true;
      }
    } else {
      var _ := session.Rollback(env);
    }
  }
}
