/**
 * `Mapper` (`src/executor/mapper.rs`): look a statement up by its id for the driver's type and
 * run it through a session, shaping the answer by statement kind.
 *
 * The statement record and its kind, and the lookup `find_statement`, are not defined by the
 * registry this model has; they are supplied here as a datatype and a lookup function parameter.
 */
module Mappers {
  import opened Wrappers
  import opened Ints
  import opened Values
  import opened Errors
  import opened Render
  import opened Udbc
  import opened Exec
  import opened Sessions

  datatype StatementType = Select | Insert | Update | Delete | Sql

  /** A registered statement: its kind, its template text if any, and whether an insert reports the generated key. */
  datatype SqlStatement = SqlStatement(kind: StatementType, content: Option<string>, useGeneratedKeys: bool)

  /** The rows of a select as one value: a `List` of `Map`s, in row order. */
  function RowsValue(rows: seq<Row>): (v: Value)
    ensures v.List? && |v.items| == |rows|
    ensures forall i :: 0 <= i < |rows| ==> v.items[i] == Map(rows[i])
  {
    List(seq(|rows|, i requires 0 <= i < |rows| => Map(rows[i])))
  }

  /**
   * The answer of a found statement with template text, given the route its first call takes and
   * the rendered statement `sp`.
   */
  function Dispatch<R>(stmt: SqlStatement, route: Route, pool: Driver, sp: (string, Params),
                       fromValue: Value -> Result<R, DbError>): Result<R, DbError>
  {
    match stmt.kind
    case Select =>
      var rows := QueryOutcome(route, pool, sp);
      if rows.Err? then Err(rows.error) else fromValue(RowsValue(rows.value))
    case Insert =>
      var affected := ExecOutcome(route, pool, sp);
      if affected.Err? then Err(affected.error)
      else if stmt.useGeneratedKeys then
        var id := IdOutcome(Advance(route, ExecuteCall(sp.0, sp.1)), pool);
        if id.Err? then Err(id.error) else fromValue(I64(U64AsI64(id.value)))
      else fromValue(I64(U64AsI64(affected.value)))
    case _ =>
      var affected := ExecOutcome(route, pool, sp);
      if affected.Err? then Err(affected.error) else fromValue(I64(U64AsI64(affected.value)))
  }

  /**
   * Where the calls of a found statement leave its route: one query or statement, followed, for an
   * insert with generated keys whose statement succeeded, by a `last_insert_id`.
   */
  function AfterDispatch(stmt: SqlStatement, route: Route, pool: Driver, sp: (string, Params)): Route {
    match stmt.kind
    case Select => Advance(route, QueryCall(sp.0, sp.1))
    case Insert =>
      var after := Advance(route, ExecuteCall(sp.0, sp.1));
      if stmt.useGeneratedKeys && ExecOutcome(route, pool, sp).Ok? then Advance(after, LastInsertIdCall) else after
    case _ => Advance(route, ExecuteCall(sp.0, sp.1))
  }

  /** An insert with generated keys that succeeds makes two calls; every other statement makes one. */
  function DispatchCalls(stmt: SqlStatement, route: Route, pool: Driver, sp: (string, Params)): (cs: seq<Call>)
    ensures 1 <= |cs| <= 2
  {
    match stmt.kind
    case Select => [QueryCall(sp.0, sp.1)]
    case Insert =>
      if stmt.useGeneratedKeys && ExecOutcome(route, pool, sp).Ok? then [ExecuteCall(sp.0, sp.1), LastInsertIdCall]
      else [ExecuteCall(sp.0, sp.1)]
    case _ => [ExecuteCall(sp.0, sp.1)]
  }

  /**
   * Inside a transaction every call of a statement lands, in order, on the transaction's one
   * connection; outside one, each call acquires a connection of its own.
   */
  lemma DispatchRoutes(stmt: SqlStatement, route: Route, pool: Driver, sp: (string, Params))
    ensures route.InTx? ==>
      AfterDispatch(stmt, route, pool, sp) == InTx(route.db, route.id, route.log + DispatchCalls(stmt, route, pool, sp))
    ensures route.Fresh? ==>
      AfterDispatch(stmt, route, pool, sp) == Fresh(route.attempt + |DispatchCalls(stmt, route, pool, sp)|)
    ensures route.Closed? ==> AfterDispatch(stmt, route, pool, sp) == Closed
  {
    if route.InTx? && stmt.kind.Insert? && stmt.useGeneratedKeys && ExecOutcome(route, pool, sp).Ok? {
      assert route.log + [ExecuteCall(sp.0, sp.1)] + [LastInsertIdCall]
          == route.log + [ExecuteCall(sp.0, sp.1), LastInsertIdCall];
    }
  }

  /** `affected as i64`: a count of 2^63 or more reaches `from_value` as a negative `I64`. */
  function AsI64(v: Result<u64, DbError>): Result<Value, DbError> {
    if v.Err? then Err(v.error) else Ok(I64(U64AsI64(v.value)))
  }

  /** A select hands `from_value` one `List` holding every returned row as a `Map`, in order. */
  lemma SelectSeesAllRows<R>(stmt: SqlStatement, route: Route, pool: Driver, sp: (string, Params),
                             fromValue: Value -> Result<R, DbError>)
    requires stmt.kind.Select? && QueryOutcome(route, pool, sp).Ok?
    ensures var rows := QueryOutcome(route, pool, sp).value;
      exists v :: Dispatch(stmt, route, pool, sp, fromValue) == fromValue(v)
        && v.List? && |v.items| == |rows| && forall i :: 0 <= i < |rows| ==> v.items[i] == Map(rows[i])
  {
    var v := RowsValue(QueryOutcome(route, pool, sp).value);
    assert Dispatch(stmt, route, pool, sp, fromValue) == fromValue(v);
  }

  /** A failing query or statement is the mapper's error, whatever the statement kind. */
  lemma FirstCallErrorPropagates<R>(stmt: SqlStatement, route: Route, pool: Driver, sp: (string, Params),
                                    fromValue: Value -> Result<R, DbError>)
    ensures stmt.kind.Select? && QueryOutcome(route, pool, sp).Err? ==>
      Dispatch(stmt, route, pool, sp, fromValue) == Err(QueryOutcome(route, pool, sp).error)
    ensures !stmt.kind.Select? && ExecOutcome(route, pool, sp).Err? ==>
      Dispatch(stmt, route, pool, sp, fromValue) == Err(ExecOutcome(route, pool, sp).error)
  {
  }

  /** Update, delete, plain SQL and an insert without generated keys all report the affected count. */
  lemma CountKinds<R>(stmt: SqlStatement, route: Route, pool: Driver, sp: (string, Params),
                      fromValue: Value -> Result<R, DbError>)
    requires !stmt.kind.Select? && !(stmt.kind.Insert? && stmt.useGeneratedKeys)
    requires ExecOutcome(route, pool, sp).Ok?
    ensures Dispatch(stmt, route, pool, sp, fromValue) == fromValue(AsI64(ExecOutcome(route, pool, sp)).value)
  {
  }

  /** `use_generated_keys` matters only for an insert. */
  lemma KeysFlagOnlyForInsert<R>(stmt: SqlStatement, route: Route, pool: Driver, sp: (string, Params),
                                 fromValue: Value -> Result<R, DbError>)
    requires !stmt.kind.Insert?
    ensures Dispatch(stmt, route, pool, sp, fromValue)
         == Dispatch(stmt.(useGeneratedKeys := !stmt.useGeneratedKeys), route, pool, sp, fromValue)
  {
  }

  /**
   * Inside a transaction an insert with generated keys reports the id the same connection gives
   * right after executing the statement.
   */
  lemma GeneratedKeyInsideTx<R>(stmt: SqlStatement, db: Database, id: nat, log: seq<Call>, pool: Driver,
                                sp: (string, Params), fromValue: Value -> Result<R, DbError>)
    requires stmt.kind.Insert? && stmt.useGeneratedKeys && db.affected(id, log, sp.0, sp.1).Ok?
    ensures var k := db.insertId(id, log + [ExecuteCall(sp.0, sp.1)]);
      Dispatch(stmt, InTx(db, id, log), pool, sp, fromValue)
        == if k.Err? then Err(k.error) else fromValue(AsI64(k).value)
  {
  }

  /**
   * Outside a transaction the id is asked of a second, fresh connection on which nothing has
   * been executed; no transaction ties the two calls together.
   */
  lemma GeneratedKeyOutsideTx<R>(stmt: SqlStatement, n: nat, pool: Driver, sp: (string, Params),
                                 fromValue: Value -> Result<R, DbError>)
    requires stmt.kind.Insert? && stmt.useGeneratedKeys
    requires pool.refuse(n).None? && pool.db.affected(n, [], sp.0, sp.1).Ok? && pool.refuse(n + 1).None?
    ensures var k := pool.db.insertId(n + 1, []);
      Dispatch(stmt, Fresh(n), pool, sp, fromValue)
        == if k.Err? then Err(k.error) else fromValue(AsI64(k).value)
  {
  }

  /** A count of 2^63 or more is reported negative. */
  lemma LargeCountWraps<R>(stmt: SqlStatement, route: Route, pool: Driver, sp: (string, Params),
                           fromValue: Value -> Result<R, DbError>)
    requires stmt.kind.Update? && ExecOutcome(route, pool, sp).Ok? && ExecOutcome(route, pool, sp).value > I64_MAX
    ensures Dispatch(stmt, route, pool, sp, fromValue) == fromValue(I64(ExecOutcome(route, pool, sp).value - U64_LIMIT))
  {
  }

  /** The error of an id with no statement for this driver type. */
  function NotFound(sqlId: string): DbError {
    TemplateEngineError("SQL ID not found: " + sqlId)
  }

  /** The error of a statement without template text. */
  function NoContent(sqlId: string): DbError {
    TemplateEngineError("SQL content empty for " + sqlId)
  }

  class Mapper {
    const pool: Driver

    constructor (pool: Driver)
      ensures this.pool == pool
    {
      this.pool := pool;
    }

    /** `get_statement`: the statement for this id and the driver's type, or the not-found error. */
    function GetStatement(sqlId: string, find: (string, string) -> Option<SqlStatement>): (r: Result<SqlStatement, DbError>)
      ensures r.Err? <==> find(sqlId, pool.dbType).None?
      ensures r.Err? ==> r.error == NotFound(sqlId)
      ensures r.Ok? ==> r.value == find(sqlId, pool.dbType).value
    {
      match find(sqlId, pool.dbType)
      case None => Err(NotFound(sqlId))
      case Some(s) => Ok(s)
    }

    /**
     * `execute`: an unknown id or a statement without text fails before anything runs; otherwise
     * the statement runs through a new session over this pool, with `sqlId` as the template's
     * cache name, and its answer is shaped by the statement's kind.
     */
    method Execute<R>(env: Env, sqlId: string, args: Value, find: (string, string) -> Option<SqlStatement>,
                      fromValue: Value -> Result<R, DbError>)
      returns (r: Result<R, DbError>)
      modifies pool, env.templates, env.ConnAt(pool.name)
      ensures find(sqlId, pool.dbType).None? ==> r == Err(NotFound(sqlId))
      ensures find(sqlId, pool.dbType).Some? && find(sqlId, pool.dbType).value.content.None? ==> r == Err(NoContent(sqlId))
      ensures find(sqlId, pool.dbType).None? || find(sqlId, pool.dbType).value.content.None? ==>
        pool.attempts == old(pool.attempts) && env.templates.entries == old(env.templates.entries)
        && unchanged(env.ConnAt(pool.name))
      ensures find(sqlId, pool.dbType).Some? && find(sqlId, pool.dbType).value.content.Some? ==>
        var stmt := find(sqlId, pool.dbType).value;
        var sp := old(Rendered(pool.placeholder, env.templates.entries, sqlId, stmt.content.value, args, env.includeDepth));
        r == Dispatch(stmt, old(RouteFor(env, pool)), pool, sp, fromValue)
        && env.templates.entries == CacheAfter(old(RouteFor(env, pool)), pool, old(env.templates.entries), sqlId, stmt.content.value)
        && RouteFor(env, pool) == AfterDispatch(stmt, old(RouteFor(env, pool)), pool, sp)
        && pool.attempts == old(pool.attempts)
             + (if old(RouteFor(env, pool)).Fresh? then |DispatchCalls(stmt, old(RouteFor(env, pool)), pool, sp)| else 0)
    {
      var found := GetStatement(sqlId, find);
      if found.Err? {
        return Err(found.error);
      }
      var stmt := found.value;
      if stmt.content.None? {
        return Err(NoContent(sqlId));
      }
      var session := new Session(pool);
      r := Run(env, session, sqlId, stmt, args, fromValue);
    }

    /** The rest of `execute` once a statement with text is found: run it as its kind says. */
    method Run<R>(env: Env, session: Session, sqlId: string, stmt: SqlStatement, args: Value,
                  fromValue: Value -> Result<R, DbError>)
      returns (r: Result<R, DbError>)
      requires stmt.content.Some? && session.pool == pool
      modifies pool, env.templates, env.ConnAt(pool.name)
      ensures var sp := old(Rendered(pool.placeholder, env.templates.entries, sqlId, stmt.content.value, args, env.includeDepth));
        r == Dispatch(stmt, old(RouteFor(env, pool)), pool, sp, fromValue)
        && env.templates.entries == CacheAfter(old(RouteFor(env, pool)), pool, old(env.templates.entries), sqlId, stmt.content.value)
        && RouteFor(env, pool) == AfterDispatch(stmt, old(RouteFor(env, pool)), pool, sp)
        && pool.attempts == old(pool.attempts)
             + (if old(RouteFor(env, pool)).Fresh? then |DispatchCalls(stmt, old(RouteFor(env, pool)), pool, sp)| else 0)
    {
      var sql := stmt.content.value;
      match stmt.kind {
        case Select =>
          var rows := session.QueryRawNamed(env, sqlId, sql, args);
          if rows.Err? {
            return Err(rows.error);
          }
          r := fromValue(RowsValue(rows.value));
        case Insert =>
          r := RunInsert(env, session, sqlId, stmt, args, fromValue);
        case _ =>
          var affected := session.ExecuteNamed(env, sqlId, sql, args);
          if affected.Err? {
            return Err(affected.error);
          }
          r := fromValue(I64(U64AsI64(affected.value)));
      }
    }

    /** An insert: the statement, then, with generated keys and only if it succeeded, `last_insert_id`. */
    method RunInsert<R>(env: Env, session: Session, sqlId: string, stmt: SqlStatement, args: Value,
                        fromValue: Value -> Result<R, DbError>)
      returns (r: Result<R, DbError>)
      requires stmt.content.Some? && stmt.kind.Insert? && session.pool == pool
      modifies pool, env.templates, env.ConnAt(pool.name)
      ensures var sp := old(Rendered(pool.placeholder, env.templates.entries, sqlId, stmt.content.value, args, env.includeDepth));
        r == Dispatch(stmt, old(RouteFor(env, pool)), pool, sp, fromValue)
        && env.templates.entries == CacheAfter(old(RouteFor(env, pool)), pool, old(env.templates.entries), sqlId, stmt.content.value)
        && RouteFor(env, pool) == AfterDispatch(stmt, old(RouteFor(env, pool)), pool, sp)
        && pool.attempts == old(pool.attempts)
             + (if old(RouteFor(env, pool)).Fresh? then |DispatchCalls(stmt, old(RouteFor(env, pool)), pool, sp)| else 0)
    {
      var affected := session.ExecuteNamed(env, sqlId, stmt.content.value, args);
      if affected.Err? {
        return Err(affected.error);
      }
      if stmt.useGeneratedKeys {
        var id := session.LastInsertId(env);
        if id.Err? {
          return Err(id.error);
        }
        r := fromValue(I64(U64AsI64(id.value)));
      } else {
        r := fromValue(I64(U64AsI64(affected.value)));
      }
    }
  }
}
