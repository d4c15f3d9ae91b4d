/**
 * The SQLite driver's configuration side (`src/udbc/sqlite/pool.rs`): reading the connection
 * URL into a target, the by-value builder, the not-built check of `acquire`, and the constant
 * placeholder and type name. Opening the database file is not part of this model.
 */
module SqlitePool {
  import opened Wrappers
  import opened Strings
  import opened Errors
  import opened TemplateAst
  import opened RenderContext
  import opened Render

  const SQLITE_TYPE: string := "sqlite"
  const DEFAULT_DB_NAME: string := "default"
  const NOT_BUILT: string := "Driver not built (target missing). Call build() after new()."

  /** Where the database lives. */
  datatype SqliteTarget = Memory | Path(path: string)

  /** `url.strip_prefix("sqlite://")`, else `strip_prefix("sqlite:")`, else the URL itself. */
  function StripScheme(url: string): (r: string)
    ensures StartsWith(url, "sqlite://") ==> r == url[9..]
    ensures !StartsWith(url, "sqlite://") && StartsWith(url, "sqlite:") ==> r == url[7..]
    ensures !StartsWith(url, "sqlite:") ==> r == url
  {
    if StartsWith(url, "sqlite://") then url[9..]
    else if StartsWith(url, "sqlite:") then url[7..]
    else url
  }

  /** `SqliteTarget::from_str`. */
  function ParseTarget(url: string): (r: Result<SqliteTarget, DbError>)
    ensures r.Err? <==> Trim(StripScheme(Trim(url))) == []
    ensures r.Err? ==> r.error == DbUrlError(Trim(url))
    ensures r == Ok(Memory) <==> Trim(StripScheme(Trim(url))) == ":memory:"
    ensures r.Ok? && r.value.Path? ==> r.value.path == Trim(StripScheme(Trim(url)))
  {
    var u := Trim(url);
    var path := Trim(StripScheme(u));
    if path == [] then Err(DbUrlError(u))
    else if path == ":memory:" then Ok(Memory)
    else Ok(Path(path))
  }

  lemma TrimIdempotent(s: string)
    ensures Trim(Trim(s)) == Trim(s)
  {
    var r := Trim(s);
    assert TrimStart(r) == r;
    assert TrimEnd(r) == r;
  }

  /** `sqlite::memory:` names the in-memory database. */
  lemma MemoryUrl()
    ensures ParseTarget("sqlite::memory:") == Ok(Memory)
  {
    var u := "sqlite::memory:";
    assert Trim(u) == u by {
      assert TrimStart(u) == u;
      assert TrimEnd(u) == u;
    }
    assert !StartsWith(u, "sqlite://") by { assert u[..9][7] == ':' != "sqlite://"[7]; }
    assert StartsWith(u, "sqlite:") by { assert u[..7] == "sqlite:"; }
    var p := u[7..];
    assert p == ":memory:";
    assert Trim(p) == p by {
      assert TrimStart(p) == p;
      assert TrimEnd(p) == p;
    }
  }

  /** A URL without a scheme is, trimmed, the path itself. */
  lemma NoSchemeIsPath(url: string)
    requires !StartsWith(Trim(url), "sqlite:") && Trim(url) != [] && Trim(url) != ":memory:"
    ensures ParseTarget(url) == Ok(Path(Trim(url)))
  {
    TrimIdempotent(url);
  }

  /** A scheme with nothing but whitespace after it is refused with the trimmed URL. */
  lemma EmptyPathRefused(url: string)
    requires Trim(url) == "sqlite://"
    ensures ParseTarget(url) == Err(DbUrlError("sqlite://"))
  {
    var u := Trim(url);
    assert StartsWith(u, "sqlite://");
    assert u[9..] == [];
  }

  /** The pool options the driver reads: only the busy timeout in seconds matters here. */
  datatype PoolOptions = PoolOptions(maxOpenConns: nat, maxIdleConns: nat, maxLifetime: nat, timeout: nat)

  /** `SqliteDriver`: configuration kept by value; `target` is set by `build`. */
  datatype SqliteDriver = SqliteDriver(url: string, name: string, options: Option<PoolOptions>, target: Option<SqliteTarget>)

  /** `SqliteDriver::new`: the default name, no options, not built. */
  function NewDriver(url: string): (d: SqliteDriver)
    ensures d.name == DEFAULT_DB_NAME && d.url == url && d.options.None? && d.target.None?
  {
    SqliteDriver(url, DEFAULT_DB_NAME, None, None)
  }

  /** `name(..)`: the same driver under another name. */
  function WithName(d: SqliteDriver, name: string): (r: SqliteDriver)
    ensures r.name == name && r.url == d.url && r.options == d.options && r.target == d.target
  {
    d.(name := name)
  }

  /** `options(..)`. */
  function WithOptions(d: SqliteDriver, o: PoolOptions): (r: SqliteDriver)
    ensures r.options == Some(o) && r.url == d.url && r.name == d.name && r.target == d.target
  {
    d.(options := Some(o))
  }

  /** `build`: fails exactly when the URL does not parse; otherwise records the target. */
  function Build(d: SqliteDriver): (r: Result<SqliteDriver, DbError>)
    ensures r.Err? <==> ParseTarget(d.url).Err?
    ensures r.Err? ==> r.error == ParseTarget(d.url).error
    ensures r.Ok? ==> r.value == d.(target := Some(ParseTarget(d.url).value))
  {
    match ParseTarget(d.url)
    case Err(e) => Err(e)
    case Ok(t) => Ok(d.(target := Some(t)))
  }

  /**
   * The checks `acquire` makes before opening a connection: the target, or the not-built
   * error, and the busy timeout (0 without options).
   */
  function AcquireTarget(d: SqliteDriver): (r: Result<(SqliteTarget, nat), DbError>)
    ensures d.target.None? <==> r == Err(DbError(NOT_BUILT))
    ensures r.Ok? ==> r.value.0 == d.target.value
    ensures r.Ok? ==> r.value.1 == (if d.options.Some? then d.options.value.timeout else 0)
  {
    match d.target
    case None => Err(DbError(NOT_BUILT))
    case Some(t) => Ok((t, if d.options.Some? then d.options.value.timeout else 0))
  }

  /** A driver that `build` accepted always passes the not-built check. */
  lemma BuiltAcquires(d: SqliteDriver)
    requires Build(d).Ok?
    ensures AcquireTarget(Build(d).value) == Ok((ParseTarget(d.url).value, if d.options.Some? then d.options.value.timeout else 0))
  {
  }

  /** A driver straight from `new` is not built. */
  lemma NewIsNotBuilt(url: string)
    ensures AcquireTarget(NewDriver(url)).Err?
  {
  }

  /** `placeholder`: `?` whatever the sequence number and name. */
  function Placeholder(paramSeq: nat, paramName: string): string {
    "?"
  }

  /** `type`: `sqlite`. */
  function DriverType(d: SqliteDriver): string {
    SQLITE_TYPE
  }

  /** Under this driver every bound parameter is written into the SQL as a bare `?`. */
  lemma VarRendersQuestionMark(cache: Cache, name: string, sc: Scope, b: Buf, depth: nat)
    ensures RenderNode(Placeholder, cache, AstNode.Var(name), sc, b, depth).sql == b.sql + "?"
  {
  }
}
