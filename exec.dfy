/**
 * The executor helpers (`src/executor/exec.rs`): render a template, then make exactly one call on
 * the connection with the rendered SQL and parameters; and convert raw rows into results.
 */
module Exec {
  import opened Wrappers
  import opened Ints
  import opened Values
  import opened Errors
  import opened TemplateAst
  import opened TemplateParser
  import opened Render
  import opened Engine
  import opened Udbc

  /** The template cache after `get_ast(name, content)`: an entry already there is kept. */
  function Cached(entries: Cache, name: string, content: string): (r: Cache)
    ensures name in r
    ensures name in entries ==> r == entries
    ensures name !in entries ==> r == entries[name := TemplateNodes(content)]
  {
    if name in entries then entries else entries[name := TemplateNodes(content)]
  }

  /** The SQL text and parameters `render_template(name, content, args)` produces from cache `entries`. */
  function Rendered(ph: Placeholder, entries: Cache, name: string, content: string, args: Value, depth: nat)
    : (string, Params)
  {
    var c := Cached(entries, name, content);
    TemplateOutput(ph, c, c[name], args, depth)
  }

  /**
   * `execute_conn`: the rendered statement is executed once on `conn`, and the connection's
   * answer is the result, unchanged.
   */
  method ExecuteConn(conn: Connection, driver: Driver, templates: TemplateCache, depth: nat,
                     name: string, sql: string, args: Value)
    returns (r: Result<u64, DbError>)
    modifies conn, templates
    ensures templates.entries == Cached(old(templates.entries), name, sql)
    ensures var sp := Rendered(driver.placeholder, old(templates.entries), name, sql, args, depth);
      conn.log == old(conn.log) + [ExecuteCall(sp.0, sp.1)] && r == conn.db.affected(conn.id, old(conn.log), sp.0, sp.1)
  {
    var rendered := RenderTemplate(templates, name, sql, args, driver.placeholder, depth);
    var (s, p) := rendered.value;
    r := conn.Execute(s, p);
  }

  /** `query_conn`: the rendered query is run once on `conn`, and its rows are the result, unchanged. */
  method QueryConn(conn: Connection, driver: Driver, templates: TemplateCache, depth: nat,
                   name: string, sql: string, args: Value)
    returns (r: Result<seq<Row>, DbError>)
    modifies conn, templates
    ensures templates.entries == Cached(old(templates.entries), name, sql)
    ensures var sp := Rendered(driver.placeholder, old(templates.entries), name, sql, args, depth);
      conn.log == old(conn.log) + [QueryCall(sp.0, sp.1)] && r == conn.db.rows(conn.id, old(conn.log), sp.0, sp.1)
  {
    var rendered := RenderTemplate(templates, name, sql, args, driver.placeholder, depth);
    var (s, p) := rendered.value;
    r := conn.Query(s, p);
  }

  /** The characters `{:?}` escapes in this model: the double quote, the backslash and three controls. */
  predicate Escaped(c: char) {
    c == '"' || c == '\\' || c == '\n' || c == '\r' || c == '\t'
  }

  /** The `{:?}` form of one character: a backslash and a letter for an escaped one, else the character. */
  function EscapeChar(c: char): (e: string)
    ensures Escaped(c) ==> |e| == 2 && e[0] == '\\'
    ensures !Escaped(c) ==> e == [c]
  {
    if c == '"' then "\\\"" else if c == '\\' then "\\\\" else if c == '\n' then "\\n"
    else if c == '\r' then "\\r" else if c == '\t' then "\\t" else [c]
  }

  /** Rust's `{:?}` escaping of a string's characters, one character at a time. */
  function EscapeDebug(s: string): (r: string)
    ensures |r| >= |s|
    ensures (forall i :: 0 <= i < |s| ==> !Escaped(s[i])) ==> r == s
  {
    if s == [] then [] else EscapeChar(s[0]) + EscapeDebug(s[1..])
  }

  /** Escaping works character by character, so it distributes over concatenation. */
  lemma {:induction false} EscapeDebugConcat(a: string, b: string)
    ensures EscapeDebug(a + b) == EscapeDebug(a) + EscapeDebug(b)
    decreases |a|
  {
    if a == [] {
      assert a + b == b;
    } else {
      assert (a + b)[1..] == a[1..] + b;
      EscapeDebugConcat(a[1..], b);
    }
  }

  /** Each escaped character becomes its two-character escape. */
  lemma EscapeDebugEscapes()
    ensures EscapeDebug("\"") == "\\\"" && EscapeDebug("\\") == "\\\\"
    ensures EscapeDebug("\n") == "\\n" && EscapeDebug("\r") == "\\r" && EscapeDebug("\t") == "\\t"
  {
  }

  /** The variant name `{:?}` prints for an error. */
  function ErrorKind(e: DbError): string {
    match e
    case DbError(_) => "DbError"
    case DbUrlError(_) => "DbUrlError"
    case SerializationError(_) => "SerializationError"
    case QueryBuildError(_) => "QueryBuildError"
    case DataConversionError(_) => "DataConversionError"
    case MapperLoadError(_) => "MapperLoadError"
    case DriverError(_) => "DriverError"
    case TemplateEngineError(_) => "TemplateEngineError"
    case SqlExecutionError(_) => "SqlExecutionError"
    case TypeMismatch(_) => "TypeMismatch"
    case MissingField(_) => "MissingField"
    case Custom(_) => "Custom"
    case ValueError(_) => "Value"
  }

  /** `format!("{:?}", e)`: the variant and its quoted message, as `TypeMismatch("...")`. */
  function ErrorDebug(e: DbError): string {
    ErrorKind(e) + "(\"" + EscapeDebug(e.msg) + "\")"
  }

  const ROW_MAPPING_FAILED: string := "Row mapping failed: "

  /** The error `map_rows` reports for a row that `from_value` refused with `e`. */
  function RowError(e: DbError): DbError {
    SerializationError(ROW_MAPPING_FAILED + ErrorDebug(e))
  }

  /**
   * `map_rows`: every row, as a `Value::Map`, through `from_value`; the results come in row
   * order, and the first row that fails stops the conversion.
   */
  function MapRows<R>(rows: seq<Row>, fromValue: Value -> Result<R, DbError>): (r: Result<seq<R>, DbError>)
    ensures r.Ok? <==> forall i :: 0 <= i < |rows| ==> fromValue(Map(rows[i])).Ok?
    ensures r.Ok? ==> |r.value| == |rows| && forall i :: 0 <= i < |rows| ==> fromValue(Map(rows[i])) == Ok(r.value[i])
  {
    if rows == [] then Ok([])
    else
      match fromValue(Map(rows[0]))
      case Err(e) => Err(RowError(e))
      case Ok(x) =>
        match MapRows(rows[1..], fromValue)
        case Err(e) => Err(e)
        case Ok(xs) =>
          assert forall i :: 1 <= i < |rows| ==> rows[i] == rows[1..][i - 1];
          Ok([x] + xs)
  }

  /** The error is the one of the first row that fails, wrapped as a serialization error. */
  lemma {:induction false} MapRowsFirstError<R>(rows: seq<Row>, fromValue: Value -> Result<R, DbError>, k: nat)
    requires k < |rows| && fromValue(Map(rows[k])).Err?
    requires forall j :: 0 <= j < k ==> fromValue(Map(rows[j])).Ok?
    ensures MapRows(rows, fromValue) == Err(RowError(fromValue(Map(rows[k])).error))
    decreases k
  {
    if k > 0 {
      assert forall j :: 0 <= j < k - 1 ==> rows[1..][j] == rows[j + 1];
      MapRowsFirstError(rows[1..], fromValue, k - 1);
    }
  }
}
