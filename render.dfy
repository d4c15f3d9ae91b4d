/**
 * Evaluation of `<if>` tests and rendering of a parsed template into SQL text plus an ordered
 * list of bound parameters (`src/tpl/render.rs`).
 */
module Render {
  import opened Wrappers
  import opened Strings
  import opened Values
  import opened TemplateAst
  import opened RenderContext

  /** `f64::EPSILON`, 2^-52. */
  const EPSILON: real := 1.0 / 4503599627370496.0

  /** `to_f64`: the numeric variants as a number, everything else `None`. */
  function ToF64(v: Value): (r: Option<real>)
    ensures r.Some? <==> IsNumeric(v)
    ensures v.I16? ==> r == Some(v.i16 as real)
    ensures v.I32? ==> r == Some(v.i32 as real)
    ensures v.I64? ==> r == Some(v.i64 as real)
    ensures v.U8? ==> r == Some(v.u8 as real)
    ensures v.F64? ==> r == Some(v.f64)
  {
    match v
    case I16(n) => Some(n as real)
    case I32(n) => Some(n as real)
    case I64(n) => Some(n as real)
    case U8(n) => Some(n as real)
    case F64(x) => Some(x)
    case _ => None
  }

  /** `is_truthy`: only `Null` and `false` are false. */
  function IsTruthy(v: Value): (b: bool)
    ensures !b <==> v == Null || v == Bool(false)
  {
    !(v.Null? || (v.Bool? && !v.b))
  }

  function Abs(x: real): real {
    if x < 0.0 then -x else x
  }

  /** The ordering operators: both sides numeric and in the stated order; `And`/`Or` never get here. */
  function Ordered(op: Op, l: real, r: real): bool {
    match op
    case Gt => l > r
    case Ge => l >= r
    case Lt => l < r
    case Le => l <= r
    case _ => false
  }

  /**
   * The comparison arm of `eval_expr` as written: numbers are equal within `EPSILON` and
   * unequal beyond it, so two numbers exactly `EPSILON` apart are neither.
   */
  function CompareAsWritten(op: Op, lv: Value, rv: Value): bool {
    var lf := ToF64(lv);
    var rf := ToF64(rv);
    match op
    case Eq => if lf.Some? && rf.Some? then Abs(lf.value - rf.value) < EPSILON else lv == rv
    case Ne => if lf.Some? && rf.Some? then Abs(lf.value - rf.value) > EPSILON else lv != rv
    case _ => lf.Some? && rf.Some? && Ordered(op, lf.value, rf.value)
  }

  /** The comparison arm with `!=` the negation of `==`, as the operator's name promises. */
  function Compare(op: Op, lv: Value, rv: Value): bool {
    var lf := ToF64(lv);
    var rf := ToF64(rv);
    match op
    case Eq => if lf.Some? && rf.Some? then Abs(lf.value - rf.value) < EPSILON else lv == rv
    case Ne => if lf.Some? && rf.Some? then !(Abs(lf.value - rf.value) < EPSILON) else lv != rv
    case _ => lf.Some? && rf.Some? && Ordered(op, lf.value, rf.value)
  }

  /** `resolve_val`: a literal, a looked-up name, or a nested comparison as a `Bool`. */
  function ResolveVal(e: Expr, sc: Scope): Value
    decreases e, 1
  {
    match e
    case Literal(v) => v
    case Var(name) => LookupIn(sc, name)
    case Binary(_, _, _) => Bool(EvalExpr(e, sc))
  }

  /** `eval_expr`: short-circuit `and`/`or`, comparisons on resolved values, truthiness otherwise. */
  function EvalExpr(e: Expr, sc: Scope): bool
    decreases e, 0
  {
    match e
    case Binary(op, l, r) =>
      if op == And then EvalExpr(l, sc) && EvalExpr(r, sc)
      else if op == Or then EvalExpr(l, sc) || EvalExpr(r, sc)
      else Compare(op, ResolveVal(l, sc), ResolveVal(r, sc))
    case Literal(v) => IsTruthy(v)
    case Var(name) => IsTruthy(LookupIn(sc, name))
  }

  // ------------------------------------------------------------------------ rendering

  /** The three outputs of a render so far: SQL text, bound parameters and their count. */
  datatype Buf = Buf(sql: string, params: seq<(string, Value)>, count: nat)

  /** The driver's `placeholder(index, name)`: the dialect's marker for the index-th parameter. */
  type Placeholder = (nat, string) -> string

  /** The parsed template cache as seen by `<include>`: template names to their nodes. */
  type Cache = map<string, seq<AstNode>>

  /**
   * `render` over a list of nodes. `depth` bounds how many `<include>`s may nest; the source
   * has no bound and a cycle of includes recurses until the stack overflows.
   */
  function RenderNodes(ph: Placeholder, cache: Cache, nodes: seq<AstNode>, sc: Scope, b: Buf, depth: nat): Buf
    decreases depth, ListSize(nodes), 0
  {
    if nodes == [] then b
    else RenderNodes(ph, cache, nodes[1..], sc, RenderNode(ph, cache, nodes[0], sc, b, depth), depth)
  }

  /** One arm of the node match in `render`. */
  function RenderNode(ph: Placeholder, cache: Cache, n: AstNode, sc: Scope, b: Buf, depth: nat): Buf
    decreases depth, NodeSize(n), 0
  {
    match n
    case Text(t) => b.(sql := b.sql + t)
    case Var(name) =>
      Buf(b.sql + ph(b.count + 1, name), b.params + [(name, LookupIn(sc, name))], b.count + 1)
    case Include(refid) =>
      if refid in cache && depth > 0 then RenderNodes(ph, cache, cache[refid], sc, b, depth - 1) else b
    case If(test, body) =>
      if EvalExpr(test, sc) then RenderNodes(ph, cache, body, sc, b, depth) else b
    case Foreach(item, collection, open, separator, close, body) =>
      var c := LookupIn(sc, collection);
      if c.List? && c.items != [] then
        var inner := RenderItems(ph, cache, item, separator, body, c.items, 0, sc, b.(sql := b.sql + open), depth);
        inner.(sql := inner.sql + close)
      else b
  }

  /** The inner loop of `<foreach>` from the `i`-th item on: separator, push, body, pop. */
  function RenderItems(ph: Placeholder, cache: Cache, item: string, separator: string, body: seq<AstNode>,
                       items: seq<Value>, i: nat, sc: Scope, b: Buf, depth: nat): Buf
    requires i <= |items|
    decreases depth, ListSize(body), |items| - i + 1
  {
    if i == |items| then b
    else
      var b1 := if i > 0 then b.(sql := b.sql + separator) else b;
      var b2 := RenderNodes(ph, cache, body, Scope(sc.root, sc.locals + [(item, items[i])]), b1, depth);
      RenderItems(ph, cache, item, separator, body, items, i + 1, sc, b2, depth)
  }

  /** `RenderBuffer`: the SQL being built, the bound parameters, their count and the driver's placeholder. */
  class RenderBuffer {
    var sql: string
    var params: seq<(string, Value)>
    var paramCount: nat
    const placeholder: Placeholder

    function Contents(): Buf
      reads this
    {
      Buf(sql, params, paramCount)
    }

    constructor (placeholder: Placeholder)
      ensures Contents() == Buf("", [], 0) && this.placeholder == placeholder
    {
      sql := "";
      params := [];
      paramCount := 0;
      this.placeholder := placeholder;
    }
  }

  /**
   * `render`: appends the rendering of `nodes` to `buf`, pushing and popping loop bindings on
   * `ctx` so that its stack ends as it began.
   */
  method RenderInto(nodes: seq<AstNode>, ctx: Context, buf: RenderBuffer, cache: Cache, depth: nat)
    modifies ctx, buf
    ensures buf.Contents() == RenderNodes(buf.placeholder, cache, nodes, old(ctx.Current()), old(buf.Contents()), depth)
    ensures ctx.locals == old(ctx.locals)
    decreases depth, ListSize(nodes), 0
  {
    ghost var sc := ctx.Current();
    for k := 0 to |nodes|
      invariant ctx.locals == old(ctx.locals)
      invariant RenderNodes(buf.placeholder, cache, nodes[k..], sc, buf.Contents(), depth)
             == RenderNodes(buf.placeholder, cache, nodes, sc, old(buf.Contents()), depth)
    {
      assert nodes[k..][1..] == nodes[k + 1..];
      ElementSmaller(nodes, k);
      match nodes[k]
      case Text(t) =>
        buf.sql := buf.sql + t;
      case Var(name) =>
        var v := ctx.Lookup(name);
        buf.params := buf.params + [(name, v)];
        buf.paramCount := buf.paramCount + 1;
        buf.sql := buf.sql + buf.placeholder(buf.paramCount, name);
      case Include(refid) =>
        if refid in cache && depth > 0 {
          RenderInto(cache[refid], ctx, buf, cache, depth - 1);
        }
      case If(test, body) =>
        if EvalExpr(test, ctx.Current()) {
          RenderInto(body, ctx, buf, cache, depth);
        }
      case Foreach(item, collection, open, separator, close, body) =>
        var arr := ctx.Lookup(collection);
        if arr.List? && arr.items != [] {
          buf.sql := buf.sql + open;
          ghost var afterOpen := buf.Contents();
          var i := 0;
          while i < |arr.items|
            invariant 0 <= i <= |arr.items|
            invariant ctx.locals == old(ctx.locals)
            invariant RenderItems(buf.placeholder, cache, item, separator, body, arr.items, i, sc, buf.Contents(), depth)
                   == RenderItems(buf.placeholder, cache, item, separator, body, arr.items, 0, sc, afterOpen, depth)
          {
            if i > 0 {
              buf.sql := buf.sql + separator;
            }
            ctx.Push(item, arr.items[i]);
            RenderInto(body, ctx, buf, cache, depth);
            ctx.Pop();
            i := i + 1;
          }
          buf.sql := buf.sql + close;
        }
    }
  }
}
