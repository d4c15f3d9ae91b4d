/** Properties of `<if>` evaluation and of rendering. */
module RenderProps {
  import opened Wrappers
  import opened Strings
  import opened Values
  import opened TemplateAst
  import opened RenderContext
  import opened Render

  // ------------------------------------------------------------------------ evaluation

  /** Two integers are within `EPSILON` of each other only when they are equal. */
  lemma IntegersApart(x: int, y: int)
    ensures Abs(x as real - y as real) < EPSILON <==> x == y
  {
    if x < y {
      assert y as real - x as real >= 1.0;
    } else if x > y {
      assert x as real - y as real >= 1.0;
    }
  }

  /** Integer variants of any widths compare by their mathematical value: `I16(3) == I64(3)`. */
  lemma IntegerComparison(op: Op, l: Value, r: Value)
    requires l.I16? || l.I32? || l.I64? || l.U8?
    requires r.I16? || r.I32? || r.I64? || r.U8?
    ensures var x := IntValue(l); var y := IntValue(r);
      && (op == Eq ==> (Compare(op, l, r) <==> x == y))
      && (op == Ne ==> (Compare(op, l, r) <==> x != y))
      && (op == Gt ==> (Compare(op, l, r) <==> x > y))
      && (op == Ge ==> (Compare(op, l, r) <==> x >= y))
      && (op == Lt ==> (Compare(op, l, r) <==> x < y))
      && (op == Le ==> (Compare(op, l, r) <==> x <= y))
  {
    IntegersApart(IntValue(l), IntValue(r));
  }

  /** The mathematical value of an integer variant. */
  function IntValue(v: Value): (n: int)
    requires v.I16? || v.I32? || v.I64? || v.U8?
    ensures ToF64(v) == Some(n as real)
  {
    match v
    case I16(n) => n
    case I32(n) => n
    case I64(n) => n
    case U8(n) => n
  }

  /** Unless both sides are numbers, `==`/`!=` are structural and the orderings are false. */
  lemma NonNumericComparison(op: Op, l: Value, r: Value)
    requires !(IsNumeric(l) && IsNumeric(r))
    ensures op == Eq ==> (Compare(op, l, r) <==> l == r)
    ensures op == Ne ==> (Compare(op, l, r) <==> l != r)
    ensures op in {Gt, Ge, Lt, Le} ==> !Compare(op, l, r)
  {
  }

  /** With `!=` as the negation of `==`, every pair of values is either equal or unequal. */
  lemma NeNegatesEq(l: Value, r: Value)
    ensures Compare(Ne, l, r) <==> !Compare(Eq, l, r)
  {
  }

  /** As written, `1.0` and `1.0 + EPSILON` are neither equal nor unequal. */
  lemma EpsilonGap()
    ensures !CompareAsWritten(Eq, F64(1.0), F64(1.0 + EPSILON))
    ensures !CompareAsWritten(Ne, F64(1.0), F64(1.0 + EPSILON))
    ensures Compare(Ne, F64(1.0), F64(1.0 + EPSILON))
  {
    assert Abs(1.0 - (1.0 + EPSILON)) == EPSILON;
  }

  /** The correction changes `!=` only on two numbers exactly `EPSILON` apart. */
  lemma CorrectionIsLocal(op: Op, l: Value, r: Value)
    requires !(op == Ne && ToF64(l).Some? && ToF64(r).Some? && Abs(ToF64(l).value - ToF64(r).value) == EPSILON)
    ensures CompareAsWritten(op, l, r) == Compare(op, l, r)
  {
  }

  /** `and` is false as soon as its left side is, `or` true as soon as its left side is. */
  lemma ShortCircuit(l: Expr, r: Expr, sc: Scope)
    ensures !EvalExpr(l, sc) ==> !EvalExpr(Binary(And, l, r), sc)
    ensures EvalExpr(l, sc) ==> EvalExpr(Binary(Or, l, r), sc)
    ensures EvalExpr(Binary(And, l, r), sc) <==> EvalExpr(l, sc) && EvalExpr(r, sc)
    ensures EvalExpr(Binary(Or, l, r), sc) <==> EvalExpr(l, sc) || EvalExpr(r, sc)
  {
  }

  /** A bare name tests whether it resolves to something other than `Null` or `false`. */
  lemma NameTest(name: string, sc: Scope)
    ensures EvalExpr(Expr.Var(name), sc) <==> LookupIn(sc, name) != Null && LookupIn(sc, name) != Bool(false)
  {
  }

  // ------------------------------------------------------------------------ rendering

  /** Rendering only appends: SQL and parameters grow at the end, the count with the parameters. */
  predicate Extends(b: Buf, b2: Buf) {
    b.sql <= b2.sql && b.params <= b2.params && b2.count == b.count + (|b2.params| - |b.params|)
  }

  lemma {:induction false} NodesExtend(ph: Placeholder, cache: Cache, nodes: seq<AstNode>, sc: Scope, b: Buf, depth: nat)
    ensures Extends(b, RenderNodes(ph, cache, nodes, sc, b, depth))
    decreases depth, ListSize(nodes), 0
  {
    if nodes != [] {
      var b1 := RenderNode(ph, cache, nodes[0], sc, b, depth);
      NodeExtends(ph, cache, nodes[0], sc, b, depth);
      NodesExtend(ph, cache, nodes[1..], sc, b1, depth);
    }
  }

  lemma {:induction false} NodeExtends(ph: Placeholder, cache: Cache, n: AstNode, sc: Scope, b: Buf, depth: nat)
    ensures Extends(b, RenderNode(ph, cache, n, sc, b, depth))
    decreases depth, NodeSize(n), 0
  {
    match n
    case Text(_) =>
    case Var(_) =>
    case Include(refid) =>
      if refid in cache && depth > 0 {
        NodesExtend(ph, cache, cache[refid], sc, b, depth - 1);
      }
    case If(test, body) =>
      if EvalExpr(test, sc) {
        NodesExtend(ph, cache, body, sc, b, depth);
      }
    case Foreach(item, collection, open, separator, close, body) =>
      var c := LookupIn(sc, collection);
      if c.List? && c.items != [] {
        ItemsExtend(ph, cache, item, separator, body, c.items, 0, sc, b.(sql := b.sql + open), depth);
      }
  }

  lemma {:induction false} ItemsExtend(ph: Placeholder, cache: Cache, item: string, separator: string, body: seq<AstNode>,
                                       items: seq<Value>, i: nat, sc: Scope, b: Buf, depth: nat)
    requires i <= |items|
    ensures Extends(b, RenderItems(ph, cache, item, separator, body, items, i, sc, b, depth))
    decreases depth, ListSize(body), |items| - i + 1
  {
    if i < |items| {
      var b1 := if i > 0 then b.(sql := b.sql + separator) else b;
      var sc1 := Scope(sc.root, sc.locals + [(item, items[i])]);
      NodesExtend(ph, cache, body, sc1, b1, depth);
      var b2 := RenderNodes(ph, cache, body, sc1, b1, depth);
      ItemsExtend(ph, cache, item, separator, body, items, i + 1, sc, b2, depth);
    }
  }

  /** A whole render from an empty buffer numbers its placeholders `1..n` for `n` parameters. */
  lemma CountMatchesParams(ph: Placeholder, cache: Cache, nodes: seq<AstNode>, sc: Scope, depth: nat)
    ensures RenderNodes(ph, cache, nodes, sc, Buf("", [], 0), depth).count
         == |RenderNodes(ph, cache, nodes, sc, Buf("", [], 0), depth).params|
  {
    NodesExtend(ph, cache, nodes, sc, Buf("", [], 0), depth);
  }

  /** Rendering a concatenation renders the first list, then the second from where it left off. */
  lemma {:induction false} RenderConcat(ph: Placeholder, cache: Cache, a: seq<AstNode>, c: seq<AstNode>, sc: Scope, b: Buf, depth: nat)
    ensures RenderNodes(ph, cache, a + c, sc, b, depth)
         == RenderNodes(ph, cache, c, sc, RenderNodes(ph, cache, a, sc, b, depth), depth)
    decreases |a|
  {
    if a == [] {
      assert a + c == c;
    } else {
      assert (a + c)[0] == a[0];
      assert (a + c)[1..] == a[1..] + c;
      RenderConcat(ph, cache, a[1..], c, sc, RenderNode(ph, cache, a[0], sc, b, depth), depth);
    }
  }

  /** Only plain text and placeholders: no tag whose outcome depends on the values. */
  predicate Flat(nodes: seq<AstNode>) {
    forall k :: 0 <= k < |nodes| ==> nodes[k].Text? || nodes[k].Var?
  }

  /**
   * The SQL text and the placeholder count of a template without tags do not depend on the
   * values bound: values reach only the parameter list, never the SQL string.
   */
  lemma {:induction false} FlatSqlIndependent(ph: Placeholder, cache: Cache, nodes: seq<AstNode>, sc1: Scope, sc2: Scope,
                                              b1: Buf, b2: Buf, depth: nat)
    requires Flat(nodes) && b1.sql == b2.sql && b1.count == b2.count
    ensures RenderNodes(ph, cache, nodes, sc1, b1, depth).sql == RenderNodes(ph, cache, nodes, sc2, b2, depth).sql
    ensures RenderNodes(ph, cache, nodes, sc1, b1, depth).count == RenderNodes(ph, cache, nodes, sc2, b2, depth).count
    decreases |nodes|
  {
    if nodes != [] {
      assert nodes[0].Text? || nodes[0].Var?;
      assert forall k :: 0 <= k < |nodes| - 1 ==> nodes[1..][k] == nodes[k + 1];
      FlatSqlIndependent(ph, cache, nodes[1..], sc1, sc2,
                         RenderNode(ph, cache, nodes[0], sc1, b1, depth), RenderNode(ph, cache, nodes[0], sc2, b2, depth), depth);
    }
  }

  /**
   * Every string the template itself can contribute to the SQL: text, the `<foreach>`
   * `open`/`separator`/`close` attributes and the variable names, through each `<include>`
   * that the depth bound lets rendering reach.
   */
  function Literals(cache: Cache, nodes: seq<AstNode>, depth: nat): set<string>
    decreases depth, ListSize(nodes), 0
  {
    if nodes == [] then {} else NodeLiterals(cache, nodes[0], depth) + Literals(cache, nodes[1..], depth)
  }

  function NodeLiterals(cache: Cache, n: AstNode, depth: nat): set<string>
    decreases depth, NodeSize(n), 0
  {
    match n
    case Text(t) => {t}
    case Var(name) => {name}
    case Include(refid) => if refid in cache && depth > 0 then Literals(cache, cache[refid], depth - 1) else {}
    case If(_, body) => Literals(cache, body, depth)
    case Foreach(_, _, open, separator, close, body) => {open, separator, close} + Literals(cache, body, depth)
  }

  /** The literals of `nodes` all lie in `lits`. */
  predicate LiteralsIn(lits: set<string>, cache: Cache, nodes: seq<AstNode>, depth: nat)
    decreases depth, ListSize(nodes), 0
  {
    nodes == [] || (NodeLiteralsIn(lits, cache, nodes[0], depth) && LiteralsIn(lits, cache, nodes[1..], depth))
  }

  predicate NodeLiteralsIn(lits: set<string>, cache: Cache, n: AstNode, depth: nat)
    decreases depth, NodeSize(n), 0
  {
    match n
    case Text(t) => t in lits
    case Var(name) => name in lits
    case Include(refid) => refid in cache && depth > 0 ==> LiteralsIn(lits, cache, cache[refid], depth - 1)
    case If(_, body) => LiteralsIn(lits, cache, body, depth)
    case Foreach(_, _, open, separator, close, body) =>
      open in lits && separator in lits && close in lits && LiteralsIn(lits, cache, body, depth)
  }

  lemma {:induction false} LiteralsInMono(lits: set<string>, more: set<string>, cache: Cache, nodes: seq<AstNode>, depth: nat)
    requires LiteralsIn(lits, cache, nodes, depth) && lits <= more
    ensures LiteralsIn(more, cache, nodes, depth)
    decreases depth, ListSize(nodes), 0
  {
    if nodes != [] {
      NodeLiteralsInMono(lits, more, cache, nodes[0], depth);
      LiteralsInMono(lits, more, cache, nodes[1..], depth);
    }
  }

  lemma {:induction false} NodeLiteralsInMono(lits: set<string>, more: set<string>, cache: Cache, n: AstNode, depth: nat)
    requires NodeLiteralsIn(lits, cache, n, depth) && lits <= more
    ensures NodeLiteralsIn(more, cache, n, depth)
    decreases depth, NodeSize(n), 0
  {
    match n
    case Text(_) =>
    case Var(_) =>
    case Include(refid) =>
      if refid in cache && depth > 0 {
        LiteralsInMono(lits, more, cache, cache[refid], depth - 1);
      }
    case If(_, body) => LiteralsInMono(lits, more, cache, body, depth);
    case Foreach(_, _, _, _, _, body) => LiteralsInMono(lits, more, cache, body, depth);
  }

  /** `Literals` collects every literal of the template. */
  lemma {:induction false} LiteralsCovered(cache: Cache, nodes: seq<AstNode>, depth: nat)
    ensures LiteralsIn(Literals(cache, nodes, depth), cache, nodes, depth)
    decreases depth, ListSize(nodes), 0
  {
    if nodes != [] {
      NodeLiteralsCovered(cache, nodes[0], depth);
      LiteralsCovered(cache, nodes[1..], depth);
      NodeLiteralsInMono(NodeLiterals(cache, nodes[0], depth), Literals(cache, nodes, depth), cache, nodes[0], depth);
      LiteralsInMono(Literals(cache, nodes[1..], depth), Literals(cache, nodes, depth), cache, nodes[1..], depth);
    }
  }

  lemma {:induction false} NodeLiteralsCovered(cache: Cache, n: AstNode, depth: nat)
    ensures NodeLiteralsIn(NodeLiterals(cache, n, depth), cache, n, depth)
    decreases depth, NodeSize(n), 0
  {
    match n
    case Text(_) =>
    case Var(_) =>
    case Include(refid) =>
      if refid in cache && depth > 0 {
        LiteralsCovered(cache, cache[refid], depth - 1);
      }
    case If(_, body) => LiteralsCovered(cache, body, depth);
    case Foreach(_, _, open, separator, close, body) =>
      LiteralsCovered(cache, body, depth);
      LiteralsInMono(Literals(cache, body, depth), NodeLiterals(cache, n, depth), cache, body, depth);
  }

  /** A piece of rendered SQL: a literal of the template, or the placeholder of the `k`-th variable `name`. */
  datatype Piece = Lit(text: string) | Slot(k: nat, name: string)

  function Show(p: Piece, ph: Placeholder): string {
    match p
    case Lit(t) => t
    case Slot(k, name) => ph(k, name)
  }

  /** Every literal is one of `lits`, and so is every placeholder's variable name. */
  predicate AllPieces(ws: seq<Piece>, lits: set<string>) {
    forall i :: 0 <= i < |ws| ==> (if ws[i].Lit? then ws[i].text else ws[i].name) in lits
  }

  function Concat(ws: seq<Piece>, ph: Placeholder): string {
    if ws == [] then "" else Show(ws[0], ph) + Concat(ws[1..], ph)
  }

  lemma {:induction false} ConcatAppend(a: seq<Piece>, c: seq<Piece>, ph: Placeholder)
    ensures Concat(a + c, ph) == Concat(a, ph) + Concat(c, ph)
    decreases |a|
  {
    if a == [] {
      assert a + c == c;
    } else {
      assert (a + c)[1..] == a[1..] + c;
      ConcatAppend(a[1..], c, ph);
    }
  }

  /** Joining two tilings of pieces is a tiling of pieces. */
  lemma JoinPieces(ws1: seq<Piece>, ws2: seq<Piece>, lits: set<string>, ph: Placeholder)
    requires AllPieces(ws1, lits) && AllPieces(ws2, lits)
    ensures AllPieces(ws1 + ws2, lits) && Concat(ws1 + ws2, ph) == Concat(ws1, ph) + Concat(ws2, ph)
  {
    ConcatAppend(ws1, ws2, ph);
    assert forall i :: 0 <= i < |ws1 + ws2| ==> (ws1 + ws2)[i] == if i < |ws1| then ws1[i] else ws2[i - |ws1|];
  }

  /** One piece alone. */
  lemma OnePiece(p: Piece, ph: Placeholder)
    ensures Concat([p], ph) == Show(p, ph)
  {
    assert [p][1..] == [];
  }

  /**
   * Values never reach the SQL string: whatever the bound values, everything rendering appends
   * is a sequence of the template's own literals and of placeholders for its variable names.
   */
  lemma {:induction false} NodesSqlFromPieces(ph: Placeholder, cache: Cache, nodes: seq<AstNode>, sc: Scope, b: Buf,
                                              depth: nat, lits: set<string>)
    requires LiteralsIn(lits, cache, nodes, depth)
    ensures exists ws :: AllPieces(ws, lits) && RenderNodes(ph, cache, nodes, sc, b, depth).sql == b.sql + Concat(ws, ph)
    decreases depth, ListSize(nodes), 0
  {
    if nodes == [] {
      NoPieces(b.sql, lits, ph);
    } else {
      var b1 := RenderNode(ph, cache, nodes[0], sc, b, depth);
      NodeSqlFromPieces(ph, cache, nodes[0], sc, b, depth, lits);
      var ws1 :| AllPieces(ws1, lits) && b1.sql == b.sql + Concat(ws1, ph);
      NodesSqlFromPieces(ph, cache, nodes[1..], sc, b1, depth, lits);
      var ws2 :| AllPieces(ws2, lits) && RenderNodes(ph, cache, nodes[1..], sc, b1, depth).sql == b1.sql + Concat(ws2, ph);
      ChainPieces(b.sql, b1.sql, b1.sql, RenderNodes(ph, cache, nodes, sc, b, depth).sql, ws1, [], ws2, lits, ph);
    }
  }

  lemma {:induction false} NodeSqlFromPieces(ph: Placeholder, cache: Cache, n: AstNode, sc: Scope, b: Buf,
                                             depth: nat, lits: set<string>)
    requires NodeLiteralsIn(lits, cache, n, depth)
    ensures exists ws :: AllPieces(ws, lits) && RenderNode(ph, cache, n, sc, b, depth).sql == b.sql + Concat(ws, ph)
    decreases depth, NodeSize(n), 0
  {
    var r := RenderNode(ph, cache, n, sc, b, depth);
    match n
    case Text(t) =>
      OnePiece(Lit(t), ph);
      assert AllPieces([Lit(t)], lits) && r.sql == b.sql + Concat([Lit(t)], ph);
    case Var(name) =>
      OnePiece(Slot(b.count + 1, name), ph);
      assert AllPieces([Slot(b.count + 1, name)], lits) && r.sql == b.sql + Concat([Slot(b.count + 1, name)], ph);
    case Include(refid) =>
      if refid in cache && depth > 0 {
        NodesSqlFromPieces(ph, cache, cache[refid], sc, b, depth - 1, lits);
      } else {
        NoPieces(b.sql, lits, ph);
      }
    case If(test, body) =>
      if EvalExpr(test, sc) {
        NodesSqlFromPieces(ph, cache, body, sc, b, depth, lits);
      } else {
        NoPieces(b.sql, lits, ph);
      }
    case Foreach(item, collection, open, separator, close, body) =>
      var c := LookupIn(sc, collection);
      if c.List? && c.items != [] {
        var start := b.(sql := b.sql + open);
        ItemsSqlFromPieces(ph, cache, item, separator, body, c.items, 0, sc, start, depth, lits);
        var inner := RenderItems(ph, cache, item, separator, body, c.items, 0, sc, start, depth);
        var ws :| AllPieces(ws, lits) && inner.sql == start.sql + Concat(ws, ph);
        OnePiece(Lit(open), ph);
        OnePiece(Lit(close), ph);
        assert AllPieces([Lit(open)], lits) && AllPieces([Lit(close)], lits);
        ChainPieces(b.sql, start.sql, inner.sql, r.sql, [Lit(open)], ws, [Lit(close)], lits, ph);
      } else {
        NoPieces(b.sql, lits, ph);
      }
  }

  lemma {:induction false} ItemsSqlFromPieces(ph: Placeholder, cache: Cache, item: string, separator: string, body: seq<AstNode>,
                                              items: seq<Value>, i: nat, sc: Scope, b: Buf, depth: nat, lits: set<string>)
    requires i <= |items| && separator in lits && LiteralsIn(lits, cache, body, depth)
    ensures exists ws :: AllPieces(ws, lits)
                      && RenderItems(ph, cache, item, separator, body, items, i, sc, b, depth).sql == b.sql + Concat(ws, ph)
    decreases depth, ListSize(body), |items| - i + 1
  {
    if i == |items| {
      NoPieces(b.sql, lits, ph);
    } else {
      var sep: seq<Piece> := if i > 0 then [Lit(separator)] else [];
      var b1 := if i > 0 then b.(sql := b.sql + separator) else b;
      OnePiece(Lit(separator), ph);
      assert AllPieces(sep, lits) && b1.sql == b.sql + Concat(sep, ph);
      var sc1 := Scope(sc.root, sc.locals + [(item, items[i])]);
      NodesSqlFromPieces(ph, cache, body, sc1, b1, depth, lits);
      var b2 := RenderNodes(ph, cache, body, sc1, b1, depth);
      var ws2 :| AllPieces(ws2, lits) && b2.sql == b1.sql + Concat(ws2, ph);
      ItemsSqlFromPieces(ph, cache, item, separator, body, items, i + 1, sc, b2, depth, lits);
      var rest := RenderItems(ph, cache, item, separator, body, items, i + 1, sc, b2, depth);
      var ws3 :| AllPieces(ws3, lits) && rest.sql == b2.sql + Concat(ws3, ph);
      assert RenderItems(ph, cache, item, separator, body, items, i, sc, b, depth) == rest;
      ChainPieces(b.sql, b1.sql, b2.sql, rest.sql, sep, ws2, ws3, lits, ph);
    }
  }

  /** The empty tiling. */
  lemma NoPieces(x: string, lits: set<string>, ph: Placeholder)
    ensures exists ws :: AllPieces(ws, lits) && x == x + Concat(ws, ph)
  {
    assert AllPieces([], lits) && x == x + Concat([], ph);
  }

  /** Three tilings laid end to end. */
  lemma ChainPieces(x: string, y: string, z: string, r: string, ws1: seq<Piece>, ws2: seq<Piece>, ws3: seq<Piece>,
                    lits: set<string>, ph: Placeholder)
    requires AllPieces(ws1, lits) && AllPieces(ws2, lits) && AllPieces(ws3, lits)
    requires y == x + Concat(ws1, ph) && z == y + Concat(ws2, ph) && r == z + Concat(ws3, ph)
    ensures exists ws :: AllPieces(ws, lits) && r == x + Concat(ws, ph)
  {
    JoinPieces(ws1, ws2, lits, ph);
    ExtendTiling(x, y, z, ws1, ws2, ph);
    JoinPieces(ws1 + ws2, ws3, lits, ph);
    ExtendTiling(x, z, r, ws1 + ws2, ws3, ph);
  }

  lemma ExtendTiling(x: string, y: string, z: string, ws1: seq<Piece>, ws2: seq<Piece>, ph: Placeholder)
    requires y == x + Concat(ws1, ph) && z == y + Concat(ws2, ph)
    ensures z == x + Concat(ws1 + ws2, ph)
  {
    var c1, c2 := Concat(ws1, ph), Concat(ws2, ph);
    ConcatAppend(ws1, ws2, ph);
    SeqAssoc(x, c1, c2);
  }

  lemma SeqAssoc(x: string, c1: string, c2: string)
    ensures x + c1 + c2 == x + (c1 + c2)
  {
  }

  /** A whole render's SQL is made of the template's own literals and placeholders, for every template. */
  lemma SqlFromTemplate(ph: Placeholder, cache: Cache, nodes: seq<AstNode>, sc: Scope, depth: nat)
    ensures exists ws :: AllPieces(ws, Literals(cache, nodes, depth))
                      && RenderNodes(ph, cache, nodes, sc, Buf("", [], 0), depth).sql == Concat(ws, ph)
  {
    var lits := Literals(cache, nodes, depth);
    LiteralsCovered(cache, nodes, depth);
    NodesSqlFromPieces(ph, cache, nodes, sc, Buf("", [], 0), depth, lits);
    var ws :| AllPieces(ws, lits) && RenderNodes(ph, cache, nodes, sc, Buf("", [], 0), depth).sql == "" + Concat(ws, ph);
    assert "" + Concat(ws, ph) == Concat(ws, ph);
  }

  /** A one-node list renders as its node. */
  lemma SingleNode(ph: Placeholder, cache: Cache, n: AstNode, sc: Scope, b: Buf, depth: nat)
    ensures RenderNodes(ph, cache, [n], sc, b, depth) == RenderNode(ph, cache, n, sc, b, depth)
  {
    assert [n][1..] == [];
  }

  /**
   * A `#{name}` binds exactly one parameter, the looked-up value under its name, bumps the
   * count, and writes the driver's placeholder for the new count into the SQL.
   */
  lemma VarBindsOne(ph: Placeholder, cache: Cache, name: string, sc: Scope, b: Buf, depth: nat)
    ensures var r := RenderNodes(ph, cache, [AstNode.Var(name)], sc, b, depth);
      r.params == b.params + [(name, LookupIn(sc, name))] && r.count == b.count + 1
      && r.sql == b.sql + ph(b.count + 1, name)
  {
    SingleNode(ph, cache, AstNode.Var(name), sc, b, depth);
  }

  /** An `<if>` renders its body exactly when its test holds, and otherwise leaves the buffer alone. */
  lemma IfRendersBody(ph: Placeholder, cache: Cache, test: Expr, body: seq<AstNode>, sc: Scope, b: Buf, depth: nat)
    ensures EvalExpr(test, sc) ==> RenderNodes(ph, cache, [If(test, body)], sc, b, depth) == RenderNodes(ph, cache, body, sc, b, depth)
    ensures !EvalExpr(test, sc) ==> RenderNodes(ph, cache, [If(test, body)], sc, b, depth) == b
  {
    SingleNode(ph, cache, If(test, body), sc, b, depth);
  }

  /** A `<foreach>` over something that is not a non-empty list emits nothing, not even `open`/`close`. */
  lemma ForeachSkips(ph: Placeholder, cache: Cache, item: string, collection: string, open: string, separator: string,
                     close: string, body: seq<AstNode>, sc: Scope, b: Buf, depth: nat)
    requires var c := LookupIn(sc, collection); !c.List? || c.items == []
    ensures RenderNode(ph, cache, Foreach(item, collection, open, separator, close, body), sc, b, depth) == b
  {
  }

  /** `n` copies of a separator followed by a piece. */
  function Repeat(s: string, n: nat): (r: string)
    ensures |r| == n * |s|
  {
    if n == 0 then "" else s + Repeat(s, n - 1)
  }

  /** `n` copies of `s`. */
  function Copies(s: string, n: nat): (r: seq<string>)
    ensures |r| == n
  {
    if n == 0 then [] else [s] + Copies(s, n - 1)
  }

  lemma {:induction false} JoinCopies(s: string, sep: string, n: nat)
    requires n >= 1
    ensures Join(Copies(s, n), sep) == s + Repeat(sep + s, n - 1)
    decreases n
  {
    if n > 1 {
      JoinCons(s, Copies(s, n - 1), sep);
      JoinCopies(s, sep, n - 1);
    }
  }

  lemma {:induction false} ItemsText(ph: Placeholder, cache: Cache, item: string, separator: string, s: string,
                                     items: seq<Value>, i: nat, sc: Scope, b: Buf, depth: nat)
    requires 1 <= i <= |items|
    ensures RenderItems(ph, cache, item, separator, [Text(s)], items, i, sc, b, depth)
         == b.(sql := b.sql + Repeat(separator + s, |items| - i))
    decreases |items| - i
  {
    if i < |items| {
      var sc1 := Scope(sc.root, sc.locals + [(item, items[i])]);
      SingleNode(ph, cache, Text(s), sc1, b.(sql := b.sql + separator), depth);
      var b2 := b.(sql := b.sql + separator + s);
      ItemsText(ph, cache, item, separator, s, items, i + 1, sc, b2, depth);
      assert b2.sql + Repeat(separator + s, |items| - (i + 1)) == b.sql + Repeat(separator + s, |items| - i);
    }
  }

  lemma TextItemsFromStart(ph: Placeholder, cache: Cache, item: string, separator: string, s: string,
                           items: seq<Value>, sc: Scope, b: Buf, depth: nat)
    requires items != []
    ensures RenderItems(ph, cache, item, separator, [Text(s)], items, 0, sc, b, depth)
         == b.(sql := b.sql + s + Repeat(separator + s, |items| - 1))
  {
    SingleNode(ph, cache, Text(s), Scope(sc.root, sc.locals + [(item, items[0])]), b, depth);
    ItemsText(ph, cache, item, separator, s, items, 1, sc, b.(sql := b.sql + s), depth);
  }

  /** The loop of a `<foreach>` with a text body: one copy per item, joined by the separator. */
  lemma ForeachText(ph: Placeholder, cache: Cache, item: string, separator: string, s: string,
                    items: seq<Value>, sc: Scope, b: Buf, depth: nat)
    requires items != []
    ensures RenderItems(ph, cache, item, separator, [Text(s)], items, 0, sc, b, depth)
         == b.(sql := b.sql + Join(Copies(s, |items|), separator))
  {
    TextItemsFromStart(ph, cache, item, separator, s, items, sc, b, depth);
    JoinCopies(s, separator, |items|);
    assert b.sql + s + Repeat(separator + s, |items| - 1) == b.sql + Join(Copies(s, |items|), separator);
  }

  /** The pairs a loop binds: each item under the loop variable's name, in list order. */
  function BindEach(item: string, vs: seq<Value>): (r: seq<(string, Value)>)
    ensures |r| == |vs|
  {
    if vs == [] then [] else [(item, vs[0])] + BindEach(item, vs[1..])
  }

  /** The placeholders numbered `start`, `start + 1`, … for `n` occurrences of `name`. */
  function Numbered(ph: Placeholder, name: string, start: nat, n: nat): (r: seq<string>)
    ensures |r| == n
    decreases n
  {
    if n == 0 then [] else [ph(start, name)] + Numbered(ph, name, start + 1, n - 1)
  }

  /** `n` placeholders after a separator each. */
  function SeparatedFrom(ph: Placeholder, sep: string, name: string, start: nat, n: nat): string
    decreases n
  {
    if n == 0 then "" else sep + ph(start, name) + SeparatedFrom(ph, sep, name, start + 1, n - 1)
  }

  lemma {:induction false} JoinNumbered(ph: Placeholder, sep: string, name: string, start: nat, n: nat)
    requires n >= 1
    ensures Join(Numbered(ph, name, start, n), sep) == ph(start, name) + SeparatedFrom(ph, sep, name, start + 1, n - 1)
    decreases n
  {
    if n > 1 {
      JoinCons(ph(start, name), Numbered(ph, name, start + 1, n - 1), sep);
      JoinNumbered(ph, sep, name, start + 1, n - 1);
    }
  }

  /** One pass of the loop over a `#{item}` body: separator, one placeholder, the item bound. */
  lemma VarItemStep(ph: Placeholder, cache: Cache, item: string, separator: string,
                    items: seq<Value>, i: nat, sc: Scope, b: Buf, depth: nat)
    requires i < |items|
    ensures RenderItems(ph, cache, item, separator, [AstNode.Var(item)], items, i, sc, b, depth)
         == RenderItems(ph, cache, item, separator, [AstNode.Var(item)], items, i + 1, sc,
                        Buf((if i > 0 then b.sql + separator else b.sql) + ph(b.count + 1, item),
                            b.params + [(item, items[i])], b.count + 1), depth)
  {
    var b1 := if i > 0 then b.(sql := b.sql + separator) else b;
    var sc1 := Scope(sc.root, sc.locals + [(item, items[i])]);
    LookupPushed(sc, item, items[i]);
    SingleNode(ph, cache, AstNode.Var(item), sc1, b1, depth);
  }

  lemma {:induction false} ItemsVar(ph: Placeholder, cache: Cache, item: string, separator: string,
                                    items: seq<Value>, i: nat, sc: Scope, b: Buf, depth: nat)
    requires 1 <= i <= |items|
    ensures var r := RenderItems(ph, cache, item, separator, [AstNode.Var(item)], items, i, sc, b, depth);
      && r.params == b.params + BindEach(item, items[i..])
      && r.count == b.count + (|items| - i)
      && r.sql == b.sql + SeparatedFrom(ph, separator, item, b.count + 1, |items| - i)
    decreases |items| - i
  {
    if i < |items| {
      var b2 := Buf(b.sql + separator + ph(b.count + 1, item), b.params + [(item, items[i])], b.count + 1);
      VarItemStep(ph, cache, item, separator, items, i, sc, b, depth);
      ItemsVar(ph, cache, item, separator, items, i + 1, sc, b2, depth);
      assert items[i..] == [items[i]] + items[i + 1..];
      assert BindEach(item, items[i..]) == [(item, items[i])] + BindEach(item, items[i + 1..]);
      assert b.sql + SeparatedFrom(ph, separator, item, b.count + 1, |items| - i)
          == b.sql + separator + ph(b.count + 1, item) + SeparatedFrom(ph, separator, item, b.count + 2, |items| - i - 1);
    } else {
      assert items[i..] == [];
    }
  }

  /** A `<foreach>` over a non-empty list: `open`, the item loop, `close`. */
  lemma ForeachUnfold(ph: Placeholder, cache: Cache, item: string, collection: string, open: string,
                      separator: string, close: string, body: seq<AstNode>, items: seq<Value>, sc: Scope, b: Buf, depth: nat)
    requires LookupIn(sc, collection) == List(items) && items != []
    ensures var inner := RenderItems(ph, cache, item, separator, body, items, 0, sc, b.(sql := b.sql + open), depth);
      RenderNode(ph, cache, Foreach(item, collection, open, separator, close, body), sc, b, depth)
      == inner.(sql := inner.sql + close)
  {
  }

  /**
   * The loop of `<foreach item="x" …>#{x}</foreach>`: every item bound in list order, the
   * placeholders numbered on from the ones already emitted and joined by the separator.
   */
  lemma ForeachBindsItems(ph: Placeholder, cache: Cache, item: string, separator: string,
                          items: seq<Value>, sc: Scope, b: Buf, depth: nat)
    requires items != []
    ensures var r := RenderItems(ph, cache, item, separator, [AstNode.Var(item)], items, 0, sc, b, depth);
      && r.params == b.params + BindEach(item, items)
      && r.count == b.count + |items|
      && r.sql == b.sql + Join(Numbered(ph, item, b.count + 1, |items|), separator)
  {
    var b1 := Buf(b.sql + ph(b.count + 1, item), b.params + [(item, items[0])], b.count + 1);
    VarItemStep(ph, cache, item, separator, items, 0, sc, b, depth);
    ItemsVar(ph, cache, item, separator, items, 1, sc, b1, depth);
    assert items == [items[0]] + items[1..];
    assert BindEach(item, items) == [(item, items[0])] + BindEach(item, items[1..]);
    JoinNumbered(ph, separator, item, b.count + 1, |items|);
    assert b1.sql + SeparatedFrom(ph, separator, item, b.count + 2, |items| - 1)
        == b.sql + Join(Numbered(ph, item, b.count + 1, |items|), separator);
  }

  /** An `<include>` of a template that is not in the cache emits nothing. */
  lemma IncludeMissing(ph: Placeholder, cache: Cache, refid: string, sc: Scope, b: Buf, depth: nat)
    requires refid !in cache
    ensures RenderNodes(ph, cache, [Include(refid)], sc, b, depth) == b
  {
  }

  /** An `<include>` of a cached template renders that template's nodes in place, one level deeper. */
  lemma IncludePresent(ph: Placeholder, cache: Cache, refid: string, sc: Scope, b: Buf, depth: nat)
    requires refid in cache && depth > 0
    ensures RenderNodes(ph, cache, [Include(refid)], sc, b, depth) == RenderNodes(ph, cache, cache[refid], sc, b, depth - 1)
  {
    SingleNode(ph, cache, Include(refid), sc, b, depth);
  }
}
