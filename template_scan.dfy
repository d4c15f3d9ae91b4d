/**
 * The lexical helpers of the template parser (`src/tpl/parser.rs`): finding the end of a
 * tag, reading its attributes, and parsing the expression of a `test` attribute.
 */
module TemplateScan {
  import opened Wrappers
  import opened Ints
  import opened Strings
  import opened Values
  import opened TemplateAst
  import Utf8

  // ---------------------------------------------------------------- find_tag_end

  function CountChar(s: string, c: char): nat {
    if s == [] then 0 else CountChar(s[..|s| - 1], c) + (if s[|s| - 1] == c then 1 else 0)
  }

  /** Position `j` of `s` lies inside double quotes: an odd number of them precede it. */
  predicate InDoubleQuotes(s: string, j: nat)
    requires j <= |s|
  {
    CountChar(s[..j], '"') % 2 == 1
  }

  /** A `>` that is not inside double quotes. */
  predicate IsTagEndAt(s: string, j: nat)
    requires j < |s|
  {
    s[j] == '>' && !InDoubleQuotes(s, j)
  }

  lemma CountCharStep(s: string, c: char, i: nat)
    requires i < |s|
    ensures CountChar(s[..i + 1], c) == CountChar(s[..i], c) + (if s[i] == c then 1 else 0)
  {
    assert s[..i + 1][..i] == s[..i];
  }

  /** The scan of `find_tag_end` from index `i`, with `inQuote` the quote state there. */
  function TagEndFrom(s: string, i: nat, inQuote: bool): (r: Option<nat>)
    requires i <= |s| && inQuote == InDoubleQuotes(s, i)
    ensures r.Some? ==> i <= r.value < |s| && IsTagEndAt(s, r.value)
    ensures forall j :: i <= j < (if r.Some? then r.value else |s|) ==> !IsTagEndAt(s, j)
    decreases |s| - i
  {
    if i == |s| then None
    else
      CountCharStep(s, '"', i);
      if s[i] == '"' then TagEndFrom(s, i + 1, !inQuote)
      else if s[i] == '>' && !inQuote then Some(i)
      else TagEndFrom(s, i + 1, inQuote)
  }

  /** The index of the first `>` outside double quotes. Single quotes do not protect a `>`. */
  function TagEnd(s: string): (r: Option<nat>)
    ensures r.Some? ==> r.value < |s| && IsTagEndAt(s, r.value)
    ensures forall j :: 0 <= j < (if r.Some? then r.value else |s|) ==> !IsTagEndAt(s, j)
  {
    assert s[..0] == [];
    TagEndFrom(s, 0, false)
  }

  /** `find_tag_end`: the loop over the characters with a quote flag. */
  method FindTagEnd(s: string) returns (r: Option<nat>)
    ensures r == TagEnd(s)
  {
    var inQuote := false;
    var i := 0;
    assert s[..0] == [];
    while i < |s|
      invariant 0 <= i <= |s| && inQuote == InDoubleQuotes(s, i)
      invariant TagEndFrom(s, i, inQuote) == TagEnd(s)
    {
      CountCharStep(s, '"', i);
      if s[i] == '"' {
        inQuote := !inQuote;
      } else if s[i] == '>' && !inQuote {
        return Some(i);
      }
      i := i + 1;
    }
    return None;
  }

  // ------------------------------------------------------------ parse_attributes

  /** The characters of an attribute name (ASCII letters and digits, `_`, `-`). */
  predicate IsKeyChar(c: char) {
    IsAsciiAlphanumeric(c) || c == '_' || c == '-'
  }

  /** The index of the first character that cannot be in a key, or the length. */
  function KeyEnd(s: string): (n: nat)
    ensures n <= |s| && (forall i :: 0 <= i < n ==> IsKeyChar(s[i])) && (n < |s| ==> !IsKeyChar(s[n]))
  {
    if s == [] || !IsKeyChar(s[0]) then 0 else 1 + KeyEnd(s[1..])
  }

  /** What one pass of the `parse_attributes` loop leaves: the rest and the map, or a `break`. */
  datatype AttrOut = Continue(rest: string, acc: map<string, string>) | Stop(acc: map<string, string>)

  /**
   * One pass of the loop body on a non-empty `rest`: skip whitespace, read a key, `=`, an
   * opening quote and the value up to the matching quote. A character that cannot start a key
   * is skipped; a key without `=` or without a quote is dropped; an unterminated value ends
   * the loop.
   */
  function AttrNext(rest: string, acc: map<string, string>): (o: AttrOut)
    ensures o.Continue? ==> |o.rest| < |rest|
  {
    var r1 := TrimStart(rest);
    if r1 == [] then Stop(acc)
    else
      var ke := KeyEnd(r1);
      if ke == 0 then Continue(r1[1..], acc)
      else
        var key := r1[..ke];
        var r2 := TrimStart(r1[ke..]);
        if r2 == [] || r2[0] != '=' then Continue(r2, acc)
        else
          var r3 := TrimStart(r2[1..]);
          if r3 == [] then Stop(acc)
          else if r3[0] != '"' && r3[0] != '\'' then Continue(r3, acc)
          else
            var r4 := r3[1..];
            match FindChar(r4, r3[0])
            case Some(ve) => Continue(r4[ve + 1..], acc[key := r4[..ve]])
            case None => Stop(acc)
  }

  /** The loop of `parse_attributes` from `rest`, with `acc` the attributes read so far. */
  function AttrLoop(rest: string, acc: map<string, string>): map<string, string>
    decreases |rest|
  {
    if rest == [] then acc
    else
      match AttrNext(rest, acc)
      case Stop(a) => a
      case Continue(r, a) => AttrLoop(r, a)
  }

  /** The attributes of a tag's content. */
  function Attributes(content: string): map<string, string> {
    AttrLoop(content, map[])
  }

  /** `parse_attributes`: the same loop, reassigning `rest` and inserting into `attrs`. */
  method ParseAttributes(content: string) returns (attrs: map<string, string>)
    ensures attrs == Attributes(content)
  {
    attrs := map[];
    var rest := content;
    while rest != []
      invariant AttrLoop(rest, attrs) == Attributes(content)
      decreases |rest|
    {
      ghost var step := AttrNext(rest, attrs);
      rest := TrimStart(rest);
      if rest == [] {
        assert step == Stop(attrs);
        break;
      }
      var keyEnd := KeyEnd(rest);
      if keyEnd == 0 {
        rest := rest[1..];
        assert step == Continue(rest, attrs);
        continue;
      }
      var key := rest[..keyEnd];
      rest := TrimStart(rest[keyEnd..]);
      if rest == [] || rest[0] != '=' {
        assert step == Continue(rest, attrs);
        continue;
      }
      rest := TrimStart(rest[1..]);
      if rest == [] {
        assert step == Stop(attrs);
        break;
      }
      var quote := rest[0];
      if quote != '"' && quote != '\'' {
        assert step == Continue(rest, attrs);
        continue;
      }
      rest := rest[1..];
      match FindChar(rest, quote)
      case Some(valEnd) =>
        attrs := attrs[key := rest[..valEnd]];
        rest := rest[valEnd + 1..];
        assert step == Continue(rest, attrs);
      case None =>
        assert step == Stop(attrs);
        break;
    }
  }

  /** A well-formed `key="value"` pair. */
  function Pair(key: string, value: string): string {
    key + "=\"" + value + "\""
  }

  /** One pass over a well-formed pair inserts it and continues right after it. */
  lemma PairNext(key: string, value: string, rest: string, acc: map<string, string>)
    requires key != [] && forall i :: 0 <= i < |key| ==> IsKeyChar(key[i])
    requires forall i :: 0 <= i < |value| ==> value[i] != '"'
    ensures AttrNext(Pair(key, value) + rest, acc) == Continue(rest, acc[key := value])
  {
    var r4 := value + "\"" + rest;
    var r3 := "\"" + r4;
    var r2 := "=" + r3;
    var s := key + r2;
    assert s == Pair(key, value) + rest;
    assert s[0] == key[0];
    TrimStartKeeps(s);
    KeyEndOfKey(key, r2);
    assert s[..|key|] == key && s[|key|..] == r2;
    TrimStartKeeps(r2);
    assert r2[1..] == r3;
    TrimStartKeeps(r3);
    assert r3[1..] == r4;
    FindCharAfter(value, '"', rest);
    assert r4[..|value|] == value;
    assert r4[|value| + 1..] == rest;
    AttrNextSteps(s, key, r2, r3, r4, |value|, acc);
  }

  /** The branch of `AttrNext` that reads a complete pair, from the facts about each step. */
  lemma AttrNextSteps(s: string, key: string, r2: string, r3: string, r4: string, ve: nat, acc: map<string, string>)
    requires TrimStart(s) == s && KeyEnd(s) == |key| > 0 && s[..|key|] == key && s[|key|..] == r2
    requires TrimStart(r2) == r2 && r2 != [] && r2[0] == '='
    requires TrimStart(r2[1..]) == r3 && r3 != [] && r3[0] == '"' && r3[1..] == r4
    requires FindChar(r4, '"') == Some(ve) && ve < |r4|
    ensures AttrNext(s, acc) == Continue(r4[ve + 1..], acc[key := r4[..ve]])
  {
  }

  /**
   * Reading a well-formed pair inserts it and carries on with the rest, so a sequence of
   * pairs is a left-to-right series of inserts in which a repeated key keeps its last value.
   */
  lemma AttrLoopPair(key: string, value: string, rest: string, acc: map<string, string>)
    requires key != [] && forall i :: 0 <= i < |key| ==> IsKeyChar(key[i])
    requires forall i :: 0 <= i < |value| ==> value[i] != '"'
    ensures AttrLoop(Pair(key, value) + rest, acc) == AttrLoop(rest, acc[key := value])
  {
    PairNext(key, value, rest, acc);
    assert (Pair(key, value) + rest)[0] == key[0];
  }

  lemma TrimStartKeeps(s: string)
    requires s != [] && !IsWhitespace(s[0])
    ensures TrimStart(s) == s
  {
    TrimStartDropsWhitespace(s);
  }

  lemma FindCharAfter(prefix: string, c: char, rest: string)
    requires forall i :: 0 <= i < |prefix| ==> prefix[i] != c
    ensures FindChar(prefix + [c] + rest, c) == Some(|prefix|)
  {
    var t := prefix + [c] + rest;
    assert t[|prefix|] == c;
    assert forall i :: 0 <= i < |prefix| ==> t[i] == prefix[i];
  }

  lemma KeyEndOfKey(key: string, tail: string)
    requires forall i :: 0 <= i < |key| ==> IsKeyChar(key[i])
    requires tail != [] && !IsKeyChar(tail[0])
    ensures KeyEnd(key + tail) == |key|
  {
    assert forall i :: 0 <= i < |key| ==> (key + tail)[i] == key[i];
    assert (key + tail)[|key|] == tail[0];
  }

  /** Whitespace between pairs is skipped. */
  lemma AttrLoopSpace(x: string, acc: map<string, string>)
    requires x != [] && !IsWhitespace(x[0])
    ensures AttrLoop(" " + x, acc) == AttrLoop(x, acc)
  {
    var t := " " + x;
    assert t[1..] == x;
    assert TrimStart(t) == TrimStart(x);
    TrimStartKeeps(x);
    assert AttrNext(t, acc) == AttrNext(x, acc);
  }

  /** Two well-formed pairs separated by a space. */
  lemma TwoPairs(k1: string, v1: string, k2: string, v2: string)
    requires k1 != [] && forall i :: 0 <= i < |k1| ==> IsKeyChar(k1[i])
    requires k2 != [] && forall i :: 0 <= i < |k2| ==> IsKeyChar(k2[i])
    requires forall i :: 0 <= i < |v1| ==> v1[i] != '"'
    requires forall i :: 0 <= i < |v2| ==> v2[i] != '"'
    ensures Attributes(Pair(k1, v1) + " " + Pair(k2, v2)) == map[k1 := v1][k2 := v2]
    ensures k1 == k2 ==> Attributes(Pair(k1, v1) + " " + Pair(k2, v2)) == map[k1 := v2]
  {
    var second := Pair(k2, v2);
    AttrLoopPair(k1, v1, " " + second, map[]);
    assert Pair(k1, v1) + " " + second == Pair(k1, v1) + (" " + second);
    assert second[0] == k2[0];
    AttrLoopSpace(second, map[k1 := v1]);
    AttrLoopPair(k2, v2, "", map[k1 := v1]);
    assert second + "" == second;
  }

  // ------------------------------------------------------------------ parse_val

  function Pow10(n: nat): (p: nat)
    ensures p >= 1
  {
    if n == 0 then 1 else 10 * Pow10(n - 1)
  }

  /**
   * The decimal forms `s.parse::<f64>()` accepts without an exponent: an optional sign,
   * then digits with an optional point, at least one digit in all.
   */
  function ParseDecimalF64(s: string): Option<real> {
    var neg := s != [] && s[0] == '-';
    var body := if s != [] && (s[0] == '-' || s[0] == '+') then s[1..] else s;
    match FindChar(body, '.')
    case None =>
      if body != [] && AllDigits(body) then
        Some(if neg then -(DigitsValue(body) as real) else DigitsValue(body) as real)
      else None
    case Some(d) =>
      var whole := body[..d];
      var frac := body[d + 1..];
      if (whole != [] || frac != []) && AllDigits(whole) && AllDigits(frac) then
        var mag := DigitsValue(whole) as real + (DigitsValue(frac) as real) / (Pow10(|frac|) as real);
        Some(if neg then -mag else mag)
      else None
  }

  /** A text delimited by the same quote character at both ends. */
  predicate QuotedBoth(s: string) {
    (StartsWith(s, "'") && EndsWith(s, "'")) || (StartsWith(s, "\"") && EndsWith(s, "\""))
  }

  /**
   * `parse_val` as written: `None` stands for the panic of slicing `s[1..len-1]` when the
   * trimmed text is a lone quote, which both starts and ends with that quote.
   */
  function ParseValAsWritten(input: string): (r: Option<Expr>)
  {
    var s := Trim(input);
    if s == "null" then Some(Literal(Null))
    else if s == "true" then Some(Literal(Bool(true)))
    else if s == "false" then Some(Literal(Bool(false)))
    else if QuotedBoth(s) then
      if |s| - 1 < 1 then None else Some(Literal(Str(s[1..|s| - 1])))
    else match ParseI64(s)
      case Some(n) => Some(Literal(I64(n)))
      case None =>
        match ParseDecimalF64(s)
        case Some(x) => Some(Literal(F64(x)))
        case None => Some(Expr.Var(s))
  }

  lemma LoneQuotePanics()
    ensures ParseValAsWritten("'") == None
    ensures ParseValAsWritten(" \" ") == None
  {
    assert Trim(" \" ") == "\"" by {
      assert TrimStart(" \" ") == "\" ";
      assert TrimEnd("\" ") == "\"";
    }
  }

  /**
   * `parse_val` with the quoted-literal case requiring an opening and a closing quote,
   * so a lone quote falls through to the later cases instead of panicking.
   */
  function ParseVal(input: string): (r: Expr)
    ensures !r.Binary?
  {
    ParseTrimmed(Trim(input))
  }

  /** The cases of `parse_val` on the already trimmed text `s`. */
  function ParseTrimmed(s: string): (r: Expr)
    ensures !r.Binary?
    ensures r == Literal(Null) <==> s == "null"
    ensures r == Literal(Bool(true)) <==> s == "true"
    ensures r == Literal(Bool(false)) <==> s == "false"
    ensures r.Literal? && r.value.Str? <==> |s| >= 2 && QuotedBoth(s)
    ensures r.Literal? && r.value.Str? ==> |s| >= 2 && r.value.s == s[1..|s| - 1]
    ensures r.Literal? && r.value.I64? ==> ParseInt(s) == Some(r.value.i64 as int)
    ensures r.Var? ==> r.name == s && ParseI64(s).None? && ParseDecimalF64(s).None?
  {
    if s == "null" then Literal(Null)
    else if s == "true" then Literal(Bool(true))
    else if s == "false" then Literal(Bool(false))
    else if |s| >= 2 && QuotedBoth(s) then Literal(Str(s[1..|s| - 1]))
    else match ParseI64(s)
      case Some(n) => Literal(I64(n))
      case None =>
        match ParseDecimalF64(s)
        case Some(x) => Literal(F64(x))
        case None => Expr.Var(s)
  }

  /** Wherever the code as written does not panic, it agrees with the corrected version. */
  lemma ParseValAgrees(input: string)
    ensures ParseValAsWritten(input).Some? ==> ParseValAsWritten(input) == Some(ParseVal(input))
    ensures ParseValAsWritten(input).None? <==> Trim(input) == "'" || Trim(input) == "\""
  {
    var s := Trim(input);
    if QuotedBoth(s) && |s| < 2 {
      assert |s| == 1;
      assert s == [s[0]];
    }
  }

  // ------------------------------------------------------------------ parse_atom

  /** The comparison operators in the order `parse_atom` tries them. */
  const OPERATORS: seq<(string, Op)> := [("!=", Ne), ("==", Eq), (">=", Ge), ("<=", Le), (">", Gt), ("<", Lt)]

  /** The first entry of the operator table, from index `k` on, whose symbol occurs in `s`. */
  function FirstOperatorFrom(s: string, k: nat): (r: Option<nat>)
    requires k <= |OPERATORS|
    ensures r.Some? ==> k <= r.value < |OPERATORS| && Contains(s, OPERATORS[r.value].0)
    ensures forall j :: k <= j < (if r.Some? then r.value else |OPERATORS|) ==> !Contains(s, OPERATORS[j].0)
    decreases |OPERATORS| - k
  {
    if k == |OPERATORS| then None
    else if Contains(s, OPERATORS[k].0) then Some(k)
    else FirstOperatorFrom(s, k + 1)
  }

  /** `parse_atom`: split the trimmed text at the first operator of the table it contains. */
  function ParseAtom(input: string): (e: Expr)
    ensures e.Binary? <==> FirstOperatorFrom(Trim(input), 0).Some?
    ensures e.Binary? ==> e.op == OPERATORS[FirstOperatorFrom(Trim(input), 0).value].1
    ensures e.Binary? ==> !e.left.Binary? && !e.right.Binary?
    ensures !e.Binary? ==> e == ParseVal(input)
  {
    var s := Trim(input);
    match FirstOperatorFrom(s, 0)
    case Some(k) =>
      var (left, right) := SplitOnce(s, OPERATORS[k].0).value;
      Binary(OPERATORS[k].1, ParseVal(left), ParseVal(right))
    case None =>
      assert Trim(s) == s;
      ParseVal(s)
  }

  // ------------------------------------------------------- parse_expr / parse_and_expr

  function FoldAnd(acc: Expr, parts: seq<string>): Expr
    decreases |parts|
  {
    if parts == [] then acc else FoldAnd(Binary(And, acc, ParseAtom(parts[0])), parts[1..])
  }

  /** The expression `parse_and_expr` builds. */
  function AndExprOf(input: string): Expr {
    var parts := SplitOn(input, " and ");
    if |parts| > 1 then FoldAnd(ParseAtom(parts[0]), parts[1..]) else ParseAtom(input)
  }

  function FoldOr(acc: Expr, parts: seq<string>): Expr
    decreases |parts|
  {
    if parts == [] then acc else FoldOr(Binary(Or, acc, AndExprOf(parts[0])), parts[1..])
  }

  /** The expression `parse_expr` builds. */
  function ExprOf(input: string): Expr {
    var parts := SplitOn(input, " or ");
    if |parts| > 1 then FoldOr(AndExprOf(parts[0]), parts[1..]) else AndExprOf(input)
  }

  /** The folds are left-associative: the last part is the right operand of the outermost node. */
  lemma {:induction false} FoldAndLeft(acc: Expr, parts: seq<string>, last: string)
    ensures FoldAnd(acc, parts + [last]) == Binary(And, FoldAnd(acc, parts), ParseAtom(last))
    decreases |parts|
  {
    if parts == [] {
      assert FoldAnd(acc, [last]) == FoldAnd(Binary(And, acc, ParseAtom(last)), []);
    } else {
      assert (parts + [last])[1..] == parts[1..] + [last];
      FoldAndLeft(Binary(And, acc, ParseAtom(parts[0])), parts[1..], last);
    }
  }

  lemma {:induction false} FoldOrLeft(acc: Expr, parts: seq<string>, last: string)
    ensures FoldOr(acc, parts + [last]) == Binary(Or, FoldOr(acc, parts), AndExprOf(last))
    decreases |parts|
  {
    if parts == [] {
      assert FoldOr(acc, [last]) == FoldOr(Binary(Or, acc, AndExprOf(last)), []);
    } else {
      assert (parts + [last])[1..] == parts[1..] + [last];
      FoldOrLeft(Binary(Or, acc, AndExprOf(parts[0])), parts[1..], last);
    }
  }

  /** A pattern whose second character never occurs cannot occur. */
  lemma NoSecondChar(s: string, p: string)
    requires |p| >= 2 && forall i :: 0 <= i < |s| ==> s[i] != p[1]
    ensures !Contains(s, p)
  {
    forall j | 0 <= j <= |s|
      ensures !OccursAt(s, p, j)
    {
      if j + |p| <= |s| {
        assert s[j..j + |p|][1] == s[j + 1];
      }
    }
  }

  /** In `a > 1` the first operator of the table that occurs is `>`. */
  lemma AtomExampleOperator()
    ensures Trim("a > 1") == "a > 1" && FirstOperatorFrom("a > 1", 0) == Some(4)
  {
    var s := "a > 1";
    TrimStartKeeps(s);
    NoSecondChar(s, "!=");
    NoSecondChar(s, "==");
    NoSecondChar(s, ">=");
    NoSecondChar(s, "<=");
    assert OccursAt(s, ">", 2);
  }

  /** `"a > 1".split_once(">")` is `("a ", " 1")`. */
  lemma AtomExampleSplit()
    ensures SplitOnce("a > 1", ">") == Some(("a ", " 1"))
  {
    var s := "a > 1";
    assert OccursAt(s, ">", 2);
    var (l, r) := SplitOnce(s, ">").value;
    assert l + ">" + r == s && !Contains(l, ">");
    assert |s| == 5 && s[0] == 'a' && s[1] == ' ' && s[3] == ' ' && s[4] == '1';
    assert s[|l|] == '>' by {
      assert (l + ">" + r)[|l|] == '>';
    }
    assert l == s[..2] && r == s[3..];
    assert l[0] == s[0] && l[1] == s[1] && r[0] == s[3] && r[1] == s[4] && |r| == 2;
    assert l == "a " && r == " 1";
  }

  lemma AtomExampleLeft()
    ensures ParseVal("a ") == Expr.Var("a")
  {
    TrimStartKeeps("a ");
    assert Trim("a ") == "a";
    assert ParseI64("a").None? && ParseDecimalF64("a").None?;
  }

  lemma AtomExampleRight()
    ensures ParseVal(" 1") == Literal(I64(1))
  {
    assert TrimStart(" 1") == TrimStart("1");
    TrimStartKeeps("1");
    assert Trim(" 1") == "1";
    assert DigitsValue("1") == 1 by {
      assert "1"[..0] == [];
    }
  }

  /** `a > 1` is `Binary(Gt, Var("a"), Literal(I64(1)))`, as the `<if test="a > 1">` test expects. */
  lemma AtomExample()
    ensures ParseAtom("a > 1") == Binary(Gt, Expr.Var("a"), Literal(I64(1)))
  {
    AtomExampleOperator();
    AtomExampleSplit();
    AtomExampleLeft();
    AtomExampleRight();
  }

  /** `parse_and_expr`: split on `" and "` and fold the atoms into a mutable `expr`. */
  method ParseAndExpr(input: string) returns (e: Expr)
    ensures e == AndExprOf(input)
  {
    var parts := SplitOn(input, " and ");
    if |parts| > 1 {
      e := ParseAtom(parts[0]);
      ghost var want := FoldAnd(e, parts[1..]);
      assert want == AndExprOf(input);
      var i := 1;
      while i < |parts|
        invariant 1 <= i <= |parts|
        invariant FoldAnd(e, parts[i..]) == want
      {
        assert parts[i..][1..] == parts[i + 1..];
        e := Binary(And, e, ParseAtom(parts[i]));
        i := i + 1;
      }
    } else {
      e := ParseAtom(input);
    }
  }

  /** `parse_expr`: split on `" or "` and fold the `and` expressions. */
  method ParseExpr(input: string) returns (e: Expr)
    ensures e == ExprOf(input)
  {
    var parts := SplitOn(input, " or ");
    if |parts| > 1 {
      e := ParseAndExpr(parts[0]);
      ghost var want := FoldOr(e, parts[1..]);
      assert want == ExprOf(input);
      var i := 1;
      while i < |parts|
        invariant 1 <= i <= |parts|
        invariant FoldOr(e, parts[i..]) == want
      {
        assert parts[i..][1..] == parts[i + 1..];
        var next := ParseAndExpr(parts[i]);
        e := Binary(Or, e, next);
        i := i + 1;
      }
    } else {
      e := ParseAndExpr(input);
    }
  }
}
