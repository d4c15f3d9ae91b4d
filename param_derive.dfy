/**
 * The `#[derive(Param)]` expansion (`uorm-macros/src/param.rs`): the two case-conversion
 * helpers emitted into every impl, the key-aliasing `to_value` / `from_value` bodies generated
 * per field, and the `#[param(...)]` attribute reading that decides each field's key.
 *
 * `is_uppercase`, `is_lowercase`, `is_numeric`, `to_uppercase` and `to_lowercase` are taken on
 * ASCII only.
 */
module ParamDerive {
  import opened Wrappers
  import opened Strings
  import opened Values
  import opened Errors

  // ------------------------------------------------------------------ snake_to_camel

  /** One later part of `snake_to_camel`: its first character upper-cased, the rest as is. */
  function Capitalize(p: string): string
    requires p != []
  {
    [ToAsciiUpper(p[0])] + p[1..]
  }

  /**
   * `snake_to_camel` over the pieces of `split('_')`: empty pieces are skipped, the first kept
   * piece is copied, every later one is capitalised. `started` says a piece was already kept.
   */
  function CamelFrom(parts: seq<string>, started: bool): string
  {
    if parts == [] then ""
    else if parts[0] == "" then CamelFrom(parts[1..], started)
    else (if started then Capitalize(parts[0]) else parts[0]) + CamelFrom(parts[1..], true)
  }

  /** The camel form of a key. */
  function Camel(s: string): string {
    CamelFrom(SplitOn(s, "_"), false)
  }

  /** `snake_to_camel`: one pass over the pieces, appending to `out`. */
  method SnakeToCamel(s: string) returns (out: string)
    ensures out == Camel(s)
  {
    var parts := SplitOn(s, "_");
    var started := false;
    out := "";
    for i := 0 to |parts|
      invariant out + CamelFrom(parts[i..], started) == Camel(s)
    {
      assert parts[i..][1..] == parts[i + 1..];
      var part := parts[i];
      if part != "" {
        if !started {
          out := out + part;
          started := true;
        } else {
          out := out + Capitalize(part);
        }
      }
    }
  }

  lemma ConcatWithout(a: string, b: string, c: char)
    requires !ContainsChar(a, c) && !ContainsChar(b, c)
    ensures !ContainsChar(a + b, c)
  {
    forall i | 0 <= i < |a + b| ensures (a + b)[i] != c {
      if i >= |a| { assert (a + b)[i] == b[i - |a|]; }
    }
  }

  lemma {:induction false} CamelFromNoUnderscore(parts: seq<string>, started: bool)
    requires forall k :: 0 <= k < |parts| ==> !ContainsChar(parts[k], '_')
    ensures !ContainsChar(CamelFrom(parts, started), '_')
  {
    if parts != [] {
      CamelFromNoUnderscore(parts[1..], if parts[0] == "" then started else true);
      if parts[0] != "" {
        var p := parts[0];
        var head := if started then Capitalize(p) else p;
        assert !ContainsChar(head, '_') by {
          if started {
            forall i | 0 <= i < |head| ensures head[i] != '_' {
              if i > 0 { assert head[i] == p[i]; } else { assert p[0] != '_'; }
            }
          }
        }
        ConcatWithout(head, CamelFrom(parts[1..], true), '_');
      }
    }
  }

  /** The camel form never holds an underscore. */
  lemma CamelNoUnderscore(s: string)
    ensures !ContainsChar(Camel(s), '_')
  {
    var parts := SplitOn(s, "_");
    SplitPiecesFree(s, "_");
    forall k | 0 <= k < |parts| ensures !ContainsChar(parts[k], '_') {
      ContainsSingle(parts[k], '_');
    }
    CamelFromNoUnderscore(parts, false);
  }

  /** A key without underscores is its own camel form. */
  lemma CamelIdentity(s: string)
    requires !ContainsChar(s, '_')
    ensures Camel(s) == s
  {
    ContainsSingle(s, '_');
    SplitOnWithout(s, "_");
    if s != "" {
      assert CamelFrom([s], false) == s + CamelFrom([], true);
    }
  }

  lemma SplitOnAt(a: string, c: char, b: string)
    requires !ContainsChar(a, c)
    ensures SplitOn(a + [c] + b, [c]) == [a] + SplitOn(b, [c])
  {
    var s := a + [c] + b;
    assert OccursAt(s, [c], |a|) by { assert s[|a|..|a| + 1] == [c]; }
    forall j | 0 <= j < |a| ensures !OccursAt(s, [c], j) {
      assert s[j..j + 1][0] == s[j] == a[j];
    }
    assert FindSub(s, [c]) == Some(|a|);
    assert s[..|a|] == a && s[|a| + 1..] == b;
  }

  /** `snake_to_camel("user_id") == "userId"`. */
  lemma CamelExample()
    ensures Camel("user_id") == "userId"
  {
    assert "user_id" == "user" + ['_'] + "id";
    SplitOnAt("user", '_', "id");
    ContainsSingle("id", '_');
    SplitOnWithout("id", "_");
    assert SplitOn("user_id", "_") == ["user", "id"];
    assert Capitalize("id") == "Id";
    assert CamelFrom(["id"], true) == "Id" + CamelFrom([], true);
    assert CamelFrom(["user", "id"], false) == "user" + CamelFrom(["id"], true);
  }

  // ------------------------------------------------------------------ camel_to_snake

  /** `is_lowercase() || is_numeric()`. */
  predicate LowerOrDigit(c: char) {
    IsAsciiLower(c) || IsDigit(c)
  }

  /** `out.ends_with('_')`. */
  predicate EndsUnderscore(out: string) {
    out != [] && out[|out| - 1] == '_'
  }

  /**
   * `camel_to_snake` from the remaining input `s`, the output so far and the
   * `prev_is_lower_or_digit` flag: an underscore is kept unless one was just written; an
   * uppercase letter is lower-cased, after an underscore when the output is non-empty, the
   * previous or the next character is lower-case or a digit, and no underscore was just written.
   */
  function SnakeFrom(s: string, out: string, prev: bool): string
    decreases |s|
  {
    if s == [] then out
    else
      var ch := s[0];
      if ch == '_' then
        SnakeFrom(s[1..], if EndsUnderscore(out) then out else out + "_", false)
      else if IsAsciiUpper(ch) then
        var next := |s| > 1 && LowerOrDigit(s[1]);
        var out1 := if out != [] && (prev || next) && !EndsUnderscore(out) then out + "_" else out;
        SnakeFrom(s[1..], out1 + [ToAsciiLower(ch)], false)
      else
        SnakeFrom(s[1..], out + [ch], LowerOrDigit(ch))
  }

  /** The snake form of a key. */
  function Snake(s: string): string {
    SnakeFrom(s, "", false)
  }

  /** `camel_to_snake`: the peekable character loop with its flag. */
  method CamelToSnake(s: string) returns (out: string)
    ensures out == Snake(s)
  {
    out := "";
    var prev := false;
    var i := 0;
    while i < |s|
      invariant 0 <= i <= |s|
      invariant SnakeFrom(s[i..], out, prev) == Snake(s)
    {
      var ch := s[i];
      assert s[i..][1..] == s[i + 1..];
      i := i + 1;
      if ch == '_' {
        if !EndsUnderscore(out) {
          out := out + "_";
        }
        prev := false;
        continue;
      }
      if IsAsciiUpper(ch) {
        var next := i < |s| && LowerOrDigit(s[i]);
        if out != [] && (prev || next) && !EndsUnderscore(out) {
          out := out + "_";
        }
        out := out + [ToAsciiLower(ch)];
        prev := false;
      } else {
        out := out + [ch];
        prev := LowerOrDigit(ch);
      }
    }
  }

  /** No two underscores in a row. */
  predicate NoDoubleUnderscore(t: string) {
    forall j :: 0 <= j < |t| - 1 ==> !(t[j] == '_' && t[j + 1] == '_')
  }

  predicate NoUpper(t: string) {
    forall j :: 0 <= j < |t| ==> !IsAsciiUpper(t[j])
  }

  lemma AppendNoDouble(out: string, c: char)
    requires NoDoubleUnderscore(out)
    requires c == '_' ==> !EndsUnderscore(out)
    ensures NoDoubleUnderscore(out + [c])
  {
    var t := out + [c];
    forall j | 0 <= j < |t| - 1 ensures !(t[j] == '_' && t[j + 1] == '_') {
      if j + 1 < |out| { assert t[j] == out[j] && t[j + 1] == out[j + 1]; }
    }
  }

  lemma {:induction false} SnakeFromNoDouble(s: string, out: string, prev: bool)
    requires NoDoubleUnderscore(out)
    ensures NoDoubleUnderscore(SnakeFrom(s, out, prev))
    decreases |s|
  {
    if s != [] {
      var ch := s[0];
      if ch == '_' {
        if !EndsUnderscore(out) { AppendNoDouble(out, '_'); }
        SnakeFromNoDouble(s[1..], if EndsUnderscore(out) then out else out + "_", false);
      } else if IsAsciiUpper(ch) {
        var next := |s| > 1 && LowerOrDigit(s[1]);
        var out1 := if out != [] && (prev || next) && !EndsUnderscore(out) then out + "_" else out;
        if out1 != out { AppendNoDouble(out, '_'); }
        AppendNoDouble(out1, ToAsciiLower(ch));
        SnakeFromNoDouble(s[1..], out1 + [ToAsciiLower(ch)], false);
      } else {
        AppendNoDouble(out, ch);
        SnakeFromNoDouble(s[1..], out + [ch], LowerOrDigit(ch));
      }
    }
  }

  /** `camel_to_snake` never writes two underscores in a row, however many the input has. */
  lemma SnakeNoDoubleUnderscore(s: string)
    ensures NoDoubleUnderscore(Snake(s))
  {
    SnakeFromNoDouble(s, "", false);
  }

  lemma AppendNoUpper(out: string, c: char)
    requires NoUpper(out) && !IsAsciiUpper(c)
    ensures NoUpper(out + [c])
  {
    var t := out + [c];
    forall j | 0 <= j < |t| ensures !IsAsciiUpper(t[j]) {
      if j < |out| { assert t[j] == out[j]; }
    }
  }

  lemma {:induction false} SnakeFromNoUpper(s: string, out: string, prev: bool)
    requires NoUpper(out)
    ensures NoUpper(SnakeFrom(s, out, prev))
    decreases |s|
  {
    if s != [] {
      var ch := s[0];
      if ch == '_' {
        if !EndsUnderscore(out) { AppendNoUpper(out, '_'); }
        SnakeFromNoUpper(s[1..], if EndsUnderscore(out) then out else out + "_", false);
      } else if IsAsciiUpper(ch) {
        var next := |s| > 1 && LowerOrDigit(s[1]);
        var out1 := if out != [] && (prev || next) && !EndsUnderscore(out) then out + "_" else out;
        if out1 != out { AppendNoUpper(out, '_'); }
        AppendNoUpper(out1, ToAsciiLower(ch));
        SnakeFromNoUpper(s[1..], out1 + [ToAsciiLower(ch)], false);
      } else {
        AppendNoUpper(out, ch);
        SnakeFromNoUpper(s[1..], out + [ch], LowerOrDigit(ch));
      }
    }
  }

  /** Every uppercase letter is lower-cased in the snake form. */
  lemma SnakeLowercase(s: string)
    ensures NoUpper(Snake(s))
  {
    SnakeFromNoUpper(s, "", false);
  }

  lemma UnderscoreNotDoubled(out: string, t: string)
    requires NoDoubleUnderscore(out + t) && t != [] && t[0] == '_'
    ensures !EndsUnderscore(out)
  {
    if out != [] {
      var j := |out| - 1;
      assert (out + t)[j] == out[j];
      assert (out + t)[j + 1] == t[0];
    }
  }

  lemma {:induction false} SnakeFromIdentity(t: string, out: string, prev: bool)
    requires NoUpper(t) && NoDoubleUnderscore(out + t)
    ensures SnakeFrom(t, out, prev) == out + t
    decreases |t|
  {
    if t != [] {
      var ch := t[0];
      assert (out + t)[|out|] == ch;
      var out1 := out + [ch];
      assert out1 + t[1..] == out + t;
      assert NoUpper(t[1..]) by {
        forall j | 0 <= j < |t[1..]| ensures !IsAsciiUpper(t[1..][j]) { assert t[1..][j] == t[j + 1]; }
      }
      assert !IsAsciiUpper(ch);
      if ch == '_' {
        UnderscoreNotDoubled(out, t);
        assert out + "_" == out1;
      }
      SnakeFromIdentity(t[1..], out1, if ch == '_' then false else LowerOrDigit(ch));
    }
  }

  /** Input with no uppercase letter and no `"__"` is its own snake form. */
  lemma SnakeIdentity(s: string)
    requires NoUpper(s) && NoDoubleUnderscore(s)
    ensures Snake(s) == s
  {
    assert "" + s == s;
    SnakeFromIdentity(s, "", false);
  }

  /** `camel_to_snake("userId") == "user_id"`. */
  lemma SnakeExample()
    ensures Snake("userId") == "user_id"
  {
    assert SnakeFrom("Id", "user", true) == SnakeFrom("d", "user_i", false);
    assert SnakeFrom("d", "user_i", false) == SnakeFrom("", "user_id", true);
    assert Snake("userId") == SnakeFrom("Id", "user", true);
  }

  // ------------------------------------------------------------------ to_value

  /** One field of the annotated struct: its key (rename or field name) and whether it is ignored. */
  datatype ParamField = ParamField(key: string, ignore: bool)

  /** The key and the two aliases the generated code may write for it. */
  function Aliases(key: string): set<string> {
    {key, Camel(key), Snake(key)}
  }

  /**
   * The insert block generated for one field: the key is always (over)written, the camel and
   * snake forms only when they differ from the key and are not yet present.
   */
  function InsertField(m: map<string, Value>, key: string, v: Value): (r: map<string, Value>)
    ensures key in r && r[key] == v
    ensures forall k :: k in r <==> k in m || k in Aliases(key)
    ensures forall k :: k in m && k != key ==> r[k] == m[k]
    ensures forall k :: k in r && k !in m ==> r[k] == v
  {
    var m1 := m[key := v];
    var camel := Camel(key);
    var m2 := if camel != key && camel !in m1 then m1[camel := v] else m1;
    var snake := Snake(key);
    if snake != key && snake !in m2 then m2[snake := v] else m2
  }

  /** The map the generated `to_value` builds from the first `|fields|` fields and their values. */
  function ToValueMap(fields: seq<ParamField>, values: seq<Value>): map<string, Value>
    requires |fields| == |values|
    decreases |fields|
  {
    if fields == [] then map[]
    else
      var n := |fields| - 1;
      var m := ToValueMap(fields[..n], values[..n]);
      if fields[n].ignore then m else InsertField(m, fields[n].key, values[n])
  }

  /** The generated `to_value`: one insert block per non-ignored field, in declaration order. */
  method ToValue(fields: seq<ParamField>, values: seq<Value>) returns (v: Value)
    requires |fields| == |values|
    ensures v == Map(ToValueMap(fields, values))
  {
    var m: map<string, Value> := map[];
    for i := 0 to |fields|
      invariant m == ToValueMap(fields[..i], values[..i])
    {
      assert fields[..i + 1][..i] == fields[..i] && values[..i + 1][..i] == values[..i];
      if !fields[i].ignore {
        var key := fields[i].key;
        var value := values[i];
        m := m[key := value];
        var camel := SnakeToCamel(key);
        if camel != key && camel !in m {
          m := m[camel := value];
        }
        var snake := CamelToSnake(key);
        if snake != key && snake !in m {
          m := m[snake := value];
        }
      }
    }
    assert fields[..|fields|] == fields && values[..|values|] == values;
    v := Map(m);
  }

  /** `k` is the key or an alias of the field `f`, which is not ignored. */
  predicate Names(f: ParamField, k: string) {
    !f.ignore && k in Aliases(f.key)
  }

  /** The keys of the map are exactly the keys and aliases of the non-ignored fields. */
  lemma {:induction false} ToValueKeys(fields: seq<ParamField>, values: seq<Value>, k: string)
    requires |fields| == |values|
    ensures k in ToValueMap(fields, values) <==> exists i :: 0 <= i < |fields| && Names(fields[i], k)
    decreases |fields|
  {
    if fields != [] {
      var n := |fields| - 1;
      var pre := fields[..n];
      ToValueKeys(pre, values[..n], k);
      var m := ToValueMap(pre, values[..n]);
      if k in ToValueMap(fields, values) {
        if k in m {
          var i :| 0 <= i < n && Names(pre[i], k);
          assert fields[i] == pre[i];
        } else {
          assert Names(fields[n], k);
        }
      }
      if exists i :: 0 <= i < |fields| && Names(fields[i], k) {
        var i :| 0 <= i < |fields| && Names(fields[i], k);
        if i < n {
          assert pre[i] == fields[i];
          assert k in m;
        }
      }
    }
  }

  /** A non-ignored field whose key no later field reuses finds its own value under that key. */
  lemma {:induction false} ToValueLast(fields: seq<ParamField>, values: seq<Value>, i: nat)
    requires |fields| == |values| && i < |fields| && !fields[i].ignore
    requires forall j :: i < j < |fields| && !fields[j].ignore ==> fields[j].key != fields[i].key
    ensures fields[i].key in ToValueMap(fields, values)
    ensures ToValueMap(fields, values)[fields[i].key] == values[i]
    decreases |fields|
  {
    var n := |fields| - 1;
    if i < n {
      forall j | i < j < n && !fields[..n][j].ignore ensures fields[..n][j].key != fields[..n][i].key {
        assert fields[..n][j] == fields[j];
      }
      assert fields[..n][i] == fields[i] && values[..n][i] == values[i];
      ToValueLast(fields[..n], values[..n], i);
    }
  }

  // ------------------------------------------------------------------ from_value

  /** What the generated `from_value` yields per field: a converted value, or `Default::default()`. */
  datatype FieldValue = Converted(v: Value) | Defaulted

  /** The key the remove chain takes: the key itself, else its camel form, else its snake form. */
  function Chosen(m: map<string, Value>, key: string): (r: Option<string>)
    ensures r.Some? ==> r.value in m && r.value in Aliases(key)
    ensures key in m ==> r == Some(key)
    ensures key !in m && Camel(key) in m ==> r == Some(Camel(key))
    ensures key !in m && Camel(key) !in m && Snake(key) in m ==> r == Some(Snake(key))
    ensures r.None? <==> forall k :: k in Aliases(key) ==> k !in m
  {
    if key in m then Some(key)
    else if Camel(key) != key && Camel(key) in m then Some(Camel(key))
    else if Snake(key) != key && Snake(key) in m then Some(Snake(key))
    else None
  }

  function Prepend(f: FieldValue, r: Result<seq<FieldValue>, DbError>): Result<seq<FieldValue>, DbError> {
    if r.Err? then r else Ok([f] + r.value)
  }

  /**
   * The field initialisers of the generated `from_value` from the `i`-th field on, over what is
   * left of the map: each non-ignored field removes the entry it takes (`Null` when none) and
   * passes it to its type's `from_value`, `convert(i, raw)`; the first error aborts.
   */
  function FieldsFrom(fields: seq<ParamField>, i: nat, m: map<string, Value>,
                      convert: (nat, Value) -> Result<Value, DbError>): Result<seq<FieldValue>, DbError>
    requires i <= |fields|
    decreases |fields| - i
  {
    if i == |fields| then Ok([])
    else if fields[i].ignore then Prepend(Defaulted, FieldsFrom(fields, i + 1, m, convert))
    else
      var k := Chosen(m, fields[i].key);
      var raw := if k.Some? then m[k.value] else Null;
      var rest := if k.Some? then m - {k.value} else m;
      match convert(i, raw)
      case Err(e) => Err(e)
      case Ok(x) => Prepend(Converted(x), FieldsFrom(fields, i + 1, rest, convert))
  }

  /** The variant name, standing for the `{:?}` rendering in the mismatch message. */
  function VariantName(v: Value): string {
    match v
    case Null => "Null"
    case Bool(_) => "Bool"
    case I16(_) => "I16"
    case I32(_) => "I32"
    case I64(_) => "I64"
    case U8(_) => "U8"
    case F64(_) => "F64"
    case Str(_) => "Str"
    case Bytes(_) => "Bytes"
    case Date(_) => "Date"
    case Time(_) => "Time"
    case DateTime(_) => "DateTime"
    case DateTimeUtc(_) => "DateTimeUtc"
    case Decimal(_) => "Decimal"
    case List(_) => "List"
    case Map(_) => "Map"
  }

  function Joined(out: seq<FieldValue>, r: Result<seq<FieldValue>, DbError>): Result<seq<FieldValue>, DbError> {
    if r.Err? then r else Ok(out + r.value)
  }

  lemma JoinedNothing(r: Result<seq<FieldValue>, DbError>)
    ensures Joined([], r) == r
  {
    if r.Ok? { assert [] + r.value == r.value; }
  }

  lemma JoinedPrepend(out: seq<FieldValue>, f: FieldValue, r: Result<seq<FieldValue>, DbError>)
    ensures Joined(out, Prepend(f, r)) == Joined(out + [f], r)
  {
    if r.Ok? { assert out + ([f] + r.value) == out + [f] + r.value; }
  }

  /** The generated `from_value`: a non-`Map` is a `TypeMismatch`, a `Map` is consumed field by field. */
  method FromValue(fields: seq<ParamField>, v: Value, convert: (nat, Value) -> Result<Value, DbError>)
    returns (r: Result<seq<FieldValue>, DbError>)
    ensures !v.Map? ==> r == Err(TypeMismatch("Expected Map, got " + VariantName(v)))
    ensures v.Map? ==> r == FieldsFrom(fields, 0, v.entries, convert)
  {
    if !v.Map? {
      return Err(TypeMismatch("Expected Map, got " + VariantName(v)));
    }
    var m := v.entries;
    var out: seq<FieldValue> := [];
    JoinedNothing(FieldsFrom(fields, 0, m, convert));
    for i := 0 to |fields|
      invariant Joined(out, FieldsFrom(fields, i, m, convert)) == FieldsFrom(fields, 0, v.entries, convert)
    {
      if fields[i].ignore {
        JoinedPrepend(out, Defaulted, FieldsFrom(fields, i + 1, m, convert));
        out := out + [Defaulted];
      } else {
        var key := fields[i].key;
        ghost var m0 := m;
        ghost var k := Chosen(m0, key);
        var taken: Option<Value> := None;
        if key in m {
          taken := Some(m[key]);
          m := m - {key};
        }
        if taken.None? {
          var camel := SnakeToCamel(key);
          if camel != key && camel in m {
            taken := Some(m[camel]);
            m := m - {camel};
          }
        }
        if taken.None? {
          var snake := CamelToSnake(key);
          if snake != key && snake in m {
            taken := Some(m[snake]);
            m := m - {snake};
          }
        }
        var raw := if taken.Some? then taken.value else Null;
        assert raw == if k.Some? then m0[k.value] else Null;
        assert m == if k.Some? then m0 - {k.value} else m0;
        var c := convert(i, raw);
        if c.Err? {
          return Err(c.error);
        }
        JoinedPrepend(out, Converted(c.value), FieldsFrom(fields, i + 1, m, convert));
        out := out + [Converted(c.value)];
      }
    }
    assert out + [] == out;
    r := Ok(out);
  }

  /** No two non-ignored fields share a key. */
  predicate DistinctKeys(fields: seq<ParamField>) {
    forall i, j :: 0 <= i < j < |fields| && !fields[i].ignore && !fields[j].ignore ==> fields[i].key != fields[j].key
  }

  /** What a faithful round trip gives back: each field's own value, ignored ones defaulted. */
  function Expected(fields: seq<ParamField>, values: seq<Value>): (r: seq<FieldValue>)
    requires |fields| == |values|
    ensures |r| == |fields|
  {
    seq(|fields|, i requires 0 <= i < |fields| => if fields[i].ignore then Defaulted else Converted(values[i]))
  }

  lemma {:induction false} TakeAll(fields: seq<ParamField>, values: seq<Value>, i: nat, m: map<string, Value>,
                                   convert: (nat, Value) -> Result<Value, DbError>)
    requires |fields| == |values| && i <= |fields| && DistinctKeys(fields)
    requires forall j :: 0 <= j < |values| ==> convert(j, values[j]) == Ok(values[j])
    requires forall j :: i <= j < |fields| && !fields[j].ignore ==> fields[j].key in m && m[fields[j].key] == values[j]
    ensures FieldsFrom(fields, i, m, convert) == Ok(Expected(fields, values)[i..])
    decreases |fields| - i
  {
    var e := Expected(fields, values);
    if i == |fields| {
      assert e[i..] == [];
    } else {
      assert e[i..] == [e[i]] + e[i + 1..];
      if fields[i].ignore {
        TakeAll(fields, values, i + 1, m, convert);
      } else {
        var key := fields[i].key;
        assert Chosen(m, key) == Some(key);
        assert m[key] == values[i];
        assert convert(i, values[i]) == Ok(values[i]);
        var rest := m - {key};
        forall j | i + 1 <= j < |fields| && !fields[j].ignore
          ensures fields[j].key in rest && rest[fields[j].key] == values[j]
        {
          assert fields[j].key != key;
        }
        TakeAll(fields, values, i + 1, rest, convert);
        assert FieldsFrom(fields, i, m, convert) == Prepend(Converted(values[i]), FieldsFrom(fields, i + 1, rest, convert));
        assert e[i] == Converted(values[i]);
      }
    }
  }

  /**
   * `from_value(to_value(x))` gives every field back when no two fields share a key and each
   * field type's `from_value` inverts its `to_value`.
   */
  lemma RoundTrip(fields: seq<ParamField>, values: seq<Value>, convert: (nat, Value) -> Result<Value, DbError>)
    requires |fields| == |values| && DistinctKeys(fields)
    requires forall j :: 0 <= j < |values| ==> convert(j, values[j]) == Ok(values[j])
    ensures FieldsFrom(fields, 0, ToValueMap(fields, values), convert) == Ok(Expected(fields, values))
  {
    var m := ToValueMap(fields, values);
    forall j | 0 <= j < |fields| && !fields[j].ignore ensures fields[j].key in m && m[fields[j].key] == values[j] {
      ToValueLast(fields, values, j);
    }
    TakeAll(fields, values, 0, m, convert);
    assert Expected(fields, values)[0..] == Expected(fields, values);
  }

  /**
   * Two fields in a row with the same key and no alias present: the first removes the entry,
   * so the second reads `Null`.
   */
  lemma SecondReaderGetsNull(fields: seq<ParamField>, i: nat, m: map<string, Value>,
                             convert: (nat, Value) -> Result<Value, DbError>)
    requires i + 1 < |fields| && !fields[i].ignore && fields[i + 1] == fields[i]
    requires fields[i].key in m && Camel(fields[i].key) !in m - {fields[i].key} && Snake(fields[i].key) !in m - {fields[i].key}
    requires convert(i, m[fields[i].key]).Ok? && convert(i + 1, Null).Ok?
    ensures FieldsFrom(fields, i, m, convert)
         == Prepend(Converted(convert(i, m[fields[i].key]).value),
                    Prepend(Converted(convert(i + 1, Null).value),
                            FieldsFrom(fields, i + 2, m - {fields[i].key}, convert)))
  {
    var key := fields[i].key;
    var rest := m - {key};
    assert Chosen(rest, key) == None;
    assert rest - {} == rest;
  }

  // ------------------------------------------------------------------ parse_field_attrs

  /**
   * One item of `#[param(a, b = "x", ...)]`. `RenameMeta(None)` is a `rename` without a string
   * literal; `hasValue` says an `ignore` or unknown item is followed by `= …`.
   */
  datatype NestedMeta = IgnoreMeta(hasValue: bool) | RenameMeta(lit: Option<string>) | OtherMeta(hasValue: bool)

  /** An attribute on a field: not `param`, `#[param("x")]`, or a `#[param(...)]` list. */
  datatype FieldAttr = OtherAttr | ParamLit(lit: string) | ParamList(metas: seq<NestedMeta>)

  /**
   * `parse_nested_meta` with the generated closure: `ignore` sets the flag, `rename = "x"`
   * sets the name; a `rename` without a literal, or an `ignore` or unknown item carrying a value
   * the closure leaves unread, is an error that ends the list, and what was set before it stays
   * (for `ignore = …` the flag is already set).
   */
  function ApplyMetas(name: string, ignore: bool, ms: seq<NestedMeta>): (string, bool)
    decreases |ms|
  {
    if ms == [] then (name, ignore)
    else match ms[0]
      case IgnoreMeta(hasValue) => if hasValue then (name, true) else ApplyMetas(name, true, ms[1..])
      case RenameMeta(lit) => if lit.Some? then ApplyMetas(lit.value, ignore, ms[1..]) else (name, ignore)
      case OtherMeta(hasValue) => if hasValue then (name, ignore) else ApplyMetas(name, ignore, ms[1..])
  }

  function ApplyAttr(st: (string, bool), a: FieldAttr): (string, bool) {
    match a
    case OtherAttr => st
    case ParamLit(s) => (s, st.1)
    case ParamList(ms) => ApplyMetas(st.0, st.1, ms)
  }

  /** `(name, ignore)` after the first `|attrs|` attributes of a field named `ident`. */
  function FieldAttrs(ident: string, attrs: seq<FieldAttr>): (string, bool)
    decreases |attrs|
  {
    if attrs == [] then (ident, false)
    else ApplyAttr(FieldAttrs(ident, attrs[..|attrs| - 1]), attrs[|attrs| - 1])
  }

  /** `parse_field_attrs`: the field name and `false`, updated by each `param` attribute in turn. */
  method ParseFieldAttrs(ident: string, attrs: seq<FieldAttr>) returns (name: string, ignore: bool)
    ensures (name, ignore) == FieldAttrs(ident, attrs)
  {
    name := ident;
    ignore := false;
    for i := 0 to |attrs|
      invariant (name, ignore) == FieldAttrs(ident, attrs[..i])
    {
      assert attrs[..i + 1][..i] == attrs[..i];
      match attrs[i] {
        case OtherAttr =>
        case ParamLit(s) =>
          name := s;
        case ParamList(ms) =>
          ghost var start := (name, ignore);
          var j := 0;
          var stop := false;
          while j < |ms| && !stop
            invariant 0 <= j <= |ms|
            invariant ApplyMetas(start.0, start.1, ms) == if stop then (name, ignore) else ApplyMetas(name, ignore, ms[j..])
          {
            assert ms[j..][1..] == ms[j + 1..];
            match ms[j] {
              case IgnoreMeta(hasValue) =>
                ignore := true;
                if hasValue {
                  stop := true;
                }
              case RenameMeta(lit) =>
                if lit.Some? {
                  name := lit.value;
                } else {
                  stop := true;
                }
              case OtherMeta(hasValue) =>
                if hasValue {
                  stop := true;
                }
            }
            j := j + 1;
          }
          assert !stop ==> ms[j..] == [];
      }
    }
    assert attrs[..|attrs|] == attrs;
  }

  /** A field without `param` attributes keeps its name and is not ignored. */
  lemma {:induction false} NoParamAttrs(ident: string, attrs: seq<FieldAttr>)
    requires forall i :: 0 <= i < |attrs| ==> attrs[i] == OtherAttr
    ensures FieldAttrs(ident, attrs) == (ident, false)
    decreases |attrs|
  {
    if attrs != [] {
      NoParamAttrs(ident, attrs[..|attrs| - 1]);
    }
  }

  lemma {:induction false} MetasKeepIgnore(name: string, ms: seq<NestedMeta>)
    ensures ApplyMetas(name, true, ms).1
    decreases |ms|
  {
    if ms != [] {
      match ms[0]
      case IgnoreMeta(hasValue) => if !hasValue { MetasKeepIgnore(name, ms[1..]); }
      case RenameMeta(lit) => if lit.Some? { MetasKeepIgnore(lit.value, ms[1..]); }
      case OtherMeta(hasValue) => if !hasValue { MetasKeepIgnore(name, ms[1..]); }
    }
  }

  /** Once a field is marked ignored, no later attribute clears the mark. */
  lemma {:induction false} IgnoreSticky(ident: string, attrs: seq<FieldAttr>, more: seq<FieldAttr>)
    requires FieldAttrs(ident, attrs).1
    ensures FieldAttrs(ident, attrs + more).1
    decreases |more|
  {
    if more != [] {
      var n := |more| - 1;
      var all := attrs + more;
      assert all[..|all| - 1] == attrs + more[..n];
      assert all[|all| - 1] == more[n];
      IgnoreSticky(ident, attrs, more[..n]);
      var st := FieldAttrs(ident, attrs + more[..n]);
      match more[n]
      case OtherAttr =>
      case ParamLit(_) =>
      case ParamList(ms) => MetasKeepIgnore(st.0, ms);
    } else {
      assert attrs + more == attrs;
    }
  }

  /** `#[param("x")]` as the last attribute makes `x` the key and leaves the ignore mark alone. */
  lemma LitRenames(ident: string, attrs: seq<FieldAttr>, s: string)
    ensures FieldAttrs(ident, attrs + [ParamLit(s)]) == (s, FieldAttrs(ident, attrs).1)
  {
    assert (attrs + [ParamLit(s)])[..|attrs|] == attrs;
  }

  /** `#[param(rename = "x")]` as the last attribute does the same. */
  lemma RenameRenames(ident: string, attrs: seq<FieldAttr>, s: string)
    ensures FieldAttrs(ident, attrs + [ParamList([RenameMeta(Some(s))])]) == (s, FieldAttrs(ident, attrs).1)
  {
    assert (attrs + [ParamList([RenameMeta(Some(s))])])[..|attrs|] == attrs;
    var st := FieldAttrs(ident, attrs);
    assert ApplyMetas(st.0, st.1, [RenameMeta(Some(s))]) == ApplyMetas(s, st.1, []);
  }

  /** `#[param(ignore)]` marks the field ignored and keeps its key. */
  lemma IgnoreMarks(ident: string, attrs: seq<FieldAttr>)
    ensures FieldAttrs(ident, attrs + [ParamList([IgnoreMeta(false)])]) == (FieldAttrs(ident, attrs).0, true)
  {
    assert (attrs + [ParamList([IgnoreMeta(false)])])[..|attrs|] == attrs;
    var st := FieldAttrs(ident, attrs);
    assert ApplyMetas(st.0, st.1, [IgnoreMeta(false)]) == ApplyMetas(st.0, true, []);
  }

  /** `#[param(ignore = "x", …)]` marks the field ignored, then the unread value ends the list. */
  lemma IgnoreWithValueStops(ident: string, attrs: seq<FieldAttr>, rest: seq<NestedMeta>)
    ensures FieldAttrs(ident, attrs + [ParamList([IgnoreMeta(true)] + rest)]) == (FieldAttrs(ident, attrs).0, true)
  {
    assert (attrs + [ParamList([IgnoreMeta(true)] + rest)])[..|attrs|] == attrs;
  }
}
