/**
 * The statement registry (`src/mapper_loader.rs`): namespace to statement id to the variants
 * registered for it, one per database type. Registration takes the namespace and items a
 * mapper file declares; reading and tokenising the XML is not part of this model.
 */
module MapperLoader {
  import opened Wrappers
  import opened Strings

  /** One `<select>`/`<insert>`/... element as read from a mapper file. */
  datatype SqlItem = SqlItem(id: string, databaseType: Option<string>, useGeneratedKeys: Option<string>,
                             keyColumn: Option<string>, content: Option<string>)

  /** A registered statement variant. */
  datatype SqlMapper = SqlMapper(databaseType: Option<string>, content: Option<string>,
                                 useGeneratedKeys: bool, keyColumn: Option<string>)

  /** Why a registration stopped: a second item for the same id and database type. */
  datatype LoadError = DuplicateId(source: string, id: string, namespace: string, databaseType: Option<string>)

  type Store = map<string, map<string, seq<SqlMapper>>>

  /** `parse_truthy`: absent is false; otherwise trimmed and ASCII-lowercased, `true`, `1` or `yes`. */
  function ParseTruthy(s: Option<string>): (b: bool)
    ensures s.None? ==> !b
    ensures s.Some? ==> (b <==> AsciiLowercase(Trim(s.value)) in {"true", "1", "yes"})
  {
    match s
    case None => false
    case Some(t) =>
      var l := AsciiLowercase(Trim(t));
      l == "true" || l == "1" || l == "yes"
  }

  /** `" YES "` is true, `"on"` is not. */
  lemma TruthyExamples()
    ensures ParseTruthy(Some(" YES ")) && !ParseTruthy(Some("on"))
  {
    var y := " YES ";
    assert TrimStart(y) == "YES " by { assert TrimStart(y[1..]) == y[1..]; }
    assert TrimEnd("YES ") == "YES" by { assert TrimEnd("YES ") == TrimEnd("YES"); }
    assert AsciiLowercase("YES") == "yes";
    assert TrimStart("on") == "on" && TrimEnd("on") == "on";
    assert AsciiLowercase("on") == "on";
  }

  /** Whitespace around the flag never changes its reading. */
  lemma TruthyIgnoresPadding(w1: string, t: string, w2: string)
    requires AllWhitespace(w1) && AllWhitespace(w2)
    ensures ParseTruthy(Some(w1 + t + w2)) == ParseTruthy(Some(t))
  {
    TrimPadded(w1, t, w2);
  }

  /** Nor does its ASCII case. */
  lemma TruthyIgnoresCase(t: string)
    ensures ParseTruthy(Some(AsciiLowercase(t))) == ParseTruthy(Some(t))
  {
    TrimLower(t);
    AsciiLowercaseTwice(Trim(t));
  }

  /** `SqlMapper::from`: everything copied, the key flag read with `parse_truthy`. */
  function FromItem(item: SqlItem): (m: SqlMapper)
    ensures m.databaseType == item.databaseType && m.content == item.content && m.keyColumn == item.keyColumn
    ensures m.useGeneratedKeys == ParseTruthy(item.useGeneratedKeys)
  {
    SqlMapper(item.databaseType, item.content, ParseTruthy(item.useGeneratedKeys), item.keyColumn)
  }

  /** Some variant in `ms` has database type `t` (both absent counts as equal). */
  predicate HasType(ms: seq<SqlMapper>, t: Option<string>) {
    exists k :: 0 <= k < |ms| && ms[k].databaseType == t
  }

  function Variants(nsMap: map<string, seq<SqlMapper>>, id: string): seq<SqlMapper> {
    if id in nsMap then nsMap[id] else []
  }

  /**
   * The item loop of `process_mapper_data` over one namespace's map: each item is appended to
   * its id's variants unless one of the same database type is there, in which case the loop
   * stops with that item and what was added before it stays.
   */
  function AddItems(nsMap: map<string, seq<SqlMapper>>, items: seq<SqlItem>): (map<string, seq<SqlMapper>>, Option<SqlItem>)
    decreases |items|
  {
    if items == [] then (nsMap, None)
    else
      var item := items[0];
      var m := FromItem(item);
      var existing := Variants(nsMap, item.id);
      if HasType(existing, m.databaseType) then (nsMap, Some(item))
      else AddItems(nsMap[item.id := existing + [m]], items[1..])
  }

  /** One pass of the item loop from item `i`: a duplicate stops there, anything else is appended. */
  lemma AddItemsAt(nsMap: map<string, seq<SqlMapper>>, items: seq<SqlItem>, i: nat)
    requires i < |items|
    ensures var m := FromItem(items[i]);
      var existing := Variants(nsMap, items[i].id);
      AddItems(nsMap, items[i..])
        == if HasType(existing, m.databaseType) then (nsMap, Some(items[i]))
           else AddItems(nsMap[items[i].id := existing + [m]], items[i + 1..])
  {
    assert items[i..][0] == items[i] && items[i..][1..] == items[i + 1..];
  }

  /** `process_mapper_data` after parsing: the namespace entry is created first, even for no items. */
  function Register(store: Store, source: string, namespace: string, items: seq<SqlItem>): (Store, Result<(), LoadError>)
  {
    var nsMap := if namespace in store then store[namespace] else map[];
    var (added, dup) := AddItems(nsMap, items);
    (store[namespace := added],
     if dup.Some? then Err(DuplicateId(source, dup.value.id, namespace, dup.value.databaseType)) else Ok(()))
  }

  /** The `for item in items` loop of `process_mapper_data`, computing `AddItems`. */
  method AddAll(nsMap0: map<string, seq<SqlMapper>>, items: seq<SqlItem>)
    returns (nsMap: map<string, seq<SqlMapper>>, dup: Option<SqlItem>)
    ensures (nsMap, dup) == AddItems(nsMap0, items)
  {
    nsMap := nsMap0;
    for i := 0 to |items|
      invariant AddItems(nsMap, items[i..]) == AddItems(nsMap0, items)
    {
      var item := items[i];
      var m := FromItem(item);
      var mappers := Variants(nsMap, item.id);
      var found := AnyOfType(mappers, m.databaseType);
      AddItemsAt(nsMap, items, i);
      if found {
        return nsMap, Some(item);
      }
      nsMap := nsMap[item.id := mappers + [m]];
    }
    dup := None;
  }

  /** `mappers.iter().any(|existing| existing.database_type == t)`. */
  method AnyOfType(mappers: seq<SqlMapper>, t: Option<string>) returns (b: bool)
    ensures b <==> HasType(mappers, t)
  {
    for k := 0 to |mappers|
      invariant forall j :: 0 <= j < k ==> mappers[j].databaseType != t
    {
      if mappers[k].databaseType == t {
        return true;
      }
    }
    return false;
  }

  /**
   * The variant loop of `find_mapper` from `fallback` on: the first variant of type `dbType`
   * wins; otherwise the last untyped one seen.
   */
  function SelectVariant(ms: seq<SqlMapper>, dbType: string, fallback: Option<SqlMapper>): Option<SqlMapper>
    decreases |ms|
  {
    if ms == [] then fallback
    else if ms[0].databaseType == Some(dbType) then Some(ms[0])
    else SelectVariant(ms[1..], dbType, if ms[0].databaseType.None? then Some(ms[0]) else fallback)
  }

  /** `find_mapper`: the id is split at its last `.` into namespace and id. */
  function FindIn(store: Store, sqlId: string, dbType: string): Option<SqlMapper> {
    match RSplitOnceChar(sqlId, '.')
    case None => None
    case Some((namespace, id)) =>
      if namespace in store && id in store[namespace] then SelectVariant(store[namespace][id], dbType, None)
      else None
  }

  /** The global `SQL_MAPPERS` store. */
  class Registry {
    var store: Store

    /** The store before any mapper is loaded (the `OnceLock` still empty finds nothing either). */
    constructor ()
      ensures store == map[]
    {
      store := map[];
    }

    /** `process_mapper_data` for one parsed file. */
    method ProcessMapperData(source: string, namespace: string, items: seq<SqlItem>) returns (r: Result<(), LoadError>)
      modifies this
      ensures (store, r) == Register(old(store), source, namespace, items)
    {
      var nsMap := if namespace in store then store[namespace] else map[];
      var added, dup := AddAll(nsMap, items);
      store := store[namespace := added];
      r := if dup.Some? then Err(DuplicateId(source, dup.value.id, namespace, dup.value.databaseType)) else Ok(());
    }

    /** `find_mapper`. */
    method FindMapper(sqlId: string, dbType: string) returns (r: Option<SqlMapper>)
      ensures r == FindIn(store, sqlId, dbType)
    {
      var split := RSplitOnceChar(sqlId, '.');
      if split.None? {
        return None;
      }
      var (namespace, id) := split.value;
      if namespace !in store || id !in store[namespace] {
        return None;
      }
      var mappers := store[namespace][id];
      var fallback: Option<SqlMapper> := None;
      for k := 0 to |mappers|
        invariant SelectVariant(mappers[k..], dbType, fallback) == SelectVariant(mappers, dbType, None)
      {
        assert mappers[k..][1..] == mappers[k + 1..];
        if mappers[k].databaseType == Some(dbType) {
          return Some(mappers[k]);
        }
        if mappers[k].databaseType.None? {
          fallback := Some(mappers[k]);
        }
      }
      r := fallback;
    }

    /** `clear_mappers`. */
    method ClearMappers()
      modifies this
      ensures store == map[]
    {
      store := map[];
    }
  }

  // ------------------------------------------------------------------ properties

  /** At most one variant per database type under each id. */
  predicate TypesDistinct(nsMap: map<string, seq<SqlMapper>>) {
    forall id, j, k :: id in nsMap && 0 <= j < k < |nsMap[id]| ==> nsMap[id][j].databaseType != nsMap[id][k].databaseType
  }

  /** The variant loop picks the first variant of the wanted type when there is one. */
  lemma {:induction false} SelectTyped(ms: seq<SqlMapper>, dbType: string, fallback: Option<SqlMapper>, k: nat)
    requires k < |ms| && ms[k].databaseType == Some(dbType)
    requires forall j :: 0 <= j < k ==> ms[j].databaseType != Some(dbType)
    ensures SelectVariant(ms, dbType, fallback) == Some(ms[k])
    decreases k
  {
    if k > 0 {
      SelectTyped(ms[1..], dbType, if ms[0].databaseType.None? then Some(ms[0]) else fallback, k - 1);
    }
  }

  /** With no variant of the wanted type, the loop gives the last untyped variant, or `None`. */
  lemma {:induction false} SelectUntyped(ms: seq<SqlMapper>, dbType: string, fallback: Option<SqlMapper>)
    requires forall j :: 0 <= j < |ms| ==> ms[j].databaseType != Some(dbType)
    ensures SelectVariant(ms, dbType, fallback).Some? <==> fallback.Some? || HasType(ms, None)
    ensures HasType(ms, None) ==> exists k :: 0 <= k < |ms| && ms[k].databaseType.None?
                                         && (forall j :: k < j < |ms| ==> ms[j].databaseType.Some?)
                                         && SelectVariant(ms, dbType, fallback) == Some(ms[k])
    ensures !HasType(ms, None) ==> SelectVariant(ms, dbType, fallback) == fallback
    decreases |ms|
  {
    if ms != [] {
      var rest := ms[1..];
      var fb := if ms[0].databaseType.None? then Some(ms[0]) else fallback;
      SelectUntyped(rest, dbType, fb);
      if HasType(rest, None) {
        var k :| 0 <= k < |rest| && rest[k].databaseType.None? && (forall j :: k < j < |rest| ==> rest[j].databaseType.Some?)
              && SelectVariant(rest, dbType, fb) == Some(rest[k]);
        assert ms[k + 1] == rest[k];
        forall j | k + 1 < j < |ms| ensures ms[j].databaseType.Some? { assert ms[j] == rest[j - 1]; }
      } else {
        forall j | 1 <= j < |ms| ensures ms[j].databaseType.Some? { assert ms[j] == rest[j - 1]; }
      }
      if HasType(rest, None) {
        var k :| 0 <= k < |rest| && rest[k].databaseType.None?;
        assert ms[k + 1] == rest[k];
      }
    }
  }

  /** An id without `.` gives `None`. */
  lemma NoDotNotFound(store: Store, sqlId: string, dbType: string)
    requires !ContainsChar(sqlId, '.')
    ensures FindIn(store, sqlId, dbType) == None
  {
  }

  /** Registration appends each item under its id and keeps at most one variant per type. */
  lemma {:induction false} AddItemsSpec(nsMap: map<string, seq<SqlMapper>>, items: seq<SqlItem>)
    requires TypesDistinct(nsMap)
    ensures TypesDistinct(AddItems(nsMap, items).0)
    ensures forall id :: id in nsMap ==> id in AddItems(nsMap, items).0 && nsMap[id] <= AddItems(nsMap, items).0[id]
    decreases |items|
  {
    if items != [] {
      var item := items[0];
      var m := FromItem(item);
      var existing := Variants(nsMap, item.id);
      if !HasType(existing, m.databaseType) {
        var next: map<string, seq<SqlMapper>> := nsMap[item.id := existing + [m]];
        forall id: string, j: int, k: int | id in next && 0 <= j < k < |next[id]|
          ensures next[id][j].databaseType != next[id][k].databaseType
        {
          if id == item.id && k == |existing| {
            assert next[id][k] == m;
            assert next[id][j] == existing[j];
          }
        }
        AddItemsSpec(next, items[1..]);
      }
    }
  }

  /** A duplicate stops registration: the registered map is what it was before the duplicate. */
  lemma {:induction false} DuplicateKeepsEarlier(nsMap: map<string, seq<SqlMapper>>, items: seq<SqlItem>, i: nat)
    requires i < |items| && AddItems(nsMap, items[..i]).1.None?
    requires HasType(Variants(AddItems(nsMap, items[..i]).0, items[i].id), items[i].databaseType)
    ensures AddItems(nsMap, items) == (AddItems(nsMap, items[..i]).0, Some(items[i]))
    decreases i
  {
    if i == 0 {
      assert items[..0] == [];
    } else {
      var item := items[0];
      assert items[..i][0] == item;
      var m := FromItem(item);
      var existing := Variants(nsMap, item.id);
      assert !HasType(existing, m.databaseType);
      var next := nsMap[item.id := existing + [m]];
      assert items[..i][1..] == items[1..][..i - 1];
      assert items[1..][i - 1] == items[i];
      DuplicateKeepsEarlier(next, items[1..], i - 1);
    }
  }

  /** Registering an item whose id and type are new adds it under its id, after what was there. */
  lemma AddOne(nsMap: map<string, seq<SqlMapper>>, item: SqlItem)
    requires !HasType(Variants(nsMap, item.id), item.databaseType)
    ensures AddItems(nsMap, [item]) == (nsMap[item.id := Variants(nsMap, item.id) + [FromItem(item)]], None)
  {
    assert [item][1..] == [];
  }

  /** The same id under a second database type is accepted next to the first. */
  lemma DifferentTypesCoexist(nsMap: map<string, seq<SqlMapper>>, a: SqlItem, b: SqlItem)
    requires a.id == b.id && a.databaseType != b.databaseType
    requires !HasType(Variants(nsMap, a.id), a.databaseType) && !HasType(Variants(nsMap, a.id), b.databaseType)
    ensures AddItems(nsMap, [a, b]).1.None? && a.id in AddItems(nsMap, [a, b]).0
    ensures AddItems(nsMap, [a, b]).0[a.id] == Variants(nsMap, a.id) + [FromItem(a), FromItem(b)]
  {
    var next := nsMap[a.id := Variants(nsMap, a.id) + [FromItem(a)]];
    assert [a, b][1..] == [b];
    assert Variants(next, b.id) == Variants(nsMap, a.id) + [FromItem(a)];
    assert !HasType(Variants(next, b.id), b.databaseType);
    AddOne(next, b);
    assert Variants(next, b.id) + [FromItem(b)] == Variants(nsMap, a.id) + [FromItem(a), FromItem(b)];
  }

  lemma RSplitAt(a: string, c: char, b: string)
    requires !ContainsChar(b, c)
    ensures RSplitOnceChar(a + [c] + b, c) == Some((a, b))
  {
    var s := a + [c] + b;
    assert s[|a|] == c;
    var r := RSplitOnceChar(s, c);
    var (x, y) := r.value;
    assert |x| == |a|;
    assert x == s[..|a|] == a;
    assert y == s[|a| + 1..] == b;
  }

  /**
   * After a registration that succeeded, a typed item is found under `namespace.id` for its
   * database type, provided the id itself holds no `.`.
   */
  lemma RegisteredIsFound(store: Store, source: string, namespace: string, items: seq<SqlItem>, i: nat, t: string)
    requires namespace in store ==> TypesDistinct(store[namespace])
    requires Register(store, source, namespace, items).1.Ok?
    requires i < |items| && items[i].databaseType == Some(t) && !ContainsChar(items[i].id, '.')
    ensures FindIn(Register(store, source, namespace, items).0, namespace + "." + items[i].id, t) == Some(FromItem(items[i]))
  {
    var nsMap := if namespace in store then store[namespace] else map[];
    var added := AddItems(nsMap, items).0;
    AddedHolds(nsMap, items, i);
    AddItemsSpec(nsMap, items);
    RSplitAt(namespace, '.', items[i].id);
    assert namespace + "." + items[i].id == namespace + ['.'] + items[i].id;
    var ms := added[items[i].id];
    var k :| 0 <= k < |ms| && ms[k] == FromItem(items[i]);
    forall j | 0 <= j < k ensures ms[j].databaseType != Some(t) {
      assert ms[k].databaseType == Some(t);
    }
    SelectTyped(ms, t, None, k);
  }

  /** Every item of a registration that succeeded ends up among its id's variants. */
  lemma {:induction false} AddedHolds(nsMap: map<string, seq<SqlMapper>>, items: seq<SqlItem>, i: nat)
    requires AddItems(nsMap, items).1.None? && i < |items|
    ensures items[i].id in AddItems(nsMap, items).0
    ensures exists k :: 0 <= k < |AddItems(nsMap, items).0[items[i].id]| && AddItems(nsMap, items).0[items[i].id][k] == FromItem(items[i])
    decreases |items|
  {
    var item := items[0];
    var existing := Variants(nsMap, item.id);
    var next := nsMap[item.id := existing + [FromItem(item)]];
    if i == 0 {
      assert next[item.id][|existing|] == FromItem(item);
      KeptAfter(next, items[1..], item.id, |existing|);
    } else {
      AddedHolds(next, items[1..], i - 1);
    }
  }

  /** What is registered stays: later items only append. */
  lemma {:induction false} KeptAfter(nsMap: map<string, seq<SqlMapper>>, items: seq<SqlItem>, id: string, k: nat)
    requires id in nsMap && k < |nsMap[id]|
    ensures id in AddItems(nsMap, items).0 && k < |AddItems(nsMap, items).0[id]|
    ensures AddItems(nsMap, items).0[id][k] == nsMap[id][k]
    decreases |items|
  {
    if items != [] {
      var item := items[0];
      var existing := Variants(nsMap, item.id);
      if !HasType(existing, FromItem(item).databaseType) {
        var next := nsMap[item.id := existing + [FromItem(item)]];
        assert next[id][k] == nsMap[id][k];
        KeptAfter(next, items[1..], id, k);
      }
    }
  }
}
