/**
 * The serde serializer that turns any serialisable value into a `Value`
 * (`src/udbc/serializer.rs`). What a `Serialize` implementation hands to the serializer is
 * written out as `Serde`: one constructor per `serialize_*` entry point, with the elements,
 * entries or fields it feeds to the compound serializers afterwards.
 */
module Serializer {
  import opened Wrappers
  import opened Ints
  import opened Values
  import opened Errors

  datatype Serde =
    | SBool(b: bool)
    | SI8(i8: i8)
    | SI16(i16: i16)
    | SI32(i32: i32)
    | SI64(i64: i64)
    | SU8(u8: u8)
    | SU16(u16: u16)
    | SU32(u32: u32)
    | SU64(u64: u64)
    | SF32(f32: real)
    | SF64(f64: real)
    | SChar(c: char)
    | SStr(s: string)
    | SBytes(bytes: seq<u8>)
    | SNone
    | SSome(inner: Serde)
    | SUnit
    | SUnitStruct(name: string)
    | SUnitVariant(name: string, index: u32, variant: string)
    | SNewtypeStruct(name: string, inner: Serde)
    | SNewtypeVariant(name: string, index: u32, variant: string, inner: Serde)
    | SSeq(elems: seq<Serde>)
    | STuple(elems: seq<Serde>)
    | STupleStruct(name: string, elems: seq<Serde>)
    | STupleVariant(name: string, index: u32, variant: string, elems: seq<Serde>)
    | SMap(calls: seq<MapCall>)
    | SStruct(name: string, fields: seq<(string, Serde)>)
    | SStructVariant(name: string, index: u32, variant: string, fields: seq<(string, Serde)>)

  /** The calls made on a map serializer: `serialize_key` and `serialize_value`, in order. */
  datatype MapCall = MapKey(key: Serde) | MapValue(value: Serde)

  /** A map serializer between calls: the entries so far and the key waiting for its value. */
  datatype MapState = MapState(entries: map<string, Value>, pending: Option<string>)

  const KEY_NOT_STRING := ValueError("Map key must be string")
  const MISSING_KEY := ValueError("Missing key for value")

  /** `value.serialize(ValueSerializer)`. */
  function Serialize(d: Serde): Result<Value, DbError> {
    match d
    case SBool(v) => Ok(Bool(v))
    case SI8(v) => Ok(I16(v))
    case SI16(v) => Ok(I16(v))
    case SI32(v) => Ok(I32(v))
    case SI64(v) => Ok(I64(v))
    case SU8(v) => Ok(U8(v))
    case SU16(v) => Ok(I64(v))
    case SU32(v) => Ok(I64(v))
    case SU64(v) => Ok(I64(U64AsI64(v)))
    case SF32(v) => Ok(F64(v))
    case SF64(v) => Ok(F64(v))
    case SChar(c) => Ok(Str([c]))
    case SStr(s) => Ok(Str(s))
    case SBytes(bs) => Ok(Bytes(bs))
    case SNone => Ok(Null)
    case SSome(x) => Serialize(x)
    case SUnit => Ok(List([]))
    case SUnitStruct(_) => Ok(Null)
    case SUnitVariant(_, _, variant) => Ok(Str(variant))
    case SNewtypeStruct(_, x) => Serialize(x)
    case SNewtypeVariant(_, _, _, x) => Serialize(x)
    case SSeq(es) => ElementsFrom(es, [])
    case STuple(es) => ElementsFrom(es, [])
    case STupleStruct(_, es) => ElementsFrom(es, [])
    case STupleVariant(_, _, _, es) => ElementsFrom(es, [])
    case SMap(cs) =>
      (match CallsFrom(cs, MapState(map[], None))
       case Err(e) => Err(e)
       case Ok(st) => Ok(Map(st.entries)))
    case SStruct(_, fs) => StructValue(FieldsFrom(fs, map[]))
    case SStructVariant(_, _, _, fs) => StructValue(FieldsFrom(fs, map[]))
  }

  /** `ListSerializer`: each element pushed after `vec` in order; the first error aborts. */
  function ElementsFrom(es: seq<Serde>, vec: seq<Value>): Result<Value, DbError>
    decreases es
  {
    if es == [] then Ok(List(vec))
    else
      match Serialize(es[0])
      case Err(e) => Err(e)
      case Ok(v) => ElementsFrom(es[1..], vec + [v])
  }

  /** One call on `MapSerializer`. */
  function MapStep(st: MapState, c: MapCall): Result<MapState, DbError>
    decreases c
  {
    match c
    case MapKey(k) =>
      (match Serialize(k)
       case Err(e) => Err(e)
       case Ok(kv) => if kv.Str? then Ok(st.(pending := Some(kv.s))) else Err(KEY_NOT_STRING))
    case MapValue(v) =>
      match Serialize(v)
      case Err(e) => Err(e)
      case Ok(val) =>
        match st.pending
        case None => Err(MISSING_KEY)
        case Some(key) => Ok(MapState(st.entries[key := val], None))
  }

  function CallsFrom(cs: seq<MapCall>, st: MapState): Result<MapState, DbError>
    decreases cs
  {
    if cs == [] then Ok(st)
    else
      match MapStep(st, cs[0])
      case Err(e) => Err(e)
      case Ok(st2) => CallsFrom(cs[1..], st2)
  }

  /** The struct serializer's `end`: the entries as a `Map`. */
  function StructValue(r: Result<map<string, Value>, DbError>): Result<Value, DbError> {
    match r
    case Err(e) => Err(e)
    case Ok(m) => Ok(Map(m))
  }

  /** The struct serializer: each field inserted under its name, a later one overwriting. */
  function FieldsFrom(fs: seq<(string, Serde)>, m: map<string, Value>): Result<map<string, Value>, DbError>
    decreases fs
  {
    if fs == [] then Ok(m)
    else
      assert fs[0] in fs && fs[0].1 < fs[0];
      match Serialize(fs[0].1)
      case Err(e) => Err(e)
      case Ok(v) => FieldsFrom(fs[1..], m[fs[0].0 := v])
  }

  // ------------------------------------------------------------------------ the compound serializers

  /** `ListSerializer`, holding the elements serialised so far. */
  class ListSerializer {
    var vec: seq<Value>

    constructor ()
      ensures vec == []
    {
      vec := [];
    }

    /** `serialize_element` / `serialize_field`. */
    method SerializeElement(value: Serde) returns (r: Result<(), DbError>)
      modifies this
      ensures Serialize(value).Err? ==> r == Err(Serialize(value).error) && vec == old(vec)
      ensures Serialize(value).Ok? ==> r == Ok(()) && vec == old(vec) + [Serialize(value).value]
    {
      var v := Serialize(value);
      if v.Err? {
        return Err(v.error);
      }
      vec := vec + [v.value];
      return Ok(());
    }

    method End() returns (v: Value)
      ensures v == List(vec)
    {
      v := List(vec);
    }
  }

  /** `MapSerializer`, holding the entries so far and the key awaiting its value. */
  class MapSerializer {
    var entries: map<string, Value>
    var key: Option<string>

    function State(): MapState
      reads this
    {
      MapState(entries, key)
    }

    constructor ()
      ensures State() == MapState(map[], None)
    {
      entries := map[];
      key := None;
    }

    /** `serialize_key`: only a key that serialises to a string is accepted. */
    method SerializeKey(k: Serde) returns (r: Result<(), DbError>)
      modifies this
      ensures r.Ok? <==> MapStep(old(State()), MapKey(k)).Ok?
      ensures r.Ok? ==> State() == MapStep(old(State()), MapKey(k)).value
      ensures r.Err? ==> r.error == MapStep(old(State()), MapKey(k)).error && State() == old(State())
    {
      var kv := Serialize(k);
      if kv.Err? {
        return Err(kv.error);
      }
      if kv.value.Str? {
        key := Some(kv.value.s);
        return Ok(());
      }
      return Err(KEY_NOT_STRING);
    }

    /** `serialize_value`: the value is serialised first, then the pending key is taken. */
    method SerializeValue(v: Serde) returns (r: Result<(), DbError>)
      modifies this
      ensures r.Ok? <==> MapStep(old(State()), MapValue(v)).Ok?
      ensures r.Ok? ==> State() == MapStep(old(State()), MapValue(v)).value
      ensures r.Err? ==> r.error == MapStep(old(State()), MapValue(v)).error && State() == old(State())
    {
      var val := Serialize(v);
      if val.Err? {
        return Err(val.error);
      }
      if key.None? {
        return Err(MISSING_KEY);
      }
      var k := key.value;
      key := None;
      entries := entries[k := val.value];
      return Ok(());
    }

    /** `serialize_field` of the struct serializers: insert under the field's name. */
    method SerializeField(name: string, v: Serde) returns (r: Result<(), DbError>)
      modifies this
      ensures Serialize(v).Err? ==> r == Err(Serialize(v).error) && State() == old(State())
      ensures Serialize(v).Ok? ==> r == Ok(()) && entries == old(entries)[name := Serialize(v).value]
                                   && key == old(key)
    {
      var val := Serialize(v);
      if val.Err? {
        return Err(val.error);
      }
      entries := entries[name := val.value];
      return Ok(());
    }

    method End() returns (v: Value)
      ensures v == Map(entries)
    {
      v := Map(entries);
    }
  }

  // ------------------------------------------------------------------------ driving them

  /** A sequence or tuple: one `serialize_element` per element, then `end`. */
  method SerializeElements(es: seq<Serde>) returns (r: Result<Value, DbError>)
    ensures r == Serialize(SSeq(es))
  {
    var ser := new ListSerializer();
    var i := 0;
    while i < |es|
      invariant 0 <= i <= |es|
      invariant ElementsFrom(es[i..], ser.vec) == ElementsFrom(es, [])
    {
      assert es[i..][1..] == es[i + 1..];
      var step := ser.SerializeElement(es[i]);
      if step.Err? {
        return Err(step.error);
      }
      i := i + 1;
    }
    var v := ser.End();
    r := Ok(v);
  }

  /** A map: its `serialize_key` / `serialize_value` calls in order, then `end`. */
  method SerializeEntries(cs: seq<MapCall>) returns (r: Result<Value, DbError>)
    ensures r == Serialize(SMap(cs))
  {
    var ser := new MapSerializer();
    var i := 0;
    while i < |cs|
      invariant 0 <= i <= |cs|
      invariant CallsFrom(cs[i..], ser.State()) == CallsFrom(cs, MapState(map[], None))
    {
      assert cs[i..][1..] == cs[i + 1..];
      var step;
      match cs[i] {
        case MapKey(k) => step := ser.SerializeKey(k);
        case MapValue(v) => step := ser.SerializeValue(v);
      }
      if step.Err? {
        return Err(step.error);
      }
      i := i + 1;
    }
    var m := ser.End();
    r := Ok(m);
  }

  /** A struct: one `serialize_field` per field, then `end`. */
  method SerializeFields(name: string, fs: seq<(string, Serde)>) returns (r: Result<Value, DbError>)
    ensures r == Serialize(SStruct(name, fs))
  {
    var ser := new MapSerializer();
    var i := 0;
    while i < |fs|
      invariant 0 <= i <= |fs|
      invariant FieldsFrom(fs[i..], ser.entries) == FieldsFrom(fs, map[])
    {
      assert fs[i..][1..] == fs[i + 1..];
      var step := ser.SerializeField(fs[i].0, fs[i].1);
      if step.Err? {
        return Err(step.error);
      }
      i := i + 1;
    }
    var m := ser.End();
    r := Ok(m);
  }

  // ------------------------------------------------------------------------ properties

  /** `i8` widens to `I16`; `u16`/`u32` become `I64` of the same value; `u64` is cast, wrapping past `i64::MAX`. */
  lemma IntegerMappings(a: i8, b: u16, c: u32, u: u64)
    ensures Serialize(SI8(a)) == Ok(I16(a))
    ensures Serialize(SU16(b)) == Ok(I64(b)) && Serialize(SU32(c)) == Ok(I64(c))
    ensures u <= I64_MAX ==> Serialize(SU64(u)) == Ok(I64(u))
    ensures u > I64_MAX ==> Serialize(SU64(u)) == Ok(I64(u - U64_LIMIT)) && Serialize(SU64(u)).value.i64 < 0
  {
  }

  /** `Some`, newtype structs and newtype variants serialise exactly as what they wrap. */
  lemma Transparent(x: Serde, name: string, index: u32, variant: string)
    ensures Serialize(SSome(x)) == Serialize(x)
    ensures Serialize(SNewtypeStruct(name, x)) == Serialize(x)
    ensures Serialize(SNewtypeVariant(name, index, variant, x)) == Serialize(x)
  {
  }

  /**
   * The list serializer succeeds iff every element does, keeps the elements in order after
   * those already pushed, and otherwise fails with the first failing element's error.
   */
  lemma ElementsFromSpec(es: seq<Serde>, vec: seq<Value>)
    ensures ElementsFrom(es, vec).Ok? <==> forall i :: 0 <= i < |es| ==> Serialize(es[i]).Ok?
    ensures ElementsFrom(es, vec).Ok? ==>
      var items := ElementsFrom(es, vec).value;
      && items.List? && |items.items| == |vec| + |es| && items.items[..|vec|] == vec
      && forall i :: 0 <= i < |es| ==> items.items[|vec| + i] == Serialize(es[i]).value
    ensures ElementsFrom(es, vec).Err? ==>
      exists k :: 0 <= k < |es| && Serialize(es[k]).Err? && ElementsFrom(es, vec).error == Serialize(es[k]).error
                  && forall j :: 0 <= j < k ==> Serialize(es[j]).Ok?
  {
    ElementsOkIff(es, vec);
    ElementsOkItems(es, vec);
    ElementsFirstError(es, vec);
  }

  /** Element serialization succeeds iff every element does. */
  lemma {:induction false} ElementsOkIff(es: seq<Serde>, vec: seq<Value>)
    ensures ElementsFrom(es, vec).Ok? <==> forall i :: 0 <= i < |es| ==> Serialize(es[i]).Ok?
    decreases |es|
  {
    if es != [] && Serialize(es[0]).Ok? {
      ElementsOkIff(es[1..], vec + [Serialize(es[0]).value]);
      assert forall i :: 1 <= i < |es| ==> es[1..][i - 1] == es[i];
    }
  }

  /** On success, the list is the earlier values followed by the elements' values in order. */
  lemma {:induction false} ElementsOkItems(es: seq<Serde>, vec: seq<Value>)
    ensures ElementsFrom(es, vec).Ok? ==>
      var items := ElementsFrom(es, vec).value;
      && items.List? && |items.items| == |vec| + |es| && items.items[..|vec|] == vec
      && forall i :: 0 <= i < |es| ==> Serialize(es[i]).Ok? && items.items[|vec| + i] == Serialize(es[i]).value
    decreases |es|
  {
    if es != [] && Serialize(es[0]).Ok? {
      var v0 := Serialize(es[0]).value;
      ElementsOkItems(es[1..], vec + [v0]);
      if ElementsFrom(es, vec).Ok? {
        var items := ElementsFrom(es, vec).value.items;
        assert items[..|vec| + 1][..|vec|] == vec;
        assert forall i :: 1 <= i < |es| ==> es[1..][i - 1] == es[i];
        assert forall i :: 1 <= i < |es| ==> Serialize(es[i]).Ok? && items[|vec| + 1 + (i - 1)] == Serialize(es[i]).value;
      }
    }
  }

  /** On failure, the error is the first failing element's. */
  lemma {:induction false} ElementsFirstError(es: seq<Serde>, vec: seq<Value>)
    ensures ElementsFrom(es, vec).Err? ==>
      exists k :: 0 <= k < |es| && Serialize(es[k]).Err? && ElementsFrom(es, vec).error == Serialize(es[k]).error
                  && forall j :: 0 <= j < k ==> Serialize(es[j]).Ok?
    decreases |es|
  {
    if es != [] && Serialize(es[0]).Ok? {
      ElementsFirstError(es[1..], vec + [Serialize(es[0]).value]);
      if ElementsFrom(es, vec).Err? {
        var k :| 0 <= k < |es| - 1 && Serialize(es[1..][k]).Err? && ElementsFrom(es, vec).error == Serialize(es[1..][k]).error
                 && forall j :: 0 <= j < k ==> Serialize(es[1..][j]).Ok?;
        assert forall j :: 0 <= j < k ==> es[1..][j] == es[j + 1];
        assert Serialize(es[k + 1]).Err? && forall j :: 0 <= j < k + 1 ==> Serialize(es[j]).Ok?;
      }
    }
  }

  /** A sequence or tuple becomes a `List` of its elements' values in order; `(1, "hello")` the two values. */
  lemma SequenceInOrder(es: seq<Serde>)
    ensures Serialize(SSeq(es)).Ok? <==> forall i :: 0 <= i < |es| ==> Serialize(es[i]).Ok?
    ensures Serialize(SSeq(es)).Ok? ==>
      && Serialize(SSeq(es)).value.List? && |Serialize(SSeq(es)).value.items| == |es|
      && forall i :: 0 <= i < |es| ==> Serialize(SSeq(es)).value.items[i] == Serialize(es[i]).value
    ensures Serialize(STuple(es)) == Serialize(SSeq(es))
  {
    assert Serialize(SSeq(es)) == ElementsFrom(es, []) == Serialize(STuple(es));
    ElementsFromSpec(es, []);
  }

  /** `(1, "hello")` serialises to `[I32(1), Str("hello")]`, and `()` to an empty list. */
  lemma TupleExample()
    ensures Serialize(STuple([SI32(1), SStr("hello")])) == Ok(List([I32(1), Str("hello")]))
    ensures Serialize(SUnit) == Ok(List([]))
  {
    assert [SI32(1), SStr("hello")][1..] == [SStr("hello")];
    assert [SStr("hello")][1..] == [];
    assert Serialize(SI32(1)) == Ok(I32(1)) && Serialize(SStr("hello")) == Ok(Str("hello"));
    assert [] + [I32(1)] == [I32(1)];
    assert [I32(1)] + [Str("hello")] == [I32(1), Str("hello")];
    assert ElementsFrom([], [I32(1), Str("hello")]) == Ok(List([I32(1), Str("hello")]));
    assert ElementsFrom([SStr("hello")], [I32(1)]) == Ok(List([I32(1), Str("hello")]));
  }

  /** The index of the last field named like field `i`, if there is no later one. */
  predicate LastOfName(fs: seq<(string, Serde)>, i: int)
    requires 0 <= i < |fs|
  {
    forall j :: i < j < |fs| ==> fs[j].0 != fs[i].0
  }

  /** The struct serializer succeeds iff every field value does. */
  lemma {:induction false} FieldsFromOk(fs: seq<(string, Serde)>, m: map<string, Value>)
    ensures FieldsFrom(fs, m).Ok? <==> forall i :: 0 <= i < |fs| ==> Serialize(fs[i].1).Ok?
    decreases |fs|
  {
    if fs != [] {
      assert forall i :: 1 <= i < |fs| ==> fs[1..][i - 1] == fs[i];
      var r0 := Serialize(fs[0].1);
      if r0.Ok? {
        FieldsFromOk(fs[1..], m[fs[0].0 := r0.value]);
      }
    }
  }

  /** Its keys are the earlier keys and the field names. */
  lemma {:induction false} FieldsFromKeys(fs: seq<(string, Serde)>, m: map<string, Value>, k: string)
    requires FieldsFrom(fs, m).Ok?
    ensures k in FieldsFrom(fs, m).value <==> k in m || exists i :: 0 <= i < |fs| && fs[i].0 == k
    decreases |fs|
  {
    FieldsFromOk(fs, m);
    if fs != [] {
      var m1 := m[fs[0].0 := Serialize(fs[0].1).value];
      FieldsFromKeys(fs[1..], m1, k);
      if k in m1 && k !in m {
        assert fs[0].0 == k;
      }
      if exists i :: 0 <= i < |fs| - 1 && fs[1..][i].0 == k {
        var i :| 0 <= i < |fs| - 1 && fs[1..][i].0 == k;
        assert fs[i + 1].0 == k;
      }
      if exists i :: 0 <= i < |fs| && fs[i].0 == k {
        var i :| 0 <= i < |fs| && fs[i].0 == k;
        if i > 0 {
          assert fs[1..][i - 1].0 == k;
        }
      }
    }
  }

  /** Each field name maps to the value of its last field. */
  lemma {:induction false} FieldsFromLast(fs: seq<(string, Serde)>, m: map<string, Value>, i: nat)
    requires FieldsFrom(fs, m).Ok? && i < |fs| && LastOfName(fs, i) && Serialize(fs[i].1).Ok?
    ensures fs[i].0 in FieldsFrom(fs, m).value && FieldsFrom(fs, m).value[fs[i].0] == Serialize(fs[i].1).value
    decreases |fs|
  {
    FieldsFromOk(fs, m);
    FieldsFromKeys(fs, m, fs[i].0);
    var m1 := m[fs[0].0 := Serialize(fs[0].1).value];
    if i > 0 {
      assert LastOfName(fs[1..], i - 1) by {
        assert forall j :: i - 1 < j < |fs| - 1 ==> fs[1..][j] == fs[j + 1];
      }
      FieldsFromLast(fs[1..], m1, i - 1);
    } else {
      assert forall j :: 0 <= j < |fs| - 1 ==> fs[1..][j].0 != fs[0].0 by {
        assert forall j :: 0 <= j < |fs| - 1 ==> fs[1..][j] == fs[j + 1];
      }
      FieldsFromKept(fs[1..], m1, fs[0].0);
    }
  }

  /** A key no field names keeps its earlier value. */
  lemma {:induction false} FieldsFromKept(fs: seq<(string, Serde)>, m: map<string, Value>, k: string)
    requires FieldsFrom(fs, m).Ok? && k in m && forall i :: 0 <= i < |fs| ==> fs[i].0 != k
    ensures k in FieldsFrom(fs, m).value && FieldsFrom(fs, m).value[k] == m[k]
    decreases |fs|
  {
    FieldsFromOk(fs, m);
    FieldsFromKeys(fs, m, k);
    if fs != [] {
      var m1 := m[fs[0].0 := Serialize(fs[0].1).value];
      assert forall i :: 0 <= i < |fs| - 1 ==> fs[1..][i] == fs[i + 1];
      FieldsFromKept(fs[1..], m1, k);
    }
  }

  /** A struct becomes a `Map` keyed by field name; a repeated name keeps its last field's value. */
  lemma StructFields(name: string, fs: seq<(string, Serde)>)
    ensures Serialize(SStruct(name, fs)).Ok? <==> forall i :: 0 <= i < |fs| ==> Serialize(fs[i].1).Ok?
    ensures Serialize(SStruct(name, fs)).Ok? ==>
      var r := Serialize(SStruct(name, fs)).value;
      && r.Map? && (forall k :: k in r.entries <==> exists i :: 0 <= i < |fs| && fs[i].0 == k)
      && forall i :: 0 <= i < |fs| && LastOfName(fs, i) ==> r.entries[fs[i].0] == Serialize(fs[i].1).value
  {
    assert Serialize(SStruct(name, fs)) == StructValue(FieldsFrom(fs, map[]));
    FieldsFromOk(fs, map[]);
    if FieldsFrom(fs, map[]).Ok? {
      forall k: string
        ensures k in FieldsFrom(fs, map[]).value <==> exists i :: 0 <= i < |fs| && fs[i].0 == k
      {
        FieldsFromKeys(fs, map[], k);
      }
      forall i | 0 <= i < |fs| && LastOfName(fs, i)
        ensures fs[i].0 in FieldsFrom(fs, map[]).value && FieldsFrom(fs, map[]).value[fs[i].0] == Serialize(fs[i].1).value
      {
        FieldsFromLast(fs, map[], i);
      }
    }
  }

  /** The map-serializer calls that feed each pair as a string key followed by its value. */
  function Entries(ps: seq<(string, Serde)>): (cs: seq<MapCall>)
    ensures |cs| == 2 * |ps|
  {
    if ps == [] then [] else [MapKey(SStr(ps[0].0)), MapValue(ps[0].1)] + Entries(ps[1..])
  }

  /** Feeding string keys each followed by its value through the map serializer is a struct's fields. */
  lemma {:induction false} EntriesAreFields(ps: seq<(string, Serde)>, m: map<string, Value>)
    ensures (match CallsFrom(Entries(ps), MapState(m, None)) case Err(e) => Err(e) case Ok(st) => Ok(st.entries))
         == FieldsFrom(ps, m)
    decreases |ps|
  {
    if ps != [] {
      var cs := Entries(ps);
      assert cs[0] == MapKey(SStr(ps[0].0)) && cs[1..][0] == MapValue(ps[0].1);
      assert cs[1..][1..] == Entries(ps[1..]);
      var st1 := MapState(m, Some(ps[0].0));
      assert Serialize(SStr(ps[0].0)) == Ok(Str(ps[0].0));
      assert MapStep(MapState(m, None), cs[0]) == Ok(st1);
      assert CallsFrom(cs, MapState(m, None)) == CallsFrom(cs[1..], st1);
      var r0 := Serialize(ps[0].1);
      if r0.Ok? {
        assert MapStep(st1, cs[1..][0]) == Ok(MapState(m[ps[0].0 := r0.value], None));
        assert CallsFrom(cs[1..], st1) == CallsFrom(Entries(ps[1..]), MapState(m[ps[0].0 := r0.value], None));
        EntriesAreFields(ps[1..], m[ps[0].0 := r0.value]);
      }
    }
  }

  /** A map fed string keys, each followed by its value, serialises as the struct with those fields. */
  lemma MapOfEntries(name: string, ps: seq<(string, Serde)>)
    ensures Serialize(SMap(Entries(ps))) == Serialize(SStruct(name, ps))
  {
    EntriesAreFields(ps, map[]);
  }

  /** A key that serialises to anything but a string stops the map with "Map key must be string". */
  lemma KeyMustBeString(k: Serde, rest: seq<MapCall>)
    requires Serialize(k).Ok? && !Serialize(k).value.Str?
    ensures Serialize(SMap([MapKey(k)] + rest)) == Err(KEY_NOT_STRING)
  {
    assert ([MapKey(k)] + rest)[0] == MapKey(k);
    assert CallsFrom([MapKey(k)] + rest, MapState(map[], None)) == Err(KEY_NOT_STRING);
  }

  /**
   * `serialize_value` takes the pending key: a value with no key before it, or a second value
   * after one key, stops the map with "Missing key for value".
   */
  lemma ValueNeedsKey(k: string, v: Serde, w: Serde, rest: seq<MapCall>)
    requires Serialize(v).Ok? && Serialize(w).Ok?
    ensures Serialize(SMap([MapValue(v)] + rest)) == Err(MISSING_KEY)
    ensures Serialize(SMap([MapKey(SStr(k)), MapValue(v), MapValue(w)] + rest)) == Err(MISSING_KEY)
  {
    assert ([MapValue(v)] + rest)[0] == MapValue(v);
    assert CallsFrom([MapValue(v)] + rest, MapState(map[], None)) == Err(MISSING_KEY);
    SecondValueMissesKey(k, v, w, rest);
  }

  /** After one key and its value, a second value finds no pending key. */
  lemma SecondValueMissesKey(k: string, v: Serde, w: Serde, rest: seq<MapCall>)
    requires Serialize(v).Ok? && Serialize(w).Ok?
    ensures CallsFrom([MapKey(SStr(k)), MapValue(v), MapValue(w)] + rest, MapState(map[], None)) == Err(MISSING_KEY)
  {
    var cs := [MapKey(SStr(k)), MapValue(v), MapValue(w)] + rest;
    assert cs[0] == MapKey(SStr(k)) && cs[1..][0] == MapValue(v) && cs[1..][1..][0] == MapValue(w);
    var st1 := MapState(map[], Some(k));
    var st2 := MapState(map[k := Serialize(v).value], None);
    assert Serialize(SStr(k)) == Ok(Str(k));
    assert MapStep(MapState(map[], None), cs[0]) == Ok(st1);
    assert MapStep(st1, cs[1..][0]) == Ok(st2);
    assert MapStep(st2, cs[1..][1..][0]) == Err(MISSING_KEY);
    assert CallsFrom(cs, MapState(map[], None)) == CallsFrom(cs[1..], st1);
    assert CallsFrom(cs[1..], st1) == CallsFrom(cs[1..][1..], st2);
  }
}
