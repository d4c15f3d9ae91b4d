/**
 * The tagged union that carries every database-bound value (`src/udbc/value.rs`)
 * and its `From` conversions.
 */
module Values {
  import opened Ints
  import Chrono

  /**
   * `F64` holds the real number a finite double denotes; NaN and the infinities are
   * not represented. `Map` is a finite map from string keys, so two maps with the same
   * entries are equal whatever order they were built in, as `HashMap` equality is.
   */
  datatype Value =
    | Null
    | Bool(b: bool)
    | I16(i16: i16)
    | I32(i32: i32)
    | I64(i64: i64)
    | U8(u8: u8)
    | F64(f64: real)
    | Str(s: string)
    | Bytes(bytes: seq<u8>)
    | Date(date: Chrono.NaiveDate)
    | Time(time: Chrono.NaiveTime)
    | DateTime(dateTime: Chrono.NaiveDateTime)
    | DateTimeUtc(utc: Chrono.DateTimeUtc)
    | Decimal(decimal: Chrono.Decimal)
    | List(items: seq<Value>)
    | Map(entries: map<string, Value>)

  // The `From<T> for Value` implementations.

  function FromBool(v: bool): (r: Value)
    ensures r.Bool? && r.b == v
  {
    Bool(v)
  }

  function FromI16(v: i16): (r: Value)
    ensures r.I16? && r.i16 == v
  {
    I16(v)
  }

  function FromI32(v: i32): (r: Value)
    ensures r.I32? && r.i32 == v
  {
    I32(v)
  }

  function FromI64(v: i64): (r: Value)
    ensures r.I64? && r.i64 == v
  {
    I64(v)
  }

  function FromU8(v: u8): (r: Value)
    ensures r.U8? && r.u8 == v
  {
    U8(v)
  }

  function FromF64(v: real): (r: Value)
    ensures r.F64? && r.f64 == v
  {
    F64(v)
  }

  function FromString(v: string): (r: Value)
    ensures r.Str? && r.s == v
  {
    Str(v)
  }

  /** `From<&str>`: the borrowed text, copied with `to_string`. */
  function FromStr(v: string): (r: Value)
    ensures r == FromString(v)
  {
    var owned := v;
    Str(owned)
  }

  /** Every `From` conversion is injective, and different source types never meet. */
  lemma FromInjective()
    ensures forall x: bool, y: bool :: FromBool(x) == FromBool(y) ==> x == y
    ensures forall x: i16, y: i16 :: FromI16(x) == FromI16(y) ==> x == y
    ensures forall x: i32, y: i32 :: FromI32(x) == FromI32(y) ==> x == y
    ensures forall x: i64, y: i64 :: FromI64(x) == FromI64(y) ==> x == y
    ensures forall x: u8, y: u8 :: FromU8(x) == FromU8(y) ==> x == y
    ensures forall x: real, y: real :: FromF64(x) == FromF64(y) ==> x == y
    ensures forall x: string, y: string :: FromString(x) == FromString(y) ==> x == y
    ensures forall x: i16, y: i32 :: FromI16(x) != FromI32(y)
    ensures forall x: i32, y: i64 :: FromI32(x) != FromI64(y)
    ensures forall x: i64, y: u8 :: FromI64(x) != FromU8(y)
  {
  }

  /** `Map` equality does not depend on the order of insertion. */
  lemma MapInsertionOrder(m: map<string, Value>, k1: string, v1: Value, k2: string, v2: Value)
    requires k1 != k2
    ensures Map(m[k1 := v1][k2 := v2]) == Map(m[k2 := v2][k1 := v1])
  {
    assert m[k1 := v1][k2 := v2] == m[k2 := v2][k1 := v1];
  }

  /** The variants `eval_expr` treats as numbers. */
  predicate IsNumeric(v: Value) {
    v.I16? || v.I32? || v.I64? || v.U8? || v.F64?
  }
}
