/**
 * The SQLite value codec (`src/udbc/sqlite/value_codec.rs`): `Value` to rusqlite's owned
 * `Value` for binding, and rusqlite's borrowed `ValueRef` back to `Value` when reading a row.
 */
module SqliteCodec {
  import opened Wrappers
  import opened Ints
  import opened Values
  import opened Chrono
  import Utf8

  /** rusqlite's owned `Value`, what a parameter is bound as. */
  datatype SqliteValue = SNull | SInteger(i: i64) | SReal(f: real) | SText(text: string) | SBlob(blob: seq<u8>)

  /** rusqlite's `ValueRef`, what a column is read as: text comes back as raw bytes. */
  datatype SqliteRef = RNull | RInteger(i: i64) | RReal(f: real) | RText(bytes: seq<u8>) | RBlob(blob: seq<u8>)

  predicate IsTemporal(v: Value) {
    v.Date? || v.Time? || v.DateTime? || v.DateTimeUtc? || v.Decimal?
  }

  /** `to_sqlite_value`. */
  function ToSqlite(v: Value, forms: TextForms): (r: SqliteValue)
    ensures r.SNull? <==> v.Null? || v.List? || v.Map?
    ensures r.SInteger? <==> v.Bool? || v.I16? || v.I32? || v.I64? || v.U8?
    ensures IsTemporal(v) ==> r.SText?
    ensures r.SText? <==> v.Str? || IsTemporal(v)
    ensures r.SBlob? <==> v.Bytes?
  {
    match v
    case Null => SNull
    case Bool(b) => SInteger(if b then 1 else 0)
    case I16(i) => SInteger(i)
    case I32(i) => SInteger(i)
    case I64(i) => SInteger(i)
    case U8(u) => SInteger(u)
    case F64(f) => SReal(f)
    case Str(s) => SText(s)
    case Bytes(b) => SBlob(b)
    case Date(d) => SText(forms.date(d))
    case Time(t) => SText(forms.time(t))
    case DateTime(dt) => SText(forms.dateTime(dt))
    case DateTimeUtc(dt) => SText(forms.rfc3339(dt))
    case Decimal(d) => SText(forms.decimal(d))
    case List(_) => SNull
    case Map(_) => SNull
  }

  /** `from_sqlite_value`: text that is not valid UTF-8 is returned as bytes. */
  function FromSqlite(r: SqliteRef): (v: Value)
    ensures r.RText? && Utf8.Decode(r.bytes).None? ==> v == Bytes(r.bytes)
    ensures r.RText? && Utf8.Decode(r.bytes).Some? ==> v == Str(Utf8.Decode(r.bytes).value)
  {
    match r
    case RNull => Null
    case RInteger(i) => I64(i)
    case RReal(f) => F64(f)
    case RText(b) => if Utf8.Decode(b).Some? then Str(Utf8.Decode(b).value) else Bytes(b)
    case RBlob(b) => Bytes(b)
  }

  /** What SQLite hands back for a bound value: the same storage class, text as its UTF-8 bytes. */
  function Stored(s: SqliteValue): SqliteRef {
    match s
    case SNull => RNull
    case SInteger(i) => RInteger(i)
    case SReal(f) => RReal(f)
    case SText(t) => RText(Utf8.Encode(t))
    case SBlob(b) => RBlob(b)
  }

  /** `Null`, `I64`, `F64`, `Str` and `Bytes` come back unchanged from a store and a read. */
  lemma RoundTrip(v: Value, forms: TextForms)
    requires v.Null? || v.I64? || v.F64? || v.Str? || v.Bytes?
    ensures FromSqlite(Stored(ToSqlite(v, forms))) == v
  {
    if v.Str? {
      Utf8.DecodeEncode(v.s);
    }
  }

  /** The narrower integers and `Bool` are stored as SQLite integers and read back as `I64`. */
  lemma IntegersComeBackWide(v: Value, forms: TextForms)
    requires v.Bool? || v.I16? || v.I32? || v.U8?
    ensures v.Bool? ==> FromSqlite(Stored(ToSqlite(v, forms))) == I64(if v.b then 1 else 0)
    ensures v.I16? ==> FromSqlite(Stored(ToSqlite(v, forms))) == I64(v.i16)
    ensures v.I32? ==> FromSqlite(Stored(ToSqlite(v, forms))) == I64(v.i32)
    ensures v.U8? ==> FromSqlite(Stored(ToSqlite(v, forms))) == I64(v.u8)
  {
  }

  /** Calendar and decimal values are stored as their text form, which reads back as `Str`. */
  lemma TemporalComesBackAsText(v: Value, forms: TextForms)
    requires IsTemporal(v)
    ensures FromSqlite(Stored(ToSqlite(v, forms))) == Str(ToSqlite(v, forms).text)
  {
    Utf8.DecodeEncode(ToSqlite(v, forms).text);
  }

  /** A text column whose bytes are not UTF-8 (here: starting with 0xFF) is read as `Bytes`. */
  lemma InvalidTextIsBytes(rest: seq<u8>)
    ensures FromSqlite(RText([0xFF] + rest)) == Bytes([0xFF] + rest)
  {
    Utf8.InvalidLeadByte(rest);
  }
}
