/**
 * The MySQL value codec (`src/udbc/mysql/value_codec.rs`): `Value` to mysql_async's `Value`
 * for binding and back when reading a row. The encoder matches more variants than `Value`
 * declares (`I8`, `I128`, `U16`, `U32`, `U64`, `U128`, `F32`, `Char`); they are modelled by
 * the wider input type `WideValue`.
 */
module MysqlCodec {
  import opened Wrappers
  import opened Ints
  import opened Strings
  import opened Values
  import opened Chrono
  import Utf8

  /** mysql_async's `Value`. */
  datatype MyValue =
    | NULL
    | Int(i: i64)
    | UInt(u: u64)
    | Float(f: real)
    | Double(d: real)
    | MBytes(bytes: seq<u8>)
    | MDate(year: u16, month: u8, day: u8, hour: u8, minute: u8, second: u8, micro: u32)
    | MTime(neg: bool, days: u32, hour: u8, minute: u8, second: u8, micro: u32)

  /** The encoder's input: a `Value`, or one of the variants only the encoder knows. */
  datatype WideValue =
    | Narrow(v: Value)
    | WI8(i8: i8)
    | WI128(i128: i128)
    | WU16(u16: u16)
    | WU32(u32: u32)
    | WU64(u64: u64)
    | WU128(u128: u128)
    | WF32(f32: real)
    | WChar(c: char)

  /** `to_mysql_date_value`: year, month, day and clock fields cast down, nanoseconds to microseconds. */
  function DateValue(d: NaiveDate, t: NaiveTime): (r: MyValue)
    ensures r.MDate?
    ensures 0 <= d.year < 0x1_0000 ==> r.year == d.year
    ensures ValidDate(d) ==> r.month == d.month && r.day == d.day
    ensures ValidTime(t) ==> r.hour == t.hour && r.minute == t.minute && r.second == t.second && r.micro == t.nano / 1000
  {
    MDate(Truncate(d.year, 0x1_0000), Truncate(d.month, 0x100), Truncate(d.day, 0x100),
          Truncate(t.hour, 0x100), Truncate(t.minute, 0x100), Truncate(t.second, 0x100),
          Truncate(t.nano / 1000, U32_LIMIT))
  }

  /** `to_mysql_value`. */
  function ToMysql(w: WideValue, forms: TextForms): (r: MyValue)
    ensures r.Int? <==> w.WI8? || (w.Narrow? && (w.v.Bool? || w.v.I16? || w.v.I32? || w.v.I64?))
    ensures r.UInt? <==> w.WU16? || w.WU32? || w.WU64? || (w.Narrow? && w.v.U8?)
    ensures w.Narrow? && (w.v.List? || w.v.Map?) ==> r == MBytes([])
    ensures w.Narrow? && w.v.Str? ==> r == MBytes(Utf8.Encode(w.v.s))
  {
    match w
    case WI8(i) => Int(i)
    case WI128(i) => MBytes(Utf8.Encode(IntToString(i)))
    case WU16(u) => UInt(u)
    case WU32(u) => UInt(u)
    case WU64(u) => UInt(u)
    case WU128(u) => MBytes(Utf8.Encode(NatToString(u)))
    case WF32(f) => Float(f)
    case WChar(c) => MBytes(Utf8.EncodeChar(c))
    case Narrow(v) =>
      match v
      case Null => NULL
      case Bool(b) => Int(if b then 1 else 0)
      case I16(i) => Int(i)
      case I32(i) => Int(i)
      case I64(i) => Int(i)
      case U8(u) => UInt(u)
      case F64(f) => Double(f)
      case Str(s) => MBytes(Utf8.Encode(s))
      case Bytes(b) => MBytes(b)
      case Date(d) => DateValue(d, DefaultTime)
      case Time(t) =>
        MTime(false, 0, Truncate(t.hour, 0x100), Truncate(t.minute, 0x100), Truncate(t.second, 0x100),
              Truncate(t.nano / 1000, U32_LIMIT))
      case DateTime(dt) => DateValue(dt.date, dt.time)
      case DateTimeUtc(dt) => DateValue(dt.naiveUtc.date, dt.naiveUtc.time)
      case Decimal(d) => MBytes(Utf8.Encode(forms.decimal(d)))
      case List(_) => MBytes([])
      case Map(_) => MBytes([])
  }

  function DateOrDefault(o: Option<NaiveDate>): NaiveDate {
    if o.Some? then o.value else DefaultDate
  }

  function TimeOrDefault(o: Option<NaiveTime>): NaiveTime {
    if o.Some? then o.value else DefaultTime
  }

  function DateTimeOrDefault(o: Option<NaiveDateTime>): NaiveDateTime {
    if o.Some? then o.value else DefaultDateTime
  }

  /**
   * `from_mysql_value`: unsigned integers are read as `i64` with wrap-around, a date with a
   * zero clock is a `Date`, any other a `DateTime`; a time's days are folded into its hours; an
   * invalid date or time becomes the type's default; a negative time becomes text.
   */
  function FromMysql(m: MyValue, forms: TextForms): (v: Value)
    ensures m.UInt? ==> v == I64(U64AsI64(m.u))
    ensures m.MDate? ==> (v.Date? <==> m.hour == 0 && m.minute == 0 && m.second == 0 && m.micro == 0)
    ensures m.MTime? ==> (v.Str? <==> m.neg)
  {
    match m
    case NULL => Null
    case Int(i) => I64(i)
    case UInt(u) => I64(U64AsI64(u))
    case Float(f) => F64(f)
    case Double(d) => F64(d)
    case MBytes(b) => Bytes(b)
    case MDate(y, mo, d, h, mi, s, micro) =>
      var date := DateOrDefault(FromYmdOpt(y, mo, d));
      if h == 0 && mi == 0 && s == 0 && micro == 0 then Date(date)
      else DateTime(DateTimeOrDefault(AndHmsMicroOpt(date, h, mi, s, micro)))
    case MTime(neg, days, h, mi, s, micro) =>
      var totalHours := Truncate(days * 24 + h, U32_LIMIT);
      var t := TimeOrDefault(FromHmsMicroOpt(totalHours, mi, s, micro));
      if neg then Str("-" + forms.time(t)) else Time(t)
  }

  /** `NULL` and `Null` map to each other. */
  lemma NullRoundTrip(forms: TextForms)
    ensures FromMysql(ToMysql(Narrow(Null), forms), forms) == Null
    ensures ToMysql(Narrow(FromMysql(NULL, forms)), forms) == NULL
  {
  }

  /** An unsigned value of 2^63 or more reads back negative: `u as i64`. */
  lemma UnsignedWraps(u: u64, forms: TextForms)
    requires u > I64_MAX
    ensures FromMysql(UInt(u), forms) == I64(u - U64_LIMIT) && u - U64_LIMIT < 0
  {
  }

  /** Strings are sent as bytes, so they read back as `Bytes` and not as `Str`. */
  lemma StrComesBackAsBytes(s: string, forms: TextForms)
    ensures FromMysql(ToMysql(Narrow(Str(s)), forms), forms) == Bytes(Utf8.Encode(s))
  {
  }

  /** A date of year 0..65535 is sent with a zero clock and reads back as the same `Date`. */
  lemma DateRoundTrip(d: NaiveDate, forms: TextForms)
    requires ValidDate(d) && 0 <= d.year < 0x1_0000
    ensures FromMysql(ToMysql(Narrow(Date(d)), forms), forms) == Date(d)
  {
    var m := ToMysql(Narrow(Date(d)), forms);
    assert m == MDate(d.year, d.month, d.day, 0, 0, 0, 0);
    assert FromYmdOpt(d.year, d.month, d.day) == Some(d);
  }

  /** A clock reading with no sub-microsecond part survives the division by 1000. */
  lemma MicroExact(t: NaiveTime)
    requires ValidTime(t) && t.nano % 1000 == 0
    ensures FromHmsMicroOpt(t.hour, t.minute, t.second, t.nano / 1000) == Some(t)
  {
    assert (t.nano / 1000) * 1000 == t.nano;
  }

  /**
   * A date-time whose clock is not midnight and has no sub-microsecond part reads back
   * unchanged; at midnight it reads back as the bare `Date`.
   */
  lemma DateTimeRoundTrip(dt: NaiveDateTime, forms: TextForms)
    requires ValidDateTime(dt) && 0 <= dt.date.year < 0x1_0000 && dt.time.nano % 1000 == 0
    ensures dt.time != DefaultTime ==> FromMysql(ToMysql(Narrow(DateTime(dt)), forms), forms) == DateTime(dt)
    ensures dt.time == DefaultTime ==> FromMysql(ToMysql(Narrow(DateTime(dt)), forms), forms) == Date(dt.date)
  {
    var t := dt.time;
    var m := ToMysql(Narrow(DateTime(dt)), forms);
    assert m == MDate(dt.date.year, dt.date.month, dt.date.day, t.hour, t.minute, t.second, t.nano / 1000);
    assert FromYmdOpt(dt.date.year, dt.date.month, dt.date.day) == Some(dt.date);
    MicroExact(t);
    if t != DefaultTime {
      assert !(t.hour == 0 && t.minute == 0 && t.second == 0 && t.nano / 1000 == 0);
    }
  }

  /** A time of day with no sub-microsecond part reads back unchanged. */
  lemma TimeRoundTrip(t: NaiveTime, forms: TextForms)
    requires ValidTime(t) && t.nano % 1000 == 0
    ensures FromMysql(ToMysql(Narrow(Time(t)), forms), forms) == Time(t)
  {
    var m := ToMysql(Narrow(Time(t)), forms);
    assert m == MTime(false, 0, t.hour, t.minute, t.second, t.nano / 1000);
    MicroExact(t);
  }

  /** A negative MySQL time is read as the text `-` followed by the clock reading. */
  lemma NegativeTimeIsText(days: u32, h: u8, mi: u8, s: u8, micro: u32, forms: TextForms)
    ensures FromMysql(MTime(true, days, h, mi, s, micro), forms).s[..1] == "-"
  {
  }

  /** Invalid calendar fields decode to the default date, and an invalid clock to the default date-time. */
  lemma InvalidDateIsDefault(y: u16, mo: u8, d: u8, h: u8, mi: u8, s: u8, micro: u32, forms: TextForms)
    requires !ValidDate(NaiveDate(y, mo, d))
    ensures h == 0 && mi == 0 && s == 0 && micro == 0 ==> FromMysql(MDate(y, mo, d, h, mi, s, micro), forms) == Date(DefaultDate)
    ensures FromHmsMicroOpt(h, mi, s, micro).None? && !(h == 0 && mi == 0 && s == 0 && micro == 0)
        ==> FromMysql(MDate(y, mo, d, h, mi, s, micro), forms) == DateTime(DefaultDateTime)
  {
  }

  /** The `Date` test: 2023-10-27 is sent as `Date(2023, 10, 27, 0, 0, 0, 0)`. */
  lemma DateExample(forms: TextForms)
    ensures ToMysql(Narrow(Date(NaiveDate(2023, 10, 27))), forms) == MDate(2023, 10, 27, 0, 0, 0, 0)
  {
  }
}
