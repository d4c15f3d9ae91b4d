/**
 * The calendar types that `Value` carries, reduced to their fields and validity rules:
 * chrono's `NaiveDate`, `NaiveTime`, `NaiveDateTime`, `DateTime<Utc>`, and rust_decimal's
 * `Decimal`. Textual forms (`to_string`, `to_rfc3339`) are not modelled as such; they are
 * passed in as a `TextForms` value.
 */
module Chrono {
  import opened Wrappers
  import opened Ints

  const MIN_YEAR: int := -262144
  const MAX_YEAR: int := 262143

  datatype NaiveDate = NaiveDate(year: int, month: int, day: int)
  datatype NaiveTime = NaiveTime(hour: int, minute: int, second: int, nano: int)
  datatype NaiveDateTime = NaiveDateTime(date: NaiveDate, time: NaiveTime)
  /** A UTC instant, kept as its `naive_utc()` reading. */
  datatype DateTimeUtc = DateTimeUtc(naiveUtc: NaiveDateTime)
  /** rust_decimal's `Decimal`: mantissa times 10^-scale. */
  datatype Decimal = Decimal(mantissa: int, scale: nat)

  /** The formatting functions of the libraries, which this model takes as given. */
  datatype TextForms = TextForms(
    date: NaiveDate -> string,
    time: NaiveTime -> string,
    dateTime: NaiveDateTime -> string,
    rfc3339: DateTimeUtc -> string,
    decimal: Decimal -> string)

  predicate IsLeapYear(y: int) {
    y % 4 == 0 && (y % 100 != 0 || y % 400 == 0)
  }

  function DaysInMonth(y: int, m: int): (n: int)
    requires 1 <= m <= 12
    ensures 28 <= n <= 31
  {
    if m == 2 then (if IsLeapYear(y) then 29 else 28)
    else if m == 4 || m == 6 || m == 9 || m == 11 then 30
    else 31
  }

  predicate ValidDate(d: NaiveDate) {
    MIN_YEAR <= d.year <= MAX_YEAR && 1 <= d.month <= 12 && 1 <= d.day <= DaysInMonth(d.year, d.month)
  }

  /** Valid clock readings; a nanosecond field of 10^9 or more marks a leap second and needs second 59. */
  predicate ValidTime(t: NaiveTime) {
    0 <= t.hour < 24 && 0 <= t.minute < 60 && 0 <= t.second < 60
    && 0 <= t.nano < 2_000_000_000
    && (t.nano >= 1_000_000_000 ==> t.second == 59)
  }

  predicate ValidDateTime(dt: NaiveDateTime) {
    ValidDate(dt.date) && ValidTime(dt.time)
  }

  /** `Default::default()` of each type: the Unix epoch and midnight. */
  const DefaultDate: NaiveDate := NaiveDate(1970, 1, 1)
  const DefaultTime: NaiveTime := NaiveTime(0, 0, 0, 0)
  const DefaultDateTime: NaiveDateTime := NaiveDateTime(DefaultDate, DefaultTime)

  /** `NaiveDate::from_ymd_opt`. */
  function FromYmdOpt(y: int, m: int, d: int): (r: Option<NaiveDate>)
    ensures r.Some? <==> ValidDate(NaiveDate(y, m, d))
    ensures r.Some? ==> r.value == NaiveDate(y, m, d)
  {
    if ValidDate(NaiveDate(y, m, d)) then Some(NaiveDate(y, m, d)) else None
  }

  /** `NaiveTime::from_hms_nano_opt`. */
  function FromHmsNanoOpt(h: int, m: int, s: int, nano: int): (r: Option<NaiveTime>)
    ensures r.Some? <==> ValidTime(NaiveTime(h, m, s, nano))
    ensures r.Some? ==> r.value == NaiveTime(h, m, s, nano)
  {
    if ValidTime(NaiveTime(h, m, s, nano)) then Some(NaiveTime(h, m, s, nano)) else None
  }

  /** `NaiveTime::from_hms_micro_opt`: the microseconds, multiplied by 1000 with an overflow check in u32. */
  function FromHmsMicroOpt(h: u32, m: u32, s: u32, micro: u32): (r: Option<NaiveTime>)
    ensures r.Some? <==> micro * 1000 < U32_LIMIT && ValidTime(NaiveTime(h, m, s, micro * 1000))
    ensures r.Some? ==> r.value == NaiveTime(h, m, s, micro * 1000)
  {
    if micro * 1000 < U32_LIMIT then FromHmsNanoOpt(h, m, s, micro * 1000) else None
  }

  /** `NaiveDate::and_hms_micro_opt`. */
  function AndHmsMicroOpt(d: NaiveDate, h: u32, m: u32, s: u32, micro: u32): (r: Option<NaiveDateTime>)
    ensures r.Some? <==> FromHmsMicroOpt(h, m, s, micro).Some?
    ensures r.Some? ==> r.value == NaiveDateTime(d, FromHmsMicroOpt(h, m, s, micro).value)
  {
    match FromHmsMicroOpt(h, m, s, micro)
    case Some(t) => Some(NaiveDateTime(d, t))
    case None => None
  }
}
