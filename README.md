# uorm core, modelled in Dafny

uorm is a Rust data-access library in the MyBatis style. SQL statements are templates with
`#{name}` placeholders and `<if>`, `<foreach>` and `<include>` tags. They are registered per
namespace and database type, rendered against a `Value` built from the caller's arguments, and
run through a `Session` over a named `Driver`. The session routes every call to the connection
of an open transaction, or else to a freshly acquired connection.

This project models the following, one module per source file:

- the template engine:
  - the stack-based parser with its tag, attribute and expression scanners;
  - the render context;
  - `eval_expr` and `render`;
  - `render_template`;
- the `Value` union, its `From` conversions and the serde serializer into `Value`;
- the `ToParam` derive's case conversion and key aliasing;
- the SQLite and MySQL value codecs, and the SQLite URL parser and builder;
- the statement registry (`process_mapper_data`, `find_mapper`, `clear_mappers`);
- the executor:
  - `execute_conn`, `query_conn` and `map_rows`;
  - `Session`'s per-driver-name transaction map and call routing;
  - `TransactionContext`;
  - `Mapper::execute`;
- the `DriverManager`, and the `#[transaction]` macro's generated protocol.

Imperative source code is modelled as classes and methods with loop invariants, proved against
specification functions:
- `Parser`, `find_tag_end`, `parse_attributes`, `parse_expr`;
- `render`, `Context`, `ListSerializer`/`MapSerializer`;
- the derive helpers, the registry;
- `TransactionContext`, `Session`, `DriverManager`.

Pure source code is modelled as functions, and the properties the source and its tests state
are lemmas.

A database is an oracle, `Udbc.Database`. It answers each query, statement, `last_insert_id`
and begin/commit/rollback from the connection's identity and the calls already made on that
connection. So "the same connection" and "a fresh connection" can both be stated. A driver
refuses or grants its n-th `acquire` through a function given to its constructor.

Supporting modules hold Rust standard-library behaviour the core relies on: trimming, `find`,
`split`, `split_once`, `rsplit_once`, integer parsing and printing, UTF-8, `as i64` on a
`u64`, and chrono's validity checks.

## Model

| member | source | states |
|---|---|---|
| Strings.TrimStart | src/tpl/parser.rs:327 | `trim_start`: no longer than the input, and does not start with whitespace |
| Strings.TrimStartDropsWhitespace | src/tpl/parser.rs:191-200 | the trimmed text is a suffix of the input and everything dropped is whitespace |
| Strings.TrimStartSuffix | src/tpl/parser.rs:327 | `trim_start` returns a suffix of its input |
| Strings.TrimStartWhitespaceAt | src/tpl/parser.rs:327 | every character `trim_start` drops is whitespace |
| Strings.TrimEnd | src/tpl/parser.rs:210 | `trim_end`: a prefix of the input that does not end in whitespace |
| Strings.TrimEndDropsWhitespace | src/tpl/parser.rs:207-218 | everything `trim_end` drops is whitespace |
| Strings.TrimStartPadded | src/mapper_loader.rs:69 | `trim_start` drops any all-whitespace prefix, whatever follows it |
| Strings.TrimEndPadded | src/mapper_loader.rs:69 | `trim_end` drops any all-whitespace suffix, whatever precedes it |
| Strings.TrimStartThenPad | src/mapper_loader.rs:69 | whitespace appended to a text survives `trim_start`, unless the text was all whitespace |
| Strings.TrimPadded | src/mapper_loader.rs:69 | `trim` of a text padded with whitespace on both sides is `trim` of the text |
| Strings.LowerKeepsWhitespace | src/mapper_loader.rs:69 | `to_ascii_lowercase` maps whitespace to whitespace and nothing else to whitespace |
| Strings.TrimStartLower | src/mapper_loader.rs:69 | `trim_start` commutes with ASCII lower-casing |
| Strings.TrimEndLower | src/mapper_loader.rs:69 | `trim_end` commutes with ASCII lower-casing |
| Strings.TrimLower | src/mapper_loader.rs:69 | `trim` commutes with ASCII lower-casing |
| Strings.AsciiLowercaseTwice | src/mapper_loader.rs:69 | ASCII lower-casing is idempotent |
| Strings.Trim | src/udbc/sqlite/pool.rs:24 | `trim`: neither end is whitespace |
| Strings.FindChar | src/tpl/parser.rs:362 | `find(c)`: the first index holding `c`, or none when `c` does not occur |
| Strings.RFindChar | src/mapper_loader.rs:104 | the last index holding `c`, or none |
| Strings.FindSubFrom | src/tpl/parser.rs:226-227 | the first occurrence of a pattern at or after a position, or none |
| Strings.FindSub | src/tpl/parser.rs:411 | the first occurrence of a pattern, or none |
| Strings.SplitOn | src/tpl/parser.rs:375 | `split` always yields at least one piece |
| Strings.JoinCons | src/tpl/parser.rs:375-384 | joining a longer list puts the separator after its head |
| Strings.PrefixBeforeFirst | src/tpl/parser.rs:411 | the text before the first occurrence does not contain the pattern |
| Strings.SplitJoin | src/tpl/parser.rs:375 | joining the pieces of `split` with the separator gives back the input |
| Strings.SplitPiecesFree | src/tpl/parser.rs:387 | no piece of `split` contains the separator |
| Strings.SplitOnce | src/tpl/parser.rs:411 | `split_once`: left + separator + right is the input, the left part has no separator, and the result is none iff there is no separator |
| Strings.ContainsSingle | src/tpl/render_context.rs:31 | containing the one-character string `c` means containing the character `c` |
| Strings.SplitOnceAt | src/tpl/render_context.rs:31 | splitting `a + c + b` at `c`, with no `c` in `a`, gives `(a, b)` |
| Strings.SplitOnWithout | src/tpl/render_context.rs:62 | text without the separator splits into itself alone |
| Strings.RSplitOnceChar | src/mapper_loader.rs:104 | `rsplit_once`: left + c + right is the input, the right part has no `c`, and none iff there is no `c` |
| Strings.ToAsciiLower | src/mapper_loader.rs:69 | maps ASCII upper case to lower case and leaves every other character alone |
| Strings.ToAsciiUpper | uorm-macros/src/param.rs:39 | maps ASCII lower case to upper case and leaves every other character alone |
| Strings.AsciiLowercase | src/mapper_loader.rs:69 | `to_ascii_lowercase`: the same length, with each character lower-cased |
| Strings.ParseI64 | src/tpl/parser.rs:434 | `parse::<i64>`: succeeds exactly on decimal numerals in the i64 range, with that value |
| Strings.DigitChar | src/udbc/mysql/value_codec.rs:29 | a digit character for a digit value |
| Strings.NatToString | src/udbc/mysql/value_codec.rs:29 | a non-empty string of digits |
| Strings.IntToString | src/udbc/mysql/value_codec.rs:29 | integer formatting yields a non-empty string |
| Strings.NatToStringValue | src/udbc/mysql/value_codec.rs:29 | the digits printed for `n` read back as `n` |
| Strings.IntToStringParse | src/udbc/mysql/value_codec.rs:29 | parsing a printed integer gives the integer back |
| Utf8.EncodeChar | src/udbc/mysql/value_codec.rs:54 | one character becomes one to four bytes |
| Utf8.Encode | src/udbc/mysql/value_codec.rs:54 | the bytes are at least as many as the characters |
| Utf8.DecodeFirst | src/udbc/sqlite/value_codec.rs:9 | a decoded first character uses between one byte and all of them |
| Utf8.DecodeFirstOfEncode | src/udbc/sqlite/value_codec.rs:9-10 | decoding the encoding of a character, whatever follows, gives that character and its length |
| Utf8.DecodeEncode | src/udbc/sqlite/value_codec.rs:9-10 | `from_utf8` of the UTF-8 encoding of a string succeeds with that string |
| Utf8.InvalidLeadByte | src/udbc/sqlite/value_codec.rs:11 | bytes starting with 0xFF are not UTF-8 |
| Ints.U64AsI64 | src/executor/mapper.rs:69 | `u as i64`: unchanged below 2^63, otherwise `u - 2^64`, which is negative; congruent to `u` modulo 2^64 |
| Ints.Truncate | src/udbc/mysql/value_codec.rs:26 | a value that already fits is kept, and the result is always below the limit |
| Chrono.DaysInMonth | src/udbc/mysql/value_codec.rs:14 | every month has 28 to 31 days |
| Chrono.FromYmdOpt | src/udbc/mysql/value_codec.rs:14 | `from_ymd_opt` gives the date iff it is a valid calendar date |
| Chrono.FromHmsNanoOpt | src/udbc/mysql/value_codec.rs:26 | a time is built iff its fields are in range |
| Chrono.FromHmsMicroOpt | src/udbc/mysql/value_codec.rs:26 | `from_hms_micro_opt`: a time with `micro * 1000` nanoseconds iff that fits u32 and the time is valid |
| Chrono.AndHmsMicroOpt | src/udbc/mysql/value_codec.rs:19 | `and_hms_micro_opt` gives the date with that time iff the time can be built |
| Values.FromBool | src/udbc/value.rs:67-71 | `From<bool>` gives `Bool` carrying the argument |
| Values.FromI16 | src/udbc/value.rs:74-78 | `From<i16>` gives `I16` carrying the argument |
| Values.FromI32 | src/udbc/value.rs:81-85 | `From<i32>` gives `I32` carrying the argument |
| Values.FromI64 | src/udbc/value.rs:88-92 | `From<i64>` gives `I64` carrying the argument |
| Values.FromU8 | src/udbc/value.rs:95-99 | `From<u8>` gives `U8` carrying the argument |
| Values.FromF64 | src/udbc/value.rs:102-106 | `From<f64>` gives `F64` carrying the argument |
| Values.FromString | src/udbc/value.rs:109-113 | `From<String>` gives `Str` carrying the argument |
| Values.FromStr | src/udbc/value.rs:116-120 | `From<&str>` equals `From<String>` of the same text |
| Values.FromInjective | src/udbc/value.rs:67-120 | every `From` conversion is injective |
| Values.MapInsertionOrder | src/udbc/value.rs:59 | `Map` equality does not depend on the order keys were inserted |
| Serializer.ListSerializer.constructor | src/udbc/serializer.rs:99-103 | a list serializer starts empty |
| Serializer.Serialize | src/udbc/serializer.rs:10-151 | `ValueSerializer` on a serde data model value (no contract; stated by `IntegerMappings`, `Transparent`, `SequenceInOrder`, `StructFields`, `MapOfEntries` and `KeyMustBeString`) |
| Serializer.MapStep | src/udbc/serializer.rs:185-212 | one `serialize_key`/`serialize_value` call on the map state (no contract; stated by `ValueNeedsKey` and `EntriesAreFields`) |
| Serializer.ListSerializer.SerializeElement | src/udbc/serializer.rs:163-167 | appends the element's value, or returns its error and appends nothing |
| Serializer.ListSerializer.End | src/udbc/serializer.rs:168-172 | the collected elements, in order, as a `List` |
| Serializer.MapSerializer.constructor | src/udbc/serializer.rs:123-128 | no entries and no pending key |
| Serializer.MapSerializer.SerializeKey | src/udbc/serializer.rs:189-198 | a `Str` key becomes the pending key; any other key, or a key error, fails and changes nothing |
| Serializer.MapSerializer.SerializeValue | src/udbc/serializer.rs:199-208 | takes the pending key and inserts the value under it; fails with "Missing key for value" when none is pending |
| Serializer.MapSerializer.SerializeField | src/udbc/serializer.rs:220-229 | inserts the field's value under its name, overwriting an earlier one; an error changes nothing |
| Serializer.MapSerializer.End | src/udbc/serializer.rs:209-212 | the collected entries as a `Map` |
| Serializer.SerializeElements | src/udbc/serializer.rs:157-178 | driving the list serializer over the elements gives the serialization of the sequence |
| Serializer.SerializeEntries | src/udbc/serializer.rs:185-212 | driving the map serializer over the key/value calls gives the serialization of the map |
| Serializer.SerializeFields | src/udbc/serializer.rs:214-238 | driving the struct serializer over the fields gives the serialization of the struct |
| Serializer.IntegerMappings | src/udbc/serializer.rs:21-47 | i8 widens to `I16`; u16 and u32 become `I64` with the same value; u64 becomes `I64` and wraps to negative from 2^63 |
| Serializer.Transparent | src/udbc/serializer.rs:66-98 | `Some(x)`, newtype structs and newtype variants serialize exactly as `x` |
| Serializer.ElementsFromSpec | src/udbc/serializer.rs:163-172 | element serialization succeeds iff every element does, keeps order, and otherwise fails with the first element error |
| Serializer.ElementsOkIff | src/udbc/serializer.rs:163-167 | element serialization succeeds iff every element does |
| Serializer.ElementsOkItems | src/udbc/serializer.rs:163-172 | on success, the list is the values already pushed followed by each element's value in order |
| Serializer.ElementsFirstError | src/udbc/serializer.rs:163-167 | on failure, the error is that of the first failing element, all before it having succeeded |
| Serializer.SequenceInOrder | src/udbc/serializer.rs:99-122 | seq and tuple become a `List` of the elements' values in order |
| Serializer.TupleExample | src/udbc/serializer.rs:251-274 | `(1i32, "hello")` becomes `List([I32(1), Str("hello")])` and unit becomes `List([])` |
| Serializer.FieldsFromOk | src/udbc/serializer.rs:225 | struct serialization succeeds iff every field does |
| Serializer.FieldsFromKeys | src/udbc/serializer.rs:226 | the keys are the earlier keys plus the field names |
| Serializer.FieldsFromLast | src/udbc/serializer.rs:226 | a repeated field name keeps the last field's value |
| Serializer.FieldsFromKept | src/udbc/serializer.rs:226 | a key no field names keeps its value |
| Serializer.StructFields | src/udbc/serializer.rs:214-238 | a struct becomes a `Map` keyed exactly by its field names, each holding the value of the last field of that name |
| Serializer.Entries | src/udbc/serializer.rs:185-212 | a map of n entries makes 2n key/value calls |
| Serializer.EntriesAreFields | src/udbc/serializer.rs:199-208 | a `Str` key followed by a value inserts it the same way a struct field does |
| Serializer.MapOfEntries | src/udbc/serializer.rs:185-238 | a map with string keys serializes like a struct with those fields |
| Serializer.KeyMustBeString | src/udbc/serializer.rs:189-197 | a key that is not a string fails the whole map with "Map key must be string" |
| Serializer.ValueNeedsKey | src/udbc/serializer.rs:199-207 | a value with no pending key fails with "Missing key for value", and each key is taken once |
| Serializer.SecondValueMissesKey | src/udbc/serializer.rs:199-207 | after a key and its value, a second value fails with "Missing key for value" |
| ParamDerive.SnakeToCamel | uorm-macros/src/param.rs:30-44 | the loop computes `snake_to_camel` as specified by `Camel` |
| ParamDerive.Camel | uorm-macros/src/param.rs:30-44 | `snake_to_camel` (no contract; stated by `CamelNoUnderscore`, `CamelIdentity`, `CamelExample`) |
| ParamDerive.Snake | uorm-macros/src/param.rs:46-79 | `camel_to_snake` (no contract; stated by `SnakeNoDoubleUnderscore`, `SnakeLowercase`, `SnakeIdentity`, `SnakeExample`) |
| ParamDerive.ToValueMap | uorm-macros/src/param.rs:82-109 | the map the generated `to_value` builds (no contract; stated by `ToValueKeys`, `ToValueLast` and `RoundTrip`) |
| ParamDerive.FieldsFrom | uorm-macros/src/param.rs:111-163 | the generated `from_value` field by field (no contract; stated by `TakeAll`, `RoundTrip` and `SecondReaderGetsNull`) |
| ParamDerive.ApplyMetas | uorm-macros/src/param.rs:180-189 | the nested metas of one `#[param(...)]` (no contract; stated by `MetasKeepIgnore`, `RenameRenames`, `IgnoreMarks`, `IgnoreWithValueStops`) |
| ParamDerive.FieldAttrs | uorm-macros/src/param.rs:169-193 | the key and ignore flag of a field (no contract; stated by `NoParamAttrs`, `IgnoreSticky`, `LitRenames`) |
| ParamDerive.CamelNoUnderscore | uorm-macros/src/param.rs:30-44 | the camel form has no `_` |
| ParamDerive.CamelIdentity | uorm-macros/src/param.rs:30-44 | text without `_` is its own camel form |
| ParamDerive.CamelExample | tests/test_param_sql.rs:35-37 | `user_id` becomes `userId` |
| ParamDerive.CamelFromNoUnderscore | uorm-macros/src/param.rs:32-42 | pieces without `_` join into text without `_` |
| ParamDerive.CamelToSnake | uorm-macros/src/param.rs:46-79 | the loop computes `camel_to_snake` as specified by `Snake` |
| ParamDerive.SnakeNoDoubleUnderscore | uorm-macros/src/param.rs:51-75 | the snake form never contains `__` |
| ParamDerive.SnakeLowercase | uorm-macros/src/param.rs:66-72 | the snake form has no ASCII upper case |
| ParamDerive.SnakeIdentity | uorm-macros/src/param.rs:51-75 | text with no upper case and no `__` is its own snake form |
| ParamDerive.SnakeExample | uorm-macros/src/param.rs:46-79 | `userId` becomes `user_id` |
| ParamDerive.SnakeFromNoDouble | uorm-macros/src/param.rs:51-75 | the loop never appends a second `_` after a `_` |
| ParamDerive.SnakeFromNoUpper | uorm-macros/src/param.rs:66-72 | the loop only appends lower-cased letters |
| ParamDerive.SnakeFromIdentity | uorm-macros/src/param.rs:51-75 | already-snake input is copied unchanged |
| ParamDerive.InsertField | uorm-macros/src/param.rs:82-109 | the key is set to the field's value; its camel and snake forms are added only if absent; other keys are kept |
| ParamDerive.ToValue | uorm-macros/src/param.rs:82-109 | the generated `to_value` is a `Map` built by inserting the non-ignored fields in order |
| ParamDerive.ToValueKeys | uorm-macros/src/param.rs:82-109 | a key is present iff it is the key, camel form or snake form of a non-ignored field |
| ParamDerive.ToValueLast | uorm-macros/src/param.rs:95-97 | a field's key holds its value when no later non-ignored field has the same key |
| ParamDerive.Chosen | uorm-macros/src/param.rs:120-135 | a field reads its key, else the camel form, else the snake form, else nothing |
| ParamDerive.FromValue | uorm-macros/src/param.rs:111-143 | a non-`Map` fails with `TypeMismatch` whose message is "Expected Map, got " followed by the variant name (the `{:?}` payload is left out); a `Map` is read field by field, removing each key taken |
| ParamDerive.Expected | uorm-macros/src/param.rs:155-163 | one value per field |
| ParamDerive.TakeAll | uorm-macros/src/param.rs:111-143 | each field finds its value under its own key and converts it |
| ParamDerive.RoundTrip | uorm-macros/src/param.rs:82-163 | `from_value(to_value(x))` gives back every non-ignored field, and defaults for ignored ones, when keys are distinct |
| ParamDerive.SecondReaderGetsNull | uorm-macros/src/param.rs:128-135 | once a key is taken, a later field with the same key reads `Null` |
| ParamDerive.ParseFieldAttrs | uorm-macros/src/param.rs:169-193 | the loop computes the key and the ignore flag as specified by `FieldAttrs` |
| ParamDerive.NoParamAttrs | uorm-macros/src/param.rs:169-193 | without `#[param]` the key is the field name and the field is not ignored |
| ParamDerive.MetasKeepIgnore | uorm-macros/src/param.rs:180-186 | no nested meta clears a set ignore flag |
| ParamDerive.IgnoreSticky | uorm-macros/src/param.rs:169-193 | once ignored, later attributes never un-ignore a field |
| ParamDerive.LitRenames | uorm-macros/src/param.rs:174-177 | `#[param("x")]` sets the key to `x` |
| ParamDerive.RenameRenames | uorm-macros/src/param.rs:180-183 | `#[param(rename = "x")]` sets the key to `x` |
| ParamDerive.IgnoreMarks | uorm-macros/src/param.rs:184-186 | `#[param(ignore)]` marks the field ignored |
| ParamDerive.IgnoreWithValueStops | uorm-macros/src/param.rs:180-189 | `#[param(ignore = "x", …)]` still marks the field ignored, and the unread `= "x"` makes `parse_nested_meta` fail, so no later item of that list applies |
| ParamDerive.ConcatWithout | uorm-macros/src/param.rs:32-42 | concatenating two texts without `_` gives text without `_` |
| ParamDerive.SplitOnAt | uorm-macros/src/param.rs:32 | splitting at the first `_` peels the first piece off |
| ParamDerive.AppendNoDouble | uorm-macros/src/param.rs:60-63 | appending keeps the output free of `__` when a `_` never follows a `_` |
| ParamDerive.AppendNoUpper | uorm-macros/src/param.rs:66-72 | appending a character that is not upper case keeps the output lower case |
| ParamDerive.UnderscoreNotDoubled | uorm-macros/src/param.rs:60-63 | in text free of `__`, what precedes a `_` does not end in `_` |
| ParamDerive.JoinedNothing | uorm-macros/src/param.rs:155-163 | prefixing no fields changes nothing |
| ParamDerive.JoinedPrepend | uorm-macros/src/param.rs:155-163 | fields are collected in declaration order |
| SqliteCodec.ToSqlite | src/udbc/sqlite/value_codec.rs:17-35 | `Null`, `List` and `Map` give `Null`; booleans and integers give `Integer`; text and temporal values give `Text`; bytes give `Blob` |
| SqliteCodec.FromSqlite | src/udbc/sqlite/value_codec.rs:4-15 | text decodes to `Str` when it is UTF-8 and to `Bytes` of the same bytes otherwise |
| SqliteCodec.RoundTrip | src/udbc/sqlite/value_codec.rs:6-27 | `Null`, `I64`, `F64`, `Str` and `Bytes` come back unchanged |
| SqliteCodec.IntegersComeBackWide | src/udbc/sqlite/value_codec.rs:20-24 | `Bool`, `I16`, `I32` and `U8` come back as `I64` of the same value |
| SqliteCodec.TemporalComesBackAsText | src/udbc/sqlite/value_codec.rs:28-32 | dates, times, datetimes and decimals come back as `Str` of their text |
| SqliteCodec.InvalidTextIsBytes | src/udbc/sqlite/value_codec.rs:9-12 | invalid UTF-8 text decodes to `Bytes` of the same bytes |
| MysqlCodec.DateValue | src/udbc/mysql/value_codec.rs:75-85 | `to_mysql_date_value` carries the date's and time's fields, with microseconds from nanoseconds |
| MysqlCodec.ToMysql | src/udbc/mysql/value_codec.rs:37-73 | booleans and signed integers become `Int`, unsigned ones `UInt`; `Str` becomes its UTF-8 `Bytes`; `List` and `Map` become empty `Bytes` |
| MysqlCodec.FromMysql | src/udbc/mysql/value_codec.rs:5-35 | `UInt` wraps into `I64`; a date with zero time is a `Date`; a negative time is text |
| MysqlCodec.NullRoundTrip | src/udbc/mysql/value_codec.rs:7-39 | `NULL` and `Null` map to each other |
| MysqlCodec.UnsignedWraps | src/udbc/mysql/value_codec.rs:9 | `UInt(u)` with u ≥ 2^63 decodes to the negative `I64(u - 2^64)` |
| MysqlCodec.StrComesBackAsBytes | src/udbc/mysql/value_codec.rs:54 | `Str(s)` comes back as `Bytes` of its UTF-8 encoding |
| MysqlCodec.DateRoundTrip | src/udbc/mysql/value_codec.rs:13-16 | a valid `Date` with a 16-bit year comes back unchanged |
| MysqlCodec.MicroExact | src/udbc/mysql/value_codec.rs:26 | a time with whole microseconds survives the microsecond conversion |
| MysqlCodec.DateTimeRoundTrip | src/udbc/mysql/value_codec.rs:15-22 | a non-midnight `DateTime` with whole microseconds comes back unchanged; a midnight one comes back as `Date` |
| MysqlCodec.TimeRoundTrip | src/udbc/mysql/value_codec.rs:24-32 | a valid `Time` with whole microseconds comes back unchanged |
| MysqlCodec.NegativeTimeIsText | src/udbc/mysql/value_codec.rs:28-29 | a negative MySQL time decodes to text starting with `-` |
| MysqlCodec.InvalidDateIsDefault | src/udbc/mysql/value_codec.rs:14-27 | invalid date or time fields decode to the default date or datetime instead of failing |
| MysqlCodec.DateExample | src/udbc/mysql/value_codec.rs:93-112 | 2023-10-27 encodes as a date value with zero time |
| SqlitePool.StripScheme | src/udbc/sqlite/pool.rs:24-34 | strips `sqlite://`, else `sqlite:`, else nothing |
| SqlitePool.ParseTarget | src/udbc/sqlite/pool.rs:23-44 | fails with `DbUrlError(trimmed url)` iff the path is empty; `:memory:` gives `Memory`; otherwise `Path` of the trimmed, stripped text |
| SqlitePool.TrimIdempotent | src/udbc/sqlite/pool.rs:24-34 | trimming twice is trimming once |
| SqlitePool.MemoryUrl | src/udbc/sqlite/pool.rs:39-40 | `sqlite::memory:` gives `Memory` |
| SqlitePool.NoSchemeIsPath | src/udbc/sqlite/pool.rs:31-42 | a URL without the prefix is used whole as the path |
| SqlitePool.EmptyPathRefused | src/udbc/sqlite/pool.rs:35-37 | `sqlite://` fails with `DbUrlError` |
| SqlitePool.NewDriver | src/udbc/sqlite/pool.rs:56-63 | named `default`, no options, not built |
| SqlitePool.WithName | src/udbc/sqlite/pool.rs:65-68 | changes only the name |
| SqlitePool.WithOptions | src/udbc/sqlite/pool.rs:70-73 | changes only the options |
| SqlitePool.Build | src/udbc/sqlite/pool.rs:75-78 | fails iff the URL does not parse, else records the parsed target |
| SqlitePool.AcquireTarget | src/udbc/sqlite/pool.rs:121-129 | fails with "Driver not built" iff not built; otherwise the target and the configured timeout |
| SqlitePool.BuiltAcquires | src/udbc/sqlite/pool.rs:75-129 | after a successful build, `acquire` gets past the not-built check |
| SqlitePool.NewIsNotBuilt | src/udbc/sqlite/pool.rs:121-126 | a new driver cannot acquire |
| SqlitePool.VarRendersQuestionMark | src/udbc/sqlite/pool.rs:113-119 | with the SQLite placeholder every `#{name}` renders as `?` |
| SqlitePool.Placeholder | src/udbc/sqlite/pool.rs:117-119 | the SQLite placeholder, `?` whatever the sequence number and name (no contract; stated by `VarRendersQuestionMark`) |
| SqlitePool.DriverType | src/udbc/sqlite/pool.rs:113-115 | the driver type `sqlite`, the `SQLITE_TYPE` constant (no contract; a constant) |
| MapperLoader.ParseTruthy | src/mapper_loader.rs:65-70 | absent is false; otherwise true iff the trimmed, ASCII-lowercased text is `true`, `1` or `yes` |
| MapperLoader.TruthyExamples | src/mapper_loader.rs:65-70 | `" YES "` is truthy and `on` is not |
| MapperLoader.TruthyIgnoresPadding | src/mapper_loader.rs:65-70 | for every text, whitespace added at either end does not change whether it reads as true |
| MapperLoader.TruthyIgnoresCase | src/mapper_loader.rs:65-70 | for every text, ASCII lower-casing it first does not change whether it reads as true |
| MapperLoader.FromItem | src/mapper_loader.rs:52-63 | copies database type, content and key column; `use_generated_keys` is `parse_truthy` of the attribute |
| MapperLoader.Registry.constructor | src/mapper_loader.rs:30 | an empty store |
| MapperLoader.Registry.ProcessMapperData | src/mapper_loader.rs:294-320 | the store after registration and the result are exactly those `Register` specifies: the namespace entry created, items added up to the first duplicate, and the duplicate reported |
| MapperLoader.AddAll | src/mapper_loader.rs:301-317 | the item loop computes `AddItems`: the grown map and the first duplicate, if any |
| MapperLoader.AnyOfType | src/mapper_loader.rs:304-306 | true iff some existing variant has the new item's database type |
| MapperLoader.AddItemsAt | src/mapper_loader.rs:301-317 | one pass from item `i`: a duplicate stops with that item, anything else is appended to its id's variants |
| MapperLoader.Registry.FindMapper | src/mapper_loader.rs:103-120 | the loop finds the variant as specified by `FindIn` |
| MapperLoader.Registry.ClearMappers | src/mapper_loader.rs:323-327 | the store is empty |
| MapperLoader.AddItems | src/mapper_loader.rs:301-317 | the registration loop over the items (no contract; stated by `AddItemsSpec`, `DuplicateKeepsEarlier`, `AddOne`, `AddedHolds` and `KeptAfter`) |
| MapperLoader.Register | src/mapper_loader.rs:294-320 | `process_mapper_data` on the store (no contract; stated by `RegisteredIsFound`) |
| MapperLoader.SelectVariant | src/mapper_loader.rs:110-119 | the variant choice of `find_mapper` (no contract; stated by `SelectTyped` and `SelectUntyped`) |
| MapperLoader.FindIn | src/mapper_loader.rs:103-120 | `find_mapper` on the store (no contract; stated by `NoDotNotFound` and `RegisteredIsFound`) |
| MapperLoader.SelectTyped | src/mapper_loader.rs:110-115 | the first variant of the driver's type is chosen |
| MapperLoader.SelectUntyped | src/mapper_loader.rs:110-119 | without a variant of the driver's type, something is chosen iff there is an untyped variant or a fallback; with no untyped variant the fallback is the answer |
| MapperLoader.NoDotNotFound | src/mapper_loader.rs:104 | an id without `.` finds nothing |
| MapperLoader.AddItemsSpec | src/mapper_loader.rs:301-317 | registration keeps (id, database type) pairs distinct and never drops a registered variant |
| MapperLoader.DuplicateKeepsEarlier | src/mapper_loader.rs:301-317 | at a duplicate, registration stops with that item, keeping the items before it |
| MapperLoader.AddOne | src/mapper_loader.rs:303-317 | a new (id, type) pair is appended to the id's variants |
| MapperLoader.DifferentTypesCoexist | src/mapper_loader.rs:304-306 | one id with two database types keeps both variants |
| MapperLoader.RSplitAt | src/mapper_loader.rs:104 | `namespace.id` with no `.` in the id splits into namespace and id |
| MapperLoader.RegisteredIsFound | src/mapper_loader.rs:103-120 | after a successful registration, `namespace.id` for an item's type finds that item |
| MapperLoader.AddedHolds | src/mapper_loader.rs:312-315 | every item of a successful registration is among its id's variants |
| MapperLoader.KeptAfter | src/mapper_loader.rs:301-317 | variants registered earlier stay where they were |
| TemplateScan.CountCharStep | src/tpl/parser.rs:311-313 | each `"` toggles the quote state |
| TemplateScan.TagEndFrom | src/tpl/parser.rs:309-320 | the first `>` outside double quotes at or after a position, or none |
| TemplateScan.TagEnd | src/tpl/parser.rs:309-320 | the first `>` outside double quotes, or none |
| TemplateScan.FindTagEnd | src/tpl/parser.rs:309-320 | the loop computes `TagEnd` |
| TemplateScan.KeyEnd | src/tpl/parser.rs:333-335 | the key is the longest prefix of alphanumerics, `_` and `-` |
| TemplateScan.AttrNext | src/tpl/parser.rs:326-369 | each pass of `parse_attributes` shortens the rest, so the loop ends |
| TemplateScan.ParseAttributes | src/tpl/parser.rs:322-371 | the loop computes `Attributes` |
| TemplateScan.AttrLoop | src/tpl/parser.rs:326-369 | the `parse_attributes` loop from a rest and an accumulator (no contract; stated by `AttrLoopPair`, `AttrLoopSpace` and `TwoPairs`) |
| TemplateScan.Attributes | src/tpl/parser.rs:322-371 | `parse_attributes` (no contract; stated by `TwoPairs` and computed by `ParseAttributes`) |
| TemplateScan.PairNext | src/tpl/parser.rs:342-365 | `key="value"` is read as one pair |
| TemplateScan.AttrNextSteps | src/tpl/parser.rs:342-365 | one pass over `key="value"` inserts the pair and continues after the closing quote |
| TemplateScan.AttrLoopPair | src/tpl/parser.rs:322-371 | a leading pair is inserted and scanning goes on after it |
| TemplateScan.TrimStartKeeps | src/tpl/parser.rs:327 | text not starting with whitespace is not trimmed |
| TemplateScan.FindCharAfter | src/tpl/parser.rs:362 | `find` stops at the first occurrence |
| TemplateScan.KeyEndOfKey | src/tpl/parser.rs:333-335 | a key ends at the first character that cannot be in a key |
| TemplateScan.AttrLoopSpace | src/tpl/parser.rs:327 | a separating space is skipped |
| TemplateScan.TwoPairs | src/tpl/parser.rs:322-371 | two pairs give both keys, and a repeated key keeps its last value |
| TemplateScan.Pow10 | src/tpl/parser.rs:437-439 | a power of ten is at least one |
| TemplateScan.LoneQuotePanics | src/tpl/parser.rs:428-433 | as written, a lone `'` or `"` reaches the slice `1..0` |
| TemplateScan.ParseValAsWritten | src/tpl/parser.rs:420-442 | `parse_val` as written, `None` where it panics (no contract; stated by `LoneQuotePanics` and `ParseValAgrees`) |
| TemplateScan.ParseVal | src/tpl/parser.rs:420-442 | `parse_val` never gives a binary expression |
| TemplateScan.ParseTrimmed | src/tpl/parser.rs:420-442 | `null`, `true` and `false` give those literals; quoted text of length two or more gives `Str`; an `I64` carries the numeral's value; `Var` is left only for text that is neither an i64 numeral nor a decimal |
| TemplateScan.ParseValAgrees | src/tpl/parser.rs:420-442 | the corrected `parse_val` agrees with the code wherever the code does not panic, and the code panics only on a lone quote |
| TemplateScan.FirstOperatorFrom | src/tpl/parser.rs:401-410 | the first operator of `!=`, `==`, `>=`, `<=`, `>`, `<` that the text contains |
| TemplateScan.ParseAtom | src/tpl/parser.rs:398-418 | binary iff the trimmed text contains an operator, split at the first operator in table order; otherwise `parse_val` |
| TemplateScan.FoldAndLeft | src/tpl/parser.rs:386-396 | `and` folds to the left |
| TemplateScan.FoldOrLeft | src/tpl/parser.rs:373-384 | `or` folds to the left over the `and`-expressions |
| TemplateScan.AndExprOf | src/tpl/parser.rs:386-396 | `parse_and_expr` (no contract; computed by `ParseAndExpr`, folded as `FoldAndLeft` states) |
| TemplateScan.ExprOf | src/tpl/parser.rs:373-384 | `parse_expr` (no contract; computed by `ParseExpr`, folded as `FoldOrLeft` states) |
| TemplateScan.NoSecondChar | src/tpl/parser.rs:401-410 | text missing the second character of an operator does not contain it |
| TemplateScan.AtomExampleOperator | src/tpl/parser.rs:401-410 | the first operator found in `a > 1` is `>` |
| TemplateScan.AtomExampleSplit | src/tpl/parser.rs:411 | `a > 1` splits at `>` into `a ` and ` 1` |
| TemplateScan.AtomExampleLeft | src/tpl/parser.rs:441 | `a ` parses as the variable `a` |
| TemplateScan.AtomExampleRight | src/tpl/parser.rs:434-436 | ` 1` parses as `I64(1)` |
| TemplateScan.AtomExample | src/tpl/parser.rs:490-511 | `a > 1` parses as `Binary(Gt, Var a, Literal I64 1)` |
| TemplateScan.ParseAndExpr | src/tpl/parser.rs:386-396 | the loop computes the left fold over ` and ` |
| TemplateScan.ParseExpr | src/tpl/parser.rs:373-384 | the loop computes the left fold over ` or ` |
| TemplateParser.AppendNodeTo | src/tpl/parser.rs:258-263 | appending a node keeps the number of levels |
| TemplateParser.AppendTextTo | src/tpl/parser.rs:265-274 | appending text keeps the number of levels |
| TemplateParser.CloseTop | src/tpl/parser.rs:153-189 | closing pops one frame and one level and keeps the position |
| TemplateParser.TrimTextNodes | src/tpl/parser.rs:191-222 | `trim_text_nodes` on a body (no contract; used by `CloseTop` and `Parser.CloseRemainingTags`; `TemplateParserProps.TrimTextNodesWellFormed` states it keeps a body well formed) |
| TemplateParser.IfTag | src/tpl/parser.rs:96-110 | `handle_if_tag` on the parser state (no contract; stated by `TryTag` and computed by `Parser.HandleIfTag`) |
| TemplateParser.ForeachTag | src/tpl/parser.rs:112-135 | `handle_foreach_tag` (no contract; stated by `TryTag` and computed by `Parser.HandleForeachTag`) |
| TemplateParser.IncludeTag | src/tpl/parser.rs:137-151 | `handle_include_tag` (no contract; stated by `TryTag` and computed by `Parser.HandleIncludeTag`) |
| TemplateParser.CloseTag | src/tpl/parser.rs:153-189 | `handle_close_tag` (no contract; stated by `TryTag` and computed by `Parser.HandleCloseTag`) |
| TemplateParser.TagEndAfterWord | src/tpl/parser.rs:104 | a tag's `>` comes after its tag word |
| TemplateParser.TryTag | src/tpl/parser.rs:76-94 | a recognised tag advances the position and keeps one more level than frames |
| TemplateParser.TryVar | src/tpl/parser.rs:224-238 | a recognised `#{…}` advances the position and keeps the stacks aligned |
| TemplateParser.TextStop | src/tpl/parser.rs:240-256 | plain text stops within the rest of the input |
| TemplateParser.TextStep | src/tpl/parser.rs:240-256 | plain text advances by at least one character and keeps the stacks aligned |
| TemplateParser.Step | src/tpl/parser.rs:57-65 | every iteration advances the position by at least one, never past the end, keeping the stacks aligned |
| TemplateParser.Run | src/tpl/parser.rs:57-65 | the main loop ends at the end of the input |
| TemplateParser.CloseAll | src/tpl/parser.rs:276-300 | closing the remaining tags leaves only the root level |
| TemplateParser.Parser.constructor | src/tpl/parser.rs:46-53 | position 0, one empty root level, no open tags |
| TemplateParser.Parser.Parse | src/tpl/parser.rs:56-72 | the loop computes `Run` then `CloseAll` and returns the root level |
| TemplateParser.Parser.TryParseTag | src/tpl/parser.rs:76-94 | consumes a tag exactly when `TryTag` recognises one, with the state `TryTag` gives |
| TemplateParser.Parser.HandleIfTag | src/tpl/parser.rs:96-110 | an `<if test=…>` opens a frame and a level as specified by `IfTag` |
| TemplateParser.Parser.HandleForeachTag | src/tpl/parser.rs:112-135 | a `<foreach>` opens a frame and a level as specified by `ForeachTag` |
| TemplateParser.Parser.HandleIncludeTag | src/tpl/parser.rs:137-151 | an `<include refid=…>` appends an `Include` node as specified by `IncludeTag` |
| TemplateParser.Parser.HandleCloseTag | src/tpl/parser.rs:153-189 | a matching close tag closes the innermost frame as specified by `CloseTag` |
| TemplateParser.Parser.CloseInnermost | src/tpl/parser.rs:155-187 | builds the innermost node from its frame and trimmed children and appends it to the enclosing level |
| TemplateParser.Parser.TryParseVar | src/tpl/parser.rs:224-238 | consumes `#{name}` exactly when `TryVar` recognises it |
| TemplateParser.Parser.ParseText | src/tpl/parser.rs:240-256 | consumes text up to the next `<` or `#{`, or one character, as specified by `TextStep` |
| TemplateParser.Parser.AppendNode | src/tpl/parser.rs:258-263 | appends the node to the innermost level and changes nothing else |
| TemplateParser.Parser.AppendText | src/tpl/parser.rs:265-274 | merges text into the innermost level and changes nothing else |
| TemplateParser.Parser.CloseRemainingTags | src/tpl/parser.rs:276-300 | closes every open frame innermost first, as specified by `CloseAll` |
| TemplateParser.ParseTemplate | src/tpl/parser.rs:304-307 | a fresh parser run over the template gives `TemplateNodes`, the function the parser properties are proved about |
| TemplateParser.TemplateNodes | src/tpl/parser.rs:304-307 | `parse_template` (no contract; computed by `ParseTemplate`; its properties are in `TemplateParserProps`) |
| TemplateParserProps.AppendWellFormed | src/tpl/parser.rs:258-263 | appending a well-formed non-text node keeps the list well formed |
| TemplateParserProps.MergeTextWellFormed | src/tpl/parser.rs:265-274 | merging non-empty text never leaves adjacent or empty text nodes |
| TemplateParserProps.AppendNodeToWellFormed | src/tpl/parser.rs:258-263 | every level stays well formed after appending a node |
| TemplateParserProps.AppendTextToWellFormed | src/tpl/parser.rs:265-274 | every level stays well formed after appending text |
| TemplateParserProps.TrimFirstWellFormed | src/tpl/parser.rs:191-205 | trimming the first text child keeps the list well formed |
| TemplateParserProps.TrimLastWellFormed | src/tpl/parser.rs:207-220 | trimming the last text child keeps the list well formed |
| TemplateParserProps.TrimTextNodesWellFormed | src/tpl/parser.rs:191-221 | `trim_text_nodes` keeps the list well formed |
| TemplateParserProps.CloseTopWellFormed | src/tpl/parser.rs:153-189 | closing a tag keeps every level well formed |
| TemplateParserProps.TryTagWellFormed | src/tpl/parser.rs:76-94 | a recognised tag keeps every level well formed |
| TemplateParserProps.StepWellFormed | src/tpl/parser.rs:57-65 | every iteration keeps every level well formed |
| TemplateParserProps.RunWellFormed | src/tpl/parser.rs:57-65 | the main loop keeps every level well formed |
| TemplateParserProps.CloseAllWellFormed | src/tpl/parser.rs:276-300 | closing the remaining tags keeps the levels well formed |
| TemplateParserProps.TemplateWellFormed | src/tpl/parser.rs:240-273 | every parsed node list, nested lists included, has no empty and no adjacent text nodes |
| TemplateParserProps.HeadOfPrefix | src/tpl/parser.rs:79 | a text starting with a prefix starts with the prefix's first character |
| TemplateParserProps.NoAngleNoTag | src/tpl/parser.rs:76-94 | no tag is recognised where there is no `<` |
| TemplateParserProps.NoHashNoVar | src/tpl/parser.rs:224-238 | no variable is recognised where there is no `#` |
| TemplateParserProps.PlainRest | src/tpl/parser.rs:240-256 | input with neither `<` nor `#{` is appended as one text |
| TemplateParserProps.PlainTemplate | src/tpl/parser.rs:449-469 | a template with neither `<` nor `#{` parses to `[Text(t)]`, or to nothing when empty |
| TemplateParserProps.UnrecognisedAngle | src/tpl/parser.rs:555-569 | an unrecognised `<` becomes text, merged with its neighbours |
| TemplateParserProps.VarRecognised | src/tpl/parser.rs:224-238 | `#{ name }` gives `Var(trimmed name)` and consumes through the first `}` |
| TemplateParserProps.VarFallback | src/tpl/parser.rs:471-487 | an empty name or a missing `}` leaves `#` as text |
| TemplateParserProps.SecondOfPrefix | src/tpl/parser.rs:79 | a text starting with a prefix has the prefix's second character second |
| TemplateParserProps.IfRecognised | src/tpl/parser.rs:96-110 | `<if …>` is a tag iff it has an end and a `test` attribute, and then opens an `If` frame and level |
| TemplateParserProps.ForeachRecognised | src/tpl/parser.rs:112-135 | `<foreach …>` needs `item` and `collection`; open, separator and close default to `""`, `","`, `""` |
| TemplateParserProps.IncludeRecognised | src/tpl/parser.rs:137-151 | `<include …>` needs `refid` and appends `Include(refid)` |
| TemplateParserProps.StartsWithLonger | src/tpl/parser.rs:80-93 | a text starting with `p + q` starts with `p` |
| TemplateParserProps.CloseIfOnlyMatching | src/tpl/parser.rs:153-189 | `</if>` closes only an innermost `If`; otherwise `<` becomes text |
| TemplateParserProps.CloseForeachOnlyMatching | src/tpl/parser.rs:153-189 | `</foreach>` closes only an innermost `Foreach`; otherwise `<` becomes text |
| TemplateParserProps.AppendNodeToTail | src/tpl/parser.rs:258-263 | appending touches only the innermost level |
| TemplateParserProps.CloseTopTail | src/tpl/parser.rs:276-300 | closing touches only the two innermost levels |
| TemplateParserProps.CloseTopNested | src/tpl/parser.rs:276-300 | closing a frame keeps the tree that the open levels describe |
| TemplateParserProps.CloseAllNested | src/tpl/parser.rs:534-552 | unclosed frames are closed innermost first, each with its children |
| TemplateParserProps.TrimKeepsInline | src/tpl/parser.rs:191-221 | whitespace without a newline at either end is not trimmed |
| TemplateParserProps.TrimSingleBlock | src/tpl/parser.rs:191-221 | a single text child with newlines at both ends is trimmed, and dropped when nothing is left |
| RenderContext.FindLocal | src/tpl/render_context.rs:48 | finds a binding iff the name is bound locally, and what it finds is bound to that name |
| RenderContext.ResolvePath | src/tpl/render_context.rs:61-71 | the loop walks the path through `Map`s, as specified by `WalkPath` |
| RenderContext.GetFromScope | src/tpl/render_context.rs:44-58 | `get_from_scope` (no contract; stated by `LocalsFirst`) |
| RenderContext.WalkPath | src/tpl/render_context.rs:61-71 | `resolve_path` over the split path (no contract; stated by `WalkPathAppend` and `NestedMaps`) |
| RenderContext.LookupIn | src/tpl/render_context.rs:24-42 | `lookup` on a scope (no contract; stated by `ExactWins`, `DottedLookup`, `UnresolvedIsNull` and `LookupPushed`) |
| RenderContext.Context.constructor | src/tpl/render_context.rs:9-14 | the root value with no locals |
| RenderContext.Context.Push | src/tpl/render_context.rs:16-18 | appends one binding |
| RenderContext.Context.Pop | src/tpl/render_context.rs:20-22 | drops the last binding, if any |
| RenderContext.Context.Lookup | src/tpl/render_context.rs:24-42 | the lookup is `LookupIn` of the current scope |
| RenderContext.LookupPushed | src/tpl/render_context.rs:106-117 | a pushed binding is what its name looks up to |
| RenderContext.PushOther | src/tpl/render_context.rs:16-18 | pushing another name does not change a name's scope lookup |
| RenderContext.LocalsFirst | src/tpl/render_context.rs:44-58 | a local binding comes before the root; with no local binding, a root that is not a `Map` resolves nothing |
| RenderContext.ExactWins | src/tpl/render_context.rs:120-130 | an exact key, dots included, wins over path walking |
| RenderContext.UnresolvedIsNull | src/tpl/render_context.rs:80-88 | an unresolved plain name looks up to `Null` |
| RenderContext.DottedLookup | src/tpl/render_context.rs:31-39 | a dotted name resolves its head in scope, then walks the rest; anything missing gives `Null` |
| RenderContext.WalkPathAppend | src/tpl/render_context.rs:61-71 | walking `p + q` is walking `p`, then `q` |
| RenderContext.NestedMaps | src/tpl/render_context.rs:91-103 | `a.b` over a root map finds `root[a][b]`, else `Null` |
| RenderContext.PushPop | src/tpl/render_context.rs:16-22 | popping after a push leaves exactly the earlier locals |
| Render.ToF64 | src/tpl/render.rs:14-23 | numeric variants give their value and nothing else does |
| Render.IsTruthy | src/tpl/render.rs:25-27 | false only for `Null` and `Bool(false)` |
| Render.ResolveVal | src/tpl/render.rs:29-35 | `resolve_val`: a literal is its value, a variable its lookup, and a nested expression the `Bool` of its evaluation (no contract; used by `EvalExpr`) |
| Render.CompareAsWritten | src/tpl/render.rs:47-71 | the comparison as the code writes it, with `!=` as `> EPSILON` (no contract; stated by `RenderProps.EpsilonGap`) |
| Render.Compare | src/tpl/render.rs:47-71 | the corrected comparison (no contract; stated by `RenderProps.IntegerComparison`, `NonNumericComparison`, `NeNegatesEq` and `CorrectionIsLocal`) |
| Render.EvalExpr | src/tpl/render.rs:37-77 | `eval_expr` with the corrected comparison (no contract; stated by `RenderProps.ShortCircuit` and `NameTest`) |
| Render.RenderNodes | src/tpl/render.rs:79-130 | `render` over a node list, with a depth bound on includes (no contract; stated by `RenderProps.NodesExtend`, `RenderConcat`, `NodesSqlFromPieces` and the node lemmas) |
| Render.RenderNode | src/tpl/render.rs:81-128 | one arm of the node match (no contract; stated by `RenderProps.VarBindsOne`, `IfRendersBody`, `ForeachSkips`, `ForeachUnfold`, `IncludeMissing`, `IncludePresent`) |
| Render.RenderItems | src/tpl/render.rs:116-126 | the `<foreach>` item loop (no contract; stated by `RenderProps.ItemsExtend`, `ItemsText` and `ItemsVar`) |
| Render.RenderBuffer.constructor | src/tpl/engine.rs:28-33 | an empty SQL string, no parameters, count 0 |
| Render.RenderInto | src/tpl/render.rs:79-130 | the loop appends what `RenderNodes` specifies, and leaves the context's locals as they were |
| RenderProps.IntegersApart | src/tpl/render.rs:55 | two integers are within `EPSILON` iff they are equal |
| RenderProps.IntegerComparison | src/tpl/render.rs:47-71 | integer variants compare by value across widths |
| RenderProps.IntValue | src/tpl/render.rs:14-23 | the integer value that `to_f64` reports |
| RenderProps.NonNumericComparison | src/tpl/render.rs:53-71 | without two numbers, `==` and `!=` are structural and the orderings are false |
| RenderProps.NeNegatesEq | src/tpl/render.rs:60-66 | in the corrected comparison `!=` is the negation of `==` |
| RenderProps.EpsilonGap | src/tpl/render.rs:53-66 | as written, `1.0` and `1.0 + EPSILON` are neither `==` nor `!=` |
| RenderProps.CorrectionIsLocal | src/tpl/render.rs:47-71 | the correction changes only `!=` at a distance of exactly `EPSILON` |
| RenderProps.ShortCircuit | src/tpl/render.rs:40-45 | `and` and `or` are the boolean connectives, and the left operand decides when it can |
| RenderProps.NameTest | src/tpl/render.rs:75 | a bare name tests the truthiness of its lookup |
| RenderProps.NodesExtend | src/tpl/render.rs:79-130 | rendering only appends to SQL and parameters, one count per parameter |
| RenderProps.NodeExtends | src/tpl/render.rs:81-128 | each node only appends |
| RenderProps.ItemsExtend | src/tpl/render.rs:117-125 | each foreach iteration only appends |
| RenderProps.CountMatchesParams | src/tpl/render.rs:85-86 | from an empty buffer, the count equals the number of parameters |
| RenderProps.RenderConcat | src/tpl/render.rs:79-80 | rendering `a + c` is rendering `a`, then `c` |
| RenderProps.FlatSqlIndependent | src/tpl/render.rs:82-89 | for a template of text and variables only, the SQL and the count are the same under any two scopes |
| RenderProps.Literals | src/tpl/render.rs:81-128 | the literals a template can emit: its text, `open`/`separator`/`close` and variable names, through reachable includes (no contract; collected for `SqlFromTemplate`) |
| RenderProps.LiteralsInMono | src/tpl/render.rs:81-128 | a template whose literals lie in a set has them in every larger set |
| RenderProps.LiteralsCovered | src/tpl/render.rs:81-128 | `Literals` covers every literal of the template |
| RenderProps.NodesSqlFromPieces | src/tpl/render.rs:79-130 | whatever the scope, rendering a node list appends to the SQL only a sequence of template literals and placeholders `ph(k, name)` for its variable names; values never reach the SQL |
| RenderProps.NodeSqlFromPieces | src/tpl/render.rs:81-128 | each node appends only literals and placeholders |
| RenderProps.ItemsSqlFromPieces | src/tpl/render.rs:116-126 | each foreach iteration appends only the separator, literals and placeholders |
| RenderProps.SqlFromTemplate | src/tpl/render.rs:79-130 | for every template and every scope, the rendered SQL is a concatenation of the template's own literals and placeholders |
| RenderProps.SingleNode | src/tpl/render.rs:80 | rendering a one-node list is rendering the node |
| RenderProps.VarBindsOne | src/tpl/render.rs:83-89 | a `Var` adds one `(name, value)` pair, increments the count, and emits the placeholder for the new count |
| RenderProps.IfRendersBody | src/tpl/render.rs:95-99 | `If` renders its body iff the test holds |
| RenderProps.ForeachSkips | src/tpl/render.rs:108-114 | a non-list or empty collection emits nothing, not even open or close |
| RenderProps.Repeat | src/tpl/render.rs:116-126 | n copies of a text |
| RenderProps.Copies | src/tpl/render.rs:116-126 | a list of n copies |
| RenderProps.JoinCopies | src/tpl/render.rs:116-126 | joining n copies is one copy, then n−1 separator-and-copy pairs |
| RenderProps.ItemsText | src/tpl/render.rs:117-125 | a text body repeats once per remaining item, each after a separator |
| RenderProps.TextItemsFromStart | src/tpl/render.rs:117-125 | from the first item, a text body emits n bodies with n−1 separators |
| RenderProps.ForeachText | src/tpl/render.rs:116-126 | a text body emits the bodies joined by the separator |
| RenderProps.BindEach | src/tpl/render.rs:122 | one binding per item |
| RenderProps.Numbered | src/tpl/render.rs:87-88 | one placeholder per item |
| RenderProps.JoinNumbered | src/tpl/render.rs:117-125 | joined placeholders begin with the first one |
| RenderProps.VarItemStep | src/tpl/render.rs:117-125 | one iteration over a `Var` body binds the item and emits a separator and its placeholder |
| RenderProps.ItemsVar | src/tpl/render.rs:117-125 | a `Var` body binds the remaining items in order with consecutive placeholders |
| RenderProps.ForeachUnfold | src/tpl/render.rs:108-126 | a non-empty list emits open, then the iterations, then close |
| RenderProps.ForeachBindsItems | src/tpl/render.rs:116-126 | `#{item}` over n items binds them in list order, numbered on from the count, joined by the separator |
| RenderProps.IncludeMissing | src/tpl/render.rs:90-94 | an `Include` not in the cache emits nothing |
| RenderProps.IncludePresent | src/tpl/render.rs:90-94 | an `Include` in the cache renders the cached AST as written |
| Engine.TemplateCache.constructor | src/tpl/engine.rs:22 | an empty cache |
| Engine.TemplateCache.GetAst | src/tpl/engine.rs:22 | a cached AST is returned unchanged; otherwise the content is parsed, stored and returned |
| Engine.TemplateOutput | src/tpl/engine.rs:28-37 | rendering an AST from an empty buffer (no contract; stated by `OutputCountsParams` and `PlainTemplateOutput`) |
| Engine.RenderTemplate | src/tpl/engine.rs:15-40 | always `Ok`, with the SQL and parameters of rendering the cached AST over the argument value from an empty buffer |
| Engine.OutputCountsParams | src/tpl/engine.rs:28-37 | the final count equals the number of parameters returned |
| Engine.PlainTemplateOutput | src/tpl/engine.rs:15-40 | a template without tags or variables renders to its own text with no parameters |
| Udbc.Connection.constructor | src/udbc/connection.rs:18-46 | a connection with its identity and database and no calls yet |
| Udbc.Connection.Query | src/udbc/connection.rs:18-22 | records the call and answers what the database answers for it |
| Udbc.Connection.Execute | src/udbc/connection.rs:32 | records the call and answers the affected count |
| Udbc.Connection.LastInsertId | src/udbc/connection.rs:38 | records the call and answers the id |
| Udbc.Connection.Control | src/udbc/connection.rs:42-46 | records begin, commit or rollback and answers the database's reply |
| Udbc.Driver.constructor | src/udbc/driver.rs:13-45 | a driver with its name, type, placeholder and database, not yet acquired from |
| Udbc.Driver.Acquire | src/udbc/driver.rs:45 | the n-th acquire fails as the driver decides, or gives a fresh connection with identity n and no calls |
| Transaction.BeginOutcome | src/executor/transaction.rs:12-14 | `begin` fails with the acquire error or with the begin error |
| Transaction.TransactionContext.constructor | src/executor/transaction.rs:15-18 | holds the connection, not committed |
| Transaction.TransactionContext.Begin | src/executor/transaction.rs:12-19 | fails iff acquire or begin fails; otherwise a fresh context on a fresh connection that has only begun |
| Transaction.TransactionContext.Commit | src/executor/transaction.rs:21-27 | commits on the connection if any; `committed` is set on success or without a connection; the connection stays |
| Transaction.TransactionContext.Rollback | src/executor/transaction.rs:29-39 | rolls back if there is a connection; `committed` is set only on success; the connection stays |
| Transaction.TransactionContext.ConnectionMut | src/executor/transaction.rs:40-42 | the context's connection, if it still holds one (no contract; `Commit` and `Rollback` state that they keep `conn`, and `Drop` that it gives it up) |
| Transaction.TransactionContext.Drop | src/executor/transaction.rs:45-54 | takes the connection and rolls it back once iff not committed and a connection is present |
| Exec.Cached | src/tpl/engine.rs:22 | the template is cached under its name, parsed only when not already there |
| Exec.ExecuteConn | src/executor/exec.rs:12-36 | executes exactly the rendered SQL and parameters on the connection and returns its answer |
| Exec.QueryConn | src/executor/exec.rs:39-66 | queries exactly the rendered SQL and parameters on the connection and returns its answer |
| Exec.EscapeDebug | src/executor/exec.rs:76 | the quoted message `{:?}` prints: text without `"`, `\`, newline, carriage return or tab is unchanged, and escaping never shortens |
| Exec.EscapeChar | src/executor/exec.rs:76 | each of the five escaped characters becomes a two-character escape starting with `\`; any other character stays itself |
| Exec.EscapeDebugConcat | src/executor/exec.rs:76 | escaping is character by character: escaping `a + b` is escaping `a`, then `b` |
| Exec.EscapeDebugEscapes | src/executor/exec.rs:76 | `"`, `\`, newline, carriage return and tab escape to `\"`, `\\`, `\n`, `\r`, `\t` |
| Exec.ErrorKind | src/error.rs:4-29 | the variant name `{:?}` prints (no contract; a table of names) |
| Exec.ErrorDebug | src/executor/exec.rs:76 | the `{:?}` form of an error: variant name and escaped, quoted message (no contract; used by `RowError`) |
| Exec.RowError | src/executor/exec.rs:75-77 | the `SerializationError` a failing row becomes (no contract; stated by `MapRowsFirstError`) |
| Exec.Rendered | src/executor/exec.rs:20 | the SQL and parameters `render_template` gives from the cache (no contract; used by `ExecuteConn` and `QueryConn`) |
| Exec.MapRows | src/executor/exec.rs:69-79 | succeeds iff every row converts, keeping number and order |
| Exec.MapRowsFirstError | src/executor/exec.rs:75-77 | the first failing row gives `SerializationError("Row mapping failed…")` |
| Sessions.Env.constructor | src/executor/session.rs:15-17 | no transactions open |
| Sessions.RouteFor | src/executor/session.rs:117-131 | where a call goes: the transaction's connection, closed without one, or the next fresh connection (no contract; stated by `ValidNeverClosed` and `SharedByName`) |
| Sessions.ExecOutcome | src/executor/session.rs:119-132 | a closed transaction fails; outside a transaction a refused acquire fails |
| Sessions.QueryOutcome | src/executor/session.rs:164-176 | a closed transaction fails; outside a transaction a refused acquire fails |
| Sessions.IdOutcome | src/executor/session.rs:182-194 | a closed transaction fails; outside a transaction a refused acquire fails |
| Sessions.Session.constructor | src/executor/session.rs:27-29 | a session over the driver |
| Sessions.Session.Begin | src/executor/session.rs:38-53 | "already started" when the driver name has a context; otherwise a context is filed only if `TransactionContext::begin` succeeds |
| Sessions.Session.IsTransactionActive | src/executor/session.rs:40 | a context is filed under the driver's name, the test `begin` makes and the one the `#[transaction]` expansion calls before starting a transaction (no contract; stated by `ValidNeverClosed`, which routes an active session into its transaction and an inactive one to a fresh connection, and `SharedByName`) |
| Sessions.Session.Commit | src/executor/session.rs:59-76 | `Ok` and nothing changed without a context; otherwise commits, removing the context only on success |
| Sessions.Session.Rollback | src/executor/session.rs:82-99 | `Ok` and nothing changed without a context; otherwise rolls back, removing the context only on success |
| Sessions.Session.ConnectionFor | src/executor/session.rs:117-131 | the transaction's connection, "Transaction connection closed" without one, or a fresh connection |
| Sessions.Session.ExecuteNamed | src/executor/mapper.rs:66 | executes on the routed connection, caching under the statement's id |
| Sessions.Session.QueryRawNamed | src/executor/mapper.rs:53 | queries on the routed connection, caching under the statement's id |
| Sessions.Session.Execute | src/executor/session.rs:113-133 | `execute` answers as its route does and advances that route |
| Sessions.Session.QueryRaw | src/executor/session.rs:155-177 | `query_raw` answers as its route does and advances that route |
| Sessions.Session.Query | src/executor/session.rs:143-150 | the rows of `query_raw`, converted by `map_rows`; the route advances by the one query and the template is cached exactly when a connection was reached |
| Sessions.Session.LastInsertId | src/executor/session.rs:180-195 | `last_insert_id` on the routed connection |
| Sessions.ValidNeverClosed | src/executor/session.rs:119-121 | while every filed context holds a connection, calls go to the transaction or to a fresh connection, never to a closed one |
| Sessions.SharedByName | src/executor/session.rs:39-83 | sessions over drivers of the same name share one transaction |
| Sessions.IdAfterExecuteOutside | src/executor/session.rs:131-194 | outside a transaction, the id is asked of a second, fresh connection |
| Sessions.IdAfterExecuteInside | src/executor/session.rs:119-185 | inside a transaction, the id comes from the same connection, right after the statement |
| Mappers.RowsValue | src/executor/mapper.rs:61 | the rows as a `List` of `Map`s, in order |
| Mappers.Dispatch | src/executor/mapper.rs:51-79 | the answer per statement kind on a route (no contract; stated by `SelectSeesAllRows`, `FirstCallErrorPropagates`, `CountKinds`, `KeysFlagOnlyForInsert`, `GeneratedKeyInsideTx`, `GeneratedKeyOutsideTx`) |
| Mappers.DispatchCalls | src/executor/mapper.rs:51-79 | a select and a plain statement make one call; an insert with generated keys whose statement succeeded makes two |
| Mappers.DispatchRoutes | src/executor/mapper.rs:51-79 | dispatch appends exactly `DispatchCalls` to a transaction's call log, takes one fresh connection per call outside a transaction, and leaves a closed route closed |
| Mappers.SelectSeesAllRows | src/executor/mapper.rs:51-62 | a select hands `from_value` every row, in order |
| Mappers.FirstCallErrorPropagates | src/executor/mapper.rs:53-77 | a failing query or statement is the mapper's error |
| Mappers.CountKinds | src/executor/mapper.rs:70-79 | update, delete, SQL and an insert without generated keys report the affected count |
| Mappers.KeysFlagOnlyForInsert | src/executor/mapper.rs:68 | `use_generated_keys` matters only for an insert |
| Mappers.GeneratedKeyInsideTx | src/executor/mapper.rs:64-75 | inside a transaction the key comes from the statement's own connection |
| Mappers.GeneratedKeyOutsideTx | src/executor/mapper.rs:64-72 | outside a transaction the key is asked of another fresh connection |
| Mappers.LargeCountWraps | src/executor/mapper.rs:78 | a count of 2^63 or more is reported negative |
| Mappers.Mapper.constructor | src/executor/mapper.rs:18-20 | a mapper over the driver |
| Mappers.Mapper.GetStatement | src/executor/mapper.rs:28-31 | the statement for the id and the driver's type, or "SQL ID not found" |
| Mappers.Mapper.Execute | src/executor/mapper.rs:40-81 | an unknown id or empty content fails with nothing run; otherwise the answer is shaped by statement kind, the route advances by the calls of `AfterDispatch`, and the driver's acquire count grows by one per fresh connection |
| Mappers.Mapper.Run | src/executor/mapper.rs:50-79 | once a statement with text is found: the answer of `Dispatch` on the route, the route advanced by `AfterDispatch`, one acquire per fresh connection, and the template cached iff a connection was reached |
| Mappers.Mapper.RunInsert | src/executor/mapper.rs:64-75 | an insert runs the statement and, with generated keys and only after it succeeded, `last_insert_id`, with the same answer, route, acquire count and cache as `Run` states |
| DriverManagers.DefaultKept | src/driver_manager.rs:47-54 | a second `default` is refused with `DriverError`, and the first one stays |
| DriverManagers.OtherNamesReplaced | src/driver_manager.rs:49-55 | any other name is registered, replacing an earlier driver, and nothing else changes |
| DriverManagers.NamesOnlyGrow | src/driver_manager.rs:85-109 | names are never removed, and every registered name is present |
| DriverManagers.FirstDefaultStays | src/driver_manager.rs:47-54 | the first `default` driver is never replaced |
| DriverManagers.DriverManager.constructor | src/driver_manager.rs:34 | no drivers |
| DriverManagers.RegisterSpec | src/driver_manager.rs:47-57 | `register` on the name map (no contract; stated by `DefaultKept` and `OtherNamesReplaced`) |
| DriverManagers.RegisterAll | src/driver_manager.rs:47-57 | `register` repeated over a list of drivers (no contract; stated by `NamesOnlyGrow` and `FirstDefaultStays`) |
| DriverManagers.DriverManager.Register | src/driver_manager.rs:47-57 | `register` as specified by `RegisterSpec`, keeping every driver under its own name |
| DriverManagers.DriverManager.SessionByName | src/driver_manager.rs:85-89 | a new session over the named driver iff the name is registered; under `Valid` (every driver filed under its own name, kept by `Register`) its driver carries the requested name |
| DriverManagers.DriverManager.DefaultSession | src/driver_manager.rs:75-77 | the session of `default`, whose driver is named `default` under `Valid` |
| DriverManagers.DriverManager.MapperByName | src/driver_manager.rs:105-109 | a new mapper over the named driver iff the name is registered; under `Valid` its driver carries the requested name |
| DriverManagers.DriverManager.DefaultMapper | src/driver_manager.rs:95-97 | the mapper of `default`, whose driver is named `default` under `Valid` |
| TransactionMacro.ParseArgs | uorm-macros/src/transaction.rs:12-30 | the loop keeps the last `database = "…"` argument |
| TransactionMacro.DatabaseArg | uorm-macros/src/transaction.rs:17-25 | the last `database = "…"` among the metas (no contract; stated by `LastDatabaseWins` and `OthersIgnored`) |
| TransactionMacro.DefaultDatabase | uorm-macros/src/transaction.rs:38 | without a `database` argument the driver name is `default` |
| TransactionMacro.LastDatabaseWins | uorm-macros/src/transaction.rs:17-25 | the last `database = "…"` decides |
| TransactionMacro.OthersIgnored | uorm-macros/src/transaction.rs:18-23 | any other argument is ignored wherever it stands |
| TransactionMacro.Transactional | uorm-macros/src/transaction.rs:40-67 | an active transaction: the body's result and nothing else. Otherwise: the begin error without running the body, or commit after success (a commit error replaces the result) or rollback after failure (its error discarded) |
| TransactionMacro.InNewTransaction | uorm-macros/src/transaction.rs:48-66 | with no active transaction: a failed begin returns its error without running the body; otherwise the body runs, a success commits (a commit error replacing the result and leaving the context filed) and a failure rolls back, its error discarded |

## Left out

- XML tokenisation and file loading for mapper files (quick_xml events, `glob`, `fs`). Registration takes an explicit namespace and list of items.
- Async execution, `tokio::spawn` in `Drop`, and the `Mutex` around a context. Calls are sequential methods. The rollback that `Drop` spawns is performed at once.
- The `thread_local!` transaction map is an explicit `Env` object passed to each call, holding the map, the template cache and the include-depth bound.
- `debug!` logging and timing in exec.rs.
- Opening SQLite connections, PRAGMA setup, `Driver::close`, the MySQL pool. These are I/O behind the abstract `Database` oracle.
- `DriverManager`'s asset loading, which is file and macro plumbing.
- Floating point: `F64` is carried as an exact real. `EPSILON` is 2^-52. Integer-to-float conversion is exact, so i64 values beyond 2^53 compare exactly here, while they can lose precision in the original. The float fallback of `parse_val` accepts digits with one optional `.` and an optional sign, without exponents, `inf` or `nan`.
- chrono, rust_decimal and i128 text formatting are inputs (`TextForms`). Calendar validity follows the Gregorian rules.
- `is_alphanumeric`, `is_uppercase`, `is_lowercase`, `is_numeric`, `to_uppercase` and `to_lowercase` are approximated by their ASCII versions. Non-ASCII letters and digits are not treated as letters or digits.
- Serializer.Serialize: serde's `i128` and `u128` are not in the model's input domain. serializer.rs defines neither `serialize_i128` nor `serialize_u128`, so serde's default for them applies, which is an error.
- ParamDerive.FromValue: the "Expected Map, got …" message of `from_value` names only the variant of the value it was given (`Bool`, `List`, …), where param.rs:162 prints the whole value with `{:?}`; the two agree only on `Null`. The model has no `Debug` form for `Value`, because that of a `HashMap` depends on its iteration order and that of an `f64` on float printing, neither of which is modelled.
- Exec.EscapeDebug: `{:?}` on the message inside "Row mapping failed…" escapes only `"`, `\`, newline, carriage return and tab here. Rust's `escape_debug` also writes `\0`, and `\u{…}` for other control and non-printable characters; those are passed through unchanged.
- TemplateScan.AttrNext: at a character that cannot start a key, the model drops that one character and scans on. parser.rs:339 slices off one byte there, which panics when the character is multibyte (a non-ASCII symbol such as `→` or `，` in a tag). What the model parses there, the source panics on. `ParseAttributes` and the `<if>`, `<foreach>` and `<include>` tags inherit this.
- TemplateParser.TemplateNodes uses the corrected `parse_val` of the first finding: a lone `'` or `"` as a test operand parses as a variable here, where parser.rs:432 panics.
- Render.EvalExpr uses the corrected comparison of the second finding: `!=` holds at a distance of exactly `EPSILON`, where render.rs:62 gives false.
- Render.RenderNodes: `Include` carries a depth bound (`includeDepth`). The source recurses without bound and would overflow its stack on a self-including template. Includes past the bound render nothing.
- The template cache (`cache.rs`) is not part of this model. It is taken to return the cached AST for a name, and otherwise to parse the content and store it.
- `find_statement`, `SqlStatement` and `StatementType` are not defined by the shown registry. They are supplied as a datatype and a lookup parameter. `execute_named` and `query_raw_named` are supplied as `execute`/`query_raw` that cache under the statement's id.
- `is_transaction_active` is supplied as "the transaction map has the driver's name".
- session.rs:122 calls `execute_conn` with four arguments where exec.rs takes five. The template's cache name is taken to be the SQL text there.
- The extended MySQL `Value` (`I8`, `I128`, `U16`, `U32`, `U64`, `U128`, `F32`, `Char`) is a wider datatype, `WideValue`, used only by that codec.
- `DbError::Value`, used by the serializer, is not in error.rs. It is modelled as an extra error kind.
- MysqlCodec.FromMysql: the hour total `days * 24 + hours` is taken modulo 2^32, which is what a release build does. A debug build panics on overflow.
- TransactionMacro.Transactional: the body is represented by its result. What the body does to the database in between is not modelled. A missing driver, where the generated code panics through `expect`, is a precondition. The result type is taken to be `Result<T, DbError>`.
- Transaction.TransactionContext.ConnectionMut has no contract of its own. That the connection is never replaced is stated by `Commit` and `Rollback` keeping `conn`.
- MapperLoader.Registry.ProcessMapperData: the namespace entry is written once, after the item loop, where the source's `DashMap` entry guard writes each item as it goes. No concurrent reader is modelled, so the final store is the same, including the items kept before a duplicate.
- Proc-macro token handling (syn/quote) in param.rs and transaction.rs. Attributes are given as datatypes.
- src/transaction.rs, src/tpl/ast.rs and src/tpl/mod.rs are not part of this model. The first is a module the crate does not declare; the other two are stale declarations. `AstNode` and `Expr` follow how parser.rs and render.rs use them.

## Findings

| source | as written | input that shows it | evidently intended | confidence | as-written member | corrected member |
|---|---|---|---|---|---|---|
| src/tpl/parser.rs:428-433 | a value starting and ending with the same quote is sliced `1..len-1` | a lone `'` or `"` (length 1): the slice `1..0` panics | only text of length two or more is a quoted string | high (not executed) | TemplateScan.LoneQuotePanics | TemplateScan.ParseValAgrees |
| src/tpl/render.rs:53-66 | `==` is `abs(l-r) < EPSILON` but `!=` is `abs(l-r) > EPSILON` | `F64(1.0)` and `F64(1.0 + EPSILON)`: both `==` and `!=` are false | `!=` is the negation of `==` | high (not executed) | RenderProps.EpsilonGap | RenderProps.NeNegatesEq |
