/** The fixed-width integer types of Rust that the core passes around, as ranges of `int`. */
module Ints {

  const I64_MIN: int := -0x8000_0000_0000_0000
  const I64_MAX: int := 0x7FFF_FFFF_FFFF_FFFF
  const U64_LIMIT: int := 0x1_0000_0000_0000_0000
  const U32_LIMIT: int := 0x1_0000_0000

  type i8 = x: int | -0x80 <= x < 0x80
  type i16 = x: int | -0x8000 <= x < 0x8000
  type i32 = x: int | -0x8000_0000 <= x < 0x8000_0000
  type i64 = x: int | I64_MIN <= x <= I64_MAX
  type i128 = x: int | -0x8000_0000_0000_0000_0000_0000_0000_0000 <= x < 0x8000_0000_0000_0000_0000_0000_0000_0000
  type u8 = x: int | 0 <= x < 0x100
  type u16 = x: int | 0 <= x < 0x1_0000
  type u32 = x: int | 0 <= x < U32_LIMIT
  type u64 = x: int | 0 <= x < U64_LIMIT
  type u128 = x: int | 0 <= x < 0x1_0000_0000_0000_0000_0000_0000_0000_0000

  /** Rust's `u64 as i64`: the same 64 bits read in two's complement. */
  function U64AsI64(u: u64): (r: i64)
    ensures u <= I64_MAX ==> r == u
    ensures u > I64_MAX ==> r < 0 && r == u - U64_LIMIT
    ensures (r as int) % U64_LIMIT == u
  {
    if u <= I64_MAX then u else u - U64_LIMIT
  }

  /** An unsigned Rust cast `x as uN`: the low N bits of x, `limit` being 2^N. */
  function Truncate(x: int, limit: nat): (r: nat)
    requires limit > 0
    ensures r < limit
    ensures 0 <= x < limit ==> r == x
  {
    x % limit
  }
}
