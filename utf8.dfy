/**
 * UTF-8, as Rust's `str::as_bytes` produces it and `std::str::from_utf8` accepts it
 * (the well-formed byte sequences of the Unicode standard, Table 3-7).
 */
module Utf8 {
  import opened Ints
  import opened Wrappers

  predicate IsContinuation(b: u8) { 0x80 <= b <= 0xBF }

  /** The bytes of one scalar value. */
  function EncodeChar(c: char): (r: seq<u8>)
    ensures 1 <= |r| <= 4
  {
    var n := c as int;
    if n < 0x80 then [n]
    else if n < 0x800 then [0xC0 + n / 0x40, 0x80 + n % 0x40]
    else if n < 0x1_0000 then [0xE0 + n / 0x1000, 0x80 + (n / 0x40) % 0x40, 0x80 + n % 0x40]
    else [0xF0 + n / 0x4_0000, 0x80 + (n / 0x1000) % 0x40, 0x80 + (n / 0x40) % 0x40, 0x80 + n % 0x40]
  }

  /** `s.as_bytes()`. */
  function Encode(s: string): (r: seq<u8>)
    ensures |r| >= |s|
  {
    if s == [] then [] else EncodeChar(s[0]) + Encode(s[1..])
  }

  /** The first scalar value of `b` and the number of bytes it takes, if `b` starts well-formed. */
  function DecodeFirst(b: seq<u8>): (r: Option<(char, nat)>)
    requires |b| > 0
    ensures r.Some? ==> 1 <= r.value.1 <= |b|
  {
    var b0: int := b[0];
    var b1: int := if |b| >= 2 then b[1] else 0;
    var b2: int := if |b| >= 3 then b[2] else 0;
    var b3: int := if |b| >= 4 then b[3] else 0;
    if b0 < 0x80 then Some((b0 as char, 1))
    else if 0xC2 <= b0 <= 0xDF then
      if |b| >= 2 && IsContinuation(b[1]) then
        Some((((b0 - 0xC0) * 0x40 + (b1 - 0x80)) as char, 2))
      else None
    else if 0xE0 <= b0 <= 0xEF then
      var lo := if b0 == 0xE0 then 0xA0 else 0x80;
      var hi := if b0 == 0xED then 0x9F else 0xBF;
      if |b| >= 3 && lo <= b[1] <= hi && IsContinuation(b[2]) then
        Some((((b0 - 0xE0) * 0x1000 + (b1 - 0x80) * 0x40 + (b2 - 0x80)) as char, 3))
      else None
    else if 0xF0 <= b0 <= 0xF4 then
      var lo := if b0 == 0xF0 then 0x90 else 0x80;
      var hi := if b0 == 0xF4 then 0x8F else 0xBF;
      if |b| >= 4 && lo <= b[1] <= hi && IsContinuation(b[2]) && IsContinuation(b[3]) then
        Some((((b0 - 0xF0) * 0x4_0000 + (b1 - 0x80) * 0x1000 + (b2 - 0x80) * 0x40 + (b3 - 0x80)) as char, 4))
      else None
    else None
  }

  /** `std::str::from_utf8(b).ok()`. */
  function Decode(b: seq<u8>): Option<string>
    decreases |b|
  {
    if b == [] then Some([])
    else match DecodeFirst(b)
      case None => None
      case Some((c, k)) =>
        match Decode(b[k..])
        case None => None
        case Some(s) => Some([c] + s)
  }

  lemma TwoByteArith(n: int)
    requires 0x80 <= n < 0x800
    ensures 0xC2 <= 0xC0 + n / 0x40 <= 0xDF && 0 <= n % 0x40 < 0x40
    ensures (n / 0x40) * 0x40 + n % 0x40 == n
  {
  }

  lemma ThreeByteArith(n: int)
    requires 0x800 <= n < 0x1_0000
    ensures 0xE0 <= 0xE0 + n / 0x1000 <= 0xEF
    ensures n / 0x1000 == (n / 0x40) / 0x40
    ensures 0 <= (n / 0x40) % 0x40 < 0x40 && 0 <= n % 0x40 < 0x40
    ensures (n / 0x1000) * 0x1000 + ((n / 0x40) % 0x40) * 0x40 + n % 0x40 == n
    ensures n / 0x1000 == 0 ==> (n / 0x40) % 0x40 >= 0x20
    ensures n / 0x1000 == 0xD && n < 0xD800 ==> (n / 0x40) % 0x40 < 0x20
  {
    var q := n / 0x40;
    assert q * 0x40 + n % 0x40 == n;
    assert (q / 0x40) * 0x40 + q % 0x40 == q;
  }

  lemma FourByteArith(n: int)
    requires 0x1_0000 <= n < 0x11_0000
    ensures 0xF0 <= 0xF0 + n / 0x4_0000 <= 0xF4
    ensures 0 <= (n / 0x1000) % 0x40 < 0x40 && 0 <= (n / 0x40) % 0x40 < 0x40 && 0 <= n % 0x40 < 0x40
    ensures (n / 0x4_0000) * 0x4_0000 + ((n / 0x1000) % 0x40) * 0x1000 + ((n / 0x40) % 0x40) * 0x40 + n % 0x40 == n
    ensures n / 0x4_0000 == 0 ==> (n / 0x1000) % 0x40 >= 0x10
    ensures n / 0x4_0000 == 4 ==> (n / 0x1000) % 0x40 < 0x10
  {
    var q := n / 0x40;
    var q2 := q / 0x40;
    assert q * 0x40 + n % 0x40 == n;
    assert q2 * 0x40 + q % 0x40 == q;
    assert n / 0x1000 == q2;
    assert (q2 / 0x40) * 0x40 + q2 % 0x40 == q2;
    assert n / 0x4_0000 == q2 / 0x40;
  }

  lemma DecodeFirstOfEncode(c: char, rest: seq<u8>)
    ensures DecodeFirst(EncodeChar(c) + rest) == Some((c, |EncodeChar(c)|))
  {
    var n := c as int;
    var b := EncodeChar(c) + rest;
    if n < 0x80 {
    } else if n < 0x800 {
      TwoByteArith(n);
      assert b[0] == 0xC0 + n / 0x40 && b[1] == 0x80 + n % 0x40;
    } else if n < 0x1_0000 {
      ThreeByteArith(n);
      assert b[0] == 0xE0 + n / 0x1000 && b[1] == 0x80 + (n / 0x40) % 0x40 && b[2] == 0x80 + n % 0x40;
    } else {
      FourByteArith(n);
      assert b[0] == 0xF0 + n / 0x4_0000 && b[1] == 0x80 + (n / 0x1000) % 0x40;
      assert b[2] == 0x80 + (n / 0x40) % 0x40 && b[3] == 0x80 + n % 0x40;
    }
  }

  /** Decoding the encoding of a string gives the string back. */
  lemma {:induction false} DecodeEncode(s: string)
    ensures Decode(Encode(s)) == Some(s)
  {
    if s != [] {
      var e := EncodeChar(s[0]);
      var rest := Encode(s[1..]);
      DecodeFirstOfEncode(s[0], rest);
      assert (e + rest)[|e|..] == rest;
      DecodeEncode(s[1..]);
      assert [s[0]] + s[1..] == s;
    }
  }

  /** A byte that starts no well-formed sequence (0xFF) makes the whole text invalid. */
  lemma InvalidLeadByte(rest: seq<u8>)
    ensures Decode([0xFF] + rest) == None
  {
  }
}
