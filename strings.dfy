/**
 * The parts of Rust's `str` API that the core relies on, over `seq<char>`:
 * whitespace trimming, prefix tests, searching, `split`, `split_once`,
 * `rsplit_once`, ASCII case mapping and the integer grammar of `i64::from_str`.
 */
module Strings {
  import opened Wrappers
  import opened Ints

  /** `char::is_whitespace`: the characters with the Unicode White_Space property. */
  predicate IsWhitespace(c: char) {
    ('\U{9}' <= c <= '\U{D}') || c == ' ' || c == '\U{85}' || c == '\U{A0}' || c == '\U{1680}'
    || ('\U{2000}' <= c <= '\U{200A}') || c == '\U{2028}' || c == '\U{2029}' || c == '\U{202F}'
    || c == '\U{205F}' || c == '\U{3000}'
  }

  /** `trim_start`: drop the longest all-whitespace prefix. */
  function TrimStart(s: string): (r: string)
    ensures |r| <= |s|
    ensures r != [] ==> !IsWhitespace(r[0])
    decreases |s|
  {
    if s != [] && IsWhitespace(s[0]) then TrimStart(s[1..]) else s
  }

  /** What `TrimStart` drops is whitespace, and it drops nothing from a non-whitespace start. */
  lemma TrimStartDropsWhitespace(s: string)
    ensures TrimStart(s) == s[|s| - |TrimStart(s)|..]
    ensures forall i :: 0 <= i < |s| - |TrimStart(s)| ==> IsWhitespace(s[i])
    ensures s != [] && !IsWhitespace(s[0]) ==> TrimStart(s) == s
  {
    TrimStartSuffix(s);
    forall i | 0 <= i < |s| - |TrimStart(s)|
      ensures IsWhitespace(s[i])
    {
      TrimStartWhitespaceAt(s, i);
    }
  }

  lemma {:induction false} TrimStartSuffix(s: string)
    ensures TrimStart(s) == s[|s| - |TrimStart(s)|..]
    decreases |s|
  {
    if s != [] && IsWhitespace(s[0]) {
      var t := s[1..];
      TrimStartSuffix(t);
      assert TrimStart(s) == TrimStart(t);
      assert s[|s| - |TrimStart(s)|..] == t[|t| - |TrimStart(t)|..];
    }
  }

  /** The `i`-th character before the trimmed rest is whitespace. */
  lemma {:induction false} TrimStartWhitespaceAt(s: string, i: nat)
    requires i < |s| - |TrimStart(s)|
    ensures IsWhitespace(s[i])
    decreases i
  {
    if IsWhitespace(s[0]) && i > 0 {
      var t := s[1..];
      assert TrimStart(s) == TrimStart(t);
      TrimStartWhitespaceAt(t, i - 1);
      assert s[i] == t[i - 1];
    }
  }

  /** `trim_end`: drop the longest all-whitespace suffix. */
  function TrimEnd(s: string): (r: string)
    ensures |r| <= |s| && r == s[..|r|]
    ensures r != [] ==> !IsWhitespace(r[|r| - 1])
    decreases |s|
  {
    if s != [] && IsWhitespace(s[|s| - 1]) then TrimEnd(s[..|s| - 1]) else s
  }

  /** What `TrimEnd` drops is whitespace. */
  lemma {:induction false} TrimEndDropsWhitespace(s: string)
    ensures forall i :: |TrimEnd(s)| <= i < |s| ==> IsWhitespace(s[i])
    decreases |s|
  {
    if s != [] && IsWhitespace(s[|s| - 1]) {
      TrimEndDropsWhitespace(s[..|s| - 1]);
    }
  }

  /** `trim`: both ends. */
  function Trim(s: string): (r: string)
    ensures |r| <= |s|
    ensures r != [] ==> !IsWhitespace(r[0]) && !IsWhitespace(r[|r| - 1])
  {
    TrimEnd(TrimStart(s))
  }

  predicate AllWhitespace(w: string) {
    forall i :: 0 <= i < |w| ==> IsWhitespace(w[i])
  }

  /** Leading whitespace is dropped whatever follows it. */
  lemma {:induction false} TrimStartPadded(w: string, t: string)
    requires AllWhitespace(w)
    ensures TrimStart(w + t) == TrimStart(t)
    decreases |w|
  {
    if w != [] {
      assert (w + t)[0] == w[0];
      assert (w + t)[1..] == w[1..] + t;
      TrimStartPadded(w[1..], t);
    } else {
      assert w + t == t;
    }
  }

  /** Trailing whitespace is dropped whatever precedes it. */
  lemma {:induction false} TrimEndPadded(t: string, w: string)
    requires AllWhitespace(w)
    ensures TrimEnd(t + w) == TrimEnd(t)
    decreases |w|
  {
    if w != [] {
      assert (t + w)[|t + w| - 1] == w[|w| - 1];
      assert (t + w)[..|t + w| - 1] == t + w[..|w| - 1];
      TrimEndPadded(t, w[..|w| - 1]);
    } else {
      assert t + w == t;
    }
  }

  /** Appending whitespace after the text survives `trim_start`, unless the text is all whitespace. */
  lemma {:induction false} TrimStartThenPad(t: string, w: string)
    requires AllWhitespace(w)
    ensures TrimStart(t + w) == (if TrimStart(t) == [] then [] else TrimStart(t) + w)
    decreases |t|
  {
    if t == [] {
      assert t + w == w + [];
      TrimStartPadded(w, []);
    } else if IsWhitespace(t[0]) {
      assert (t + w)[1..] == t[1..] + w;
      TrimStartThenPad(t[1..], w);
    }
  }

  /** `trim` ignores whitespace added at either end. */
  lemma TrimPadded(w1: string, t: string, w2: string)
    requires AllWhitespace(w1) && AllWhitespace(w2)
    ensures Trim(w1 + t + w2) == Trim(t)
  {
    assert w1 + t + w2 == w1 + (t + w2);
    TrimStartPadded(w1, t + w2);
    TrimStartThenPad(t, w2);
    if TrimStart(t) != [] {
      TrimEndPadded(TrimStart(t), w2);
    }
  }

  /** ASCII lower-casing neither makes nor unmakes whitespace. */
  lemma LowerKeepsWhitespace(c: char)
    ensures IsWhitespace(ToAsciiLower(c)) == IsWhitespace(c)
  {
  }

  lemma {:induction false} TrimStartLower(s: string)
    ensures TrimStart(AsciiLowercase(s)) == AsciiLowercase(TrimStart(s))
    decreases |s|
  {
    if s != [] {
      LowerKeepsWhitespace(s[0]);
      assert AsciiLowercase(s)[1..] == AsciiLowercase(s[1..]);
      TrimStartLower(s[1..]);
    }
  }

  lemma {:induction false} TrimEndLower(s: string)
    ensures TrimEnd(AsciiLowercase(s)) == AsciiLowercase(TrimEnd(s))
    decreases |s|
  {
    if s != [] {
      LowerKeepsWhitespace(s[|s| - 1]);
      assert AsciiLowercase(s)[..|s| - 1] == AsciiLowercase(s[..|s| - 1]);
      TrimEndLower(s[..|s| - 1]);
    }
  }

  /** `trim` and ASCII lower-casing commute. */
  lemma TrimLower(s: string)
    ensures Trim(AsciiLowercase(s)) == AsciiLowercase(Trim(s))
  {
    TrimStartLower(s);
    TrimEndLower(TrimStart(s));
  }

  /** Lower-casing twice is lower-casing once. */
  lemma AsciiLowercaseTwice(s: string)
    ensures AsciiLowercase(AsciiLowercase(s)) == AsciiLowercase(s)
  {
  }

  predicate StartsWith(s: string, p: string) {
    |p| <= |s| && s[..|p|] == p
  }

  predicate EndsWith(s: string, p: string) {
    |p| <= |s| && s[|s| - |p|..] == p
  }

  predicate OccursAt(s: string, p: string, i: int) {
    0 <= i && i + |p| <= |s| && s[i..i + |p|] == p
  }

  predicate ContainsChar(s: string, c: char) {
    exists i :: 0 <= i < |s| && s[i] == c
  }

  /** `find(c)` for a single character: the first index holding `c`. */
  function FindChar(s: string, c: char): (r: Option<nat>)
    ensures r.Some? ==> r.value < |s| && s[r.value] == c && forall j :: 0 <= j < r.value ==> s[j] != c
    ensures r.None? ==> forall j :: 0 <= j < |s| ==> s[j] != c
  {
    if s == [] then None
    else if s[0] == c then Some(0)
    else match FindChar(s[1..], c)
      case None => None
      case Some(k) => Some(k + 1)
  }

  /** `rfind(c)`: the last index holding `c`. */
  function RFindChar(s: string, c: char): (r: Option<nat>)
    ensures r.Some? ==> r.value < |s| && s[r.value] == c && forall j :: r.value < j < |s| ==> s[j] != c
    ensures r.None? ==> forall j :: 0 <= j < |s| ==> s[j] != c
  {
    if s == [] then None
    else if s[|s| - 1] == c then Some(|s| - 1)
    else RFindChar(s[..|s| - 1], c)
  }

  function FindSubFrom(s: string, p: string, i: nat): (r: Option<nat>)
    requires i <= |s|
    ensures r.Some? ==> i <= r.value && OccursAt(s, p, r.value)
    ensures r.Some? ==> forall j :: i <= j < r.value ==> !OccursAt(s, p, j)
    ensures r.None? ==> forall j :: i <= j <= |s| ==> !OccursAt(s, p, j)
    decreases |s| - i
  {
    if i + |p| > |s| then None
    else if s[i..i + |p|] == p then Some(i)
    else FindSubFrom(s, p, i + 1)
  }

  /** `find(p)` for a string pattern: the first index where `p` occurs. */
  function FindSub(s: string, p: string): (r: Option<nat>)
    ensures r.Some? ==> OccursAt(s, p, r.value) && forall j :: 0 <= j < r.value ==> !OccursAt(s, p, j)
    ensures r.None? ==> forall j :: 0 <= j <= |s| ==> !OccursAt(s, p, j)
  {
    FindSubFrom(s, p, 0)
  }

  predicate Contains(s: string, p: string) {
    FindSub(s, p).Some?
  }

  /** `split(sep)` for a non-empty pattern: the pieces between non-overlapping leftmost matches. */
  function SplitOn(s: string, sep: string): (parts: seq<string>)
    requires sep != []
    ensures |parts| >= 1
    decreases |s|
  {
    match FindSub(s, sep)
    case None => [s]
    case Some(i) => [s[..i]] + SplitOn(s[i + |sep|..], sep)
  }

  /** The inverse of `SplitOn`: the pieces glued back with the separator. */
  function Join(parts: seq<string>, sep: string): string {
    if |parts| == 0 then ""
    else if |parts| == 1 then parts[0]
    else parts[0] + sep + Join(parts[1..], sep)
  }

  lemma JoinCons(head: string, parts: seq<string>, sep: string)
    requires |parts| >= 1
    ensures Join([head] + parts, sep) == head + sep + Join(parts, sep)
  {
    assert ([head] + parts)[1..] == parts;
  }

  /** A prefix ending before the first occurrence holds no occurrence. */
  lemma PrefixBeforeFirst(s: string, p: string, i: nat)
    requires p != [] && i <= |s|
    requires forall j :: 0 <= j < i ==> !OccursAt(s, p, j)
    ensures !Contains(s[..i], p)
  {
    var head := s[..i];
    forall j | 0 <= j <= |head| && OccursAt(head, p, j)
      ensures j < i && OccursAt(s, p, j)
    {
      assert s[j..j + |p|] == head[j..j + |p|];
    }
  }

  lemma {:induction false} SplitJoin(s: string, sep: string)
    requires sep != []
    ensures Join(SplitOn(s, sep), sep) == s
    decreases |s|
  {
    match FindSub(s, sep)
    case None =>
    case Some(i) =>
      var rest := s[i + |sep|..];
      var head := s[..i];
      assert SplitOn(s, sep) == [head] + SplitOn(rest, sep);
      SplitJoin(rest, sep);
      JoinCons(head, SplitOn(rest, sep), sep);
      assert s[i..i + |sep|] == sep;
      assert s == head + s[i..i + |sep|] + rest;
  }

  /** No piece produced by `SplitOn` contains the separator. */
  lemma {:induction false} SplitPiecesFree(s: string, sep: string)
    requires sep != []
    ensures forall k :: 0 <= k < |SplitOn(s, sep)| ==> !Contains(SplitOn(s, sep)[k], sep)
    decreases |s|
  {
    match FindSub(s, sep)
    case None =>
    case Some(i) =>
      var rest := s[i + |sep|..];
      SplitPiecesFree(rest, sep);
      PrefixBeforeFirst(s, sep, i);
      var parts := SplitOn(s, sep);
      assert parts == [s[..i]] + SplitOn(rest, sep);
      forall k | 0 <= k < |parts| ensures !Contains(parts[k], sep) {
        if k > 0 { assert parts[k] == SplitOn(rest, sep)[k - 1]; }
      }
  }

  /** `split_once(sep)`: around the first occurrence. */
  function SplitOnce(s: string, sep: string): (r: Option<(string, string)>)
    ensures r.Some? ==> r.value.0 + sep + r.value.1 == s
    ensures r.Some? && sep != [] ==> !Contains(r.value.0, sep)
    ensures r.None? <==> !Contains(s, sep)
  {
    match FindSub(s, sep)
    case None => None
    case Some(i) =>
      assert sep != [] ==> !Contains(s[..i], sep) by {
        if sep != [] { PrefixBeforeFirst(s, sep, i); }
      }
      assert s[i..i + |sep|] == sep;
      assert s == s[..i] + s[i..i + |sep|] + s[i + |sep|..];
      Some((s[..i], s[i + |sep|..]))
  }

  /** A one-character pattern occurs exactly where the character does. */
  lemma ContainsSingle(s: string, c: char)
    ensures Contains(s, [c]) <==> ContainsChar(s, c)
  {
    if ContainsChar(s, c) {
      var i :| 0 <= i < |s| && s[i] == c;
      assert s[i..i + 1] == [c];
      assert OccursAt(s, [c], i);
    }
    if Contains(s, [c]) {
      var i := FindSub(s, [c]).value;
      assert s[i..i + 1][0] == s[i];
    }
  }

  /** `split_once` at a character that the part before it does not hold. */
  lemma SplitOnceAt(a: string, c: char, b: string)
    requires !ContainsChar(a, c)
    ensures SplitOnce(a + [c] + b, [c]) == Some((a, b))
  {
    var s := a + [c] + b;
    assert OccursAt(s, [c], |a|) by { assert s[|a|..|a| + 1] == [c]; }
    forall j | 0 <= j < |a| ensures !OccursAt(s, [c], j) {
      assert s[j..j + 1][0] == s[j] == a[j];
    }
    assert FindSub(s, [c]) == Some(|a|);
    assert s[..|a|] == a && s[|a| + 1..] == b;
  }

  /** A text without the separator splits into itself alone. */
  lemma SplitOnWithout(s: string, sep: string)
    requires sep != [] && !Contains(s, sep)
    ensures SplitOn(s, sep) == [s]
  {
  }

  /** `rsplit_once(c)`: around the last occurrence of a character. */
  function RSplitOnceChar(s: string, c: char): (r: Option<(string, string)>)
    ensures r.Some? ==> r.value.0 + [c] + r.value.1 == s && !ContainsChar(r.value.1, c)
    ensures r.None? <==> !ContainsChar(s, c)
  {
    match RFindChar(s, c)
    case None => None
    case Some(i) =>
      var tail := s[i + 1..];
      assert s == s[..i] + [c] + tail;
      assert !ContainsChar(tail, c) by {
        forall j | 0 <= j < |tail| ensures tail[j] != c {
          assert tail[j] == s[i + 1 + j];
        }
      }
      Some((s[..i], tail))
  }

  // ASCII classification and case mapping

  predicate IsAsciiUpper(c: char) { 'A' <= c <= 'Z' }
  predicate IsAsciiLower(c: char) { 'a' <= c <= 'z' }
  predicate IsDigit(c: char) { '0' <= c <= '9' }
  predicate IsAsciiAlphanumeric(c: char) { IsAsciiUpper(c) || IsAsciiLower(c) || IsDigit(c) }

  function ToAsciiLower(c: char): (r: char)
    ensures IsAsciiUpper(c) ==> IsAsciiLower(r) && r as int == c as int + 32
    ensures !IsAsciiUpper(c) ==> r == c
  {
    if IsAsciiUpper(c) then (c as int + 32) as char else c
  }

  function ToAsciiUpper(c: char): (r: char)
    ensures IsAsciiLower(c) ==> IsAsciiUpper(r) && r as int == c as int - 32
    ensures !IsAsciiLower(c) ==> r == c
  {
    if IsAsciiLower(c) then (c as int - 32) as char else c
  }

  /** `to_ascii_lowercase` on a string. */
  function AsciiLowercase(s: string): (r: string)
    ensures |r| == |s| && forall i :: 0 <= i < |s| ==> r[i] == ToAsciiLower(s[i])
  {
    seq(|s|, i requires 0 <= i < |s| => ToAsciiLower(s[i]))
  }

  // Decimal integers

  predicate AllDigits(d: string) {
    forall i :: 0 <= i < |d| ==> IsDigit(d[i])
  }

  function DigitsValue(d: string): nat
    requires AllDigits(d)
  {
    if d == [] then 0 else DigitsValue(d[..|d| - 1]) * 10 + (d[|d| - 1] as int - '0' as int)
  }

  /** The grammar of Rust's signed integer `from_str`, before the range check. */
  function ParseInt(s: string): Option<int> {
    if s == [] then None
    else if s[0] == '+' || s[0] == '-' then
      var digits := s[1..];
      if digits == [] || !AllDigits(digits) then None
      else if s[0] == '-' then Some(0 - DigitsValue(digits) as int)
      else Some(DigitsValue(digits))
    else if AllDigits(s) then Some(DigitsValue(s))
    else None
  }

  /** `s.parse::<i64>().ok()`. */
  function ParseI64(s: string): (r: Option<i64>)
    ensures r.Some? ==> ParseInt(s) == Some(r.value as int)
    ensures ParseInt(s).Some? && I64_MIN <= ParseInt(s).value <= I64_MAX ==> r.Some?
  {
    match ParseInt(s)
    case Some(n) => if I64_MIN <= n <= I64_MAX then Some(n) else None
    case None => None
  }

  function DigitChar(d: nat): (c: char)
    requires d < 10
    ensures IsDigit(c) && c as int - '0' as int == d
  {
    ('0' as int + d) as char
  }

  /** The `Display` form of a natural number. */
  function NatToString(n: nat): (r: string)
    ensures r != [] && AllDigits(r)
  {
    if n < 10 then [DigitChar(n)] else NatToString(n / 10) + [DigitChar(n % 10)]
  }

  /** The `Display` form of an integer (`to_string`). */
  function IntToString(n: int): (r: string)
    ensures r != []
  {
    if n < 0 then "-" + NatToString(-n) else NatToString(n)
  }

  lemma {:induction false} NatToStringValue(n: nat)
    ensures DigitsValue(NatToString(n)) == n
  {
    if n >= 10 {
      NatToStringValue(n / 10);
      var s := NatToString(n);
      assert s[..|s| - 1] == NatToString(n / 10);
    }
  }

  /** `to_string` followed by `parse` gives the number back. */
  lemma IntToStringParse(n: int)
    ensures ParseInt(IntToString(n)) == Some(n)
  {
    if n < 0 {
      NatToStringValue(-n);
      assert IntToString(n)[1..] == NatToString(-n);
    } else {
      NatToStringValue(n);
    }
  }
}
