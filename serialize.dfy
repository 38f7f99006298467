/**
 * The text forms values take in the settings store: strings wrapped in double quotes,
 * 32-bit integers in decimal, booleans as `true` / `false`.
 *
 * Rust strings are UTF-8 and index by byte: slicing off a character that is wider than
 * one byte panics. `Utf8Width` gives each character's width so that the panics can be
 * stated. Every `unwrap` on a failed parse is a panic too; a `None` result stands for it.
 */
module Serialize {
  import opened Util

  /** Bytes the UTF-8 encoding of `c` takes. */
  function Utf8Width(c: char): (w: nat)
    ensures 1 <= w <= 4
  {
    var v := c as int;
    if v < 0x80 then 1 else if v < 0x800 then 2 else if v < 0x1_0000 then 3 else 4
  }

  /** `str::len()`: the UTF-8 length in bytes. */
  function ByteLen(s: string): (n: nat)
    ensures n >= |s|
  {
    if s == [] then 0 else ByteLen(s[..|s| - 1]) + Utf8Width(s[|s| - 1])
  }

  lemma ByteLenAppend(s: string, c: char)
    ensures ByteLen(s + [c]) == ByteLen(s) + Utf8Width(c)
  {
    assert (s + [c])[..|s|] == s;
  }

  /** For ASCII text the byte length is the character count. */
  lemma {:induction false} ByteLenAscii(s: string)
    requires forall k :: 0 <= k < |s| ==> s[k] as int < 0x80
    ensures ByteLen(s) == |s|
  {
    if s != [] {
      ByteLenAscii(s[..|s| - 1]);
    }
  }

  // ---------------------------------------------------------------------------
  // Strings

  /** `Serialize for String` and for `&str`: the text in double quotes. */
  function SerializeString(s: string): (r: string)
    ensures |r| == |s| + 2 && r[0] == '"' && r[|r| - 1] == '"' && r[1..|r| - 1] == s
  {
    "\"" + s + "\""
  }

  predicate IsAscii(c: char) {
    c as int < 0x80
  }

  /** `Deserialize for String`: drops the first and the last byte. Slicing panics unless
      there are two bytes to drop and both are whole characters, that is, unless the text
      has at least two characters and both ends are ASCII. */
  function DeserializeString(s: string): (r: Option<string>)
    ensures r.Some? <==> |s| >= 2 && IsAscii(s[0]) && IsAscii(s[|s| - 1])
    ensures r.Some? ==> s == [s[0]] + r.value + [s[|s| - 1]]
    ensures ByteLen(s) < 2 ==> r.None?
  {
    if |s| >= 2 && IsAscii(s[0]) && IsAscii(s[|s| - 1]) then
      assert s == [s[0]] + s[1..|s| - 1] + [s[|s| - 1]];
      Some(s[1..|s| - 1])
    else None
  }

  /** Quoting then unquoting gives the text back, whatever it holds. */
  lemma StringRoundTrip(s: string)
    ensures DeserializeString(SerializeString(s)) == Some(s)
  {
    var q := SerializeString(s);
    assert q[1..|q| - 1] == s;
  }

  // ---------------------------------------------------------------------------
  // Decimal digits

  predicate IsDigit(c: char) {
    '0' <= c <= '9'
  }

  function DigitChar(d: nat): (c: char)
    requires d < 10
    ensures IsDigit(c) && DigitValue(c) == d
  {
    ('0' as int + d) as char
  }

  predicate AllDigits(s: string) {
    forall k :: 0 <= k < |s| ==> IsDigit(s[k])
  }

  function DigitValue(c: char): (d: nat)
    requires IsDigit(c)
    ensures d < 10
  {
    c as int - '0' as int
  }

  /** The value of a run of decimal digits, most significant first. */
  function DigitsValue(s: string): nat
    requires AllDigits(s)
  {
    if s == [] then 0 else 10 * DigitsValue(s[..|s| - 1]) + DigitValue(s[|s| - 1])
  }

  /** The decimal form of a natural number, without leading zeros. */
  function NatToDecimal(n: nat): (s: string)
    ensures |s| > 0 && AllDigits(s)
    ensures DigitsValue(s) == n
    ensures |s| > 1 ==> s[0] != '0'
    decreases n
  {
    if n < 10 then [DigitChar(n)]
    else
      var init := NatToDecimal(n / 10);
      var s := init + [DigitChar(n % 10)];
      assert s[..|s| - 1] == init;
      s
  }

  // ---------------------------------------------------------------------------
  // i32

  type i32 = x: int | -0x8000_0000 <= x < 0x8000_0000

  /** `i32::to_string`: a minus sign for negative values, then the decimal digits. */
  function SerializeI32(n: i32): (r: string)
    ensures |r| > 0 && (r[0] == '-' <==> n < 0)
    ensures forall k :: (if n < 0 then 1 else 0) <= k < |r| ==> IsDigit(r[k])
  {
    if n < 0 then "-" + NatToDecimal(-(n as int)) else NatToDecimal(n)
  }

  /** `str::parse::<i32>`: an optional `+` or `-`, then at least one digit, and a value in
      range; anything else is an error. */
  function ParseI32(s: string): (r: Option<i32>)
    ensures r.Some? ==> |s| > 0
  {
    if s == [] then None
    else
      var negative := s[0] == '-';
      var digits := if s[0] == '-' || s[0] == '+' then s[1..] else s;
      if digits == [] || !AllDigits(digits) then None
      else
        var v := if negative then -(DigitsValue(digits) as int) else DigitsValue(digits) as int;
        if -0x8000_0000 <= v < 0x8000_0000 then Some(v) else None
  }

  /** `Deserialize for i32` unwraps the parse: `None` is the panic. */
  function DeserializeI32(s: string): Option<i32> {
    ParseI32(s)
  }

  /** Every `i32` survives the decimal round trip. */
  lemma I32RoundTrip(n: i32)
    ensures DeserializeI32(SerializeI32(n)) == Some(n)
  {
    var s := SerializeI32(n);
    if n < 0 {
      var digits := NatToDecimal(-(n as int));
      assert s[0] == '-' && s[1..] == digits;
    } else {
      var digits := NatToDecimal(n);
      assert s[0] != '-' && s[0] != '+';
    }
  }

  /** A sign alone, or any character that is not a digit after the sign, fails to parse. */
  lemma I32RejectsNonDigits(s: string, k: nat)
    requires |s| > 0 && 0 < k < |s| && !IsDigit(s[k])
    ensures ParseI32(s).None?
  {
    var digits := if s[0] == '-' || s[0] == '+' then s[1..] else s;
    if s[0] == '-' || s[0] == '+' {
      assert digits[k - 1] == s[k];
    } else {
      assert digits[k] == s[k];
    }
    assert !AllDigits(digits);
  }

  // ---------------------------------------------------------------------------
  // bool

  function SerializeBool(b: bool): (r: string)
    ensures DeserializeBool(r) == Some(b)
  {
    if b then "true" else "false"
  }

  /** `str::parse::<bool>` accepts exactly `true` and `false`. */
  function DeserializeBool(s: string): (r: Option<bool>)
    ensures r.Some? <==> s == "true" || s == "false"
  {
    if s == "true" then Some(true) else if s == "false" then Some(false) else None
  }

  lemma BoolRoundTrip(b: bool, s: string)
    ensures DeserializeBool(SerializeBool(b)) == Some(b)
    ensures DeserializeBool(s).Some? ==> SerializeBool(DeserializeBool(s).value) == s
  {
  }

  // ---------------------------------------------------------------------------
  // Values of the store

  /** The kinds of value the game stores; f32 is not modelled. */
  datatype Stored = StrValue(s: string) | IntValue(i: i32) | BoolValue(b: bool)

  datatype Kind = StrKind | IntKind | BoolKind

  function KindOf(v: Stored): Kind {
    match v
    case StrValue(_) => StrKind
    case IntValue(_) => IntKind
    case BoolValue(_) => BoolKind
  }

  function SerializeValue(v: Stored): string {
    match v
    case StrValue(s) => SerializeString(s)
    case IntValue(i) => SerializeI32(i)
    case BoolValue(b) => SerializeBool(b)
  }

  /** `T::deserialize` for the kind asked for; `None` is the panic. */
  function DeserializeValue(k: Kind, s: string): (r: Option<Stored>)
    ensures r.Some? ==> KindOf(r.value) == k
  {
    match k
    case StrKind => (match DeserializeString(s) case Some(t) => Some(StrValue(t)) case None => None)
    case IntKind => (match DeserializeI32(s) case Some(i) => Some(IntValue(i)) case None => None)
    case BoolKind => (match DeserializeBool(s) case Some(b) => Some(BoolValue(b)) case None => None)
  }

  /** Every stored value reads back as itself when asked for with its own kind. */
  lemma ValueRoundTrip(v: Stored)
    ensures DeserializeValue(KindOf(v), SerializeValue(v)) == Some(v)
  {
    match v
    case StrValue(s) => StringRoundTrip(s);
    case IntValue(i) => I32RoundTrip(i);
    case BoolValue(b) => BoolRoundTrip(b, "");
  }
}
