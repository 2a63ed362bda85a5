/**
  The text conversions behind the manifest's `bool` and `u32` fields. They
  belong to the decoder, not to the manifest, so these are minimal parsers
  stated as what the model assumes of it: a boolean is spelled `true` or
  `false`; an unsigned 32-bit integer is decimal, as Rust's `u32::from_str`
  reads it (an optional `+`, at least one ASCII digit, leading zeros allowed,
  a value below 2^32).
*/
module Primitives {
  import opened Wrappers

  const U32Limit: int := 0x1_0000_0000

  type uint32 = x: int | 0 <= x < U32Limit

  /** The spelling of a boolean. */
  function BoolText(b: bool): string {
    if b then "true" else "false"
  }

  function ParseBool(s: string): (r: Option<bool>)
    ensures r.Some? <==> s == "true" || s == "false"
    ensures r.Some? ==> s == BoolText(r.value)
  {
    if s == "true" then Some(true)
    else if s == "false" then Some(false)
    else None
  }

  predicate IsDigit(c: char) {
    '0' <= c <= '9'
  }

  predicate AllDigits(s: string) {
    forall i :: 0 <= i < |s| ==> IsDigit(s[i])
  }

  /** The number a string of decimal digits stands for, most significant digit first. */
  function DigitsValue(s: string): nat
    requires AllDigits(s)
  {
    if s == [] then 0
    else 10 * DigitsValue(s[..|s| - 1]) + (s[|s| - 1] as int - '0' as int)
  }

  /** The digits of `s` once an optional leading `+` is dropped. */
  function Unsigned(s: string): string {
    if |s| > 0 && s[0] == '+' then s[1..] else s
  }

  function ParseU32(s: string): (r: Option<uint32>)
    ensures r.Some? <==> Unsigned(s) != [] && AllDigits(Unsigned(s)) && DigitsValue(Unsigned(s)) < U32Limit
    ensures r.Some? ==> r.value == DigitsValue(Unsigned(s))
  {
    var d := Unsigned(s);
    if d != [] && AllDigits(d) && DigitsValue(d) < U32Limit then Some(DigitsValue(d)) else None
  }

  function DigitChar(d: nat): char
    requires d < 10
  {
    ('0' as int + d) as char
  }

  /** The shortest decimal spelling of `n`. */
  function Decimal(n: nat): string {
    if n < 10 then [DigitChar(n)] else Decimal(n / 10) + [DigitChar(n % 10)]
  }

  lemma {:induction false} DecimalDigits(n: nat)
    ensures Decimal(n) != [] && AllDigits(Decimal(n)) && DigitsValue(Decimal(n)) == n
  {
    if n >= 10 {
      DecimalDigits(n / 10);
      var s := Decimal(n);
      assert s[..|s| - 1] == Decimal(n / 10);
    }
  }

  /** Every value of a `u32` field can be written, with or without a `+`, and is read back unchanged. */
  lemma ParseU32Decimal(n: uint32)
    ensures ParseU32(Decimal(n)) == Some(n)
    ensures ParseU32("+" + Decimal(n)) == Some(n)
  {
    DecimalDigits(n);
    assert Decimal(n)[0] != '+';
    assert ("+" + Decimal(n))[1..] == Decimal(n);
  }

  /** A negative number is no `u32`: a leading `-` is never accepted. */
  lemma ParseU32RejectsSign(s: string)
    ensures ParseU32("-" + s) == None
  {
    assert !IsDigit(("-" + s)[0]);
  }

  /** Booleans read back unchanged, and no other spelling is read. */
  lemma ParseBoolText(b: bool, s: string)
    ensures ParseBool(BoolText(b)) == Some(b)
    ensures ParseBool(s) == Some(b) <==> s == BoolText(b)
  {
  }
}
