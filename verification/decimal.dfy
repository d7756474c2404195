/** Decimal numerals and the fixed-width integer ranges the parser checks.
    The parser relies on Rust's `str::parse::<i64>` and `str::parse::<u8>`;
    here the same parse is defined directly on the digit strings the grammar
    produces (an optional leading `-` for `i64`, leading zeros allowed),
    with explicit range checks. */
module Decimal {
  import opened Results

  /** Rust's `i64` and `u8`. */
  type int64 = x: int | -0x8000_0000_0000_0000 <= x <= 0x7FFF_FFFF_FFFF_FFFF
  type uint8 = x: int | 0 <= x <= 255

  const INT64_MIN: int := -0x8000_0000_0000_0000
  const INT64_MAX: int := 0x7FFF_FFFF_FFFF_FFFF
  const UINT8_MAX: int := 255

  predicate IsDigit(c: char) {
    '0' <= c <= '9'
  }

  predicate AllDigits(s: string) {
    forall i :: 0 <= i < |s| ==> IsDigit(s[i])
  }

  function DigitValue(c: char): (d: nat)
    requires IsDigit(c)
    ensures d < 10
  {
    c as int - '0' as int
  }

  function DigitChar(d: nat): (c: char)
    requires d < 10
    ensures IsDigit(c) && DigitValue(c) == d
  {
    ('0' as int + d) as char
  }

  /** The value of a digit string, most significant digit first. */
  function DigitsValue(s: string): nat
    requires AllDigits(s)
  {
    if |s| == 0 then 0 else 10 * DigitsValue(s[..|s| - 1]) + DigitValue(s[|s| - 1])
  }

  /** A non-empty run of decimal digits, read as an unbounded natural number. */
  function ParseNat(s: string): Option<nat> {
    if |s| > 0 && AllDigits(s) then Some(DigitsValue(s)) else None
  }

  /** `s.parse::<u8>()` on a digit string: fails when it is not one, or when
      its value exceeds 255. */
  function ParseUint8(s: string): (r: Option<uint8>)
    ensures r.Some? <==> ParseNat(s).Some? && ParseNat(s).value <= UINT8_MAX
    ensures r.Some? ==> r.value == ParseNat(s).value
  {
    match ParseNat(s)
    case Some(v) => if v <= UINT8_MAX then Some(v) else None
    case None => None
  }

  /** `s.parse::<i64>()` on an optionally negated digit string: fails when it is
      not one, or when its value lies outside the 64-bit two's-complement range. */
  function ParseInt64(s: string): (r: Option<int64>)
    ensures r.Some? ==> |s| > 0
    ensures r.Some? && s[0] == '-' ==> ParseNat(s[1..]).Some? && ParseNat(s[1..]).value == -(r.value as int)
    ensures r.Some? && s[0] != '-' ==> ParseNat(s).Some? && ParseNat(s).value == r.value
    ensures |s| > 0 && s[0] == '-' && ParseNat(s[1..]).Some? && -(ParseNat(s[1..]).value as int) >= INT64_MIN ==>
      r.Some?
    ensures (|s| == 0 || s[0] != '-') && ParseNat(s).Some? && ParseNat(s).value <= INT64_MAX ==> r.Some?
  {
    if |s| > 0 && s[0] == '-' then
      match ParseNat(s[1..])
      case Some(m) => if -(m as int) >= INT64_MIN then Some(-(m as int)) else None
      case None => None
    else
      match ParseNat(s)
      case Some(m) => if m <= INT64_MAX then Some(m) else None
      case None => None
  }

  /** The canonical decimal numeral of `n`: digits only, no leading zero. */
  function NatToDecimal(n: nat): (s: string)
    ensures |s| > 0 && AllDigits(s)
    ensures |s| > 1 ==> s[0] != '0'
  {
    if n < 10 then [DigitChar(n)] else NatToDecimal(n / 10) + [DigitChar(n % 10)]
  }

  /** The canonical decimal numeral of an integer, `-` first when negative. */
  function IntToDecimal(v: int): string {
    if v < 0 then "-" + NatToDecimal(-v) else NatToDecimal(v)
  }

  /** Reading back a canonical numeral gives the number it was written from. */
  lemma {:induction false} DigitsValueOfDecimal(n: nat)
    ensures DigitsValue(NatToDecimal(n)) == n
  {
    if n >= 10 {
      var s := NatToDecimal(n);
      assert s[..|s| - 1] == NatToDecimal(n / 10);
      DigitsValueOfDecimal(n / 10);
    }
  }

  lemma ParseNatRoundTrip(n: nat)
    ensures ParseNat(NatToDecimal(n)) == Some(n)
  {
    DigitsValueOfDecimal(n);
  }

  /** Two numbers with the same canonical numeral are equal. */
  lemma NatToDecimalInjective(m: nat, n: nat)
    ensures NatToDecimal(m) == NatToDecimal(n) ==> m == n
  {
    DigitsValueOfDecimal(m);
    DigitsValueOfDecimal(n);
  }

  /** Leading zeros do not change the value of a numeral. */
  lemma {:induction false} LeadingZeroIgnored(s: string)
    requires AllDigits(s)
    ensures AllDigits("0" + s) && DigitsValue("0" + s) == DigitsValue(s)
  {
    var t := "0" + s;
    assert AllDigits(t) by {
      forall i | 0 <= i < |t| ensures IsDigit(t[i]) {
        if i > 0 { assert t[i] == s[i - 1]; }
      }
    }
    if |s| > 0 {
      assert t[..|t| - 1] == "0" + s[..|s| - 1];
      LeadingZeroIgnored(s[..|s| - 1]);
    }
  }

  /** A `u8` parse of a numeral succeeds exactly when its value is at most 255,
      and then yields that value. */
  lemma ParseUint8RoundTrip(n: nat)
    ensures ParseUint8(NatToDecimal(n)) == if n <= UINT8_MAX then Some(n) else None
  {
    ParseNatRoundTrip(n);
  }

  /** An `i64` parse of the numeral of any integer succeeds exactly when the
      integer lies in the 64-bit range, and then yields that integer. */
  lemma ParseInt64RoundTrip(v: int)
    ensures ParseInt64(IntToDecimal(v)) ==
      if INT64_MIN <= v <= INT64_MAX then Some(v) else None
  {
    var s := IntToDecimal(v);
    if v < 0 {
      assert s[1..] == NatToDecimal(-v);
      ParseNatRoundTrip(-v);
    } else {
      assert IsDigit(s[0]);
      ParseNatRoundTrip(v);
    }
  }

  /** Leading zeros are accepted and change nothing: `"007"` reads as 7 and
      `"-007"` as -7, as any digit string in range is accepted. */
  lemma LeadingZeroAccepted(s: string)
    requires |s| > 0 && AllDigits(s)
    ensures ParseInt64("0" + s) == ParseInt64(s)
    ensures ParseInt64("-0" + s) == ParseInt64("-" + s)
  {
    LeadingZeroIgnored(s);
    assert ("-0" + s)[1..] == "0" + s;
    assert ("-" + s)[1..] == s;
  }
}
