/**
 * The Kotlin standard-library text conversions the app relies on for its two
 * integer widths: `String.toIntOrNull()` / `String.toLongOrNull()` (radix 10)
 * and their inverse, `toString()`.
 */
module KotlinText {
  import opened Optional

  /** Kotlin `Int`: 32-bit two's complement. */
  newtype Int32 = n: int | -0x8000_0000 <= n < 0x8000_0000

  /** Kotlin `Long`: 64-bit two's complement. */
  newtype Int64 = n: int | -0x8000_0000_0000_0000 <= n < 0x8000_0000_0000_0000

  predicate IsDigit(c: char) {
    '0' <= c <= '9'
  }

  predicate IsDigits(s: string) {
    forall i :: 0 <= i < |s| ==> IsDigit(s[i])
  }

  function DigitValue(c: char): nat
    requires IsDigit(c)
  {
    c as int - '0' as int
  }

  function DigitChar(d: nat): (c: char)
    requires d < 10
    ensures IsDigit(c) && DigitValue(c) == d
  {
    ('0' as int + d) as char
  }

  /** The value of a digit string, most significant digit first; leading zeros are allowed. */
  function DigitsValue(s: string): nat
    requires IsDigits(s)
  {
    if |s| == 0 then 0 else DigitsValue(s[..|s| - 1]) * 10 + DigitValue(s[|s| - 1])
  }

  /**
   * The number a signed decimal numeral denotes, before any range check:
   * an optional leading '-' or '+' followed by at least one digit, nothing else.
   */
  function Numeral(s: string): Option<int>
  {
    if |s| == 0 then None
    else if s[0] == '-' || s[0] == '+' then
      var digits := s[1..];
      if |digits| == 0 || !IsDigits(digits) then None
      else if s[0] == '-' then Some(-(DigitsValue(digits) as int))
      else Some(DigitsValue(digits))
    else if IsDigits(s) then Some(DigitsValue(s))
    else None
  }

  /** `String.toIntOrNull()`: null unless the text is a numeral whose value fits an `Int`. */
  function ToIntOrNull(s: string): (r: Option<Int32>)
    ensures r.Some? ==> Numeral(s) == Some(r.value as int)
  {
    match Numeral(s)
    case Some(n) => if -0x8000_0000 <= n < 0x8000_0000 then Some(n as Int32) else None
    case None => None
  }

  /** `String.toLongOrNull()`: null unless the text is a numeral whose value fits a `Long`. */
  function ToLongOrNull(s: string): (r: Option<Int64>)
    ensures r.Some? ==> Numeral(s) == Some(r.value as int)
  {
    match Numeral(s)
    case Some(n) =>
      if -0x8000_0000_0000_0000 <= n < 0x8000_0000_0000_0000 then Some(n as Int64) else None
    case None => None
  }

  /** Decimal digits of a natural number, without leading zeros. */
  function NatDecimal(n: nat): (s: string)
    ensures |s| > 0 && IsDigits(s)
    ensures DigitsValue(s) == n
    ensures s[0] == '0' ==> n == 0
  {
    if n < 10 then [DigitChar(n)]
    else
      var prefix := NatDecimal(n / 10);
      var s := prefix + [DigitChar(n % 10)];
      assert s[..|s| - 1] == prefix;
      s
  }

  /** `Int.toString()` / `Long.toString()`: a '-' for negative values, then the digits. */
  function Decimal(n: int): (s: string)
    ensures Numeral(s) == Some(n)
  {
    if n < 0 then
      var digits := NatDecimal(-n);
      assert ("-" + digits)[1..] == digits;
      "-" + digits
    else NatDecimal(n)
  }

  /** Every `Int` survives `toString()` followed by `toIntOrNull()`. */
  lemma IntRoundTrip(n: Int32)
    ensures ToIntOrNull(Decimal(n as int)) == Some(n)
  {
  }

  /** Every `Long` survives `toString()` followed by `toLongOrNull()`. */
  lemma LongRoundTrip(n: Int64)
    ensures ToLongOrNull(Decimal(n as int)) == Some(n)
  {
  }

  /**
   * `toIntOrNull()` answers null exactly when the text is not a numeral or
   * its value does not fit 32 bits; the same for `toLongOrNull()` and 64 bits.
   */
  lemma NullMeansNotAFittingNumeral(s: string)
    ensures ToIntOrNull(s).None? <==>
      (Numeral(s).None? || !(-0x8000_0000 <= Numeral(s).value < 0x8000_0000))
    ensures ToLongOrNull(s).None? <==>
      (Numeral(s).None? ||
       !(-0x8000_0000_0000_0000 <= Numeral(s).value < 0x8000_0000_0000_0000))
  {
  }

  /** Texts the numeral grammar rejects: empty, a bare sign, a blank, a sign after a digit. */
  lemma RejectedNumerals()
    ensures Numeral("").None?
    ensures Numeral("-").None? && Numeral("+").None?
    ensures Numeral(" ").None?
    ensures Numeral("1-").None?
  {
    assert !IsDigits("1-") by { assert !IsDigit("1-"[1]); }
  }

  /** One past `Int.MAX_VALUE` is a numeral but not an `Int`; `Int.MIN_VALUE` is. */
  lemma IntRangeEdges()
    ensures ToIntOrNull(Decimal(0x8000_0000)).None?
    ensures ToIntOrNull(Decimal(-0x8000_0000)) == Some(-0x8000_0000)
  {
  }
}
