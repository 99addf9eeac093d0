/**
 * The pieces of .NET string behaviour the validation rules depend on:
 * `string.Length` (UTF-16 code units), `char.IsWhiteSpace`,
 * `string.IsNullOrEmpty`, `string.IsNullOrWhiteSpace` and the decimal
 * rendering of an `int` inside an interpolated string.
 *
 * Dafny's `char` is a Unicode scalar value, so a string's .NET length is
 * computed here by counting the code units each character needs.
 */
module Text {
  import opened Wrappers

  /** A C# `int`. */
  type Int32 = x: int | -0x8000_0000 <= x < 0x8000_0000

  /** Number of UTF-16 code units that encode `c`: two for characters outside the BMP. */
  function CodeUnits(c: char): nat
  {
    if c as int < 0x1_0000 then 1 else 2
  }

  /** `s.Length` in .NET: the number of UTF-16 code units of `s`. */
  function Utf16Length(s: string): (n: nat)
    ensures |s| <= n <= 2 * |s|
    ensures n == 0 <==> s == []
  {
    if s == [] then 0 else Utf16Length(s[..|s| - 1]) + CodeUnits(s[|s| - 1])
  }

  /** A string of characters from the Basic Multilingual Plane has one code unit per character. */
  lemma {:induction false} Utf16LengthOfBmp(s: string)
    requires forall i | 0 <= i < |s| :: s[i] as int < 0x1_0000
    ensures Utf16Length(s) == |s|
  {
    if s != [] {
      Utf16LengthOfBmp(s[..|s| - 1]);
    }
  }

  /**
   * `char.IsWhiteSpace`: the separators of Unicode categories Zs, Zl and Zp,
   * plus the control characters U+0009..U+000D and U+0085.
   */
  predicate IsWhiteSpace(c: char)
  {
    || ('\t' <= c <= '\r')
    || c == ' '
    || c == '\U{0085}'
    || c == '\U{00A0}'
    || c == '\U{1680}'
    || ('\U{2000}' <= c <= '\U{200A}')
    || c == '\U{2028}'
    || c == '\U{2029}'
    || c == '\U{202F}'
    || c == '\U{205F}'
    || c == '\U{3000}'
  }

  /** `string.IsNullOrEmpty`. */
  predicate IsNullOrEmpty(v: Option<string>)
  {
    v.None? || v.value == []
  }

  /** `string.IsNullOrWhiteSpace`: null, or every character is white space (vacuously so for ""). */
  predicate IsNullOrWhiteSpace(v: Option<string>)
  {
    v.None? || forall i | 0 <= i < |v.value| :: IsWhiteSpace(v.value[i])
  }

  /** Every null-or-empty value is also null-or-white-space. */
  lemma NullOrEmptyIsBlank(v: Option<string>)
    ensures IsNullOrEmpty(v) ==> IsNullOrWhiteSpace(v)
  {
  }

  function DigitChar(d: nat): (c: char)
    requires d < 10
    ensures '0' <= c <= '9'
  {
    ['0', '1', '2', '3', '4', '5', '6', '7', '8', '9'][d]
  }

  /** The numeric value of a character: its digit value, 0 for anything that is not a digit. */
  function DigitValue(c: char): (d: nat)
    ensures d < 10
  {
    if '0' <= c <= '9' then c as int - '0' as int else 0
  }

  predicate IsDigits(s: string)
  {
    forall i | 0 <= i < |s| :: '0' <= s[i] <= '9'
  }

  /** The number written by a string of decimal digits (most significant first). */
  function DecimalValue(s: string): nat
  {
    if s == [] then 0 else DecimalValue(s[..|s| - 1]) * 10 + DigitValue(s[|s| - 1])
  }

  /** Decimal rendering of a natural number, without leading zeros; it reads back as `n`. */
  function NatToDecimal(n: nat): (s: string)
    ensures |s| >= 1 && IsDigits(s)
    ensures s[0] == '0' ==> s == "0"
    ensures DecimalValue(s) == n
  {
    if n < 10 then
      [DigitChar(n)]
    else
      var prefix := NatToDecimal(n / 10);
      var s := prefix + [DigitChar(n % 10)];
      assert s[..|s| - 1] == prefix;
      s
  }

  /** Rendering of an `int` in an interpolated string (invariant culture: a leading '-' when negative). */
  function IntToDecimal(n: int): (s: string)
    ensures |s| >= 1
    ensures s[0] == '-' <==> n < 0
  {
    if n < 0 then "-" + NatToDecimal(-n) else NatToDecimal(n)
  }

  /** Reads back a rendering made by IntToDecimal. */
  function ParseInt(s: string): int
  {
    if |s| > 0 && s[0] == '-' then 0 - DecimalValue(s[1..]) as int else DecimalValue(s)
  }

  /** IntToDecimal loses nothing: the number in a rendered message is the number that was rendered. */
  lemma IntToDecimalRoundTrip(n: int)
    ensures ParseInt(IntToDecimal(n)) == n
  {
    if n < 0 {
      assert IntToDecimal(n)[1..] == NatToDecimal(-n);
    }
  }
}
