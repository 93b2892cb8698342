/**
 * The textual forms the persisted documents use for numbers and booleans:
 * Integer.toString, Integer.parseInt and Boolean.toString for Java's 32-bit int.
 */
module JavaText {
  import opened Wrappers

  const INT32_MIN: int := -0x8000_0000
  const INT32_MAX: int := 0x7fff_ffff

  /** Java's `int`. */
  type Int32 = x: int | INT32_MIN <= x <= INT32_MAX

  predicate IsDigit(ch: char) {
    '0' <= ch <= '9'
  }

  predicate AllDigits(s: string) {
    forall i :: 0 <= i < |s| ==> IsDigit(s[i])
  }

  function DigitChar(d: nat): (ch: char)
    requires d < 10
    ensures IsDigit(ch)
  {
    ('0' as int + d) as char
  }

  /** The value of a string of decimal digits, most significant first. */
  function DigitsValue(s: string): nat
    requires AllDigits(s)
  {
    if s == [] then 0
    else 10 * DigitsValue(s[..|s| - 1]) + (s[|s| - 1] as int - '0' as int)
  }

  /** The decimal digits of `n`, without leading zeros. */
  function NatToDigits(n: nat): (s: string)
    ensures |s| > 0 && AllDigits(s)
  {
    if n < 10 then [DigitChar(n)] else NatToDigits(n / 10) + [DigitChar(n % 10)]
  }

  /** Integer.toString(i): a minus sign for negative values, then the digits of |i|. */
  function IntToString(i: Int32): string {
    if i < 0 then "-" + NatToDigits(-(i as int)) else NatToDigits(i)
  }

  /**
   * Integer.parseInt(s). `None` stands for the NumberFormatException it throws on an
   * empty string, a lone sign, a non-digit or a value outside the int range.
   */
  function ParseInt(s: string): Option<Int32> {
    if |s| == 0 then None
    else
      var digits := if s[0] == '-' || s[0] == '+' then s[1..] else s;
      if |digits| == 0 || !AllDigits(digits) then None
      else
        var v := if s[0] == '-' then -(DigitsValue(digits) as int) else DigitsValue(digits) as int;
        if INT32_MIN <= v <= INT32_MAX then Some(v) else None
  }

  /** Boolean.toString(b). */
  function BoolToString(b: bool): string {
    if b then "true" else "false"
  }

  lemma {:induction false} DigitsValueOfNatToDigits(n: nat)
    ensures DigitsValue(NatToDigits(n)) == n
  {
    if n >= 10 {
      DigitsValueOfNatToDigits(n / 10);
      var s := NatToDigits(n);
      assert s[..|s| - 1] == NatToDigits(n / 10);
    }
  }

  /** What Integer.toString writes, Integer.parseInt reads back. */
  lemma ParseIntOfIntToString(i: Int32)
    ensures ParseInt(IntToString(i)) == Some(i)
  {
    if i < 0 {
      DigitsValueOfNatToDigits(-(i as int));
      assert IntToString(i)[1..] == NatToDigits(-(i as int));
    } else {
      DigitsValueOfNatToDigits(i);
      assert IsDigit(NatToDigits(i)[0]);
    }
  }
}
