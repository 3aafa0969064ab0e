/**
 * The few JavaScript value notions the dashboard's logic depends on:
 * nullable values, thrown errors with a message, the truthiness of numbers
 * and strings, and the decimal text a template literal produces for an
 * integer.
 */
module JsValues {

  /** A value that may be `null` (or `undefined`, which the dashboard treats alike). */
  datatype Nullable<+T> = Null | Just(value: T)

  /** The outcome of a query function: a value, or a thrown `Error` with its `message`. */
  datatype Result<+T> = Ok(value: T) | Err(message: string)

  /** `!!n` for a nullable number: `null` and `0` are falsy, every other integer is truthy. */
  predicate TruthyNumber(n: Nullable<int>) {
    n.Just? && n.value != 0
  }

  /** `s || fallback` for a string: the empty string is falsy. */
  function OrElse(s: string, fallback: string): string {
    if s == [] then fallback else s
  }

  predicate IsDigit(c: char) {
    '0' <= c <= '9'
  }

  predicate AllDigits(s: string) {
    forall i :: 0 <= i < |s| ==> IsDigit(s[i])
  }

  function DigitChar(d: nat): (c: char)
    requires d < 10
  {
    (48 + d) as char
  }

  function DigitValue(c: char): nat
    requires IsDigit(c)
  {
    c as int - 48
  }

  /** The decimal digits of a natural number, most significant first, without leading zeros. */
  function NatToDecimal(n: nat): (s: string)
    ensures |s| > 0 && AllDigits(s)
    ensures |s| > 1 ==> s[0] != '0'
  {
    if n < 10 then [DigitChar(n)] else NatToDecimal(n / 10) + [DigitChar(n % 10)]
  }

  /**
   * `${n}` for an integer `n` below 10^21 in magnitude: a minus sign for
   * negative numbers, then the digits. (Larger numbers print in exponent form.)
   */
  function NumberToString(n: int): (s: string)
    ensures |s| > 0
    ensures s[0] == '-' <==> n < 0
    ensures n >= 0 ==> AllDigits(s)
    ensures n < 0 ==> AllDigits(s[1..])
  {
    if n < 0 then "-" + NatToDecimal(-n) else NatToDecimal(n)
  }

  /** Reads a string of decimal digits back as a number (the inverse of `NatToDecimal`). */
  function ParseNat(s: string): nat
    requires AllDigits(s)
  {
    if s == [] then 0 else ParseNat(s[..|s| - 1]) * 10 + DigitValue(s[|s| - 1])
  }

  /** Reads the text of `NumberToString` back as an integer. */
  function ParseNumber(s: string): int
    requires |s| > 0
    requires s[0] == '-' ==> AllDigits(s[1..])
    requires s[0] != '-' ==> AllDigits(s)
  {
    if s[0] == '-' then -(ParseNat(s[1..]) as int) else ParseNat(s)
  }

  lemma {:induction false} ParseNatToDecimal(n: nat)
    ensures ParseNat(NatToDecimal(n)) == n
  {
    var s := NatToDecimal(n);
    if n >= 10 {
      assert s[..|s| - 1] == NatToDecimal(n / 10);
      ParseNatToDecimal(n / 10);
    }
  }

  /** The text of an integer determines the integer: parsing it gives it back. */
  lemma NumberToStringRoundTrip(n: int)
    ensures ParseNumber(NumberToString(n)) == n
  {
    var s := NumberToString(n);
    if n < 0 {
      assert s[1..] == NatToDecimal(-n);
      ParseNatToDecimal(-n);
    } else {
      ParseNatToDecimal(n);
    }
  }

  /** Distinct integers have distinct texts. */
  lemma NumberToStringInjective(m: int, n: int)
    requires NumberToString(m) == NumberToString(n)
    ensures m == n
  {
    NumberToStringRoundTrip(m);
    NumberToStringRoundTrip(n);
  }
}
