/** Numbers in decimal digits. */
module Decimal {

  predicate IsDigit(c: char) {
    '0' <= c <= '9'
  }

  predicate AllDigits(s: string) {
    forall i :: 0 <= i < |s| ==> IsDigit(s[i])
  }

  function DigitChar(n: nat): char
    requires n < 10
  {
    ('0' as int + n) as char
  }

  /** `Number(digits)`. */
  function Value(digits: string): nat
    requires AllDigits(digits)
  {
    if digits == "" then 0
    else 10 * Value(digits[..|digits| - 1]) + (digits[|digits| - 1] as int - '0' as int)
  }

  /** `String(n)`. */
  function Digits(n: nat): (digits: string)
    ensures digits != "" && AllDigits(digits) && Value(digits) == n
  {
    if n < 10 then [DigitChar(n)]
    else
      var front := Digits(n / 10);
      assert (front + [DigitChar(n % 10)])[..|front|] == front;
      front + [DigitChar(n % 10)]
  }

  /** How many digits the text starts with. */
  function LeadingDigits(text: string): (n: nat)
    ensures n <= |text| && (n < |text| ==> !IsDigit(text[n])) && AllDigits(text[..n])
  {
    if text == "" || !IsDigit(text[0]) then 0 else 1 + LeadingDigits(text[1..])
  }

  lemma {:induction false} DigitsRun(digits: string, rest: string)
    requires AllDigits(digits) && (rest == "" || !IsDigit(rest[0]))
    ensures LeadingDigits(digits + rest) == |digits|
  {
    if digits == "" {
      assert digits + rest == rest;
    } else {
      DigitsRun(digits[1..], rest);
      assert (digits + rest)[1..] == digits[1..] + rest;
    }
  }

  function Power(k: nat): nat {
    if k == 0 then 1 else 10 * Power(k - 1)
  }

  /** A number has k digits or fewer exactly below the k-th power of ten. */
  lemma {:induction false} DigitsFit(n: nat, k: nat)
    requires k > 0
    ensures |Digits(n)| <= k <==> n < Power(k)
  {
    if k == 1 {
      assert Power(0) == 1;
    } else if n >= 10 {
      DigitsFit(n / 10, k - 1);
    } else {
      PowerGrows(k);
    }
  }

  lemma {:induction false} PowerGrows(k: nat)
    ensures Power(k) >= 1 && (k > 0 ==> Power(k) >= 10)
  {
    if k > 0 {
      PowerGrows(k - 1);
    }
  }
}
