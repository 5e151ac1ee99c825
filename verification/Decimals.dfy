/** Decimal notation: what `std::to_string` prints and `strtoull` reads. */
module Decimals {

  predicate IsDigit(c: char) {
    '0' <= c <= '9'
  }

  predicate AllDigits(s: string) {
    forall i :: 0 <= i < |s| ==> IsDigit(s[i])
  }

  function DigitValue(c: char): nat
    requires IsDigit(c)
  {
    (c as int) - ('0' as int)
  }

  function DigitChar(d: nat): (c: char)
    requires d < 10
    ensures IsDigit(c) && DigitValue(c) == d
  {
    (('0' as int) + d) as char
  }

  function Dec(n: nat): (s: string)
    ensures |s| >= 1 && AllDigits(s)
  {
    if n < 10 then [DigitChar(n)] else Dec(n / 10) + [DigitChar(n % 10)]
  }

  function Value(s: string): nat
    requires AllDigits(s)
  {
    if s == "" then 0 else 10 * Value(s[..|s| - 1]) + DigitValue(s[|s| - 1])
  }

  /** A signed number. */
  function Show(i: int): string {
    if i < 0 then "-" + Dec(-i) else Dec(i)
  }

  lemma {:induction false} ValueOfDec(n: nat)
    ensures Value(Dec(n)) == n
  {
    if n >= 10 {
      ValueOfDec(n / 10);
      assert Dec(n)[..|Dec(n)| - 1] == Dec(n / 10);
    } else {
      assert Dec(n)[..0] == "";
    }
  }

  /** The number of digits at the front. */
  function LeadingDigits(s: string): (k: nat)
    ensures k <= |s| && AllDigits(s[..k]) && (k < |s| ==> !IsDigit(s[k]))
  {
    if s == "" || !IsDigit(s[0]) then 0 else 1 + LeadingDigits(s[1..])
  }

  /** Text that does not go on with a digit. */
  predicate EndsNumeral(rest: string) {
    rest == "" || !IsDigit(rest[0])
  }

  lemma {:induction false} LeadingDigitsConcat(s: string, rest: string)
    requires EndsNumeral(rest)
    ensures LeadingDigits(s + rest) == LeadingDigits(s)
  {
    if s == "" {
      assert s + rest == rest;
    } else {
      assert (s + rest)[1..] == s[1..] + rest;
      LeadingDigitsConcat(s[1..], rest);
    }
  }

  lemma {:induction false} LeadingDigitsOfNumeral(s: string)
    requires AllDigits(s)
    ensures LeadingDigits(s) == |s|
  {
    if s != "" {
      LeadingDigitsOfNumeral(s[1..]);
    }
  }

  /** A printed number is read back, whatever follows it. */
  lemma DecThenRest(n: nat, rest: string)
    requires EndsNumeral(rest)
    ensures var s := Dec(n) + rest;
            LeadingDigits(s) == |Dec(n)| && s[..|Dec(n)|] == Dec(n) && s[|Dec(n)|..] == rest && Value(Dec(n)) == n
  {
    LeadingDigitsConcat(Dec(n), rest);
    LeadingDigitsOfNumeral(Dec(n));
    ValueOfDec(n);
  }
}
