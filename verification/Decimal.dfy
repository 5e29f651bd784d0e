/**
 Decimal numerals, as strconv.FormatInt, ParseInt and ParseUint write and read them in base 10.
 */
module Decimal {
  import opened Basics

  predicate IsDigit(c: char) {
    '0' <= c <= '9'
  }

  function DigitValue(c: char): (d: nat)
    requires IsDigit(c)
    ensures d < 10
  {
    c as int - '0' as int
  }

  function DigitChar(d: nat): (c: char)
    requires d < 10
    ensures IsDigit(c) && DigitValue(c) == d
  {
    ('0' as int + d) as char
  }

  predicate AllDigits(s: string) {
    forall i | 0 <= i < |s| :: IsDigit(s[i])
  }

  function FormatNat(n: nat): (s: string)
    ensures |s| > 0 && AllDigits(s)
    ensures s[0] == '0' ==> s == "0"
  {
    if n < 10 then [DigitChar(n)] else FormatNat(n / 10) + [DigitChar(n % 10)]
  }

  function FormatInt(n: int): string {
    if n < 0 then "-" + FormatNat(-n) else FormatNat(n)
  }

  // The value of a run of digits, most significant first.
  function DigitsValue(s: string): nat
    requires AllDigits(s)
  {
    if s == "" then 0 else 10 * DigitsValue(s[..|s| - 1]) + DigitValue(s[|s| - 1])
  }

  function ParseUint(s: string): Option<uint64> {
    if s != "" && AllDigits(s) && DigitsValue(s) < UINT64_LIMIT then Some(DigitsValue(s)) else None
  }

  // The sign is taken off first, so "-0" reads as 0.
  function ParseInt(s: string): (r: Option<int>)
    ensures r.Some? ==> -INT64_LIMIT <= r.value < INT64_LIMIT
  {
    var negative := s != "" && s[0] == '-';
    var digits := if negative then s[1..] else s;
    if digits == "" || !AllDigits(digits) then None
    else
      var n := if negative then 0 - DigitsValue(digits) else DigitsValue(digits);
      if -INT64_LIMIT <= n < INT64_LIMIT then Some(n) else None
  }

  /* Numerals: digits after an optional minus sign */

  function Digits(s: string): string {
    if s != "" && s[0] == '-' then s[1..] else s
  }

  predicate Numeral(s: string) {
    Digits(s) != "" && AllDigits(Digits(s))
  }

  function NumeralValue(s: string): int
    requires Numeral(s)
  {
    if s[0] == '-' then 0 - DigitsValue(Digits(s)) else DigitsValue(Digits(s))
  }

  // ParseInt reads exactly the numerals whose value fits 64 bits.
  lemma {:induction false} ParseIntReads(s: string, n: int)
    ensures ParseInt(s) == Some(n) <==>
      Numeral(s) && n == NumeralValue(s) && -9223372036854775808 <= n <= 9223372036854775807
  {
  }

  lemma {:induction false} FormatIntDenotes(n: int)
    ensures Numeral(FormatInt(n)) && NumeralValue(FormatInt(n)) == n
  {
    DigitsOfFormat(if n < 0 then -n else n);
    assert n < 0 ==> FormatInt(n)[1..] == FormatNat(-n);
  }

  lemma {:induction false} FormatNatIsShortest(s: string)
    requires s != "" && AllDigits(s)
    ensures |FormatNat(DigitsValue(s))| <= |s|
  {
    var front := s[..|s| - 1];
    assert DigitsValue(s) == 10 * DigitsValue(front) + DigitValue(s[|s| - 1]);
    if front != "" {
      FormatNatIsShortest(front);
    }
  }

  // No numeral of the same value is shorter.
  lemma {:induction false} FormatIntIsShortest(s: string)
    requires Numeral(s)
    ensures |FormatInt(NumeralValue(s))| <= |s|
  {
    FormatNatIsShortest(Digits(s));
  }

  lemma {:induction false} DigitsOfFormat(n: nat)
    ensures DigitsValue(FormatNat(n)) == n
  {
    if n >= 10 {
      DigitsOfFormat(n / 10);
      assert FormatNat(n)[..|FormatNat(n)| - 1] == FormatNat(n / 10);
    }
  }

  lemma {:induction false} ParseFormatNat(n: nat)
    requires n < UINT64_LIMIT
    ensures ParseUint(FormatNat(n)) == Some(n)
  {
    DigitsOfFormat(n);
  }

  lemma {:induction false} ParseFormatInt(n: int)
    requires -INT64_LIMIT <= n < INT64_LIMIT
    ensures ParseInt(FormatInt(n)) == Some(n)
  {
    DigitsOfFormat(if n < 0 then -n else n);
    if n < 0 {
      assert FormatInt(n)[1..] == FormatNat(-n);
    }
  }

  lemma {:induction false} FormatNatInjective(m: nat, n: nat)
    requires FormatNat(m) == FormatNat(n)
    ensures m == n
  {
    DigitsOfFormat(m);
    DigitsOfFormat(n);
  }
}
