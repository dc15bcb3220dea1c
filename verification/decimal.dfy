/** Decimal numerals: what `int()` reads from a status token and what
    `'%d' %` writes into an error message. */
module Decimal {

  predicate IsDigit(c: char) {
    '0' <= c <= '9'
  }

  predicate AllDigits(s: string) {
    forall k :: 0 <= k < |s| ==> IsDigit(s[k])
  }

  function DigitValue(c: char): (d: nat)
    requires IsDigit(c)
    ensures d < 10
  {
    (c as int) - ('0' as int)
  }

  function DigitChar(d: nat): (c: char)
    requires d < 10
    ensures IsDigit(c) && DigitValue(c) == d
  {
    (('0' as int) + d) as char
  }

  /** The number a string of decimal digits denotes, most significant first
      (leading zeros allowed, as `int()` allows them). */
  function DigitsValue(s: string): nat
    requires AllDigits(s)
  {
    if |s| == 0 then 0 else 10 * DigitsValue(s[..|s| - 1]) + DigitValue(s[|s| - 1])
  }

  /** The tokens `int()` accepts in this model: an optional sign followed by
      at least one decimal digit. */
  predicate IsIntLiteral(t: string) {
    if |t| > 0 && (t[0] == '+' || t[0] == '-') then |t| > 1 && AllDigits(t[1..])
    else |t| > 0 && AllDigits(t)
  }

  /** `int(t)` */
  function ParseInt(t: string): int
    requires IsIntLiteral(t)
  {
    if t[0] == '-' then -(DigitsValue(t[1..]) as int)
    else if t[0] == '+' then DigitsValue(t[1..])
    else DigitsValue(t)
  }

  /** `'%d' % n` for a natural number: digits without leading zeros. */
  function NatToString(n: nat): (s: string)
    ensures |s| > 0 && AllDigits(s)
    ensures s[0] == '0' ==> n == 0
  {
    if n < 10 then [DigitChar(n)] else NatToString(n / 10) + [DigitChar(n % 10)]
  }

  /** Printing a count and reading it back gives the count. */
  lemma {:induction false} NatToStringRoundTrip(n: nat)
    ensures IsIntLiteral(NatToString(n))
    ensures ParseInt(NatToString(n)) == n
  {
    var s := NatToString(n);
    if n < 10 {
      assert s[..|s| - 1] == [];
    } else {
      NatToStringRoundTrip(n / 10);
      assert s[..|s| - 1] == NatToString(n / 10);
    }
    assert DigitsValue(s) == n;
  }

  /** The last digit of a numeral is its value modulo ten; the rest is its
      value divided by ten. */
  lemma LastDigit(s: string)
    requires |s| > 0 && AllDigits(s)
    ensures DigitValue(s[|s| - 1]) == DigitsValue(s) % 10
    ensures DigitsValue(s[..|s| - 1]) == DigitsValue(s) / 10
  {
  }

  /** A numeral denoting 200 ends in the characters "200", whatever zeros
      lead it. */
  lemma {:induction false} TwoHundredEndsInTwoHundred(s: string)
    requires AllDigits(s) && DigitsValue(s) == 200
    ensures |s| >= 3 && s[|s| - 3..] == "200"
  {
    var n := |s|;
    LastDigit(s);
    var s1 := s[..n - 1];
    LastDigit(s1);
    var s2 := s1[..n - 2];
    LastDigit(s2);
    assert DigitsValue(s2) == 2;
    assert s[n - 1] == '0' && s[n - 2] == s1[n - 2] == '0' && s[n - 3] == s2[n - 3] == '2';
  }
}
