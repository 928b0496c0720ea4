/**
 * Decimal rendering of a natural number, as Go's `%d` verb prints a
 * non-negative `int` (the candidate labels of the response renderer).
 */
module Decimal {

  predicate IsDigit(c: char) {
    '0' <= c <= '9'
  }

  predicate AllDigits(s: string) {
    forall i :: 0 <= i < |s| ==> IsDigit(s[i])
  }

  function DigitChar(d: nat): (c: char)
    requires d < 10
    ensures IsDigit(c) && c as int - '0' as int == d
  {
    ('0' as int + d) as char
  }

  /** The `%d` text of `n`: most significant digit first, no sign, no padding. */
  function Format(n: nat): string
    decreases n
  {
    if n < 10 then [DigitChar(n)] else Format(n / 10) + [DigitChar(n % 10)]
  }

  /** Reads a string of decimal digits back into the number it denotes. */
  function Parse(s: string): nat
    requires AllDigits(s)
    decreases |s|
  {
    if s == [] then 0
    else Parse(s[..|s| - 1]) * 10 + (s[|s| - 1] as int - '0' as int)
  }

  /** Format produces a non-empty run of digits with no leading zero. */
  lemma {:induction false} FormatWellFormed(n: nat)
    ensures |Format(n)| > 0
    ensures AllDigits(Format(n))
    ensures Format(n)[0] == '0' <==> n == 0
    decreases n
  {
    if n >= 10 {
      FormatWellFormed(n / 10);
      var s := Format(n / 10);
      assert Format(n) == s + [DigitChar(n % 10)];
      assert Format(n)[0] == s[0];
    }
  }

  /** Format is injective: Parse inverts it. */
  lemma {:induction false} ParseFormat(n: nat)
    ensures AllDigits(Format(n))
    ensures Parse(Format(n)) == n
    decreases n
  {
    FormatWellFormed(n);
    if n >= 10 {
      ParseFormat(n / 10);
      var s := Format(n);
      assert s[..|s| - 1] == Format(n / 10);
    }
  }
}
