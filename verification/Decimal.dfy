/** Decimal notation, as `std::to_string` writes it and `std::atoi` reads it. */
module Decimal {

  predicate IsDigit(c: char) { '0' <= c <= '9' }

  function Value(c: char): nat
    requires IsDigit(c)
  {
    c as int - '0' as int
  }

  function Digit(d: nat): (c: char)
    requires d < 10
    ensures IsDigit(c) && Value(c) == d
  {
    ('0' as int + d) as char
  }

  predicate AllDigits(s: string) {
    forall i | 0 <= i < |s| :: IsDigit(s[i])
  }

  function Pow10(k: nat): (p: nat)
    ensures p > 0
  {
    if k == 0 then 1 else 10 * Pow10(k - 1)
  }

  function ToString(n: nat): string {
    if n < 10 then [Digit(n)] else ToString(n / 10) + [Digit(n % 10)]
  }

  function Number(s: string): nat
    requires AllDigits(s)
  {
    if s == "" then 0 else 10 * Number(s[..|s| - 1]) + Value(s[|s| - 1])
  }

  /** Reading what was written gives the number back. */
  lemma {:induction false} NumberRoundTrip(n: nat)
    ensures ToString(n) != "" && AllDigits(ToString(n)) && Number(ToString(n)) == n
  {
    if n < 10 {
      assert ToString(n)[..0] == "";
    } else {
      NumberRoundTrip(n / 10);
      assert ToString(n)[..|ToString(n)| - 1] == ToString(n / 10);
    }
  }

  lemma {:induction false} ToStringLength(n: nat, k: nat)
    requires k > 0
    ensures |ToString(n)| <= k <==> n < Pow10(k)
  {
    if n < 10 {
      assert Pow10(1) == 10 * Pow10(0);
      Pow10Monotone(1, k);
    } else if k > 1 {
      ToStringLength(n / 10, k - 1);
    } else {
      assert Pow10(1) == 10 * Pow10(0);
    }
  }

  lemma {:induction false} Pow10Monotone(a: nat, b: nat)
    requires a <= b
    ensures Pow10(a) <= Pow10(b)
  {
    if a < b { Pow10Monotone(a, b - 1); }
  }

  /** A number is written without a leading zero, unless it is zero. */
  lemma {:induction false} FirstDigit(n: nat)
    ensures ToString(n) != "" && (n > 0 ==> ToString(n)[0] != '0')
  {
    if n >= 10 { FirstDigit(n / 10); }
  }

  /** A digit written after a number is worth its distance from '0', and the number ten times as much. */
  lemma NumberSnoc(s: string, c: char)
    requires AllDigits(s) && '0' <= c <= '9'
    ensures AllDigits(s + [c]) && Number(s + [c]) == 10 * Number(s) + (c as int - '0' as int)
  {
    assert (s + [c])[..|s|] == s;
  }
}
