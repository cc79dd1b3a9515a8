/** Decimal numerals: printing a number in digits and reading it back. */
module Numerals {

  predicate IsDigit(c: char) {
    '0' <= c <= '9'
  }

  predicate AllDigits(s: string) {
    forall i :: 0 <= i < |s| ==> IsDigit(s[i])
  }

  function Digit(n: nat): char
    requires n < 10
  {
    ('0' as int + n) as char
  }

  function Digits(n: nat): (r: string)
    ensures r != ""
  {
    if n < 10 then [Digit(n)] else Digits(n / 10) + [Digit(n % 10)]
  }

  /** The number that digits stand for. */
  function ValueOf(digits: string): int {
    if digits == "" then 0
    else 10 * ValueOf(digits[..|digits| - 1]) + (digits[|digits| - 1] as int - '0' as int)
  }

  lemma {:induction false} DigitsAreDigits(n: nat)
    ensures AllDigits(Digits(n))
  {
    if n >= 10 {
      DigitsAreDigits(n / 10);
    }
  }

  lemma {:induction false} DigitsValue(n: nat)
    ensures ValueOf(Digits(n)) == n
  {
    if n < 10 {
      assert Digits(n)[..0] == "";
      assert ValueOf("") == 0;
    } else {
      DigitsValue(n / 10);
      var d := Digits(n);
      assert d[..|d| - 1] == Digits(n / 10);
      assert d[|d| - 1] == Digit(n % 10);
    }
  }

  /** The decimal system: ten digits, and each place ten times the next. */
  lemma DigitsAppend(n: nat, d: nat)
    requires d < 10
    ensures Digits(d) == [("0123456789")[d]]
    ensures n > 0 ==> Digits(10 * n + d) == Digits(n) + [("0123456789")[d]]
  {
    assert "0123456789" == ['0', '1', '2', '3', '4', '5', '6', '7', '8', '9'];
  }

  lemma {:induction false} ValueNotNegative(digits: string)
    requires AllDigits(digits)
    ensures ValueOf(digits) >= 0
  {
    if digits != "" {
      ValueNotNegative(digits[..|digits| - 1]);
    }
  }

  /** Two digits, with a leading zero where it takes one. */
  function Two(n: nat): string
    requires n < 100
  {
    [Digit(n / 10), Digit(n % 10)]
  }

  lemma TwoValue(n: nat)
    requires n < 100
    ensures AllDigits(Two(n)) && |Two(n)| == 2 && ValueOf(Two(n)) == n
  {
    var t := Two(n);
    assert t[..1] == [Digit(n / 10)] && t[..1][..0] == "";
    assert ValueOf("") == 0;
    assert ValueOf(t[..1]) == n / 10;
  }
}
