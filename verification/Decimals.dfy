/** Numbers as text with six decimals, and the numbers that such text tells apart. */
module Decimals {

  function Digit(d: nat): char
    requires d < 10
  {
    "0123456789"[d]
  }

  predicate IsDigit(c: char) { '0' <= c <= '9' }

  predicate AllDigits(s: string) { forall i :: 0 <= i < |s| ==> IsDigit(s[i]) }

  lemma DigitInjective(a: nat, b: nat)
    requires a < 10 && b < 10
    ensures IsDigit(Digit(a)) && (Digit(a) == Digit(b) ==> a == b)
  {
    assert Digit(a) as int == '0' as int + a && Digit(b) as int == '0' as int + b;
  }

  /** The decimal digits of a number, without leading zeros. */
  function Digits(n: nat): string {
    if n < 10 then [Digit(n)] else Digits(n / 10) + [Digit(n % 10)]
  }

  /** The last `width` decimal digits of a number. */
  function Fixed(n: nat, width: nat): string {
    if width == 0 then "" else Fixed(n / 10, width - 1) + [Digit(n % 10)]
  }

  lemma {:induction false} DigitsOnly(n: nat)
    ensures Digits(n) != "" && AllDigits(Digits(n))
  {
    DigitInjective(n % 10, n % 10);
    if n >= 10 {
      DigitsOnly(n / 10);
    }
  }

  lemma {:induction false} FixedOnly(n: nat, width: nat)
    ensures |Fixed(n, width)| == width && AllDigits(Fixed(n, width))
  {
    if width > 0 {
      DigitInjective(n % 10, n % 10);
      FixedOnly(n / 10, width - 1);
    }
  }

  lemma SameLast(a: string, c: char, b: string, d: char)
    requires a + [c] == b + [d]
    ensures a == b && c == d
  {
    assert (a + [c])[|a|] == c && (b + [d])[|b|] == d;
    assert a == (a + [c])[..|a|] && b == (b + [d])[..|b|];
  }

  lemma {:induction false} DigitsInjective(n: nat, m: nat)
    requires Digits(n) == Digits(m)
    ensures n == m
  {
    DigitInjective(n % 10, m % 10);
    if n >= 10 && m >= 10 {
      SameLast(Digits(n / 10), Digit(n % 10), Digits(m / 10), Digit(m % 10));
      DigitsInjective(n / 10, m / 10);
    } else {
      DigitsOnly(n / 10);
      DigitsOnly(m / 10);
      assert |Digits(n)| == 1 <==> n < 10;
      assert |Digits(m)| == 1 <==> m < 10;
    }
  }

  function Power(width: nat): nat {
    if width == 0 then 1 else 10 * Power(width - 1)
  }

  lemma {:induction false} FixedInjective(n: nat, m: nat, width: nat)
    requires n < Power(width) && m < Power(width) && Fixed(n, width) == Fixed(m, width)
    ensures n == m
  {
    if width > 0 {
      DigitInjective(n % 10, m % 10);
      SameLast(Fixed(n / 10, width - 1), Digit(n % 10), Fixed(m / 10, width - 1), Digit(m % 10));
      FixedInjective(n / 10, m / 10, width - 1);
    }
  }

  const MILLION := 1000000

  /** How many millionths a number holds. */
  function Millionths(x: real): nat {
    if x < 0.0 then 0 else (x * 1000000.0).Floor
  }

  function Whole(x: real): string { Digits(Millionths(x) / MILLION) }

  function SixDecimals(x: real): string { Fixed(Millionths(x) % MILLION, 6) }

  /** The numbers of at least zero with no more than six decimals. */
  ghost function WholeMillionths(): iset<real> {
    iset x: real | x >= 0.0 && Millionths(x) as real == x * 1000000.0
  }

  lemma MillionthsRendered(x: real)
    ensures Whole(x) != "" && AllDigits(Whole(x)) && |SixDecimals(x)| == 6 && AllDigits(SixDecimals(x))
  {
    DigitsOnly(Millionths(x) / MILLION);
    FixedOnly(Millionths(x) % MILLION, 6);
  }

  /** Numbers with six decimals are told apart by their text. */
  lemma MillionthsInjective(x: real, y: real)
    requires x in WholeMillionths() && y in WholeMillionths()
    requires Whole(x) == Whole(y) && SixDecimals(x) == SixDecimals(y)
    ensures x == y
  {
    var n, m := Millionths(x), Millionths(y);
    DigitsInjective(n / MILLION, m / MILLION);
    assert Power(6) == MILLION by {
      assert Power(2) == 100 && Power(4) == 100 * Power(2);
    }
    FixedInjective(n % MILLION, m % MILLION, 6);
    assert n == MILLION * (n / MILLION) + n % MILLION && m == MILLION * (m / MILLION) + m % MILLION;
    assert x * 1000000.0 == y * 1000000.0;
  }
}
