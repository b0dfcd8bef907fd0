/** Decimal numerals as text. */
module Numerals {
  function Digit(n: nat): char
    requires n < 10
  {
    '0' + n as char
  }

  function Decimal(n: nat): (s: string)
    ensures |s| >= 1
  {
    if n < 10 then [Digit(n)] else Decimal(n / 10) + [Digit(n % 10)]
  }

  lemma DecimalLength(n: nat)
    requires n < 1000
    ensures |Decimal(n)| <= 3
  {
    assert n >= 10 ==> Decimal(n) == Decimal(n / 10) + [Digit(n % 10)];
    assert n >= 100 ==> Decimal(n / 10) == Decimal(n / 10 / 10) + [Digit(n / 10 % 10)];
  }

  /** A number is determined by its digits. */
  lemma {:induction false} DecimalsDiffer(m: nat, n: nat)
    requires m != n
    ensures Decimal(m) != Decimal(n)
  {
    if m >= 10 && n >= 10 {
      var a, b := Decimal(m), Decimal(n);
      assert a[..|a| - 1] == Decimal(m / 10) && b[..|b| - 1] == Decimal(n / 10);
      assert a[|a| - 1] == Digit(m % 10) && b[|b| - 1] == Digit(n % 10);
      if m / 10 != n / 10 {
        DecimalsDiffer(m / 10, n / 10);
      }
    }
  }
}
