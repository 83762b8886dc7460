/** Decimal numerals as Rust's `to_string` writes them. */
module Decimal {

  predicate IsDigit(c: char) {
    '0' <= c <= '9'
  }

  predicate AllDigits(s: string) {
    forall i :: 0 <= i < |s| ==> IsDigit(s[i])
  }

  function DigitChar(d: nat): (c: char)
    requires d < 10
    ensures IsDigit(c) && c as int == '0' as int + d
  {
    ('0' as int + d) as char
  }

  function Numeral(n: nat): (s: string)
    ensures s != "" && AllDigits(s)
  {
    if n < 10 then [DigitChar(n)] else Numeral(n / 10) + [DigitChar(n % 10)]
  }

  function SignedNumeral(n: int): (s: string)
    ensures s != ""
  {
    if n < 0 then "-" + Numeral(-n) else Numeral(n)
  }

  /** Distinct numbers have distinct numerals. */
  lemma {:induction false} NumeralInjective(m: nat, n: nat)
    requires Numeral(m) == Numeral(n)
    ensures m == n
  {
    var a, b := Numeral(m), Numeral(n);
    assert a[|a| - 1] == b[|b| - 1];
    assert m >= 10 ==> a[..|a| - 1] == Numeral(m / 10);
    assert n >= 10 ==> b[..|b| - 1] == Numeral(n / 10);
    if m >= 10 && n >= 10 {
      NumeralInjective(m / 10, n / 10);
    }
  }
}
