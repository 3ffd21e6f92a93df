/** Decimal numerals, as fmt prints them. */
module Decimal {

  predicate IsDigit(c: char) {
    '0' <= c <= '9'
  }

  function DigitValue(c: char): nat
    requires IsDigit(c)
  {
    (c - '0') as int
  }

  function Digit(d: nat): (c: char)
    requires d < 10
    ensures IsDigit(c) && DigitValue(c) == d
  {
    '0' + d as char
  }

  function Show(n: nat): (s: string)
    ensures s != "" && AllDigits(s) && ValueOf(s) == n
  {
    if n < 10 then
      assert [Digit(n)][..0] == [];
      [Digit(n)]
    else
      var s := Show(n / 10) + [Digit(n % 10)];
      assert s[..|s| - 1] == Show(n / 10);
      s
  }

  predicate AllDigits(s: string) {
    forall i :: 0 <= i < |s| ==> IsDigit(s[i])
  }

  function ValueOf(s: string): nat
    requires AllDigits(s)
  {
    if s == [] then 0 else 10 * ValueOf(s[..|s| - 1]) + DigitValue(s[|s| - 1])
  }

  /** More digits never make a smaller number. */
  lemma {:induction false} ValueGrows(s: string, t: string)
    requires AllDigits(s + t)
    ensures AllDigits(s) && ValueOf(s) <= ValueOf(s + t)
  {
    assert forall i :: 0 <= i < |s| ==> (s + t)[i] == s[i];
    if t == [] {
      assert s + t == s;
    } else {
      assert (s + t)[..|s + t| - 1] == s + t[..|t| - 1];
      ValueGrows(s, t[..|t| - 1]);
    }
  }

  lemma ShowInjective(m: nat, n: nat)
    requires Show(m) == Show(n)
    ensures m == n
  {
    assert ValueOf(Show(m)) == ValueOf(Show(n));
  }

  /** A numeral that starts with the digits of m and then d is at least 10m + d. */
  lemma LongerNumeral(n: nat, m: nat, t: string)
    requires Show(n) == Show(m) + t && t != []
    ensures IsDigit(t[0]) && n >= 10 * m + DigitValue(t[0])
  {
    var s := Show(m) + [t[0]];
    assert Show(n) == s + t[1..];
    assert Show(n)[|Show(m)|] == t[0];
    ValueGrows(s, t[1..]);
    assert s[..|s| - 1] == Show(m);
  }

  /** Appending a digit to a positive number's numeral gives the numeral of the next decade. */
  lemma AppendDigit(m: nat, d: nat)
    requires m > 0 && d < 10
    ensures Show(10 * m + d) == Show(m) + [Digit(d)]
  {
    var n := 10 * m + d;
    assert n / 10 == m && n % 10 == d;
  }
}
