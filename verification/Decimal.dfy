/** Decimal numerals, as the standard library prints and reads them. */
module Decimal {

  predicate IsDigit(c: char) {
    '0' <= c <= '9'
  }

  predicate AllDigits(s: string) {
    forall i :: 0 <= i < |s| ==> IsDigit(s[i])
  }

  function DigitOf(d: nat): (c: char)
    requires d < 10
    ensures IsDigit(c) && DigitValue(c) == d
  {
    ('0' as int + d) as char
  }

  function DigitValue(c: char): nat
    requires IsDigit(c)
  {
    c as int - '0' as int
  }

  /** The decimal form of n, without leading zeros. */
  function Itoa(n: nat): (s: string)
    ensures |s| > 0 && AllDigits(s)
    ensures Value(s) == n
    ensures s[0] == '0' ==> n == 0
  {
    if n < 10 then
      assert [DigitOf(n)][..0] == [];
      [DigitOf(n)]
    else
      var s := Itoa(n / 10) + [DigitOf(n % 10)];
      assert s[..|s| - 1] == Itoa(n / 10);
      s
  }

  /** The number a string of digits denotes; leading zeros do not matter. */
  function Value(s: string): nat
    requires AllDigits(s)
  {
    if s == [] then 0 else Value(s[..|s| - 1]) * 10 + DigitValue(s[|s| - 1])
  }

  function Zeros(n: nat): (s: string)
    ensures |s| == n && AllDigits(s)
  {
    seq(n, _ => '0')
  }

  lemma {:induction false} ValueOfPadded(n: nat, s: string)
    requires AllDigits(s)
    ensures Value(Zeros(n) + s) == Value(s)
  {
    if s != [] {
      assert (Zeros(n) + s)[..n + |s| - 1] == Zeros(n) + s[..|s| - 1];
      ValueOfPadded(n, s[..|s| - 1]);
    } else if n > 0 {
      assert Zeros(n) + [] == Zeros(n) && Zeros(n - 1) + [] == Zeros(n - 1);
      assert Zeros(n)[..n - 1] == Zeros(n - 1);
      ValueOfPadded(n - 1, []);
    } else {
      assert Zeros(0) + [] == [];
    }
  }

  /** Different numbers print differently. */
  lemma ItoaInjective(m: nat, n: nat)
    ensures Itoa(m) == Itoa(n) <==> m == n
  {
    assert Value(Itoa(m)) == m && Value(Itoa(n)) == n;
  }
}
