/** Decimal numerals. */
module Decimals {

  predicate IsDigit(c: char) {
    '0' <= c <= '9'
  }

  predicate AllDigits(s: string) {
    forall i :: 0 <= i < |s| ==> IsDigit(s[i])
  }

  predicate IsNumber(s: string) {
    s != "" && AllDigits(s)
  }

  /** A numeral as it is printed: digits, with no zero in front of others. */
  predicate Canonical(s: string) {
    IsNumber(s) && (s[0] == '0' ==> |s| == 1)
  }

  /** `int(s)` */
  function Number(s: string): nat
    requires AllDigits(s)
    decreases |s|
  {
    if s == "" then 0 else 10 * Number(s[..|s| - 1]) + (s[|s| - 1] as int - '0' as int)
  }

  /** `'%d' % n` */
  function Numeral(n: nat): (s: string)
    ensures IsNumber(s)
    decreases n
  {
    if n < 10 then [('0' as int + n) as char] else Numeral(n / 10) + [('0' as int + n % 10) as char]
  }

  lemma {:induction false} NumeralCanonical(n: nat)
    ensures Canonical(Numeral(n)) && Number(Numeral(n)) == n
    ensures n > 0 ==> Numeral(n)[0] != '0'
    decreases n
  {
    var s := Numeral(n);
    if n >= 10 {
      NumeralCanonical(n / 10);
      assert s[..|s| - 1] == Numeral(n / 10);
    } else {
      assert s[..0] == "";
    }
  }

  lemma {:induction false} NumberPositive(s: string)
    requires Canonical(s) && s[0] != '0'
    ensures Number(s) > 0
    decreases |s|
  {
    if |s| > 1 { NumberPositive(s[..|s| - 1]); }
  }

  /** Only one printed numeral stands for a number. */
  lemma {:induction false} CanonicalIsNumeral(s: string)
    requires Canonical(s)
    ensures Numeral(Number(s)) == s
    decreases |s|
  {
    var front, last := s[..|s| - 1], s[|s| - 1];
    var d := last as int - '0' as int;
    assert s == front + [last];
    if |s| == 1 {
      assert Number(front) == 0;
      assert Numeral(d) == [last];
    } else {
      NumberPositive(front);
      CanonicalIsNumeral(front);
      assert Number(s) / 10 == Number(front) && Number(s) % 10 == d;
    }
  }
}
