/** Numbers written in decimal digits, and read back. */
module Decimals {

  predicate IsDecimal(c: char) {
    '0' <= c <= '9'
  }

  predicate AllDecimal(s: string) {
    forall k :: 0 <= k < |s| ==> IsDecimal(s[k])
  }

  function Digit(d: nat): char
    requires d < 10
  {
    ('0' as int + d) as char
  }

  /** As an f-string writes a number. */
  function Decimal(n: nat): (s: string)
    ensures s != [] && AllDecimal(s)
  {
    if n < 10 then [Digit(n)] else Decimal(n / 10) + [Digit(n % 10)]
  }

  /** As `int` reads decimal digits. */
  function DecimalValue(s: string): nat
    requires AllDecimal(s)
  {
    if s == [] then 0
    else
      assert IsDecimal(s[|s| - 1]);
      10 * DecimalValue(s[..|s| - 1]) + (s[|s| - 1] as int - '0' as int)
  }

  lemma ValueOfLonger(s: string, d: nat)
    requires AllDecimal(s) && d < 10
    ensures AllDecimal(s + [Digit(d)])
    ensures DecimalValue(s + [Digit(d)]) == 10 * DecimalValue(s) + d
  {
    assert (s + [Digit(d)])[..|s|] == s;
  }

  function Zeros(n: nat): (s: string)
    ensures |s| == n && AllDecimal(s)
  {
    seq(n, _ => '0')
  }

  lemma {:induction false} ValueOfZeros(zeros: nat)
    ensures DecimalValue(Zeros(zeros)) == 0
  {
    if zeros > 0 {
      ValueOfZeros(zeros - 1);
      assert Zeros(zeros)[..zeros - 1] == Zeros(zeros - 1);
    }
  }

  /** Reading what was written gives the number back, also behind leading zeros. */
  lemma {:induction false} ValueOfDecimal(zeros: nat, n: nat)
    ensures AllDecimal(Zeros(zeros) + Decimal(n))
    ensures DecimalValue(Zeros(zeros) + Decimal(n)) == n
    decreases n
  {
    if n < 10 {
      ValueOfZeros(zeros);
      ValueOfLonger(Zeros(zeros), n);
      assert Decimal(n) == [Digit(n)];
    } else {
      ValueOfDecimal(zeros, n / 10);
      ValueOfLonger(Zeros(zeros) + Decimal(n / 10), n % 10);
      assert Zeros(zeros) + Decimal(n) == Zeros(zeros) + Decimal(n / 10) + [Digit(n % 10)];
    }
  }

  /** Different numbers are written differently. */
  lemma DecimalInjective(m: nat, n: nat)
    requires Decimal(m) == Decimal(n)
    ensures m == n
  {
    ValueOfDecimal(0, m);
    ValueOfDecimal(0, n);
  }
}
