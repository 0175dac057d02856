/** Decimal rendering as done by `%d`, and what the callers rely on: distinct
    numbers never render to the same text. */
module Text {

  function Digit(d: nat): char
    requires d < 10
  {
    "0123456789"[d]
  }

  function DecimalNat(n: nat): string {
    if n < 10 then [Digit(n)] else DecimalNat(n / 10) + [Digit(n % 10)]
  }

  function Decimal(n: int): string {
    if n < 0 then "-" + DecimalNat(-n) else DecimalNat(n)
  }

  function DigitValue(c: char): nat {
    if '0' <= c <= '9' then c as int - '0' as int else 0
  }

  /** The number a text of digits denotes. */
  function ValueOf(s: string): nat {
    if s == "" then 0 else 10 * ValueOf(s[..|s| - 1]) + DigitValue(s[|s| - 1])
  }

  ghost predicate AllDigits(s: string) {
    forall i | 0 <= i < |s| :: '0' <= s[i] <= '9'
  }

  lemma DigitReadsBack(d: nat)
    requires d < 10
    ensures '0' <= Digit(d) <= '9' && DigitValue(Digit(d)) == d
  {
  }

  lemma AppendDigit(s: string, c: char)
    ensures ValueOf(s + [c]) == 10 * ValueOf(s) + DigitValue(c)
    ensures AllDigits(s) && '0' <= c <= '9' ==> AllDigits(s + [c])
  {
    assert (s + [c])[..|s|] == s;
  }

  lemma {:induction false} DecimalNatReadsBack(n: nat)
    ensures ValueOf(DecimalNat(n)) == n
    ensures AllDigits(DecimalNat(n)) && |DecimalNat(n)| > 0
  {
    if n < 10 {
      assert DecimalNat(n) == [Digit(n)];
      assert [Digit(n)][..0] == "";
    } else {
      DecimalNatReadsBack(n / 10);
      DigitReadsBack(n % 10);
      AppendDigit(DecimalNat(n / 10), Digit(n % 10));
      assert 10 * (n / 10) + n % 10 == n;
    }
  }

  lemma DecimalOfNat(n: nat)
    ensures AllDigits(Decimal(n)) && ValueOf(Decimal(n)) == n
  {
    DecimalNatReadsBack(n);
  }

  lemma DecimalInjective(m: int, n: int)
    requires Decimal(m) == Decimal(n)
    ensures m == n
  {
    DecimalNatReadsBack(if m < 0 then -m else m);
    DecimalNatReadsBack(if n < 0 then -n else n);
    assert Decimal(m)[0] == '-' <==> m < 0;
    assert Decimal(n)[0] == '-' <==> n < 0;
    if m < 0 {
      assert Decimal(m)[1..] == DecimalNat(-m) && Decimal(n)[1..] == DecimalNat(-n);
    }
  }
}
