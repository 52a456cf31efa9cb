/** Integers in decimal notation. */
module Decimals {
  function Digit(n: nat): char
    requires n < 10
  {
    ('0' as int + n) as char
  }

  function Digits(n: nat): string {
    if n < 10 then [Digit(n)] else Digits(n / 10) + [Digit(n % 10)]
  }

  function Decimal(i: int): string {
    if i < 0 then "-" + Digits(-i) else Digits(i)
  }

  lemma {:induction false} DigitsNonEmpty(n: nat)
    ensures |Digits(n)| > 0 && forall i :: 0 <= i < |Digits(n)| ==> '0' <= Digits(n)[i] <= '9'
  {
    if n >= 10 {
      DigitsNonEmpty(n / 10);
    }
  }

  lemma DigitsEnd(n: nat)
    ensures var s := Digits(n);
            |s| > 0 && s[|s| - 1] == Digit(n % 10) && s[..|s| - 1] == if n < 10 then "" else Digits(n / 10)
  {
  }

  lemma {:induction false} DigitsInjective(a: nat, b: nat)
    requires Digits(a) == Digits(b)
    ensures a == b
  {
    DigitsEnd(a);
    DigitsEnd(b);
    DigitsNonEmpty(a / 10);
    DigitsNonEmpty(b / 10);
    if a >= 10 {
      assert b >= 10;
      DigitsInjective(a / 10, b / 10);
    }
  }

  lemma DecimalCharacters(i: int)
    ensures var s := Decimal(i);
            s != "" && (s[0] == '-' <==> i < 0) && forall k :: 0 <= k < |s| ==> s[k] == '-' || '0' <= s[k] <= '9'
  {
    DigitsNonEmpty(if i < 0 then -i else i);
  }

  lemma DecimalInjective(i: int, j: int)
    requires Decimal(i) == Decimal(j)
    ensures i == j
  {
    DecimalCharacters(i);
    DecimalCharacters(j);
    if i < 0 {
      assert Decimal(i)[1..] == Digits(-i) && Decimal(j)[1..] == Digits(-j);
      DigitsInjective(-i, -j);
    } else {
      DigitsInjective(i, j);
    }
  }

  // ---- what a numeral means

  /** The value of a numeral by its positions: ten times what precedes the last
      character, plus that character. */
  function NumeralValue(s: string): int {
    if s == "" then 0 else 10 * NumeralValue(s[..|s| - 1]) + (s[|s| - 1] as int - '0' as int)
  }

  /** Digits without a needless leading zero. */
  predicate Numeral(s: string) {
    && s != "" && (forall i :: 0 <= i < |s| ==> '0' <= s[i] <= '9')
    && (s[0] == '0' ==> |s| == 1)
  }

  lemma {:induction false} DigitsMeanNumber(n: nat)
    ensures NumeralValue(Digits(n)) == n && Numeral(Digits(n))
    ensures n > 0 ==> Digits(n)[0] != '0'
  {
    if n >= 10 {
      DigitsMeanNumber(n / 10);
      var s := Digits(n);
      assert s[..|s| - 1] == Digits(n / 10) && s[0] == Digits(n / 10)[0];
    }
  }

  /** A decimal is a numeral, or a minus sign and one that is not zero. */
  lemma DecimalMeansInteger(i: int)
    ensures var s := Decimal(i);
            if i >= 0 then Numeral(s) && NumeralValue(s) == i
            else s != "" && s[0] == '-' && Numeral(s[1..]) && NumeralValue(s[1..]) == -i
  {
    DigitsMeanNumber(if i < 0 then -i else i);
    if i < 0 {
      assert Decimal(i)[1..] == Digits(-i);
    }
  }
}
