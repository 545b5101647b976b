/** The four-digit, zero-padded score shown on the score board. */
module ScoreFormat {
  import opened JsValues

  /** `("" + (10000 + num)).substring(1)`: the decimal text of `10000 + num` without its first character. */
  function FormatNumber(num: int): string {
    IntToString(10000 + num)[1..]
  }

  /** The four decimal digits of `n`, thousands first. */
  function Digits4(n: nat): (r: string)
    requires n <= 9999
    ensures |r| == 4 && AllDigits(r)
  {
    [DigitChar(n / 1000), DigitChar(n / 100 % 10), DigitChar(n / 10 % 10), DigitChar(n % 10)]
  }

  lemma DigitCharValue(d: nat)
    requires d < 10
    ensures DigitValue(DigitChar(d)) == d
  {
  }

  /** `10000 + n` prints as a one followed by the four digits of `n`. */
  lemma TenThousandPlus(n: nat)
    requires n <= 9999
    ensures NatToString(10000 + n) == ['1'] + Digits4(n)
  {
    var m := 10000 + n;
    assert m / 10 == 1000 + n / 10 && m % 10 == n % 10;
    assert (1000 + n / 10) / 10 == 100 + n / 100 && (1000 + n / 10) % 10 == n / 10 % 10;
    assert (100 + n / 100) / 10 == 10 + n / 1000 && (100 + n / 100) % 10 == n / 100 % 10;
    assert (10 + n / 1000) / 10 == 1 && (10 + n / 1000) % 10 == n / 1000;
    assert NatToString(10 + n / 1000) == ['1', DigitChar(n / 1000)];
    assert NatToString(100 + n / 100) == ['1', DigitChar(n / 1000), DigitChar(n / 100 % 10)];
    assert NatToString(1000 + n / 10) == ['1', DigitChar(n / 1000), DigitChar(n / 100 % 10), DigitChar(n / 10 % 10)];
  }

  /** For a score from 0 to 9999 the text is its four digits, padded with zeros. */
  lemma FormatIsDigits4(n: int)
    requires 0 <= n <= 9999
    ensures FormatNumber(n) == Digits4(n)
  {
    TenThousandPlus(n);
    assert IntToString(10000 + n) == NatToString(10000 + n);
  }

  /** Appending a digit multiplies the value by ten and adds the digit. */
  lemma DigitsSnoc(s: string, c: char)
    requires AllDigits(s) && IsDigit(c)
    ensures AllDigits(s + [c]) && DigitsValue(s + [c]) == DigitsValue(s) * 10 + DigitValue(c)
  {
    assert (s + [c])[..|s|] == s;
  }

  /** For a score from 0 to 9999 the text has exactly four decimal digits and reads back as the score. */
  lemma FormatNumberRoundTrip(n: int)
    requires 0 <= n <= 9999
    ensures |FormatNumber(n)| == 4 && AllDigits(FormatNumber(n))
    ensures DigitsValue(FormatNumber(n)) == n
  {
    FormatIsDigits4(n);
    var d0, d1, d2, d3 := DigitChar(n / 1000), DigitChar(n / 100 % 10), DigitChar(n / 10 % 10), DigitChar(n % 10);
    DigitCharValue(n / 1000);
    DigitCharValue(n / 100 % 10);
    DigitCharValue(n / 10 % 10);
    DigitCharValue(n % 10);
    assert [] + [d0] == [d0];
    DigitsSnoc([], d0);
    DigitsSnoc([d0], d1);
    assert [d0] + [d1] == [d0, d1];
    DigitsSnoc([d0, d1], d2);
    assert [d0, d1] + [d2] == [d0, d1, d2];
    DigitsSnoc([d0, d1, d2], d3);
    assert [d0, d1, d2] + [d3] == Digits4(n);
    DecimalSteps(n);
  }

  /** Each leading-digit prefix of `n` is ten times the next shorter one plus its last digit. */
  lemma DecimalSteps(n: nat)
    ensures n / 1000 * 10 + n / 100 % 10 == n / 100
    ensures n / 100 * 10 + n / 10 % 10 == n / 10
    ensures n / 10 * 10 + n % 10 == n
  {
    var q1 := n / 10;
    var q2 := n / 100;
    assert q2 == q1 / 10;
    assert n / 1000 == q2 / 10;
  }

  /** A score below 1000 is padded with a leading zero. */
  lemma FormatPadsWithZero(n: int)
    requires 0 <= n < 1000
    ensures FormatNumber(n)[0] == '0'
  {
    FormatIsDigits4(n);
  }
}
