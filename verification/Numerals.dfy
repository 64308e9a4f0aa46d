/** Canonical decimal numerals, as `0|[1-9][0-9]*` and `int` read and write them. */
module Numerals {
  import opened LineSplitting

  predicate IsDigit(c: char) { '0' <= c <= '9' }

  function DigitValue(c: char): (d: nat)
    requires IsDigit(c)
    ensures d < 10
  {
    c as int - '0' as int
  }

  function DigitChar(d: nat): (c: char)
    requires d < 10
    ensures IsDigit(c) && DigitValue(c) == d
  {
    (d + '0' as int) as char
  }

  predicate AllDigits(text: string) {
    forall i :: 0 <= i < |text| ==> IsDigit(text[i])
  }

  predicate IsNumeral(text: string) {
    text != [] && AllDigits(text) && (text[0] == '0' ==> |text| == 1)
  }

  function Value(text: string): nat
    requires AllDigits(text)
  {
    if text == [] then 0 else 10 * Value(Front(text)) + DigitValue(Last(text))
  }

  function Decimal(n: nat): (text: string)
    ensures IsNumeral(text)
    ensures n > 0 ==> text[0] != '0'
  {
    if n < 10 then [DigitChar(n)] else Decimal(n / 10) + [DigitChar(n % 10)]
  }

  lemma {:induction false} ValueOfDecimal(n: nat)
    ensures Value(Decimal(n)) == n
  {
    if n >= 10 {
      ValueOfDecimal(n / 10);
      assert Front(Decimal(n)) == Decimal(n / 10);
    }
  }

  lemma {:induction false} PositiveValue(text: string)
    requires AllDigits(text) && text != [] && text[0] != '0'
    ensures Value(text) > 0
  {
    if |text| > 1 {
      PositiveValue(Front(text));
    }
  }

  /** Each number has exactly one numeral. */
  lemma {:induction false} DecimalOfValue(text: string)
    requires IsNumeral(text)
    ensures Decimal(Value(text)) == text
  {
    if |text| == 1 {
      assert Value(Front(text)) == 0;
    } else {
      PositiveValue(Front(text));
      DecimalOfValue(Front(text));
      assert Value(text) / 10 == Value(Front(text)) && Value(text) % 10 == DigitValue(Last(text));
    }
  }

  /** The first index of `c`, or the length when it does not occur. */
  function Find(text: string, c: char): (i: nat)
    ensures i <= |text|
    ensures forall k :: 0 <= k < i ==> text[k] != c
    ensures i < |text| ==> text[i] == c
  {
    if text == [] then 0
    else
      var i := Find(Front(text), c);
      if i < |text| - 1 then i else if Last(text) == c then |text| - 1 else |text|
  }

  lemma {:induction false} FindIn(before: string, c: char, after: string)
    requires c !in before
    ensures Find(before + [c] + after, c) == |before|
  {
    var text := before + [c] + after;
    assert text[|before|] == c;
    assert forall k :: 0 <= k < |before| ==> text[k] == before[k];
  }
}
