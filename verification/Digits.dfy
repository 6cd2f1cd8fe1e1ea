/** Decimal numerals, as printed by Python's `str` and read by `int` and by awk. */
module Digits {
  import opened Prelude

  predicate IsDigit(c: char) {
    '0' <= c <= '9'
  }

  function DigitValue(c: char): nat
    requires IsDigit(c)
  {
    (c - '0') as nat
  }

  function DigitChar(d: nat): char
    requires d < 10
  {
    '0' + d as char
  }

  predicate AllDigits(s: string) {
    forall i :: 0 <= i < |s| ==> IsDigit(s[i])
  }

  /** The numeral of `n`, without leading zeros. */
  function Decimal(n: nat): (s: string)
    ensures s != [] && AllDigits(s)
  {
    if n < 10 then [DigitChar(n)] else Decimal(n / 10) + [DigitChar(n % 10)]
  }

  /** The value of a string of digits; leading zeros are allowed, and no digits count as zero. */
  function Value(s: string): nat
    requires AllDigits(s)
  {
    if s == [] then 0 else Value(s[..|s| - 1]) * 10 + DigitValue(s[|s| - 1])
  }

  lemma {:induction false} ValueOfDecimal(n: nat)
    ensures Value(Decimal(n)) == n
  {
    if n >= 10 {
      ValueOfDecimal(n / 10);
      assert Decimal(n)[..|Decimal(n)| - 1] == Decimal(n / 10);
    }
  }

  lemma {:induction false} DecimalHasNoLeadingZero(n: nat)
    requires 0 < n
    ensures Decimal(n)[0] != '0'
  {
    if n >= 10 {
      DecimalHasNoLeadingZero(n / 10);
    }
  }

  /** The digits are '0' to '9', each with its own value. */
  lemma DigitsInOrder(c: char)
    ensures IsDigit(c) <==> c in "0123456789"
    ensures IsDigit(c) ==> "0123456789"[DigitValue(c)] == c && DigitChar(DigitValue(c)) == c
  {
  }

  /** A string of digits without leading zeros is the numeral of its value. */
  lemma {:induction false} DecimalOfValue(s: string)
    requires s != "" && AllDigits(s) && (s[0] != '0' || s == "0")
    ensures Decimal(Value(s)) == s
    ensures s[0] != '0' ==> 0 < Value(s)
  {
    var init, last := s[..|s| - 1], s[|s| - 1];
    if |s| == 1 {
      assert init == "";
      assert Decimal(Value(s)) == [last];
    } else {
      DecimalOfValue(init);
      var d: nat := DigitValue(last);
      assert Value(s) / 10 == Value(init) && Value(s) % 10 == d;
      assert s == init + [last];
    }
  }
}
