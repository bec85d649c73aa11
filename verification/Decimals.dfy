/** Decimal notation: how a number is printed, and what a string of digits is worth. */
module Decimals {

  function Digit(d: nat): char
    requires d < 10
  {
    "0123456789"[d]
  }

  function DigitValue(c: char): nat {
    if '0' <= c <= '9' then (c as int) - ('0' as int) else 0
  }

  predicate IsNumber(line: string) {
    forall k :: 0 <= k < |line| ==> '0' <= line[k] <= '9'
  }

  function Decimal(n: nat): (r: string)
    ensures r != ""
  {
    if n < 10 then [Digit(n)] else Decimal(n / 10) + [Digit(n % 10)]
  }

  /** The value of a string of digits, as %d and atoi compute it. */
  function Parse(s: string): nat {
    if s == "" then 0 else 10 * Parse(s[..|s| - 1]) + DigitValue(s[|s| - 1])
  }

  lemma {:induction false} ParseDecimal(n: nat)
    ensures Parse(Decimal(n)) == n
    decreases n
  {
    var s := Decimal(n);
    if n >= 10 {
      ParseDecimal(n / 10);
      assert s[..|s| - 1] == Decimal(n / 10);
    } else {
      assert s[..|s| - 1] == "";
      assert Parse(s) == 10 * Parse("") + DigitValue(s[0]);
    }
  }

  lemma {:induction false} DecimalChars(n: nat, i: nat)
    requires i < |Decimal(n)|
    ensures '0' <= Decimal(n)[i] <= '9'
    decreases n
  {
    if n >= 10 && i < |Decimal(n / 10)| {
      DecimalChars(n / 10, i);
    }
  }

  lemma DecimalIsNumber(n: nat)
    ensures IsNumber(Decimal(n))
  {
    forall k | 0 <= k < |Decimal(n)| ensures '0' <= Decimal(n)[k] <= '9' {
      DecimalChars(n, k);
    }
  }

  function Zeros(k: nat): string {
    seq(k, _ => '0')
  }

  /** A string of digits is the decimal notation of its value, with zeros in front. */
  lemma {:induction false} DigitsAreDecimal(s: string) returns (k: nat)
    requires IsNumber(s) && s != ""
    ensures s == Zeros(k) + Decimal(Parse(s))
  {
    var front, c := s[..|s| - 1], s[|s| - 1];
    assert s == front + [c] && [Digit(DigitValue(c))] == [c];
    if Parse(front) == 0 {
      AllZeros(front);
      k := |front|;
    } else {
      k := DigitsAreDecimal(front);
      assert Parse(s) / 10 == Parse(front) && Parse(s) % 10 == DigitValue(c);
      assert Zeros(k) + (Decimal(Parse(front)) + [c]) == (Zeros(k) + Decimal(Parse(front))) + [c];
    }
  }

  lemma {:induction false} AllZeros(s: string)
    requires IsNumber(s) && Parse(s) == 0
    ensures s == Zeros(|s|)
  {
    if s != "" {
      AllZeros(s[..|s| - 1]);
      assert s == s[..|s| - 1] + [s[|s| - 1]];
    }
  }
}
