/** Decimal numerals: printing a natural number and reading it back. */
module Digits {
  import opened Wrappers

  predicate IsDigit(c: char) {
    '0' <= c <= '9'
  }

  predicate AllDigits(s: string) {
    forall i | 0 <= i < |s| :: IsDigit(s[i])
  }

  function DigitChar(d: nat): (c: char)
    requires d < 10
    ensures IsDigit(c) && DigitValue(c) == d
  {
    '0' + d as char
  }

  function DigitValue(c: char): (d: nat)
    requires IsDigit(c)
    ensures d < 10
  {
    (c - '0') as nat
  }

  /** No leading zero, except for zero itself. */
  function Print(n: nat): (s: string)
    ensures s != "" && AllDigits(s)
    ensures n != 0 ==> s[0] != '0'
  {
    if n < 10 then [DigitChar(n)] else Print(n / 10) + [DigitChar(n % 10)]
  }

  /** The value of a run of digits, leading zeros and all. */
  function ValueOf(s: string): nat
    requires AllDigits(s)
  {
    if s == "" then 0 else 10 * ValueOf(s[..|s| - 1]) + DigitValue(s[|s| - 1])
  }

  lemma {:induction false} ValueInvertsPrint(n: nat)
    ensures ValueOf(Print(n)) == n
  {
    if n >= 10 {
      ValueInvertsPrint(n / 10);
      assert Print(n)[..|Print(n)| - 1] == Print(n / 10);
    }
  }

  lemma {:induction false} LeadingZerosAreWorthless(s: string, zeros: nat)
    requires AllDigits(s)
    ensures AllDigits(Zeros(zeros) + s) && ValueOf(Zeros(zeros) + s) == ValueOf(s)
    decreases |s|
  {
    if s == "" {
      ZerosAreZero(zeros);
      assert Zeros(zeros) + s == Zeros(zeros);
    } else {
      LeadingZerosAreWorthless(s[..|s| - 1], zeros);
      assert (Zeros(zeros) + s)[..zeros + |s| - 1] == Zeros(zeros) + s[..|s| - 1];
    }
  }

  function Zeros(n: nat): (s: string)
    ensures |s| == n && AllDigits(s)
  {
    seq(n, _ => '0')
  }

  /** Zeros in front up to the width; a longer numeral stays as it is. */
  function RightJustify(s: string, width: nat): string {
    Zeros(if |s| < width then width - |s| else 0) + s
  }

  lemma {:induction false} ZerosAreZero(n: nat)
    ensures ValueOf(Zeros(n)) == 0
  {
    if n > 0 {
      assert Zeros(n)[..n - 1] == Zeros(n - 1);
      ZerosAreZero(n - 1);
    }
  }

  /** Appending digits shifts what is before them. */
  lemma {:induction false} ValueOfTwoMore(s: string, tens: nat, ones: nat)
    requires AllDigits(s) && tens < 10 && ones < 10
    ensures AllDigits(s + [DigitChar(tens), DigitChar(ones)])
    ensures ValueOf(s + [DigitChar(tens), DigitChar(ones)]) == 100 * ValueOf(s) + 10 * tens + ones
  {
    var one := s + [DigitChar(tens)];
    var two := s + [DigitChar(tens), DigitChar(ones)];
    assert two[..|two| - 1] == one && one[..|one| - 1] == s;
  }

  const LONG_MAX: int := 0x7fff_ffff_ffff_ffff

  /** `Long.parseLong` on ASCII text; `None` is NumberFormatException. */
  function ParseLong(s: string): Option<int> {
    var negative := s != "" && s[0] == '-';
    var digits := if s != "" && s[0] in {'-', '+'} then s[1..] else s;
    if digits == "" || !AllDigits(digits) then None
    else
      var v: int := ValueOf(digits);
      var n := if negative then -v else v;
      if -LONG_MAX - 1 <= n <= LONG_MAX then Some(n) else None
  }

  /** Python's `int` on ASCII digits with an optional sign. */
  function ParseInt(s: string): Option<int> {
    var digits := if s != "" && s[0] in {'-', '+'} then s[1..] else s;
    if digits == "" || !AllDigits(digits) then None
    else
      var v: int := ValueOf(digits);
      Some(if s[0] == '-' then -v else v)
  }

  lemma {:induction false} BothReadersReadPrinted(n: nat)
    ensures ParseInt(Print(n)) == Some(n)
    ensures n <= LONG_MAX ==> ParseLong(Print(n)) == Some(n)
  {
    ValueInvertsPrint(n);
    assert IsDigit(Print(n)[0]);
  }

  /** A long is refused beyond its range, by its sign; Python reads any. */
  lemma {:induction false} LongRangeExactly(n: int)
    requires n >= 0
    ensures ParseLong(Print(n)) == if n <= 9_223_372_036_854_775_807 then Some(n) else None
    ensures ParseLong("-" + Print(n)).Some? <==> n <= 9_223_372_036_854_775_808
    ensures ParseLong("-" + Print(n)).Some? ==> ParseLong("-" + Print(n)).value == -n
    ensures ParseInt("-" + Print(n)).Some? && ParseInt("-" + Print(n)).value == -n
  {
    BothReadersReadPrinted(n);
    ValueInvertsPrint(n);
    assert ("-" + Print(n))[1..] == Print(n);
    assert IsDigit(Print(n)[0]);
  }

  /** Anything but an optional sign and ASCII digits is no number to either. */
  lemma {:induction false} NumeralsExactly(s: string)
    ensures var digits := if s != "" && s[0] in {'-', '+'} then s[1..] else s;
            var isNumeral := digits != "" && forall c | c in digits :: '0' <= c <= '9';
            (ParseInt(s).Some? <==> isNumeral) && (ParseLong(s).Some? ==> isNumeral)
  {
    var digits := if s != "" && s[0] in {'-', '+'} then s[1..] else s;
    assert AllDigits(digits) <==> forall c | c in digits :: '0' <= c <= '9' by {
      assert forall i | 0 <= i < |digits| :: digits[i] in digits;
    }
  }
}
