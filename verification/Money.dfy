/**
 * Amounts on their way through the lane: formatted in whole cents by the source, read as a decimal,
 * quantized under Python's default 28 digits, and written as the text the target receives.
 */
module Money {
  import opened Wrappers
  import opened Digits
  import Text

  // ---- the source's format --------------------------------------------------------------------

  function Abs(n: int): nat {
    if n < 0 then -n else n
  }

  function TwoDigits(n: nat): (s: string)
    requires n < 100
    ensures |s| == 2 && AllDigits(s)
  {
    [DigitChar(n / 10), DigitChar(n % 10)]
  }

  function FmtBalance(cents: int): string {
    (if cents < 0 then "-" else "+") + RightJustify(Print(Abs(cents) / 100), 11) + "." + TwoDigits(Abs(cents) % 100)
  }

  /** A sign, at least eleven digits, filled up with zeros, a point and two digits. */
  lemma {:induction false} BalanceSays(cents: int)
    ensures var text := FmtBalance(cents);
            && |text| >= 15 && text[0] == (if cents < 0 then '-' else '+') && text[|text| - 3] == '.'
            && (Abs(cents) < 10 ==> |text| == 15 && text[1..12] == "00000000000" && text[13] == '0')
  {
    var text, whole := FmtBalance(cents), RightJustify(Print(Abs(cents) / 100), 11);
    assert text == (if cents < 0 then "-" else "+") + (whole + ("." + TwoDigits(Abs(cents) % 100)));
    if Abs(cents) < 10 {
      assert Print(0) == "0" && whole == Zeros(10) + "0" == "00000000000";
      assert text[1..12] == whole;
    }
  }

  // ---- decimals -------------------------------------------------------------------------------

  /** (-1)^negative * coefficient * 10^-places; a zero keeps its sign. */
  datatype Dec = Dec(negative: bool, coefficient: nat, places: nat)

  /** `Decimal(text)` on a plain numeral: a sign, digits, a point among them. */
  function PlainDecimal(text: string): Option<Dec> {
    if text != "" && text[0] in {'-', '+'} then Unsigned(text[0] == '-', text[1..]) else Unsigned(false, text)
  }

  function Unsigned(negative: bool, body: string): Option<Dec> {
    var parts := Text.Split(body, '.');
    var whole, fraction := parts[0], if |parts| == 2 then parts[1] else "";
    if |parts| <= 2 && whole + fraction != "" && AllDigits(whole + fraction)
    then Some(Dec(negative, ValueOf(whole + fraction), |fraction|))
    else None
  }

  function Pow10(n: nat): (p: nat)
    ensures p > 0
  {
    if n == 0 then 1 else 10 * Pow10(n - 1)
  }

  function RoundHalfEven(c: nat, unit: nat): nat
    requires unit > 0
  {
    var q, twice := c / unit, 2 * (c % unit);
    if twice > unit || (twice == unit && q % 2 == 1) then q + 1 else q
  }

  lemma {:induction false} RoundsToNearest(c: nat, unit: nat)
    requires unit > 0
    ensures 2 * (unit * RoundHalfEven(c, unit) - c) <= unit && 2 * (c - unit * RoundHalfEven(c, unit)) <= unit
    ensures 2 * (c % unit) == unit ==> RoundHalfEven(c, unit) % 2 == 0
  {
    assert c == unit * (c / unit) + c % unit;
    assert unit * (c / unit + 1) == unit * (c / unit) + unit;
  }

  const LIMIT: nat := 10_000_000_000_000_000_000_000_000_000

  /** `None` is InvalidOperation: the result would need more than 28 digits. */
  function Quantize(d: Dec, places: nat): Option<Dec> {
    var c := if d.places <= places then d.coefficient * Pow10(places - d.places)
             else RoundHalfEven(d.coefficient, Pow10(d.places - places));
    if c < LIMIT then Some(Dec(d.negative, c, places)) else None
  }

  /** `str(decimal)`. */
  function DecimalText(d: Dec): string {
    var digits := Print(d.coefficient);
    var left := |digits| - d.places;
    var dot := if left > -6 then left else 1;
    (if d.negative then "-" else "") +
    (if dot <= 0 then "0." + Zeros(-dot) + digits
     else if dot >= |digits| then digits
     else digits[..dot] + "." + digits[dot..]) +
    (if left == dot then "" else "E" + (if left < dot then "-" else "+") + Print(Abs(left - dot)))
  }

  // ---- reading a cell -------------------------------------------------------------------------

  /** A value, a refusal that rejects the record, or an exception nothing on the way catches. */
  datatype Reading<+V> = Read(value: V) | Refused | Crashed

  /** The decimal branch of `_coerce`: only the constructor is guarded, and scale zero is not quantized. */
  function ReadDecimal(cell: string, scale: nat): Reading<Dec> {
    match PlainDecimal(cell)
    case None => Refused
    case Some(d) =>
      if scale == 0 then Read(d)
      else
        match Quantize(d, scale)
        case None => Crashed
        case Some(q) => Read(q)
  }

  /** The `to_decimal` transform on a value already read. */
  function ToDecimal(d: Dec, scale: nat): Reading<string> {
    match Quantize(d, scale)
    case None => Crashed
    case Some(q) => Read(DecimalText(q))
  }

  // ---- the round trip -------------------------------------------------------------------------

  lemma {:induction false} PointApart(whole: string, fraction: string)
    requires AllDigits(whole) && AllDigits(fraction)
    ensures Text.Split(whole + "." + fraction, '.') == [whole, fraction]
  {
    Text.SplitAfterPiece(whole, fraction, '.');
    Text.SplitOnePiece(fraction, '.');
    assert whole + "." + fraction == whole + ['.'] + fraction;
  }

  lemma {:induction false} SignApart(sign: string, body: string)
    requires sign in {"", "+", "-"} && body != "" && IsDigit(body[0])
    ensures PlainDecimal(sign + body) == Unsigned(sign == "-", body)
  {
    if sign == "" {
      assert sign + body == body;
    } else {
      assert (sign + body)[1..] == body && (sign + body)[0] == sign[0];
    }
  }

  lemma {:induction false} PlainDecimalReads(sign: string, whole: string, fraction: string)
    requires sign in {"", "+", "-"} && whole != "" && AllDigits(whole) && AllDigits(fraction)
    ensures PlainDecimal(sign + whole + "." + fraction) == Some(Dec(sign == "-", ValueOf(whole + fraction), |fraction|))
  {
    var body := whole + "." + fraction;
    assert IsDigit(whole[0]) && body[0] == whole[0];
    SignApart(sign, body);
    PointApart(whole, fraction);
    SameText(sign, whole, ".", fraction);
  }

  /** A sign is taken off, once. */
  lemma {:induction false} SignsExactly(body: string)
    ensures PlainDecimal("-" + body) == Unsigned(true, body) && PlainDecimal("+" + body) == Unsigned(false, body)
    ensures body == "" || body[0] !in {'-', '+'} ==> PlainDecimal(body) == Unsigned(false, body)
  {
    assert ("-" + body)[1..] == body && ("+" + body)[1..] == body;
  }

  /** An integer has no places; a point may lead or trail, but there must be a digit. */
  lemma {:induction false} NumeralsExactly(negative: bool, whole: string, fraction: string)
    requires AllDigits(whole) && AllDigits(fraction)
    ensures Unsigned(negative, whole) == if whole == "" then None else Some(Dec(negative, ValueOf(whole), 0))
    ensures Unsigned(negative, whole + "." + fraction) ==
              if whole + fraction == "" then None
              else Some(Dec(negative, ValueOf(whole + fraction), |fraction|))
  {
    assert '.' !in whole && whole + "" == whole;
    Text.SplitOnePiece(whole, '.');
    PointApart(whole, fraction);
  }

  /** A second point makes it no number. */
  lemma {:induction false} OnePointAtMost(negative: bool, whole: string, fraction: string, rest: string)
    requires '.' !in whole && '.' !in fraction
    ensures Unsigned(negative, whole + "." + (fraction + "." + rest)) == None
  {
    Text.SplitAfterPiece(whole, fraction + ['.'] + rest, '.');
    Text.SplitAfterPiece(fraction, rest, '.');
    assert whole + "." + (fraction + "." + rest) == whole + ['.'] + (fraction + ['.'] + rest);
  }

  lemma {:induction false} ZeroAppended(s: string)
    requires AllDigits(s)
    ensures AllDigits(s + "0") && ValueOf(s + "0") == 10 * ValueOf(s)
  {
    assert (s + "0")[..|s|] == s;
  }

  lemma {:induction false} OneZeroMore(s: string, k: nat)
    requires k > 0
    ensures s + Zeros(k) == s + Zeros(k - 1) + "0"
  {
    assert Zeros(k) == Zeros(k - 1) + "0";
  }

  lemma {:induction false} Regroup(v: nat, p: nat)
    ensures 10 * (v * p) == v * (10 * p)
  {
  }

  lemma {:induction false} ZerosAppended(s: string, k: nat)
    requires AllDigits(s)
    ensures AllDigits(s + Zeros(k)) && ValueOf(s + Zeros(k)) == ValueOf(s) * Pow10(k)
  {
    if k == 0 {
      assert s + Zeros(0) == s;
    } else {
      ZerosAppended(s, k - 1);
      ZeroAppended(s + Zeros(k - 1));
      OneZeroMore(s, k);
      Regroup(ValueOf(s), Pow10(k - 1));
    }
  }

  /** Moving the point is appending zeros to the numeral. */
  lemma {:induction false} ShiftsAppendZeros(c: nat, k: nat)
    ensures AllDigits(Print(c) + Zeros(k)) && ValueOf(Print(c) + Zeros(k)) == c * Pow10(k)
  {
    ZerosAppended(Print(c), k);
    ValueInvertsPrint(c);
  }

  /**
   * Quantizing appends zeros, or rounds to the nearest at the place asked for, and fails exactly when
   * more than twenty-eight digits would be needed. Scale zero leaves a cell's decimal as it is.
   */
  lemma {:induction false} QuantizeExactly(d: Dec, places: nat)
    ensures forall k :: AllDigits(Print(d.coefficient) + Zeros(k)) && AllDigits("1" + Zeros(k))
    ensures var shift := if d.places <= places then places - d.places else d.places - places;
            var c := if d.places <= places then ValueOf(Print(d.coefficient) + Zeros(shift))
                     else (ShiftIsPositive(shift); RoundHalfEven(d.coefficient, ValueOf("1" + Zeros(shift))));
            Quantize(d, places) == if c < ValueOf("1" + Zeros(28)) then Some(Dec(d.negative, c, places)) else None
  {
    var shift := if d.places <= places then places - d.places else d.places - places;
    ShiftsAppendZeros(d.coefficient, shift);
    ShiftIsPositive(shift);
    ShiftIsPositive(28);
    LimitIsTwentyEightDigits();
  }

  lemma {:induction false} ShiftIsPositive(k: nat)
    ensures AllDigits("1" + Zeros(k)) && ValueOf("1" + Zeros(k)) == Pow10(k) > 0
  {
    assert Print(1) == "1";
    ShiftsAppendZeros(1, k);
  }

  lemma {:induction false} LimitIsTwentyEightDigits()
    ensures LIMIT == Pow10(28)
  {
    assert Pow10(7) == 10_000_000;
    assert Pow10(14) == 10_000_000 * Pow10(7);
    assert Pow10(21) == 10_000_000 * Pow10(14);
    assert Pow10(28) == 10_000_000 * Pow10(21);
  }

  lemma {:induction false} ScaleZeroIsNotQuantized(cell: string)
    ensures ReadDecimal(cell, 0) == match PlainDecimal(cell) case None => Refused case Some(d) => Read(d)
  {
  }

  /** With many places and few digits the text turns to an exponent, as a zero with eight places does. */
  lemma {:induction false} SmallDecimalSays()
    ensures DecimalText(Dec(false, 0, 8)) == "0E-8" && DecimalText(Dec(true, 12, 0)) == "-12"
    ensures DecimalText(Dec(false, 0, 6)) == "0.000000"
  {
    assert Print(0) == "0" && Print(8) == "8" && Print(12) == Print(1) + "2" && Print(1) == "1";
    assert Zeros(5) == "00000";
    assert "" + "0" + ("E" + "-" + "8") == "0E-8";
    assert "0." + Zeros(5) + "0" == "0.000000";
    assert "-" + "12" + "" == "-12";
  }

  lemma {:induction false} SameText(a: string, b: string, c: string, d: string)
    ensures a + b + c + d == a + (b + c + d)
  {
  }

  lemma {:induction false} CentsOf(whole: string, cents: nat)
    requires AllDigits(whole) && cents < 100
    ensures AllDigits(whole + TwoDigits(cents)) && ValueOf(whole + TwoDigits(cents)) == 100 * ValueOf(whole) + cents
  {
    ValueOfTwoMore(whole, cents / 10, cents % 10);
  }

  /** An amount to the cent, however many digits before the point, stops the pipeline exactly from 29 digits on. */
  lemma {:induction false} CentsAreReadExactly(sign: string, whole: string, cents: nat)
    requires sign in {"", "+", "-"} && whole != "" && AllDigits(whole) && cents < 100
    ensures var amount := 100 * ValueOf(whole) + cents;
            ReadDecimal(sign + whole + "." + TwoDigits(cents), 2) ==
              if amount < LIMIT then Read(Dec(sign == "-", amount, 2)) else Crashed
  {
    PlainDecimalReads(sign, whole, TwoDigits(cents));
    CentsOf(whole, cents);
  }

  /** What the source wrote, the parser reads: the same amount. */
  lemma {:induction false} BalanceReadsBack(cents: int)
    ensures ReadDecimal(FmtBalance(cents), 2)
        == if Abs(cents) < LIMIT then Read(Dec(cents < 0, Abs(cents), 2)) else Crashed
  {
    var whole := Print(Abs(cents) / 100);
    var zeros := if |whole| < 11 then 11 - |whole| else 0;
    ValueInvertsPrint(Abs(cents) / 100);
    LeadingZerosAreWorthless(whole, zeros);
    CentsAreReadExactly(if cents < 0 then "-" else "+", Zeros(zeros) + whole, Abs(cents) % 100);
  }

  /** The text of an amount in cents: no sign but a minus, no leading zero, two decimals. */
  function Canonical(cents: int): string {
    (if cents < 0 then "-" else "") + Print(Abs(cents) / 100) + "." + TwoDigits(Abs(cents) % 100)
  }

  lemma {:induction false} PrintOfHundreds(n: nat)
    requires n >= 100
    ensures Print(n) == Print(n / 100) + TwoDigits(n % 100)
  {
    assert n / 10 / 10 == n / 100 && n / 10 % 10 == n % 100 / 10 && n % 10 == n % 100 % 10;
    assert Print(n) == Print(n / 10) + [DigitChar(n % 10)];
    assert Print(n / 10) == Print(n / 100) + [DigitChar(n / 10 % 10)];
  }

  lemma {:induction false} CentsText(negative: bool, cents: nat)
    ensures DecimalText(Dec(negative, cents, 2)) ==
      (if negative then "-" else "") + (Print(cents / 100) + "." + TwoDigits(cents % 100))
  {
    var digits := Print(cents);
    if cents >= 100 {
      PrintOfHundreds(cents);
      var whole := Print(cents / 100);
      assert digits[..|whole|] == whole && digits[|whole|..] == TwoDigits(cents % 100);
    } else if cents >= 10 {
      assert Print(cents / 10) == [DigitChar(cents / 10)] && cents / 100 == 0;
      assert digits == TwoDigits(cents);
      assert digits != "" && |digits| == 2 && Zeros(0) == "";
      assert "0." + Zeros(0) + digits == "0" + "." + TwoDigits(cents);
    } else {
      assert digits == [DigitChar(cents)] && Zeros(1) == "0";
      assert "0." + Zeros(1) + digits == "0" + "." + TwoDigits(cents);
    }
  }

  /** From the source's cents to the target's text: the canonical text of the same amount. */
  lemma {:induction false} BalanceRoundTrip(cents: int)
    requires Abs(cents) < LIMIT
    ensures var read := ReadDecimal(FmtBalance(cents), 2);
            read.Read? && ToDecimal(read.value, 2) == Read(Canonical(cents))
  {
    BalanceReadsBack(cents);
    CentsText(cents < 0, Abs(cents));
    var sign := if cents < 0 then "-" else "";
    assert sign + (Print(Abs(cents) / 100) + "." + TwoDigits(Abs(cents) % 100)) == Canonical(cents);
  }

  /** The canonical text stands for its amount and no other. */
  lemma {:induction false} CanonicalMeansItsAmount(cents: int, other: int)
    ensures PlainDecimal(Canonical(cents)) == Some(Dec(cents < 0, Abs(cents), 2))
    ensures Canonical(cents) == Canonical(other) <==> cents == other
  {
    CanonicalReads(cents);
    CanonicalReads(other);
  }

  lemma {:induction false} CanonicalReads(cents: int)
    ensures PlainDecimal(Canonical(cents)) == Some(Dec(cents < 0, Abs(cents), 2))
  {
    var whole := Print(Abs(cents) / 100);
    PlainDecimalReads(if cents < 0 then "-" else "", whole, TwoDigits(Abs(cents) % 100));
    CentsOf(whole, Abs(cents) % 100);
    ValueInvertsPrint(Abs(cents) / 100);
  }
}
