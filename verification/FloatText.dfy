/** How the reader's numbers are written back: Python's float layout over the shortest digits, and
    integers through `BigInt` (`bajutsu/codegen/_playwright_dict_match.py`). */
module FloatText {
  import opened JsonLexis

  // ----- decimal digits

  function DecimalText(n: nat): Text {
    if n < 10 then [ZERO + n] else DecimalText(n / 10) + [ZERO + n % 10]
  }

  function NatOf(digits: Text): nat
    requires AllDigits(digits)
  {
    if digits == [] then 0
    else 10 * NatOf(digits[..|digits| - 1]) + (digits[|digits| - 1] - ZERO)
  }

  function Pow10(n: nat): nat {
    if n == 0 then 1 else 10 * Pow10(n - 1)
  }

  function Zeros(n: nat): Text
    ensures AllDigits(Zeros(n)) && |Zeros(n)| == n
  {
    seq(n, _ => ZERO)
  }

  lemma {:induction false} DecimalRoundTrip(n: nat)
    ensures AllDigits(DecimalText(n)) && NatOf(DecimalText(n)) == n
    ensures DecimalText(n) != [] && (DecimalText(n)[0] == ZERO ==> n == 0)
  {
    if n >= 10 {
      DecimalRoundTrip(n / 10);
      assert DecimalText(n)[..|DecimalText(n)| - 1] == DecimalText(n / 10);
    }
  }

  lemma {:induction false} NatRoundTrip(digits: Text)
    requires AllDigits(digits) && digits != [] && (digits[0] == ZERO ==> |digits| == 1)
    ensures DecimalText(NatOf(digits)) == digits
    ensures digits[0] != ZERO ==> NatOf(digits) > 0
  {
    if |digits| > 1 {
      var init := digits[..|digits| - 1];
      NatRoundTrip(init);
      assert digits == init + [digits[|digits| - 1]];
    }
  }

  lemma {:induction false} LeadingZeros(n: nat, digits: Text)
    requires AllDigits(digits)
    ensures AllDigits(Zeros(n) + digits) && NatOf(Zeros(n) + digits) == NatOf(digits)
    decreases |digits|, n
  {
    var all := Zeros(n) + digits;
    if digits != [] {
      assert all[..|all| - 1] == Zeros(n) + digits[..|digits| - 1];
      LeadingZeros(n, digits[..|digits| - 1]);
    } else if n > 0 {
      assert all[..n - 1] == Zeros(n - 1) + [];
      LeadingZeros(n - 1, []);
    }
  }

  lemma {:induction false} TrailingZeros(digits: Text, n: nat)
    requires AllDigits(digits)
    ensures AllDigits(digits + Zeros(n)) && NatOf(digits + Zeros(n)) == NatOf(digits) * Pow10(n)
  {
    var all := digits + Zeros(n);
    if n == 0 {
      assert all == digits;
    } else {
      assert all[..|all| - 1] == digits + Zeros(n - 1);
      TrailingZeros(digits, n - 1);
      Shift(NatOf(digits), Pow10(n - 1));
    }
  }

  lemma Shift(a: int, b: int)
    ensures 10 * (a * b) == a * (10 * b)
  {
  }

  // ----- doubles

  /** What a number token converts to: a finite non-zero double is its shortest digits `d.ddd` times
      ten to the `exp`, as `toExponential` gives them. */
  datatype Double = NaN | Infinite(minus: bool) | Zero(minus: bool) | Finite(minus: bool, digits: Text, exp: int) {
    predicate WellFormed() {
      Finite? ==> AllDigits(digits) && digits != [] && digits[0] != ZERO
    }
  }

  function SignText(minus: bool): Text {
    if minus then [MINUS] else []
  }

  /** `padStart(2, '0')`. */
  function PadTwo(t: Text): Text {
    if |t| < 2 then Zeros(2 - |t|) + t else t
  }

  function ExponentOf(e: int): Exponent {
    Exponent(LOWER_E, Some(if e < 0 then MINUS else PLUS), PadTwo(DecimalText(if e < 0 then -e else e)))
  }

  /** `bajutsuFloat` on the digits: exponent form below 1e-4 or from 1e16, else a point form. */
  function DigitsText(minus: bool, d: Text, e: int): Text
    requires d != []
  {
    var sign := SignText(minus);
    if e < -4 || e >= 16 then
      sign + [d[0]] + (if |d| > 1 then [DOT] + d[1..] else []) + ExponentOf(e).Source()
    else if e < 0 then
      sign + [ZERO, DOT] + Zeros(-e - 1) + d
    else if |d| <= e + 1 then
      sign + d + Zeros(e + 1 - |d|) + [DOT, ZERO]
    else
      sign + d[..e + 1] + [DOT] + d[e + 1..]
  }

  const LOWER_NAN: Text := [0x6E, 0x61, 0x6E]
  const LOWER_INF: Text := [0x69, 0x6E, 0x66]

  function DoubleText(n: Double, nested: bool): Text
    requires n.WellFormed()
  {
    match n
    case NaN => if nested then Word.NotANumber.Spelling() else LOWER_NAN
    case Infinite(false) => if nested then Word.Infinity.Spelling() else LOWER_INF
    case Infinite(true) => if nested then Word.MinusInfinity.Spelling() else [MINUS] + LOWER_INF
    case Zero(true) => [MINUS, ZERO, DOT, ZERO]
    case Zero(false) => DigitsText(false, [ZERO], 0)
    case Finite(minus, d, e) => DigitsText(minus, d, e)
  }

  /** The token `DigitsText` spells. */
  function DigitsNumber(minus: bool, d: Text, e: int): Number
    requires d != []
  {
    if e < -4 || e >= 16 then
      Number(minus, [d[0]], if |d| > 1 then Some(d[1..]) else None, Some(ExponentOf(e)))
    else if e < 0 then
      Number(minus, [ZERO], Some(Zeros(-e - 1) + d), None)
    else if |d| <= e + 1 then
      Number(minus, d + Zeros(e + 1 - |d|), Some([ZERO]), None)
    else
      Number(minus, d[..e + 1], Some(d[e + 1..]), None)
  }

  lemma PadTwoValue(n: nat)
    ensures var t := PadTwo(DecimalText(n)); t != [] && AllDigits(t) && NatOf(t) == n
  {
    var t := DecimalText(n);
    DecimalRoundTrip(n);
    if |t| < 2 {
      LeadingZeros(2 - |t|, t);
    }
  }

  lemma ExponentOfWellFormed(e: int)
    ensures ExponentOf(e).WellFormed()
    ensures ExponentValue(Some(ExponentOf(e))) == e
  {
    PadTwoValue(if e < 0 then -e else e);
  }

  /** The digits of a double: no leading zero but a lone one, for zero itself. */
  predicate IsDigits(d: Text, e: int) {
    AllDigits(d) && d != [] && (d[0] == ZERO ==> d == [ZERO] && e == 0)
  }

  /** Float text always has a point or an exponent, so it reads back as a float. */
  lemma DigitsTextIsFloat(minus: bool, d: Text, e: int)
    requires IsDigits(d, e)
    ensures DigitsNumber(minus, d, e).WellFormed() && DigitsNumber(minus, d, e).IsFloat()
    ensures DigitsNumber(minus, d, e).Source() == DigitsText(minus, d, e)
  {
    DigitsAreFloat(minus, d, e);
    DigitsMagnitude(minus, d, e);
  }

  lemma DigitsAreFloat(minus: bool, d: Text, e: int)
    requires IsDigits(d, e)
    ensures DigitsNumber(minus, d, e).WellFormed() && DigitsNumber(minus, d, e).IsFloat()
  {
    if e < -4 || e >= 16 {
      ExponentOfWellFormed(e);
    }
  }

  lemma DigitsMagnitude(minus: bool, d: Text, e: int)
    requires d != []
    ensures DigitsNumber(minus, d, e).Source() == DigitsText(minus, d, e)
  {
    var n, sign := DigitsNumber(minus, d, e), SignText(minus);
    assert n.Source() == sign + n.Magnitude();
    if e < -4 || e >= 16 {
      var point := if |d| > 1 then [DOT] + d[1..] else [];
      Regroup3(sign, [d[0]], point, ExponentOf(e).Source());
    } else if e < 0 {
      assert n.Magnitude() == [ZERO, DOT] + (Zeros(-e - 1) + d);
      Regroup3(sign, [ZERO, DOT], Zeros(-e - 1), d);
    } else if |d| <= e + 1 {
      assert n.Magnitude() == d + (Zeros(e + 1 - |d|) + [DOT, ZERO]);
      Regroup3(sign, d, Zeros(e + 1 - |d|), [DOT, ZERO]);
    } else {
      assert n.Magnitude() == d[..e + 1] + ([DOT] + d[e + 1..]);
      Regroup3(sign, d[..e + 1], [DOT], d[e + 1..]);
    }
  }

  lemma Regroup3(a: Text, b: Text, c: Text, d: Text)
    ensures a + b + c + d == a + (b + (c + d))
  {
  }

  // ----- what a token denotes

  /** The decimal `± mantissa × 10^exponent`. */
  datatype Decimal = Decimal(minus: bool, mantissa: nat, exponent: int)

  function Denotes(n: Number): Decimal
    requires n.WellFormed()
  {
    var fraction := if n.fraction.Some? then n.fraction.value else [];
    Decimal.Decimal(n.minus, NatOf(n.whole + fraction), ExponentValue(n.exponent) - |fraction|)
  }

  function ExponentValue(e: Option<Exponent>): int
    requires e.Some? ==> e.value.WellFormed()
  {
    if e == None then 0
    else (if e.value.sign == Some(MINUS) then -1 else 1) * NatOf(e.value.digits)
  }

  /** Equal as numbers: scaled to the smaller exponent, the mantissas agree. */
  predicate SameDecimal(a: Decimal, b: Decimal) {
    && a.minus == b.minus
    && var low := if a.exponent < b.exponent then a.exponent else b.exponent;
       a.mantissa * Pow10(a.exponent - low) == b.mantissa * Pow10(b.exponent - low)
  }

  function DigitsDecimal(minus: bool, d: Text, e: int): Decimal
    requires AllDigits(d)
  {
    Decimal.Decimal(minus, NatOf(d), e - (|d| - 1))
  }

  /** Every layout denotes exactly the digits it was given. */
  lemma FloatTextIsExact(minus: bool, d: Text, e: int)
    requires IsDigits(d, e)
    ensures DigitsNumber(minus, d, e).WellFormed()
    ensures SameDecimal(Denotes(DigitsNumber(minus, d, e)), DigitsDecimal(minus, d, e))
  {
    DigitsTextIsFloat(minus, d, e);
    if |d| <= e + 1 <= 16 {
      PaddedIsExact(minus, d, e);
    } else {
      SplitIsExact(minus, d, e);
    }
  }

  lemma SplitIsExact(minus: bool, d: Text, e: int)
    requires IsDigits(d, e) && !(|d| <= e + 1 <= 16)
    requires DigitsNumber(minus, d, e).WellFormed()
    ensures Denotes(DigitsNumber(minus, d, e)) == DigitsDecimal(minus, d, e)
  {
    var n := DigitsNumber(minus, d, e);
    var fraction := if n.fraction.Some? then n.fraction.value else [];
    if e < -4 || e >= 16 {
      ExponentOfWellFormed(e);
      assert n.whole + fraction == d;
    } else if e < 0 {
      assert n.whole + fraction == Zeros(-e) + d;
      LeadingZeros(-e, d);
    } else {
      assert n.whole + fraction == d;
    }
  }

  lemma PaddedIsExact(minus: bool, d: Text, e: int)
    requires IsDigits(d, e) && |d| <= e + 1 <= 16
    requires DigitsNumber(minus, d, e).WellFormed()
    ensures SameDecimal(Denotes(DigitsNumber(minus, d, e)), DigitsDecimal(minus, d, e))
  {
    var k := e + 1 - |d|;
    assert (d + Zeros(k)) + [ZERO] == d + Zeros(k + 1);
    TrailingZeros(d, k + 1);
    var a, b := Denotes(DigitsNumber(minus, d, e)), DigitsDecimal(minus, d, e);
    assert a == Decimal.Decimal(minus, NatOf(d) * Pow10(k + 1), -1) && b == Decimal.Decimal(minus, NatOf(d), k);
    assert Pow10(0) == 1;
  }

  // ----- the conversion the target language supplies

  const NAN_TOKEN: Text := Word.NotANumber.Spelling()
  const INF_TOKEN: Text := Word.Infinity.Spelling()
  const NEG_INF_TOKEN: Text := Word.MinusInfinity.Spelling()

  ghost predicate AllWellFormedDoubles(number: Text -> Double) {
    forall tok :: number(tok).WellFormed()
  }

  /** What is used of `Number(...)`: its own words, signed zeros, and that the shortest digits of a
      double convert back to it, however they are laid out. */
  ghost predicate IsConversion(number: Text -> Double) {
    && AllWellFormedDoubles(number)
    && number(NAN_TOKEN) == NaN && number(INF_TOKEN) == Infinite(false) && number(NEG_INF_TOKEN) == Infinite(true)
    && (forall n: Number :: n.WellFormed() && Denotes(n).mantissa == 0 ==> number(n.Source()) == Zero(n.minus))
    && (forall tok, n: Number :: number(tok).Finite? && n.WellFormed()
          && SameDecimal(Denotes(n), DigitsDecimal(number(tok).minus, number(tok).digits, number(tok).exp))
          ==> number(n.Source()) == number(tok))
  }

  /** A float token or one of the three words. */
  predicate IsFloatToken(tok: Text) {
    tok == NAN_TOKEN || tok == INF_TOKEN || tok == NEG_INF_TOKEN
    || (ScanNumber(tok).Got? && ScanNumber(tok).rest == [] && ScanNumber(tok).value.IsFloat())
  }

  /** Written nested, a float is again a float token, and converts back to the same double. */
  lemma FloatTextReadsBack(number: Text -> Double, tok: Text)
    requires IsConversion(number)
    ensures IsFloatToken(DoubleText(number(tok), true))
    ensures number(DoubleText(number(tok), true)) == number(tok)
  {
    match number(tok)
    case Finite(minus, d, e) =>
      ReadsAsFloat(minus, d, e);
      FloatTextIsExact(minus, d, e);
      DigitsTextIsFloat(minus, d, e);
    case Zero(minus) =>
      ReadsAsFloat(minus, [ZERO], 0);
      ZeroText(minus);
    case _ =>
  }

  lemma ZeroText(minus: bool)
    ensures DoubleText(Zero(minus), true) == DigitsText(minus, [ZERO], 0)
    ensures var n := DigitsNumber(minus, [ZERO], 0);
            n.WellFormed() && Denotes(n).mantissa == 0 && n.Source() == DigitsText(minus, [ZERO], 0)
  {
    DigitsTextIsFloat(minus, [ZERO], 0);
    assert [ZERO] + Zeros(0) == [ZERO];
    assert [ZERO] + [ZERO] == Zeros(2) + [];
    LeadingZeros(2, []);
  }

  lemma ReadsAsFloat(minus: bool, d: Text, e: int)
    requires IsDigits(d, e)
    ensures IsFloatToken(DigitsText(minus, d, e))
  {
    DigitsTextIsFloat(minus, d, e);
    var n := DigitsNumber(minus, d, e);
    assert n.Source() + [] == n.Source();
    ScanNumberComplete(n, []);
  }
}
