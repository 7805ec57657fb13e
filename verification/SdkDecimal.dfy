// The SDK's own converter between decimal strings and stroops, and how it
// relates to the backend's.
module SdkDecimal {
  import opened Prelude
  import opened Rounding
  import opened Digits
  import Decimal

  const STROOPS_PER_UNIT: int := 10_000_000

  // BigInt(text): surrounding white space is ignored, "" is 0, a sign is
  // allowed; anything else throws. Literals with a radix prefix are not modelled.
  function BigIntOf(text: string): Result<int>
  {
    var s := Trim(text);
    if s == "" then Ok(0)
    else if IsNumeral(s) then Ok(Value(s))
    else if (s[0] == '-' || s[0] == '+') && IsNumeral(s[1..]) then
      Ok(if s[0] == '-' then -Value(s[1..]) else Value(s[1..]))
    else Err(InvalidBigInt)
  }

  // whole.replace('-', ''): drops the first minus sign, wherever it is.
  function DropMinus(s: string): string
  {
    if s == "" then "" else if s[0] == '-' then s[1..] else [s[0]] + DropMinus(s[1..])
  }

  function Combine(negative: bool, whole: Result<int>, frac: Result<int>): Result<int>
  {
    if whole.Err? then Err(whole.error)
    else if frac.Err? then Err(frac.error)
    else
      var magnitude := whole.value * STROOPS_PER_UNIT + frac.value;
      Ok(if negative then -magnitude else magnitude)
  }

  // The integer made of a whole part, sign included, and a fractional part.
  function Assemble(whole: string, frac: string): Result<int>
  {
    var wholeText := DropMinus(whole);
    Combine(whole != "" && whole[0] == '-', BigIntOf(if wholeText == "" then "0" else wholeText), BigIntOf(FirstSeven(frac)))
  }

  // What toStroops computes, before it is printed.
  function ParseStroops(amount: string): Result<int>
  {
    Assemble(Whole(Trim(amount)), Fraction(Trim(amount)))
  }

  function ToStroops(amount: string): Result<string>
  {
    match ParseStroops(amount)
    case Ok(x) => Ok(IntToString(x))
    case Err(e) => Err(e)
  }

  // The first seven fractional digits, padded with zeros.
  function FirstSeven(frac: string): (digits: string)
    ensures AllDigits(frac) ==> AllDigits(digits)
  {
    (frac + Zeros(7))[..7]
  }

  // replace(/0+$/, '')
  function TrimZeros(s: string): string
  {
    if s != "" && s[|s| - 1] == '0' then TrimZeros(s[..|s| - 1]) else s
  }

  function FromStroops(v: int): string
  {
    var abs := Abs(v);
    var frac := TrimZeros(PadStart(NatToString(abs % STROOPS_PER_UNIT), 7));
    (if v < 0 then "-" else "") + NatToString(abs / STROOPS_PER_UNIT) + (if frac == "" then "" else "." + frac)
  }

  lemma NumeralBigInt(s: string)
    requires AllDigits(s)
    ensures BigIntOf(s) == Ok(Value(s))
  {
    TrimNothing(s);
  }

  lemma {:induction false} DropMinusNumeral(s: string)
    requires AllDigits(s)
    ensures DropMinus(s) == s
  {
    if s != "" { DropMinusNumeral(s[1..]); }
  }

  // A leading minus belongs to the whole part and to nothing else.
  lemma SignedPieces(s: string)
    requires Decimal.IsDecimalString(s)
    ensures
      var u := Decimal.Unsigned(s);
      && IsNumeral(Whole(u)) && AllDigits(Fraction(u)) && Fraction(s) == Fraction(u)
      && Whole(s) == (if Decimal.IsNegative(s) then "-" else "") + Whole(u)
  {
    var u := Decimal.Unsigned(s);
    var k := PointIndex(u);
    if k < |u| { NoPoint(u[k + 1..]); }
    if Decimal.IsNegative(s) {
      assert PointIndex(s) == 1 + k;
      if k < |u| { assert s[k + 2..] == u[k + 1..]; }
    } else {
      assert "" + Whole(u) == Whole(u);
    }
  }

  lemma SignedWhole(negative: bool, w: string)
    requires IsNumeral(w)
    ensures
      var whole := (if negative then "-" else "") + w;
      whole != "" && DropMinus(whole) == w && (whole[0] == '-' <==> negative)
  {
    var whole := (if negative then "-" else "") + w;
    DropMinusNumeral(w);
    if negative { assert whole[1..] == w; } else { assert whole == w; }
  }

  lemma AssembleNumerals(negative: bool, w: string, f: string)
    requires IsNumeral(w) && AllDigits(f)
    ensures
      var m := Value(w) * STROOPS_PER_UNIT + Value(FirstSeven(f));
      Assemble((if negative then "-" else "") + w, f) == Ok(if negative then -m else m)
  {
    hide BigIntOf, Value, FirstSeven, DropMinus;
    SignedWhole(negative, w);
    NumeralBigInt(w);
    NumeralBigInt(FirstSeven(f));
  }

  // What the SDK parser computes on a well-formed amount.
  lemma ParsesAmount(amount: string)
    requires Decimal.IsDecimalString(Trim(amount))
    ensures
      var s := Trim(amount);
      var w, f := Whole(Decimal.Unsigned(s)), Fraction(Decimal.Unsigned(s));
      var m := Value(w) * STROOPS_PER_UNIT + Value(FirstSeven(f));
      AllDigits(f) && ParseStroops(amount) == Ok(if Decimal.IsNegative(s) then -m else m)
  {
    hide Value, FirstSeven, Assemble, Whole, Fraction, Trim;
    var s := Trim(amount);
    SignedPieces(s);
    AssembleNumerals(Decimal.IsNegative(s), Whole(Decimal.Unsigned(s)), Fraction(Decimal.Unsigned(s)));
  }

  // The SDK drops what it does not keep: it truncates toward zero.
  lemma FirstSevenTruncates(w: string, f: string)
    requires AllDigits(f)
    ensures Value(w) * STROOPS_PER_UNIT + Value(FirstSeven(f)) == Divide(Value(w + f) * STROOPS_PER_UNIT, Pow10(|f|), Floor)
  {
    hide Value, Divide;
    Decimal.ScaleIsPow10();
    if |f| <= 7 {
      assert FirstSeven(f) == PadEnd(f, 7);
      Decimal.MagnitudeExact(w, f, Floor);
    } else {
      var head, tail := f[..7], f[7..];
      assert FirstSeven(f) == head && f == head + tail && w + f == (w + head) + tail;
      ValueConcat(w, head);
      ValueConcat(w + head, tail);
      ValueBound(tail);
      Pow10Add(|tail|, 7);
      var q, p := Value(w + head), Pow10(|tail|);
      TruncatedTail(q, Value(tail), p);
      DivideIs(Value(w + f), p, Floor, q);
      RoundDivScale(Value(w + f), p, STROOPS_PER_UNIT, Floor);
    }
  }

  lemma TruncatedTail(q: int, v: int, p: int)
    requires 0 <= v < p
    ensures q * p <= q * p + v < q * p + p
  {
  }

  lemma SignedFloor(negative: bool, v: int, d: int, m: int)
    requires d > 0 && m == Divide(v * STROOPS_PER_UNIT, d, Floor)
    ensures
      RoundDiv((if negative then -v else v) * STROOPS_PER_UNIT, d, if negative then Ceil else Floor)
      == Ok(if negative then -m else m)
  {
    if negative {
      RoundDivOdd(v * STROOPS_PER_UNIT, d, Floor);
      assert (-v) * STROOPS_PER_UNIT == -(v * STROOPS_PER_UNIT);
    }
  }

  // On every well-formed amount the SDK returns the exact value times 10^7
  // truncated toward zero.
  lemma SdkTruncates(amount: string)
    requires Decimal.IsDecimalString(Trim(amount))
    ensures
      var s := Trim(amount);
      ParseStroops(amount)
      == RoundDiv(Decimal.Numerator(s) * STROOPS_PER_UNIT, Decimal.Denominator(s), if Decimal.IsNegative(s) then Ceil else Floor)
  {
    hide Value, Divide, FirstSeven, ParseStroops, Whole, Fraction, Trim, Pow10;
    var s := Trim(amount);
    var w, f := Whole(Decimal.Unsigned(s)), Fraction(Decimal.Unsigned(s));
    ParsesAmount(amount);
    FirstSevenTruncates(w, f);
    SignedFloor(Decimal.IsNegative(s), Value(w + f), Pow10(|f|), Value(w) * STROOPS_PER_UNIT + Value(FirstSeven(f)));
  }

  // Two roundings of the same fraction are at most one apart.
  lemma RoundingsAdjacent(n: int, d: int, a: RoundingMode, b: RoundingMode)
    requires d > 0
    ensures -1 <= Divide(n, d, a) - Divide(n, d, b) <= 1
  {
    DivideMeetsMode(n, d, a);
    DivideMeetsMode(n, d, b);
    var q, p := Divide(n, d, a), Divide(n, d, b);
    if q < p - 1 { ProductGap(q, p, d); } else if p < q - 1 { ProductGap(p, q, d); }
  }

  // The two parsers agree on every amount with at most seven decimals, and are
  // at most one stroop apart on all others, whatever mode the backend rounds in.
  lemma ParsersAgree(amount: string, mode: RoundingMode)
    requires Decimal.IsDecimalString(Trim(amount))
    ensures ParseStroops(amount).Ok? && Decimal.ToStroops(amount, mode).Ok?
    ensures -1 <= ParseStroops(amount).value - Decimal.ToStroops(amount, mode).value <= 1
    ensures |Fraction(Decimal.Unsigned(Trim(amount)))| <= 7 ==> ParseStroops(amount) == Decimal.ToStroops(amount, mode)
  {
    hide Divide, ParseStroops, Value, Whole, Fraction, Trim;
    var s := Trim(amount);
    var f := |Fraction(Decimal.Unsigned(s))|;
    var n := Decimal.Numerator(s);
    var toZero := if Decimal.IsNegative(s) then Ceil else Floor;
    var mode' := if Decimal.IsNegative(s) then Mirror(mode) else mode;
    SdkTruncates(amount);
    Decimal.ToStroopsExact(amount, mode);
    RoundingsAdjacent(n * STROOPS_PER_UNIT, Decimal.Denominator(s), toZero, mode');
    if f <= 7 { ExactToSeven(n, f, toZero, mode'); }
  }

  lemma ExactToSeven(n: int, f: nat, a: RoundingMode, b: RoundingMode)
    requires f <= 7
    ensures Divide(n * STROOPS_PER_UNIT, Pow10(f), a) == Divide(n * STROOPS_PER_UNIT, Pow10(f), b)
  {
    hide Divide;
    Decimal.ScaleIsPow10();
    Pow10Add(f, 7 - f);
    assert n * (Pow10(f) * Pow10(7 - f)) == (n * Pow10(7 - f)) * Pow10(f);
    RoundDivWhole(n * Pow10(7 - f), Pow10(f), a);
    RoundDivWhole(n * Pow10(7 - f), Pow10(f), b);
  }

  // ---- Round trip through the zero-trimmed form ----

  lemma {:induction false} TrimZerosPads(s: string)
    requires AllDigits(s)
    ensures AllDigits(TrimZeros(s)) && |TrimZeros(s)| <= |s|
    ensures PadEnd(TrimZeros(s), |s|) == s
  {
    if s != "" && s[|s| - 1] == '0' {
      var s' := s[..|s| - 1];
      TrimZerosPads(s');
      assert Zeros(|s| - |TrimZeros(s')|) == Zeros(|s'| - |TrimZeros(s')|) + "0";
      assert s == s' + "0";
    }
  }

  lemma NumeralShape(negative: bool, w: string)
    requires IsNumeral(w)
    ensures
      var s := (if negative then "-" else "") + w;
      && Trim(s) == s && Decimal.IsDecimalString(s) && Decimal.IsNegative(s) == negative
      && Whole(Decimal.Unsigned(s)) == w && Fraction(Decimal.Unsigned(s)) == ""
  {
    var s := (if negative then "-" else "") + w;
    assert s[|s| - 1] == w[|w| - 1];
    TrimNothing(s);
    assert Decimal.Unsigned(s) == w;
    NoPoint(w);
  }

  lemma PrintedShape(x: int)
    ensures
      var s := FromStroops(x);
      var m := Abs(x);
      && Trim(s) == s && Decimal.IsDecimalString(s) && Decimal.IsNegative(s) == (x < 0)
      && Value(Whole(Decimal.Unsigned(s))) == m / STROOPS_PER_UNIT
      && |Fraction(Decimal.Unsigned(s))| <= 7
      && Value(FirstSeven(Fraction(Decimal.Unsigned(s)))) == m % STROOPS_PER_UNIT
  {
    hide Value, Trim, Whole, Fraction, NatToString, TrimZeros;
    var m := Abs(x);
    var w, digits := NatToString(m / STROOPS_PER_UNIT), PadStart(NatToString(m % STROOPS_PER_UNIT), 7);
    var f := TrimZeros(digits);
    Decimal.ScaleIsPow10();
    NatLength(m % STROOPS_PER_UNIT, 7);
    TrimZerosPads(digits);
    NatRoundTrip(m / STROOPS_PER_UNIT);
    NatRoundTrip(m % STROOPS_PER_UNIT);
    ValuePadded(NatToString(m % STROOPS_PER_UNIT), 7);
    assert FirstSeven(f) == PadEnd(f, 7) == digits;
    var sign := if x < 0 then "-" else "";
    if f == "" {
      assert FromStroops(x) == sign + w;
      NumeralShape(x < 0, w);
    } else {
      assert FromStroops(x) == sign + (w + "." + f);
      Decimal.WrittenShape(x < 0, w, f);
    }
  }

  // The decimal form of an integer is read back by BigInt.
  lemma IntegerReadsBack(n: int)
    ensures BigIntOf(IntToString(n)) == Ok(n)
  {
    hide NatToString, Value, Trim;
    if n < 0 {
      NatRoundTrip(-n);
      SignedBigInt(NatToString(-n));
    } else {
      NatRoundTrip(n);
      NumeralBigInt(NatToString(n));
    }
  }

  // The SDK reads its own zero-trimmed form back to the same integer, including
  // amounts between -1 and 0, whose whole part is "-0".
  lemma SdkRoundTrip(x: int)
    ensures ToStroops(FromStroops(x)) == Ok(IntToString(x)) && BigIntOf(ToStroops(FromStroops(x)).value) == Ok(x)
  {
    IntegerReadsBack(x);
    hide Value, FirstSeven, FromStroops, Trim, Whole, Fraction, ParseStroops;
    PrintedShape(x);
    ParsesAmount(FromStroops(x));
  }

  // It also reads what the backend prints.
  lemma CrossRoundTrip(x: int)
    ensures ToStroops(Decimal.FromStroops(x)) == Ok(IntToString(x)) && BigIntOf(ToStroops(Decimal.FromStroops(x)).value) == Ok(x)
  {
    IntegerReadsBack(x);
    Decimal.StroopsRoundTrip(x, HalfEven);
    Decimal.PrintedShape(x);
    ParsersAgree(Decimal.FromStroops(x), HalfEven);
  }

  // ---- Text the backend rejects ----

  // White space around nothing, or around digits with at most one sign.
  predicate IsIntegerText(text: string)
  {
    var s := Trim(text);
    s == "" || IsNumeral(if s[0] in {'-', '+'} then s[1..] else s)
  }

  // The SDK accepts exactly the text whose two pieces around the first point are
  // integers on their own: the first without its first minus sign, the second
  // filled up or cut to seven characters. It never looks past a second point.
  lemma SdkAcceptsIff(amount: string)
    ensures ParseStroops(amount).Ok? <==>
      IsIntegerText(DropMinus(Whole(Trim(amount)))) && IsIntegerText(FirstSeven(Fraction(Trim(amount))))
  {
    hide Trim, Whole, Fraction, FirstSeven, Value;
    var s := Trim(amount);
    AcceptsInteger(DropMinus(Whole(s)));
    AcceptsInteger(FirstSeven(Fraction(s)));
    AcceptsInteger("0");
    if DropMinus(Whole(s)) == "" { NothingIsText(); }
    NumeralBigInt("0");
  }

  lemma NothingIsText()
    ensures IsIntegerText("")
  {
  }

  lemma AcceptsInteger(text: string)
    ensures BigIntOf(text).Ok? <==> IsIntegerText(text)
  {
    hide Trim, Value;
    var s := Trim(text);
    if s != "" && s[0] in {'-', '+'} { assert !IsDigit(s[0]); }
  }

  // A minus sign after the point is accepted, and the fraction is then taken off
  // the whole part instead of added; the backend rejects all such text.
  lemma SignedFractionSubtracts(w: string, f: string)
    requires IsNumeral(w) && AllDigits(f)
    ensures
      var amount := w + "." + ("-" + f);
      && ParseStroops(amount) == Ok(Value(w) * STROOPS_PER_UNIT - Value((f + Zeros(7))[..6]))
      && !Decimal.IsDecimalString(Trim(amount))
  {
    hide Value, Trim, Whole, Fraction, FirstSeven, BigIntOf, DropMinus, Decimal.IsDecimalString;
    var amount, digits := w + "." + ("-" + f), (f + Zeros(7))[..6];
    EndsPlain(w, "-" + f, amount);
    SignedFractionPieces(w, f);
    SignedBigInt(digits);
    NumeralBigInt(w);
    DropMinusNumeral(w);
  }

  lemma SignedFractionPieces(w: string, f: string)
    requires IsNumeral(w) && AllDigits(f)
    ensures
      var amount, digits := w + "." + ("-" + f), (f + Zeros(7))[..6];
      && Whole(amount) == w && Fraction(amount) == "-" + f && !Decimal.IsDecimalString(amount)
      && FirstSeven("-" + f) == "-" + digits && IsNumeral(digits)
  {
    var frac := "-" + f;
    var amount := w + "." + frac;
    PointAfterDigits(w, frac);
    SignHasNoPoint(f);
    assert amount[|w| + 1..] == frac && amount[0] == w[0];
    assert !IsDigit(frac[0]);
  }

  lemma EndsPlain(w: string, frac: string, amount: string)
    requires IsNumeral(w) && frac != "" && frac[0] == '-' && AllDigits(frac[1..]) && amount == w + "." + frac
    ensures Trim(amount) == amount && amount != "" && amount[0] == w[0] && amount[0] != '-'
  {
    hide TrimStart, TrimEnd;
    assert amount[|amount| - 1] == frac[|frac| - 1];
    if |frac| > 1 { assert frac[|frac| - 1] == frac[1..][|frac| - 2]; }
    TrimNothing(amount);
  }

  lemma SignHasNoPoint(f: string)
    requires AllDigits(f)
    ensures Whole("-" + f) == "-" + f
  {
    var s := "-" + f;
    assert forall i :: 0 < i < |s| ==> s[i] == f[i - 1];
  }

  lemma SignedBigInt(digits: string)
    requires IsNumeral(digits)
    ensures BigIntOf("-" + digits) == Ok(-Value(digits))
  {
    hide Value;
    var s := "-" + digits;
    assert s[|s| - 1] == digits[|digits| - 1] && s[1..] == digits;
    TrimNothing(s);
  }

  // "1.-5" is read as 0.95 tokens.
  lemma SignedFractionWitness()
    ensures ParseStroops("1.-5") == Ok(9_500_000) && !Decimal.IsDecimalString(Trim("1.-5"))
  {
    hide ParseStroops, Value, Trim, Decimal.IsDecimalString;
    SignedFractionSubtracts("1", "5");
    assert "1" + "." + ("-" + "5") == "1.-5";
    assert ("5" + Zeros(7))[..6] == "5" + Zeros(5);
    FiveAndZeros();
  }

  lemma FiveAndZeros()
    ensures Value("5" + Zeros(5)) == 500_000 && Value("1") == 1
  {
    ValueConcat("5", Zeros(5));
    ValueZeros(5);
    assert "5"[..0] == "" && "1"[..0] == "";
    assert Pow10(5) == 10 * Pow10(4) && Pow10(4) == 10 * Pow10(3);
  }

  // No text at all is read as nothing.
  lemma NoTextIsZero()
    ensures ParseStroops("") == Ok(0) && !Decimal.IsDecimalString(Trim(""))
  {
    assert Whole("") == "" && Fraction("") == "" && FirstSeven("") == Zeros(7);
    NumeralBigInt("0");
    NumeralBigInt(Zeros(7));
    ValueZeros(7);
    assert "0"[..0] == "";
  }

  // The first minus sign of the whole part goes wherever it is, but only a
  // leading one makes the amount negative.
  lemma InnerMinusDropped(a: string, b: string)
    requires IsNumeral(a) && IsNumeral(b)
    ensures
      var amount := a + ("-" + b);
      ParseStroops(amount) == Ok(Value(a + b) * STROOPS_PER_UNIT) && !Decimal.IsDecimalString(Trim(amount))
  {
    hide Value, Trim, BigIntOf, FirstSeven;
    var amount := a + ("-" + b);
    assert amount[|amount| - 1] == b[|b| - 1] && amount[0] == a[0] && amount[|a|] == '-';
    TrimNothing(amount);
    NoPointInside(a, b);
    DropInner(a, b);
    NumeralBigInt(a + b);
    NoFraction();
    assert Decimal.Unsigned(amount) == amount && !IsDigit(amount[|a|]);
  }

  lemma NoPointInside(a: string, b: string)
    requires AllDigits(a) && AllDigits(b)
    ensures var s := a + ("-" + b); PointIndex(s) == |s| && Whole(s) == s && Fraction(s) == ""
  {
    var s := a + ("-" + b);
    assert forall i :: 0 <= i < |s| ==> s[i] == if i < |a| then a[i] else if i == |a| then '-' else b[i - |a| - 1];
  }

  lemma {:induction false} DropInner(a: string, b: string)
    requires AllDigits(a)
    ensures DropMinus(a + ("-" + b)) == a + b
  {
    if a == "" {
      assert a + ("-" + b) == "-" + b && ("-" + b)[1..] == b && a + b == b;
    } else {
      DropInner(a[1..], b);
      assert (a + ("-" + b))[1..] == a[1..] + ("-" + b);
      assert [a[0]] + (a[1..] + b) == a + b;
    }
  }

  lemma NoFraction()
    ensures FirstSeven("") == Zeros(7) && BigIntOf(FirstSeven("")) == Ok(0)
  {
    assert "" + Zeros(7) == Zeros(7) && Zeros(7)[..7] == Zeros(7);
    NumeralBigInt(Zeros(7));
    ValueZeros(7);
  }

  // What follows a second point is not read.
  lemma SecondPointIgnored(w: string, f: string, x: string)
    requires IsNumeral(w) && IsNumeral(f) && IsNumeral(x)
    ensures
      var amount := w + "." + (f + "." + x);
      ParseStroops(amount) == ParseStroops(w + "." + f) && !Decimal.IsDecimalString(Trim(amount))
  {
    hide Trim, Assemble;
    var amount, short := w + "." + (f + "." + x), w + "." + f;
    assert amount[|amount| - 1] == x[|x| - 1] && short[|short| - 1] == f[|f| - 1];
    TrimNothing(amount);
    TrimNothing(short);
    PointAfterDigits(w, f + "." + x);
    PointAfterDigits(w, f);
    PointAfterDigits(f, x);
    NoPoint(f);
    assert amount[|w| + 1..] == f + "." + x && short[|w| + 1..] == f;
    assert Decimal.Unsigned(amount) == amount && (f + "." + x)[|f|] == '.';
  }
}
