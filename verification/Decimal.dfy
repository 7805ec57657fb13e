// The backend's conversions between decimal strings and stroops.
module Decimal {
  import opened Prelude
  import opened Rounding
  import opened Digits

  const STROOP_DECIMALS: nat := 7
  const STROOP_SCALE: int := 10_000_000

  function Unsigned(s: string): string
  {
    if s != "" && s[0] == '-' then s[1..] else s
  }

  predicate IsNegative(s: string)
  {
    s != "" && s[0] == '-'
  }

  // The pattern an amount must match: -?\d+(\.\d+)?
  predicate IsDecimalString(s: string)
  {
    var u := Unsigned(s);
    var k := PointIndex(u);
    IsNumeral(u[..k]) && (k < |u| ==> IsNumeral(u[k + 1..]))
  }

  function Magnitude(whole: string, fraction: string, mode: RoundingMode): int
  {
    if |fraction| <= STROOP_DECIMALS then
      Value(whole) * STROOP_SCALE + Value(PadEnd(fraction, STROOP_DECIMALS))
    else
      Divide(Value(whole) * Pow10(|fraction|) + Value(fraction), Pow10(|fraction| - STROOP_DECIMALS), mode)
  }

  function ToStroops(input: string, mode: RoundingMode): Result<int>
  {
    var trimmed := Trim(input);
    if !IsDecimalString(trimmed) then Err(InvalidDecimal)
    else
      var u := Unsigned(trimmed);
      var magnitude := Magnitude(Whole(u), Fraction(u), mode);
      Ok(if IsNegative(trimmed) then -magnitude else magnitude)
  }

  function FromStroops(value: int): string
  {
    var magnitude := Abs(value);
    (if value < 0 then "-" else "") + NatToString(magnitude / STROOP_SCALE) + "."
      + PadStart(NatToString(magnitude % STROOP_SCALE), STROOP_DECIMALS)
  }

  // A value as Postgres or the chain hands it over; JavaScript numbers are not modelled.
  datatype Stored = Missing | Text(text: string) | Big(n: int)

  function ToWholeStroops(v: Stored): Result<int>
  {
    match v
    case Missing => Ok(0)
    case Big(n) => Ok(n)
    case Text(text) =>
      if text == "" then Ok(0)
      else
        match ToStroops(text, HalfEven)
        case Err(e) => Err(e)
        case Ok(x) => RoundDiv(x, STROOP_SCALE, HalfEven)
  }

  // ---- The exact rational a decimal string denotes: Numerator / Denominator ----

  function Numerator(s: string): int
  {
    var v: int := Value(Whole(Unsigned(s)) + Fraction(Unsigned(s)));
    if IsNegative(s) then -v else v
  }

  function Denominator(s: string): (d: nat)
    ensures d > 0
  {
    Pow10(|Fraction(Unsigned(s))|)
  }

  lemma ScaleIsPow10()
    ensures STROOP_SCALE == Pow10(STROOP_DECIMALS)
  {
    assert Pow10(7) == 10 * Pow10(6) && Pow10(6) == 10 * Pow10(5) && Pow10(5) == 10 * Pow10(4);
  }

  // Both branches compute the same rounding of whole.fraction * 10^7.
  lemma MagnitudeExact(whole: string, fraction: string, mode: RoundingMode)
    ensures Magnitude(whole, fraction, mode)
         == Divide(Value(whole + fraction) * STROOP_SCALE, Pow10(|fraction|), mode)
  {
    hide Divide, Value, Pow10;
    var v, f := Value(whole + fraction), |fraction|;
    ScaleIsPow10();
    ValueConcat(whole, fraction);
    if f <= STROOP_DECIMALS {
      var k := Pow10(STROOP_DECIMALS - f);
      ValuePadded(fraction, STROOP_DECIMALS);
      Pow10Add(f, STROOP_DECIMALS - f);
      PaddedIsScaled(Value(whole), Value(fraction), Pow10(f), k);
      RoundDivWhole(v * k, Pow10(f), mode);
    } else {
      Pow10Add(f - STROOP_DECIMALS, STROOP_DECIMALS);
      RoundDivScale(v, Pow10(f - STROOP_DECIMALS), STROOP_SCALE, mode);
    }
  }

  lemma PaddedIsScaled(w: int, v: int, p: int, k: int)
    ensures w * (p * k) + v * k == (w * p + v) * k
    ensures (w * p + v) * (p * k) == ((w * p + v) * k) * p
  {
  }

  // What toStroops computes, on every input: an error exactly on malformed text,
  // otherwise the rounding of the exact value times 10^7. Because the sign is
  // put back after rounding, a negative amount is rounded in the mirrored mode.
  lemma ToStroopsExact(input: string, mode: RoundingMode)
    ensures ToStroops(input, mode).Err? <==> !IsDecimalString(Trim(input))
    ensures
      var s := Trim(input);
      IsDecimalString(s) ==>
        ToStroops(input, mode)
        == RoundDiv(Numerator(s) * STROOP_SCALE, Denominator(s), if IsNegative(s) then Mirror(mode) else mode)
  {
    hide Divide, Magnitude, Value, Whole, Fraction, Trim;
    var s := Trim(input);
    if IsDecimalString(s) {
      var u := Unsigned(s);
      MagnitudeExact(Whole(u), Fraction(u), mode);
      if IsNegative(s) {
        RoundDivOdd(Value(Whole(u) + Fraction(u)) * STROOP_SCALE, Denominator(s), mode);
      }
    }
  }

  predicate IsHalfMode(mode: RoundingMode)
  {
    mode.HalfEven? || mode.HalfUp?
  }

  lemma FloorMeetsCeil(n: int, d: int)
    requires d > 0
    ensures Divide(n, d, Floor) == Divide(n, d, Ceil) <==> n % d == 0
  {
    DivideMeetsMode(n, d, Floor);
    DivideMeetsMode(n, d, Ceil);
    var q := Divide(n, d, Floor);
    ModIs(n, d, q, n - q * d);
    if n % d == 0 { DivideIs(n, d, Ceil, q); }
  }

  // The documented promise, "rounded per mode", holds of toStroops if and only
  // if the mode is a half mode, the amount is not negative, or the amount has a
  // whole number of stroops. In particular it holds of the default mode.
  lemma RoundedPerMode(input: string, mode: RoundingMode)
    requires IsDecimalString(Trim(input))
    ensures
      var s := Trim(input);
      ToStroops(input, mode) == RoundDiv(Numerator(s) * STROOP_SCALE, Denominator(s), mode)
      <==> IsHalfMode(mode) || !IsNegative(s) || (Numerator(s) * STROOP_SCALE) % Denominator(s) == 0
  {
    var s := Trim(input);
    ToStroopsExact(input, mode);
    FloorMeetsCeil(Numerator(s) * STROOP_SCALE, Denominator(s));
  }

  // How a sign, two numerals and a point between them are read.
  lemma WrittenShape(negative: bool, w: string, f: string)
    requires IsNumeral(w) && IsNumeral(f)
    ensures
      var s := (if negative then "-" else "") + (w + "." + f);
      && Trim(s) == s && IsDecimalString(s) && IsNegative(s) == negative
      && Whole(Unsigned(s)) == w && Fraction(Unsigned(s)) == f
  {
    var u := w + "." + f;
    var s := (if negative then "-" else "") + u;
    assert s[|s| - 1] == f[|f| - 1];
    TrimNothing(s);
    assert Unsigned(s) == u;
    PointAfterDigits(w, f);
    assert u[|w| + 1..] == f;
    NoPoint(f);
  }

  // -0.00000001 rounded down gives 0 stroops, not -1.
  lemma NegativeFloorRoundsUp()
    ensures ToStroops("-0.00000001", Floor) == Ok(0)
    ensures RoundDiv(Numerator("-0.00000001") * STROOP_SCALE, Denominator("-0.00000001"), Floor) == Ok(-1)
  {
    hide Divide, Value, Pow10, Trim, ToStroops;
    var s, f := "-0.00000001", "00000001";
    assert s == "-" + ("0" + "." + f);
    WrittenShape(true, "0", f);
    DustValue();
    ToStroopsExact(s, Floor);
    DivideIs(-STROOP_SCALE, 100_000_000, Ceil, 0);
    DivideIs(-STROOP_SCALE, 100_000_000, Floor, -1);
  }

  lemma DustValue()
    ensures Value("0" + "00000001") == 1 && Pow10(8) == 100_000_000
  {
    assert "0" + "00000001" == Zeros(8) + "1" && "1"[..0] == "";
    ValueConcat(Zeros(8), "1");
    ValueZeros(8);
    ScaleIsPow10();
    Pow10Add(1, 7);
  }

  // ---- Round trip ----

  lemma PrintedShape(x: int)
    ensures
      var s := FromStroops(x);
      var m := Abs(x);
      && Trim(s) == s && IsDecimalString(s) && (IsNegative(s) <==> x < 0)
      && Whole(Unsigned(s)) == NatToString(m / STROOP_SCALE)
      && Fraction(Unsigned(s)) == PadStart(NatToString(m % STROOP_SCALE), STROOP_DECIMALS)
      && |Fraction(Unsigned(s))| == STROOP_DECIMALS
  {
    var m := Abs(x);
    var w, f := NatToString(m / STROOP_SCALE), PadStart(NatToString(m % STROOP_SCALE), STROOP_DECIMALS);
    ScaleIsPow10();
    NatLength(m % STROOP_SCALE, STROOP_DECIMALS);
    assert FromStroops(x) == (if x < 0 then "-" else "") + (w + "." + f);
    WrittenShape(x < 0, w, f);
  }

  lemma PrintedMagnitude(whole: nat, rest: nat, mode: RoundingMode)
    requires rest < STROOP_SCALE
    ensures Magnitude(NatToString(whole), PadStart(NatToString(rest), STROOP_DECIMALS), mode) == whole * STROOP_SCALE + rest
  {
    ScaleIsPow10();
    NatLength(rest, STROOP_DECIMALS);
    NatRoundTrip(whole);
    NatRoundTrip(rest);
    ValuePadded(NatToString(rest), STROOP_DECIMALS);
  }

  // Printing and reading back is the identity, whatever the rounding mode.
  lemma StroopsRoundTrip(x: int, mode: RoundingMode)
    ensures ToStroops(FromStroops(x), mode) == Ok(x)
  {
    hide Magnitude, FromStroops, Trim, IsDecimalString, Whole, Fraction, Unsigned, NatToString, PadStart;
    PrintedShape(x);
    PrintedMagnitude(Abs(x) / STROOP_SCALE, Abs(x) % STROOP_SCALE, mode);
  }

  // ---- Rounding twice: first to 10^-7 of a stroop, then to whole stroops ----

  // The midpoint between m and m + 1 stroops, in units of 10^-7 stroop.
  function Midpoint(m: int): int
  {
    m * STROOP_SCALE + 5_000_000
  }

  // `t` stands for num/den to seven decimals without crossing any midpoint.
  ghost predicate KeepsSides(t: int, num: int, den: int)
  {
    forall m {:trigger Midpoint(m)} ::
      && (2 * num <= (2 * m + 1) * den ==> t <= Midpoint(m))
      && (2 * num >= (2 * m + 1) * den ==> t >= Midpoint(m))
  }

  // Rounding in any mode keeps sides, because midpoints are whole at seven decimals.
  lemma RoundingKeepsSides(num: int, den: int, mode: RoundingMode)
    requires den > 0
    ensures KeepsSides(Divide(num * STROOP_SCALE, den, mode), num, den)
  {
    hide Divide;
    forall m {:trigger Midpoint(m)}
      ensures 2 * num <= (2 * m + 1) * den ==> Divide(num * STROOP_SCALE, den, mode) <= Midpoint(m)
      ensures 2 * num >= (2 * m + 1) * den ==> Divide(num * STROOP_SCALE, den, mode) >= Midpoint(m)
    {
      RoundDivWhole(Midpoint(m), den, mode);
      assert 2 * (Midpoint(m) * den) == STROOP_SCALE * ((2 * m + 1) * den);
      if 2 * num <= (2 * m + 1) * den { RoundDivMonotone(num * STROOP_SCALE, Midpoint(m) * den, den, mode); }
      if 2 * num >= (2 * m + 1) * den { RoundDivMonotone(Midpoint(m) * den, num * STROOP_SCALE, den, mode); }
    }
  }

  lemma MidpointTie(t: int) returns (m: int)
    ensures IsTie(t, STROOP_SCALE) ==> t == Midpoint(m)
    ensures !IsTie(t, STROOP_SCALE) ==> Midpoint(m - 1) < t < Midpoint(m) && Divide(t, STROOP_SCALE, HalfEven) == m
  {
    if IsTie(t, STROOP_SCALE) {
      m := (2 * t) / (2 * STROOP_SCALE);
    } else {
      m := Divide(t, STROOP_SCALE, HalfEven);
      DivideMeetsMode(t, STROOP_SCALE, HalfEven);
      TieError(t, STROOP_SCALE, m);
    }
  }

  lemma BetweenMidpoints(num: int, den: int, lo: int, hi: int, q: int)
    requires den > 0 && lo < hi && IsRounding(q, num, den, HalfEven)
    requires (2 * lo + 1) * den < 2 * num < (2 * hi + 1) * den
    ensures lo + 1 <= q <= hi
  {
    if q <= lo { MulLe(q, lo, den); }
    if q >= hi + 1 { MulLe(hi + 1, q, den); }
    assert (2 * lo + 1) * den == 2 * (lo * den) + den && (2 * hi + 1) * den == 2 * (hi * den) + den;
    assert (hi + 1) * den == hi * den + den;
  }

  // Rounding an intermediate t is off by at most one, and is off exactly when t
  // is a midpoint and the direct rounding is odd.
  lemma TwiceRounded(t: int, num: int, den: int)
    requires den > 0 && KeepsSides(t, num, den)
    ensures
      var twice, once := Divide(t, STROOP_SCALE, HalfEven), Divide(num, den, HalfEven);
      && -1 <= twice - once <= 1
      && (twice != once <==> IsTie(t, STROOP_SCALE) && once % 2 != 0)
  {
    var twice, once := Divide(t, STROOP_SCALE, HalfEven), Divide(num, den, HalfEven);
    DivideMeetsMode(t, STROOP_SCALE, HalfEven);
    DivideMeetsMode(num, den, HalfEven);
    var m := MidpointTie(t);
    var lo, hi := Midpoint(m - 1), Midpoint(m + 1);
    if IsTie(t, STROOP_SCALE) {
      BetweenMidpoints(num, den, m - 1, m + 1, once);
      MidpointRounds(t, m, twice);
    } else {
      var mid := Midpoint(m);
      BetweenMidpoints(num, den, m - 1, m, once);
    }
  }

  lemma MidpointRounds(t: int, m: int, q: int)
    requires t == Midpoint(m) && IsRounding(q, t, STROOP_SCALE, HalfEven)
    ensures q % 2 == 0 && m <= q <= m + 1
  {
  }

  lemma WholeFirst(n: int, d: int, k: int, scale: int)
    requires d > 0 && k > 0 && scale == d * k > 0
    ensures Divide(Divide(n * scale, d, HalfEven), scale, HalfEven) == Divide(n, d, HalfEven)
  {
    hide Divide;
    assert n * scale == (n * k) * d;
    RoundDivWhole(n * k, d, HalfEven);
    RoundDivScale(n, d, k, HalfEven);
  }

  lemma NotEmpty(text: string)
    requires IsDecimalString(Trim(text))
    ensures text != ""
  {
  }

  // Up to seven decimals the first rounding changes nothing.
  lemma FirstRoundingExact(n: int, f: nat)
    requires f <= STROOP_DECIMALS
    ensures Divide(Divide(n * STROOP_SCALE, Pow10(f), HalfEven), STROOP_SCALE, HalfEven) == Divide(n, Pow10(f), HalfEven)
  {
    hide Divide;
    ScaleIsPow10();
    Pow10Add(f, STROOP_DECIMALS - f);
    WholeFirst(n, Pow10(f), Pow10(STROOP_DECIMALS - f), STROOP_SCALE);
  }

  // toWholeStroops on text: exact to nearest even for up to seven decimals;
  // beyond that it is wrong exactly when the seven-decimal value is a midpoint
  // and the correct answer is odd, and then by one stroop.
  lemma ToWholeStroopsRounds(text: string)
    requires IsDecimalString(Trim(text))
    ensures ToWholeStroops(Text(text)).Ok?
    ensures
      var s := Trim(text);
      var got, want := ToWholeStroops(Text(text)).value, Divide(Numerator(s), Denominator(s), HalfEven);
      && -1 <= got - want <= 1
      && (|Fraction(Unsigned(s))| <= STROOP_DECIMALS ==> got == want)
      && (got != want <==> IsTie(ToStroops(text, HalfEven).value, STROOP_SCALE) && want % 2 != 0)
  {
    hide Divide, KeepsSides, Trim, Whole, Fraction, Value, Magnitude;
    var s := Trim(text);
    var n, d, f := Numerator(s), Denominator(s), |Fraction(Unsigned(s))|;
    ToStroopsExact(text, HalfEven);
    assert text != "" by { NotEmpty(text); }
    RoundingKeepsSides(n, d, HalfEven);
    TwiceRounded(Divide(n * STROOP_SCALE, d, HalfEven), n, d);
    if f <= STROOP_DECIMALS { FirstRoundingExact(n, f); }
  }

  // Reading num/den stroops through seven decimals.
  function ReadThroughSeven(num: int, den: int): int
    requires den > 0
  {
    Divide(Divide(num * STROOP_SCALE, den, HalfEven), STROOP_SCALE, HalfEven)
  }

  lemma ToWholeStroopsReads(text: string)
    requires IsDecimalString(Trim(text))
    ensures ToWholeStroops(Text(text)) == Ok(ReadThroughSeven(Numerator(Trim(text)), Denominator(Trim(text))))
  {
    hide Divide;
    ToStroopsExact(text, HalfEven);
    assert text != "";
  }

  // 0.50000001 stroop reads as 0, although 1 is nearer.
  lemma HalfPlusDust()
    ensures ToWholeStroops(Text("0.50000001")) == Ok(0)
    ensures RoundDiv(Numerator("0.50000001"), Denominator("0.50000001"), HalfEven) == Ok(1)
  {
    hide Divide, Value, Pow10, Trim;
    var s, f := "0.50000001", "50000001";
    assert s == "" + ("0" + "." + f);
    WrittenShape(false, "0", f);
    HalfPlusDustValue();
    ToStroopsExact(s, HalfEven);
    DivideIs(50_000_001, 100_000_000, HalfEven, 1);
    DivideIs(50_000_001 * STROOP_SCALE, 100_000_000, HalfEven, 5_000_000);
    DivideIs(5_000_000, STROOP_SCALE, HalfEven, 0);
  }

  lemma HalfPlusDustValue()
    ensures Value("0" + "50000001") == 50_000_001 && Pow10(8) == 100_000_000
  {
    assert "0" + "50000001" == "05" + (Zeros(6) + "1");
    assert "1"[..0] == "" && "05"[..1] == "0" && "0"[..0] == "";
    ValueConcat(Zeros(6), "1");
    ValueZeros(6);
    ValueConcat("05", Zeros(6) + "1");
    ScaleIsPow10();
    Pow10Add(1, 7);
  }

  // The distance from the exact value is at most 1/2 + 1/(2 * 10^7) stroop.
  lemma ToWholeStroopsError(text: string)
    requires IsDecimalString(Trim(text))
    ensures ToWholeStroops(Text(text)).Ok?
    ensures
      var s := Trim(text);
      var got := ToWholeStroops(Text(text)).value;
      2 * STROOP_SCALE * Abs(Numerator(s) - got * Denominator(s)) <= (STROOP_SCALE + 1) * Denominator(s)
  {
    var s := Trim(text);
    var n, d := Numerator(s), Denominator(s);
    ToStroopsExact(text, HalfEven);
    var t := Divide(n * STROOP_SCALE, d, HalfEven);
    DivideMeetsMode(n * STROOP_SCALE, d, HalfEven);
    DivideMeetsMode(t, STROOP_SCALE, HalfEven);
    ErrorsAdd(n, d, t, Divide(t, STROOP_SCALE, HalfEven));
  }

  lemma ErrorsAdd(n: int, d: int, t: int, q: int)
    requires d > 0
    requires -d <= 2 * (n * STROOP_SCALE - t * d) <= d
    requires -STROOP_SCALE <= 2 * (t - q * STROOP_SCALE) <= STROOP_SCALE
    ensures 2 * STROOP_SCALE * Abs(n - q * d) <= (STROOP_SCALE + 1) * d
  {
    var e := t - q * STROOP_SCALE;
    assert STROOP_SCALE * (n - q * d) == (n * STROOP_SCALE - t * d) + e * d by {
      assert e * d == t * d - (q * d) * STROOP_SCALE;
    }
    MulLe(2 * e, STROOP_SCALE, d);
    MulLe(-STROOP_SCALE, 2 * e, d);
    assert (2 * e) * d == 2 * (e * d);
  }

  // ---- Values that are not text, and padding ----

  // A missing value and empty text are zero, and a bigint is itself.
  lemma OtherValuesRead(n: int)
    ensures ToWholeStroops(Missing) == Ok(0) && ToWholeStroops(Text("")) == Ok(0) && ToWholeStroops(Big(n)) == Ok(n)
  {
  }

  // White space around an amount does not matter.
  lemma PaddingIgnored(a: string, s: string, b: string, mode: RoundingMode)
    requires AllSpace(a) && AllSpace(b) && s != "" && !IsSpace(s[0]) && !IsSpace(s[|s| - 1])
    ensures ToStroops(a + s + b, mode) == ToStroops(s, mode)
    ensures ToWholeStroops(Text(a + s + b)) == ToWholeStroops(Text(s))
  {
    hide Trim, IsDecimalString, Magnitude;
    TrimDrops(a, s, b);
    TrimNothing(s);
  }

  // ---- The pattern ----

  // An optional minus sign, digits, and optionally a point and more digits.
  ghost predicate Written(s: string, sign: string, w: string, f: string)
  {
    (sign == "" || sign == "-") && IsNumeral(w) && (s == sign + w || (IsNumeral(f) && s == sign + w + "." + f))
  }

  lemma PatternIff(s: string)
    ensures IsDecimalString(s) <==> exists sign, w, f :: Written(s, sign, w, f)
  {
    hide Written, IsDecimalString;
    if IsDecimalString(s) { var sign, w, f := Pieces(s); }
    if sign, w, f :| Written(s, sign, w, f) { MatchesPattern(s, sign, w, f); }
  }

  lemma Pieces(s: string) returns (sign: string, w: string, f: string)
    requires IsDecimalString(s)
    ensures Written(s, sign, w, f)
  {
    var u := Unsigned(s);
    var k := PointIndex(u);
    sign, w := if IsNegative(s) then "-" else "", u[..k];
    SignAndRest(s, sign, u);
    if k < |u| {
      f := u[k + 1..];
      CutAtPoint(sign, u, k);
    } else {
      f := "";
      assert u[..k] == u;
    }
  }

  lemma SignAndRest(s: string, sign: string, u: string)
    requires u == Unsigned(s) && sign == if IsNegative(s) then "-" else ""
    ensures s == sign + u
  {
  }

  lemma CutAtPoint(sign: string, u: string, k: nat)
    requires k < |u| && u[k] == '.'
    ensures sign + u == sign + u[..k] + "." + u[k + 1..]
  {
  }

  lemma MatchesPattern(s: string, sign: string, w: string, f: string)
    requires Written(s, sign, w, f)
    ensures IsDecimalString(s)
  {
    assert w[0] != '-';
    if s == sign + w {
      assert Unsigned(s) == w;
      NoPoint(w);
      assert w[..|w|] == w;
    } else {
      var u := w + "." + f;
      assert s == sign + u && Unsigned(s) == u;
      PointAfterDigits(w, f);
      assert u[..|w|] == w && u[|w| + 1..] == f;
    }
  }
}
