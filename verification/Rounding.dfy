// Four-mode signed division, the only place where the backend rounds an amount.
module Rounding {
  import opened Prelude

  datatype RoundingMode = HalfEven | HalfUp | Floor | Ceil

  // `bigint` division: truncates toward zero.
  function TruncDiv(n: int, d: int): int
    requires d > 0
  {
    if n >= 0 then n / d else -((-n) / d)
  }

  function TruncRem(n: int, d: int): int
    requires d > 0
  {
    n - TruncDiv(n, d) * d
  }

  // Whether a nonzero remainder moves the truncated quotient away from zero.
  predicate RoundsAway(quotient: int, remainder: int, d: int, mode: RoundingMode)
  {
    match mode
    case Floor => remainder < 0
    case Ceil => remainder >= 0
    case HalfUp => Abs(remainder) * 2 >= d
    case HalfEven =>
      var doubled := Abs(remainder) * 2;
      if doubled > d then true
      else if doubled < d then false
      else quotient % 2 != 0
  }

  // The division proper, once the denominator is known to be nonzero.
  function Divide(num: int, den: int, mode: RoundingMode): int
    requires den != 0
  {
    var n := if den < 0 then -num else num;
    var d := if den < 0 then -den else den;
    var quotient := TruncDiv(n, d);
    var remainder := TruncRem(n, d);
    if remainder == 0 || !RoundsAway(quotient, remainder, d, mode) then quotient
    else if remainder < 0 then quotient - 1
    else quotient + 1
  }

  function RoundDiv(num: int, den: int, mode: RoundingMode): Result<int>
  {
    if den == 0 then Err(DivisionByZero) else Ok(Divide(num, den, mode))
  }

  // What each mode promises of `q` as a rounding of n/d, given the product
  // `qd == q * d`; everything here is linear in its arguments.
  ghost predicate Allowed(q: int, qd: int, n: int, d: int, mode: RoundingMode)
  {
    match mode
    case Floor => qd <= n < qd + d
    case Ceil => qd - d < n <= qd
    case HalfUp => -d <= 2 * (n - qd) <= d && (2 * (n - qd) == d ==> n < 0) && (2 * (n - qd) == -d ==> n > 0)
    case HalfEven => -d <= 2 * (n - qd) <= d && (2 * (n - qd) == d || 2 * (n - qd) == -d ==> q % 2 == 0)
  }

  // The definition of each mode by cross-multiplication, without reference to
  // the algorithm: toward -oo, toward +oo, nearest with ties away from zero,
  // and nearest with ties to even.
  ghost predicate IsRounding(q: int, num: int, den: int, mode: RoundingMode)
    requires den != 0
  {
    Allowed(q, q * Abs(den), if den < 0 then -num else num, Abs(den), mode)
  }

  lemma MulLe(a: int, b: int, d: int)
    requires a <= b && d >= 0
    ensures a * d <= b * d
  {
  }

  lemma NatDivBounds(m: nat, d: int)
    requires d > 0
    ensures m / d >= 0 && 0 <= m - (m / d) * d < d
  {
    assert m == (m / d) * d + m % d;
  }

  lemma TruncBounds(n: int, d: int)
    requires d > 0
    ensures n == TruncDiv(n, d) * d + TruncRem(n, d)
    ensures -d < TruncRem(n, d) < d
    ensures n >= 0 ==> TruncRem(n, d) >= 0 && TruncDiv(n, d) >= 0
    ensures n <= 0 ==> TruncRem(n, d) <= 0 && TruncDiv(n, d) <= 0
  {
    NatDivBounds(Abs(n), d);
    if n < 0 {
      var p := (-n) / d;
      assert (-p) * d == -(p * d);
    }
  }

  lemma DivideMeetsMode(num: int, den: int, mode: RoundingMode)
    requires den != 0
    ensures IsRounding(Divide(num, den, mode), num, den, mode)
  {
    var n := if den < 0 then -num else num;
    var d := Abs(den);
    TruncBounds(n, d);
    var q := TruncDiv(n, d);
    assert (q - 1) * d == q * d - d;
    assert (q + 1) * d == q * d + d;
  }

  // A larger candidate is at least one denominator further along.
  lemma ProductGap(q: int, p: int, d: int)
    requires d > 0 && q < p
    ensures q * d + d <= p * d
    ensures p == q + 1 ==> p * d == q * d + d
    ensures p > q + 1 ==> q * d + 2 * d <= p * d
  {
    assert (q + 1) * d == q * d + d;
    assert (q + 2) * d == q * d + 2 * d;
    MulLe(q + 1, p, d);
    if p > q + 1 { MulLe(q + 2, p, d); }
  }

  // Larger numerators have larger roundings; with m == n this is uniqueness.
  lemma AllowedMonotone(q: int, p: int, n: int, m: int, d: int, mode: RoundingMode)
    requires d > 0 && n <= m
    requires Allowed(q, q * d, n, d, mode) && Allowed(p, p * d, m, d, mode)
    ensures q <= p
  {
    if p < q { ProductGap(p, q, d); }
  }

  // The returned integer is the one and only rounding the mode allows.
  lemma RoundDivExact(num: int, den: int, mode: RoundingMode, q: int)
    requires den != 0
    ensures RoundDiv(num, den, mode) == Ok(q) <==> IsRounding(q, num, den, mode)
  {
    DivideMeetsMode(num, den, mode);
    if IsRounding(q, num, den, mode) {
      var n := if den < 0 then -num else num;
      AllowedMonotone(q, Divide(num, den, mode), n, n, Abs(den), mode);
      AllowedMonotone(Divide(num, den, mode), q, n, n, Abs(den), mode);
    }
  }

  lemma DivideIs(num: int, den: int, mode: RoundingMode, q: int)
    requires den != 0 && IsRounding(q, num, den, mode)
    ensures Divide(num, den, mode) == q
  {
    RoundDivExact(num, den, mode, q);
  }

  lemma RoundDivMonotone(a: int, b: int, den: int, mode: RoundingMode)
    requires den > 0 && a <= b
    ensures Divide(a, den, mode) <= Divide(b, den, mode)
  {
    DivideMeetsMode(a, den, mode);
    DivideMeetsMode(b, den, mode);
    AllowedMonotone(Divide(a, den, mode), Divide(b, den, mode), a, b, den, mode);
  }

  function Mirror(mode: RoundingMode): RoundingMode
  {
    match mode
    case HalfEven => HalfEven
    case HalfUp => HalfUp
    case Floor => Ceil
    case Ceil => Floor
  }

  lemma AllowedMirrored(q: int, qd: int, n: int, d: int, mode: RoundingMode)
    requires Allowed(q, qd, n, d, mode)
    ensures Allowed(-q, -qd, -n, d, Mirror(mode))
  {
  }

  lemma RoundingMirrored(q: int, num: int, den: int, mode: RoundingMode)
    requires den != 0 && IsRounding(q, num, den, mode)
    ensures IsRounding(-q, -num, den, Mirror(mode))
  {
    var d, n := Abs(den), if den < 0 then -num else num;
    AllowedMirrored(q, q * d, n, d, mode);
    assert (-q) * d == -(q * d);
  }

  // Negating the numerator negates the result under the mirrored mode; the two
  // half modes are their own mirrors, so for them the division is odd.
  lemma RoundDivOdd(num: int, den: int, mode: RoundingMode)
    requires den != 0
    ensures Divide(-num, den, Mirror(mode)) == -Divide(num, den, mode)
  {
    DivideMeetsMode(num, den, mode);
    RoundingMirrored(Divide(num, den, mode), num, den, mode);
    DivideIs(-num, den, Mirror(mode), -Divide(num, den, mode));
  }

  // Multiplying all four quantities by k > 0 keeps every comparison.
  lemma AllowedScaled(q: int, qd: int, n: int, d: int, k: int, mode: RoundingMode)
    requires d > 0 && k > 0 && Allowed(q, qd, n, d, mode)
    ensures Allowed(q, qd * k, n * k, d * k, mode)
  {
    var e, ek, dk := n - qd, (n - qd) * k, d * k;
    assert ek == n * k - qd * k && (2 * e) * k == 2 * ek && (-d) * k == -dk;
    ScaledOrder(e, ek, d, dk, k);
    MulOrder(0, n, k);
  }

  // The comparisons the modes make, on an error e and on its multiple.
  lemma ScaledOrder(e: int, ek: int, d: int, dk: int, k: int)
    requires k > 0 && ek == e * k && dk == d * k && (2 * e) * k == 2 * ek && (-d) * k == -dk
    ensures (0 < e <==> 0 < ek) && (0 == e <==> 0 == ek) && (e < d <==> ek < dk) && (-d < e <==> -dk < ek)
    ensures (2 * e < d <==> 2 * ek < dk) && (2 * e == d <==> 2 * ek == dk)
    ensures (-d < 2 * e <==> -dk < 2 * ek) && (-d == 2 * e <==> -dk == 2 * ek)
  {
    MulOrder(0, e, k);
    MulOrder(e, d, k);
    MulOrder(-d, e, k);
    MulOrder(2 * e, d, k);
    MulOrder(-d, 2 * e, k);
  }

  lemma MulOrder(a: int, b: int, k: int)
    requires k > 0
    ensures (a < b <==> a * k < b * k) && (a == b <==> a * k == b * k)
  {
    if a < b { ProductGap(a, b, k); } else if b < a { ProductGap(b, a, k); }
  }

  lemma RoundingScaled(q: int, num: int, den: int, k: int, mode: RoundingMode)
    requires den > 0 && k > 0 && IsRounding(q, num, den, mode)
    ensures den * k > 0 && IsRounding(q, num * k, den * k, mode)
  {
    MulOrder(0, den, k);
    AllowedScaled(q, q * den, num, den, k, mode);
    assert (q * den) * k == q * (den * k);
  }

  // Only the value of the fraction matters, not the terms it is written in.
  lemma RoundDivScale(num: int, den: int, k: int, mode: RoundingMode)
    requires den > 0 && k > 0
    ensures den * k > 0 && Divide(num * k, den * k, mode) == Divide(num, den, mode)
  {
    DivideMeetsMode(num, den, mode);
    RoundingScaled(Divide(num, den, mode), num, den, k, mode);
    DivideIs(num * k, den * k, mode, Divide(num, den, mode));
  }

  // num/den lies exactly between two integers.
  ghost predicate IsTie(num: int, den: int)
    requires den > 0
  {
    (2 * num) % (2 * den) == den
  }

  lemma TieError(num: int, den: int, q: int)
    requires den > 0
    ensures 2 * (num - q * den) == den || 2 * (num - q * den) == -den ==> IsTie(num, den)
  {
    if 2 * (num - q * den) == den {
      assert 2 * num == q * (2 * den) + den;
      ModIs(2 * num, 2 * den, q, den);
    } else if 2 * (num - q * den) == -den {
      assert 2 * num == (q - 1) * (2 * den) + den;
      ModIs(2 * num, 2 * den, q - 1, den);
    }
  }

  lemma TieForm(num: int, den: int) returns (j: int)
    requires den > 0 && IsTie(num, den)
    ensures 2 * num == 2 * (j * den) + den
  {
    j := (2 * num) / (2 * den);
    QuotientAndRest(2 * num, 2 * den);
    DoubleProduct(j, den);
  }

  lemma QuotientAndRest(n: int, d: int)
    requires d > 0
    ensures n == (n / d) * d + n % d
  {
  }

  lemma DoubleProduct(j: int, den: int)
    ensures j * (2 * den) == 2 * (j * den)
  {
  }

  // Half-even rounding of a tie is even.
  lemma TieIsEven(num: int, den: int)
    requires den > 0 && IsTie(num, den)
    ensures Divide(num, den, HalfEven) % 2 == 0
  {
    hide Divide, IsTie;
    var q := Divide(num, den, HalfEven);
    DivideMeetsMode(num, den, HalfEven);
    var j := TieForm(num, den);
    if q < j { ProductGap(q, j, den); } else if j < q { ProductGap(j, q, den); }
  }

  lemma AllowedShifted(q: int, qd: int, n: int, d: int, k: int, kd: int)
    requires Allowed(q, qd, n, d, HalfEven)
    requires k % 2 == 0 || (2 * (n - qd) != d && 2 * (n - qd) != -d)
    ensures Allowed(q + k, qd + kd, n + kd, d, HalfEven)
  {
  }

  lemma RoundingShifted(q: int, num: int, den: int, k: int)
    requires den > 0 && IsRounding(q, num, den, HalfEven)
    requires k % 2 == 0 || !IsTie(num, den)
    ensures IsRounding(q + k, num + k * den, den, HalfEven)
  {
    TieError(num, den, q);
    AllowedShifted(q, q * den, num, den, k, k * den);
    assert (q + k) * den == q * den + k * den;
  }

  // Half-even rounding commutes with adding k whole units, unless an odd k
  // meets a tie and so changes which neighbour is even.
  lemma RoundDivShift(num: int, den: int, k: int)
    requires den > 0
    requires k % 2 == 0 || !IsTie(num, den)
    ensures Divide(num + k * den, den, HalfEven) == Divide(num, den, HalfEven) + k
  {
    DivideMeetsMode(num, den, HalfEven);
    RoundingShifted(Divide(num, den, HalfEven), num, den, k);
    DivideIs(num + k * den, den, HalfEven, Divide(num, den, HalfEven) + k);
  }

  lemma ModIs(n: int, d: int, q: int, r: int)
    requires d > 0 && n == q * d + r && 0 <= r < d
    ensures n % d == r && n / d == q
  {
    var q', r' := n / d, n % d;
    assert n == q' * d + r';
    if q < q' { ProductGap(q, q', d); } else if q' < q { ProductGap(q', q, d); }
  }

  // A whole quotient is never rounded.
  lemma RoundDivWhole(q: int, den: int, mode: RoundingMode)
    requires den > 0
    ensures Divide(q * den, den, mode) == q
  {
    DivideIs(q * den, den, mode, q);
  }
}
