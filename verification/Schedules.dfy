// The two instalment schedules of the loan controller. Amounts are exact
// rationals of stroops; the binary floating point they travel in is not modelled.
module Schedules {
  import opened Prelude
  import opened Rounding

  const CENT: int := 100_000               // stroops per cent
  const PERIOD_LEDGERS: int := 17_280 * 30 // one month of ledgers

  // num/den stroops.
  datatype Amount = Amount(num: int, den: int)

  type ValidAmount = a: Amount | a.den > 0 witness Amount(0, 1)

  function OfCents(c: int): ValidAmount
  {
    Amount(c * CENT, 1)
  }

  function Minus(a: ValidAmount, cents: int): ValidAmount
  {
    Amount(a.num - cents * CENT * a.den, a.den)
  }

  function Over(a: ValidAmount, n: int): ValidAmount
    requires n > 0
  {
    MulOrder(0, a.den, n);
    Amount(a.num, a.den * n)
  }

  // roundToCents: toFixed(7) rounds to whole stroops with ties away from zero,
  // then the stroops are rounded half-even to cents.
  function RoundToCents(a: ValidAmount): int
  {
    Divide(Divide(a.num, a.den, HalfUp), CENT, HalfEven)
  }

  // Math.max(1, Math.round(termDays / 30) || 1)
  function PeriodCount(termLedgers: int): (n: int)
    ensures n >= 1
  {
    var months := (2 * termLedgers + PERIOD_LEDGERS) / (2 * PERIOD_LEDGERS);
    if months >= 1 then months else 1
  }

  // ---- One column of a schedule: an amount paid off in n instalments ----

  function Regular(a: ValidAmount, n: int): int
    requires n > 0
  {
    RoundToCents(Over(a, n))
  }

  // What is left after the first instalment, in cents; from then on every
  // amount is whole cents and no rounding changes it.
  function AfterFirst(a: ValidAmount, n: int): int
    requires n > 0
  {
    RoundToCents(Minus(a, Regular(a, n)))
  }

  // Instalment i of n, counting from one.
  function Portion(a: ValidAmount, n: int, i: int): int
    requires 1 <= i <= n
  {
    if n == 1 then RoundToCents(a)
    else if i < n then Regular(a, n)
    else AfterFirst(a, n) - (n - 2) * Regular(a, n)
  }

  // What remains after instalment i of n.
  function Remaining(a: ValidAmount, n: int, i: int): int
    requires 1 <= i <= n
  {
    if n == 1 then RoundToCents(Minus(a, RoundToCents(a)))
    else if i < n then AfterFirst(a, n) - (i - 1) * Regular(a, n)
    else 0
  }

  // One pass of the loop body over one column.
  function NextPortion(a: ValidAmount, rest: ValidAmount, n: int, i: int): int
    requires 1 <= i <= n
  {
    if i == n then RoundToCents(rest) else Regular(a, n)
  }

  // The value the loop variable holds before instalment i.
  ghost predicate HoldsBefore(rest: ValidAmount, a: ValidAmount, n: int, i: int)
    requires 1 <= i <= n + 1 && n >= 1
  {
    rest == if i == 1 then a else OfCents(Remaining(a, n, i - 1))
  }

  lemma CentsStay(c: int)
    ensures RoundToCents(OfCents(c)) == c
  {
    RoundDivWhole(c * CENT, 1, HalfUp);
    RoundDivWhole(c, CENT, HalfEven);
  }

  lemma ColumnStep(a: ValidAmount, rest: ValidAmount, n: int, i: int)
    requires 1 <= i <= n && HoldsBefore(rest, a, n, i)
    ensures
      var p := NextPortion(a, rest, n, i);
      p == Portion(a, n, i) && RoundToCents(Minus(rest, p)) == Remaining(a, n, i)
  {
    hide Divide;
    if i > 1 {
      var left, p := Remaining(a, n, i - 1), NextPortion(a, rest, n, i);
      CentsStay(left);
      assert Minus(OfCents(left), p) == OfCents(left - p);
      CentsStay(left - p);
      assert (i - 1) * Regular(a, n) == (i - 2) * Regular(a, n) + Regular(a, n);
    }
  }

  datatype Row = Row(principal: int, interest: int, fees: int, total: int, balance: int)

  function Clip(x: int): int
  {
    if x < 0 then 0 else x
  }

  ghost predicate RowIs(row: Row, p: ValidAmount, interest: ValidAmount, fees: ValidAmount, n: int, i: int)
    requires 1 <= i <= n
  {
    && row.principal == Portion(p, n, i) && row.interest == Portion(interest, n, i) && row.fees == Portion(fees, n, i)
    && row.total == row.principal + row.interest + row.fees
    && row.balance == Clip(Remaining(p, n, i))
  }

  datatype Amortization = Amortization(principal: int, totalInterest: int, totalFees: int, totalDue: int, rows: seq<Row>)

  // The schedule of an approved loan: interest unrounded, no fees.
  ghost predicate IsAmortization(r: Amortization, principal: int, interestRateBps: int, termLedgers: int)
  {
    var p, interest := Amount(principal, 1), Amount(principal * interestRateBps, 10_000);
    && |r.rows| == PeriodCount(termLedgers)
    && r.principal == RoundToCents(p) && r.totalInterest == RoundToCents(interest) && r.totalFees == 0
    && r.totalDue == RoundToCents(Amount(principal * 10_000 + principal * interestRateBps, 10_000))
    && forall i :: 0 <= i < |r.rows| ==> RowIs(r.rows[i], p, interest, OfCents(0), |r.rows|, i + 1)
  }

  // The preview of a loan: interest and fees rounded to cents first.
  ghost predicate IsPreview(r: Amortization, principal: int, interestRateBps: int, termLedgers: int, feeRateBps: int)
  {
    && |r.rows| == PeriodCount(termLedgers)
    && r.principal == RoundToCents(Amount(principal, 1))
    && r.totalInterest == RoundToCents(Amount(principal * interestRateBps, 10_000))
    && r.totalFees == RoundToCents(Amount(principal * feeRateBps, 10_000))
    && r.totalDue == RoundToCents(Amount(principal + (r.totalInterest + r.totalFees) * CENT, 1))
    && forall i :: 0 <= i < |r.rows| ==>
         RowIs(r.rows[i], Amount(principal, 1), OfCents(r.totalInterest), OfCents(r.totalFees), |r.rows|, i + 1)
  }

  // buildAmortizationSchedule; all results are in cents.
  method BuildAmortizationSchedule(principal: int, interestRateBps: int, termLedgers: int) returns (r: Amortization)
    ensures IsAmortization(r, principal, interestRateBps, termLedgers)
  {
    hide Divide;
    var n := PeriodCount(termLedgers);
    var p: ValidAmount, interest: ValidAmount := Amount(principal, 1), Amount(principal * interestRateBps, 10_000);
    var rawPrincipal, rawInterest := RoundToCents(Over(p, n)), RoundToCents(Over(interest, n));
    var rows := [];
    var remainingPrincipal, remainingInterest := p, interest;
    for i := 1 to n + 1
      invariant |rows| == i - 1
      invariant HoldsBefore(remainingPrincipal, p, n, i) && HoldsBefore(remainingInterest, interest, n, i)
      invariant forall k :: 0 <= k < |rows| ==> RowIs(rows[k], p, interest, OfCents(0), n, k + 1)
    {
      ColumnStep(p, remainingPrincipal, n, i);
      ColumnStep(interest, remainingInterest, n, i);
      ZeroColumn(n, i);
      var principalPortion := if i == n then RoundToCents(remainingPrincipal) else rawPrincipal;
      var interestPortion := if i == n then RoundToCents(remainingInterest) else rawInterest;
      var balance := RoundToCents(Minus(remainingPrincipal, principalPortion));
      remainingPrincipal := OfCents(balance);
      remainingInterest := OfCents(RoundToCents(Minus(remainingInterest, interestPortion)));
      var totalDue := RoundToCents(OfCents(principalPortion + interestPortion));
      CentsStay(principalPortion + interestPortion);
      rows := rows + [Row(principalPortion, interestPortion, 0, totalDue, Clip(balance))];
    }
    r := Amortization(RoundToCents(p), RoundToCents(interest), 0,
                      RoundToCents(Amount(principal * 10_000 + principal * interestRateBps, 10_000)), rows);
  }

  // buildRepaymentPreviewSchedule
  method BuildRepaymentPreviewSchedule(principal: int, interestRateBps: int, termLedgers: int, feeRateBps: int)
      returns (r: Amortization)
    ensures IsPreview(r, principal, interestRateBps, termLedgers, feeRateBps)
  {
    hide Divide;
    var totalInterest := RoundToCents(Amount(principal * interestRateBps, 10_000));
    var totalFees := RoundToCents(Amount(principal * feeRateBps, 10_000));
    var totalDue := RoundToCents(Amount(principal + (totalInterest + totalFees) * CENT, 1));
    var n := PeriodCount(termLedgers);
    var p: ValidAmount := Amount(principal, 1);
    var interest, fees := OfCents(totalInterest), OfCents(totalFees);
    var rawPrincipal, rawInterest, rawFees := RoundToCents(Over(p, n)), RoundToCents(Over(interest, n)), RoundToCents(Over(fees, n));
    var rows := [];
    var remainingPrincipal, remainingInterest, remainingFees := p, interest, fees;
    for i := 1 to n + 1
      invariant |rows| == i - 1
      invariant HoldsBefore(remainingPrincipal, p, n, i)
      invariant HoldsBefore(remainingInterest, interest, n, i) && HoldsBefore(remainingFees, fees, n, i)
      invariant forall k :: 0 <= k < |rows| ==> RowIs(rows[k], p, interest, fees, n, k + 1)
    {
      ColumnStep(p, remainingPrincipal, n, i);
      ColumnStep(interest, remainingInterest, n, i);
      ColumnStep(fees, remainingFees, n, i);
      var principalPortion := if i == n then RoundToCents(remainingPrincipal) else rawPrincipal;
      var interestPortion := if i == n then RoundToCents(remainingInterest) else rawInterest;
      var feesPortion := if i == n then RoundToCents(remainingFees) else rawFees;
      remainingPrincipal := OfCents(RoundToCents(Minus(remainingPrincipal, principalPortion)));
      remainingInterest := OfCents(RoundToCents(Minus(remainingInterest, interestPortion)));
      remainingFees := OfCents(RoundToCents(Minus(remainingFees, feesPortion)));
      var total := RoundToCents(OfCents(principalPortion + interestPortion + feesPortion));
      CentsStay(principalPortion + interestPortion + feesPortion);
      CentsStay(Remaining(p, n, i));
      rows := rows + [Row(principalPortion, interestPortion, feesPortion, total, Clip(RoundToCents(remainingPrincipal)))];
    }
    r := Amortization(RoundToCents(p), totalInterest, totalFees, totalDue, rows);
  }

  lemma ZeroColumn(n: int, i: int)
    requires 1 <= i <= n
    ensures Portion(OfCents(0), n, i) == 0
  {
    hide Divide;
    CentsStay(0);
    RoundDivWhole(0, Over(OfCents(0), n).den, HalfUp);
    RoundDivWhole(0, CENT, HalfEven);
  }

  // ---- What a schedule adds up to ----

  function SumPortions(a: ValidAmount, n: int, k: int): int
    requires 0 <= k <= n
  {
    if k == 0 then 0 else SumPortions(a, n, k - 1) + Portion(a, n, k)
  }

  lemma {:induction false} RegularSum(a: ValidAmount, n: int, k: int)
    requires 0 <= k < n
    ensures SumPortions(a, n, k) == k * Regular(a, n)
  {
    hide Divide;
    if k > 0 {
      RegularSum(a, n, k - 1);
      assert k * Regular(a, n) == (k - 1) * Regular(a, n) + Regular(a, n);
    }
  }

  // All instalments together are the first one and what was left after it.
  lemma ColumnTotal(a: ValidAmount, n: int)
    requires n >= 1
    ensures SumPortions(a, n, n) == if n == 1 then RoundToCents(a) else Regular(a, n) + AfterFirst(a, n)
  {
    hide Divide;
    RegularSum(a, n, n - 1);
    assert (n - 1) * Regular(a, n) == (n - 2) * Regular(a, n) + Regular(a, n);
  }

  // Rounding twice is off by at most half a cent and half a stroop.
  lemma CentsError(a: ValidAmount)
    ensures 2 * Abs(a.num - RoundToCents(a) * CENT * a.den) <= (CENT + 1) * a.den
  {
    hide Divide;
    var t, c := Divide(a.num, a.den, HalfUp), RoundToCents(a);
    DivideMeetsMode(a.num, a.den, HalfUp);
    DivideMeetsMode(t, CENT, HalfEven);
    var e := t - c * CENT;
    MulLe(2 * e, CENT, a.den);
    MulLe(-CENT, 2 * e, a.den);
    assert t * a.den == e * a.den + c * CENT * a.den;
    assert (2 * e) * a.den == 2 * (e * a.den);
  }

  // An amount in whole stroops is rounded once.
  lemma WholeStroops(stroops: int)
    ensures RoundToCents(Amount(stroops, 1)) == Divide(stroops, CENT, HalfEven)
    ensures -CENT <= 2 * (stroops - RoundToCents(Amount(stroops, 1)) * CENT) <= CENT
  {
    hide Divide;
    RoundDivWhole(stroops, 1, HalfUp);
    DivideMeetsMode(stroops, CENT, HalfEven);
  }

  // Taking c cents off before rounding and adding them back afterwards.
  lemma OffsetRounding(stroops: int, c: int)
    ensures
      var direct, offset := Divide(stroops, CENT, HalfEven), c + Divide(stroops - c * CENT, CENT, HalfEven);
      && -1 <= offset - direct <= 1
      && (offset != direct <==> IsTie(stroops, CENT) && c % 2 != 0)
      && -CENT <= 2 * (stroops - offset * CENT) <= CENT
  {
    hide Divide, IsTie;
    DivideMeetsMode(stroops, CENT, HalfEven);
    DivideMeetsMode(stroops - c * CENT, CENT, HalfEven);
    if IsTie(stroops, CENT) && c % 2 != 0 {
      TieIsEven(stroops, CENT);
      TieShifted(stroops, c);
      TieIsEven(stroops - c * CENT, CENT);
    } else {
      RoundDivShift(stroops, CENT, -c);
    }
  }

  lemma TieShifted(stroops: int, c: int)
    ensures IsTie(stroops - c * CENT, CENT) == IsTie(stroops, CENT)
  {
  }

  // The principal instalments sum to the reported principal, unless the
  // principal is an exact half cent and the regular instalment is odd; then
  // they are off by one cent.
  lemma PrincipalTotal(principal: int, n: int)
    requires n >= 1
    ensures
      var p := Amount(principal, 1);
      var sum, reported := SumPortions(p, n, n), RoundToCents(p);
      && -1 <= sum - reported <= 1
      && (sum != reported <==> n >= 2 && IsTie(principal, CENT) && Regular(p, n) % 2 != 0)
      && -CENT <= 2 * (principal - sum * CENT) <= CENT
  {
    hide Divide;
    var p := Amount(principal, 1);
    var c := Regular(p, n);
    ColumnTotal(p, n);
    WholeStroops(principal);
    WholeStroops(principal - c * CENT);
    OffsetRounding(principal, c);
    assert Minus(p, c) == Amount(principal - c * CENT, 1);
  }

  // Interest and fees of the preview are whole cents, so they sum exactly.
  lemma WholeCentsTotal(cents: int, n: int)
    requires n >= 1
    ensures SumPortions(OfCents(cents), n, n) == cents
  {
    hide Divide;
    PrincipalTotal(cents * CENT, n);
    CentsStay(cents);
  }

  // Rounding half away from zero commutes with whole units, as long as they do
  // not change the sign.
  lemma HalfUpShift(num: int, den: int, k: int)
    requires den > 0 && ((num >= 0 && num + k * den >= 0) || (num <= 0 && num + k * den <= 0))
    ensures Divide(num + k * den, den, HalfUp) == Divide(num, den, HalfUp) + k
  {
    hide Divide;
    if num == 0 {
      RoundDivWhole(0, den, HalfUp);
      RoundDivWhole(k, den, HalfUp);
    } else if num + k * den == 0 {
      assert num == (-k) * den;
      RoundDivWhole(-k, den, HalfUp);
      RoundDivWhole(0, den, HalfUp);
    } else {
      var q := Divide(num, den, HalfUp);
      DivideMeetsMode(num, den, HalfUp);
      assert (q + k) * den == q * den + k * den;
      DivideIs(num + k * den, den, HalfUp, q + k);
    }
  }

  // A regular portion of several never exceeds the amount.
  lemma PortionWithin(num: nat, den: int, n: int)
    requires den > 0 && n >= 2
    ensures num - Regular(Amount(num, den), n) * CENT * den >= 0
  {
    hide Divide;
    var t, c := Divide(num, den * n, HalfUp), Regular(Amount(num, den), n);
    MulOrder(0, den, n);
    DivideMeetsMode(num, den * n, HalfUp);
    DivideMeetsMode(t, CENT, HalfEven);
    if c >= 1 {
      PortionBound(t, c);
      assert t * (den * n) == (t * den) * n;
      AtLeastDouble(num, t * den, den, n);
      MulLe(c * CENT, 2 * t - 1, den);
      assert (2 * t - 1) * den == 2 * (t * den) - den;
    } else {
      MulLe(c * CENT, 0, den);
    }
  }

  lemma PortionBound(t: int, c: int)
    requires c >= 1 && IsRounding(c, t, CENT, HalfEven)
    ensures c * CENT <= 2 * t - 1 && t > 0
  {
  }

  lemma AtLeastDouble(num: int, td: int, den: int, n: int)
    requires n >= 2 && 2 * td - den >= 0 && 2 * (num - td * n) >= -(den * n)
    ensures num >= 2 * td - den
  {
    assert (2 * td - den) * n == 2 * (td * n) - den * n;
    MulLe(2, n, 2 * td - den);
  }

  lemma RegularOdd(num: int, den: int, n: int)
    requires den > 0 && n >= 2
    ensures Regular(Amount(-num, den), n) == -Regular(Amount(num, den), n)
  {
    hide Divide;
    MulOrder(0, den, n);
    RoundDivOdd(num, den * n, HalfUp);
    RoundDivOdd(Divide(num, den * n, HalfUp), CENT, HalfEven);
  }

  // What is left after the first portion, by the amount in whole stroops.
  lemma AfterFirstStroops(a: ValidAmount, n: int)
    requires n >= 2
    ensures AfterFirst(a, n) == Divide(Divide(a.num, a.den, HalfUp) - Regular(a, n) * CENT, CENT, HalfEven)
  {
    hide Divide;
    var c := Regular(a, n);
    if a.num >= 0 {
      PortionWithin(a.num, a.den, n);
    } else {
      PortionWithin(-a.num, a.den, n);
      RegularOdd(a.num, a.den, n);
      assert (-c) * CENT * a.den == -(c * CENT * a.den);
    }
    assert a.num + (-(c * CENT)) * a.den == a.num - c * CENT * a.den;
    HalfUpShift(a.num, a.den, -(c * CENT));
  }

  // Interest that was not rounded beforehand: its portions sum to its rounded
  // total, unless it is a half-cent tie in whole stroops and the regular
  // instalment is odd; then they are off by one cent.
  lemma UnroundedTotal(a: ValidAmount, n: int)
    requires n >= 1
    ensures
      var sum, stroops := SumPortions(a, n, n), Divide(a.num, a.den, HalfUp);
      && -1 <= sum - RoundToCents(a) <= 1
      && (sum != RoundToCents(a) <==> n >= 2 && IsTie(stroops, CENT) && Regular(a, n) % 2 != 0)
      && -CENT <= 2 * (stroops - sum * CENT) <= CENT
  {
    hide Divide, IsTie;
    var stroops := Divide(a.num, a.den, HalfUp);
    ColumnTotal(a, n);
    if n >= 2 {
      AfterFirstStroops(a, n);
      OffsetRounding(stroops, Regular(a, n));
    } else {
      DivideMeetsMode(stroops, CENT, HalfEven);
    }
  }

  // The last principal instalment makes up for the rounding of the others: it
  // differs from them by at most (n + 1)/2 cents and n/(2 * 10^5) of a cent more.
  lemma LastPortionBound(principal: int, n: int)
    requires n >= 1
    ensures
      var p := Amount(principal, 1);
      var gap := Abs(Portion(p, n, n) - Regular(p, n));
      2 * CENT * gap <= (CENT + 1) * n + CENT && (n < CENT ==> 2 * gap <= n + 1)
  {
    hide Divide, RoundToCents, IsTie;
    var p := Amount(principal, 1);
    var c := Regular(p, n);
    ColumnTotal(p, n);
    PrincipalTotal(principal, n);
    CentsError(Over(p, n));
    var sum := SumPortions(p, n, n);
    assert c * CENT * n == CENT * (n * c);
    if n == 1 {
      assert Over(p, 1) == p;
    } else {
      assert n * c == (n - 2) * c + 2 * c;
      assert Portion(p, n, n) - c == sum - n * c;
    }
    GapBound(principal, sum, n * c, n);
  }

  lemma GapBound(principal: int, sum: int, nc: int, n: int)
    requires n >= 1 && -CENT <= 2 * (principal - sum * CENT) <= CENT
    requires 2 * Abs(principal - CENT * nc) <= (CENT + 1) * n
    ensures 2 * CENT * Abs(sum - nc) <= (CENT + 1) * n + CENT && (n < CENT ==> 2 * Abs(sum - nc) <= n + 1)
  {
  }

  // A schedule can overshoot: six cents in ten instalments of 0.6 cent pays one
  // cent nine times and takes three cents back at the end.
  lemma LastPortionNegative()
    ensures Regular(Amount(600_000, 1), 10) == 1 && Portion(Amount(600_000, 1), 10, 10) == -3
  {
    DivideIs(600_000, 10, HalfUp, 60_000);
    DivideIs(60_000, CENT, HalfEven, 1);
    DivideIs(500_000, 1, HalfUp, 500_000);
    DivideIs(500_000, CENT, HalfEven, 5);
  }

  // Half-even rounding to cents falls below m exactly below m - 1/2, and at
  // m - 1/2 when m is odd.
  lemma RoundsBelow(x: int, m: int)
    ensures Divide(x, CENT, HalfEven) < m <==> 2 * x < (2 * m - 1) * CENT || (2 * x == (2 * m - 1) * CENT && m % 2 != 0)
  {
    hide Divide;
    DivideMeetsMode(x, CENT, HalfEven);
  }

  // The last portion is negative exactly when the regular ones overshoot the
  // principal by more than half a cent, or by just that with an odd amount due
  // between the first and the last instalment.
  lemma LastPortionNegativeIff(principal: int, n: int)
    requires n >= 1
    ensures
      var p := Amount(principal, 1);
      var over := (n - 1) * Regular(p, n) * CENT - principal;
      Portion(p, n, n) < 0 <==> 2 * over > CENT || (2 * over == CENT && ((n - 2) * Regular(p, n)) % 2 != 0)
  {
    hide Divide;
    var p := Amount(principal, 1);
    var c := Regular(p, n);
    if n == 1 {
      WholeStroops(principal);
      RoundsBelow(principal, 0);
      assert Over(p, 1) == p;
    } else {
      WholeStroops(principal - c * CENT);
      RoundsBelow(principal - c * CENT, (n - 2) * c);
      assert (n - 1) * c == (n - 2) * c + c;
    }
  }

  lemma NothingRemains(principal: int, n: int)
    requires n >= 1
    ensures Remaining(Amount(principal, 1), n, n) == 0
  {
    hide Divide;
    if n == 1 {
      var c := RoundToCents(Amount(principal, 1));
      WholeStroops(principal);
      WholeStroops(principal - c * CENT);
      DivideIs(principal - c * CENT, CENT, HalfEven, 0);
    }
  }

  // Both schedules end with balance zero, after any number of instalments.
  lemma EndsAtZero(r: Amortization, principal: int, interestRateBps: int, termLedgers: int, feeRateBps: int)
    requires IsAmortization(r, principal, interestRateBps, termLedgers)
          || IsPreview(r, principal, interestRateBps, termLedgers, feeRateBps)
    ensures r.rows != [] && r.rows[|r.rows| - 1].balance == 0
  {
    hide Divide, RoundToCents;
    var n := |r.rows|;
    NothingRemains(principal, n);
    assert r.rows[n - 1].balance == Clip(Remaining(Amount(principal, 1), n, n));
  }

  function SumTotals(rows: seq<Row>, k: int): int
    requires 0 <= k <= |rows|
  {
    if k == 0 then 0 else SumTotals(rows, k - 1) + rows[k - 1].total
  }

  lemma {:induction false} TotalsByColumn(rows: seq<Row>, p: ValidAmount, interest: ValidAmount, fees: ValidAmount, k: int)
    requires 0 <= k <= |rows| && forall i :: 0 <= i < |rows| ==> RowIs(rows[i], p, interest, fees, |rows|, i + 1)
    ensures SumTotals(rows, k)
         == SumPortions(p, |rows|, k) + SumPortions(interest, |rows|, k) + SumPortions(fees, |rows|, k)
  {
    hide Divide;
    if k > 0 {
      TotalsByColumn(rows, p, interest, fees, k - 1);
      assert RowIs(rows[k - 1], p, interest, fees, |rows|, k);
    }
  }

  // The same two candidates for a half-cent tie, reached by two offsets.
  lemma OffsetsDiffer(stroops: int, c: int, k: int)
    ensures
      var one, other := c + Divide(stroops - c * CENT, CENT, HalfEven), Divide(stroops + k * CENT, CENT, HalfEven) - k;
      && -1 <= one - other <= 1
      && (one != other <==> IsTie(stroops, CENT) && (c % 2 != 0) != (k % 2 != 0))
  {
    hide Divide;
    OffsetRounding(stroops, c);
    OffsetRounding(stroops, -k);
    assert stroops - -k * CENT == stroops + k * CENT;
  }

  // The preview as a whole: its instalments add up to the reported total due,
  // unless the principal is a half-cent tie and exactly one of two things is
  // odd: the regular principal portion of several, or interest plus fees. Then
  // they miss it by one cent. They miss principal plus interest plus fees, also
  // by one cent, at a tie with an odd regular portion of several.
  lemma PreviewAddsUp(r: Amortization, principal: int, interestRateBps: int, termLedgers: int, feeRateBps: int)
    requires IsPreview(r, principal, interestRateBps, termLedgers, feeRateBps)
    ensures
      var n, k := |r.rows|, r.totalInterest + r.totalFees;
      var sum, parts := SumTotals(r.rows, n), r.principal + k;
      var oddPortion := n >= 2 && Regular(Amount(principal, 1), n) % 2 != 0;
      && -1 <= sum - parts <= 1 && -1 <= sum - r.totalDue <= 1
      && (sum != parts <==> IsTie(principal, CENT) && oddPortion)
      && (sum != r.totalDue <==> IsTie(principal, CENT) && oddPortion != (k % 2 != 0))
  {
    hide Divide, IsTie;
    var n, k := |r.rows|, r.totalInterest + r.totalFees;
    var p := Amount(principal, 1);
    TotalsByColumn(r.rows, p, OfCents(r.totalInterest), OfCents(r.totalFees), n);
    WholeCentsTotal(r.totalInterest, n);
    WholeCentsTotal(r.totalFees, n);
    PrincipalTotal(principal, n);
    ColumnTotal(p, n);
    WholeStroops(principal + k * CENT);
    WholeStroops(principal);
    var c := if n == 1 then 0 else Regular(p, n);
    WholeStroops(principal - c * CENT);
    assert Minus(p, c) == Amount(principal - c * CENT, 1);
    OffsetsDiffer(principal, c, k);
  }

  // A cent and a half with a cent of interest in one instalment: the row says
  // three cents, the reported total due two.
  lemma PreviewMissesTotal() returns (r: Amortization)
    ensures IsPreview(r, 150_000, 6_667, PERIOD_LEDGERS, 0)
    ensures |r.rows| == 1 && SumTotals(r.rows, 1) == 3 && r.totalDue == 2
  {
    hide Divide, RoundToCents, PeriodCount, RowIs, OfCents;
    r := Amortization(2, 1, 0, 2, [Row(2, 1, 0, 3, 0)]);
    PreviewFigures();
    OnePeriod();
    SingleRow(150_000, OfCents(1), OfCents(0));
    CentsStay(1);
    CentsStay(0);
    assert SumTotals(r.rows, 0) == 0;
  }

  lemma PreviewFigures()
    ensures RoundToCents(Amount(150_000, 1)) == 2 && RoundToCents(Amount(150_000 * 6_667, 10_000)) == 1
    ensures RoundToCents(Amount(150_000 * 0, 10_000)) == 0 && RoundToCents(Amount(150_000 + (1 + 0) * CENT, 1)) == 2
  {
    hide RoundToCents;
    CentsAre(150_000, 1, 150_000, 2);
    CentsAre(150_000 * 6_667, 10_000, 100_005, 1);
    CentsAre(0, 10_000, 0, 0);
    CentsAre(250_000, 1, 250_000, 2);
  }

  lemma OnePeriod()
    ensures PeriodCount(PERIOD_LEDGERS) == 1
  {
  }

  // The only row of a schedule of one period.
  lemma SingleRow(principal: int, interest: ValidAmount, fees: ValidAmount)
    ensures
      var p, i, f := RoundToCents(Amount(principal, 1)), RoundToCents(interest), RoundToCents(fees);
      RowIs(Row(p, i, f, p + i + f, 0), Amount(principal, 1), interest, fees, 1, 1)
  {
    hide Divide, RoundToCents;
    NothingRemains(principal, 1);
  }

  // num/den stroops are t whole stroops and these c cents.
  lemma CentsAre(num: int, den: int, t: int, c: int)
    requires den > 0 && IsRounding(t, num, den, HalfUp) && IsRounding(c, t, CENT, HalfEven)
    ensures RoundToCents(Amount(num, den)) == c
  {
    hide Divide;
    DivideIs(num, den, HalfUp, t);
    DivideIs(t, CENT, HalfEven, c);
  }

  // The stroops that the portions of a column leave over, or take too much.
  function LeftOver(a: ValidAmount, n: int): int
    requires n >= 1
  {
    Divide(a.num, a.den, HalfUp) - SumPortions(a, n, n) * CENT
  }

  // The schedule of an approved loan: its instalments are within one cent of the
  // reported total due, and within two of principal plus interest. At a rate
  // that is not negative they miss the total due if and only if what the two
  // columns leave over comes to more than half a cent, or to just that with an
  // odd sum of portions.
  lemma AmortizationAddsUp(r: Amortization, principal: int, interestRateBps: int, termLedgers: int)
    requires IsAmortization(r, principal, interestRateBps, termLedgers)
    ensures r.rows != []
    ensures
      var n, p, interest := |r.rows|, Amount(principal, 1), Amount(principal * interestRateBps, 10_000);
      var sum, over := SumTotals(r.rows, n), LeftOver(p, n) + LeftOver(interest, n);
      && -1 <= sum - r.totalDue <= 1 && -2 <= sum - (r.principal + r.totalInterest) <= 2
      && sum == SumPortions(p, n, n) + SumPortions(interest, n, n)
      && (interestRateBps >= 0 ==>
            (sum != r.totalDue <==>
               2 * Abs(over) > CENT || (2 * Abs(over) == CENT && (SumPortions(p, n, n) + SumPortions(interest, n, n)) % 2 != 0)))
  {
    hide Divide, RoundToCents, SumPortions;
    var n, p := |r.rows|, Amount(principal, 1);
    var interest: ValidAmount, due: ValidAmount :=
      Amount(principal * interestRateBps, 10_000), Amount(principal * 10_000 + principal * interestRateBps, 10_000);
    TotalsByColumn(r.rows, p, interest, OfCents(0), n);
    WholeCentsTotal(0, n);
    PrincipalTotal(principal, n);
    UnroundedTotal(interest, n);
    UnroundedError(interest, n);
    CentsError(due);
    if interestRateBps >= 0 { DueIff(principal, interestRateBps, n); }
  }

  lemma DueIff(principal: int, interestRateBps: nat, n: int)
    requires n >= 1
    ensures
      var p, interest := Amount(principal, 1), Amount(principal * interestRateBps, 10_000);
      var sum, over := SumPortions(p, n, n) + SumPortions(interest, n, n), LeftOver(p, n) + LeftOver(interest, n);
      sum != RoundToCents(Amount(principal * 10_000 + principal * interestRateBps, 10_000)) <==>
        2 * Abs(over) > CENT || (2 * Abs(over) == CENT && sum % 2 != 0)
  {
    hide Divide, SumPortions;
    var p, interest := Amount(principal, 1), Amount(principal * interestRateBps, 10_000);
    var sum := SumPortions(p, n, n) + SumPortions(interest, n, n);
    var stroops := principal + Divide(interest.num, 10_000, HalfUp);
    if principal >= 0 { MulLe(0, principal, interestRateBps); } else { MulLe(principal, 0, interestRateBps); }
    HalfUpShift(interest.num, 10_000, principal);
    RoundDivWhole(principal, 1, HalfUp);
    RoundDivExact(stroops, CENT, HalfEven, sum);
  }

  // Three tenths of a cent at a rate of 100 percent: the row says nothing, the
  // reported total due one cent.
  lemma AmortizationMissesTotal() returns (r: Amortization)
    ensures IsAmortization(r, 30_000, 10_000, PERIOD_LEDGERS)
    ensures |r.rows| == 1 && SumTotals(r.rows, 1) == 0 && r.totalDue == 1
  {
    hide Divide, RoundToCents, PeriodCount, RowIs, OfCents;
    r := Amortization(0, 0, 0, 1, [Row(0, 0, 0, 0, 0)]);
    AmortizationFigures();
    OnePeriod();
    SingleRow(30_000, Amount(30_000 * 10_000, 10_000), OfCents(0));
    CentsStay(0);
    assert SumTotals(r.rows, 0) == 0;
  }

  lemma AmortizationFigures()
    ensures RoundToCents(Amount(30_000, 1)) == 0 && RoundToCents(Amount(30_000 * 10_000, 10_000)) == 0
    ensures RoundToCents(Amount(30_000 * 10_000 + 30_000 * 10_000, 10_000)) == 1
  {
    hide RoundToCents;
    CentsAre(30_000, 1, 30_000, 0);
    CentsAre(30_000 * 10_000, 10_000, 30_000, 0);
    CentsAre(30_000 * 10_000 + 30_000 * 10_000, 10_000, 60_000, 1);
  }

  // The portions together are as close to the exact amount as one rounding is.
  lemma UnroundedError(a: ValidAmount, n: int)
    requires n >= 1
    ensures 2 * Abs(a.num - SumPortions(a, n, n) * CENT * a.den) <= (CENT + 1) * a.den
  {
    hide Divide, RoundToCents;
    ColumnTotal(a, n);
    if n == 1 {
      CentsError(a);
    } else {
      var c, rest := Regular(a, n), AfterFirst(a, n);
      CentsError(Minus(a, c));
      assert (c + rest) * CENT * a.den == c * CENT * a.den + rest * CENT * a.den;
    }
  }

  // ---- Periods and balances ----

  // The number of instalments is the term in periods of thirty days, that is
  // 518400 ledgers, rounded to the nearest with halves up, and at least one.
  lemma PeriodCountRounds(termLedgers: int)
    ensures
      var n := PeriodCount(termLedgers);
      && (n == 1 <==> 2 * termLedgers < 3 * 518_400)
      && (n >= 2 ==> -518_400 <= 2 * (termLedgers - n * 518_400) < 518_400)
  {
  }

  function SumPrincipal(rows: seq<Row>, k: int): int
    requires 0 <= k <= |rows|
  {
    if k == 0 then 0 else SumPrincipal(rows, k - 1) + rows[k - 1].principal
  }

  lemma {:induction false} PrincipalColumn(rows: seq<Row>, p: ValidAmount, interest: ValidAmount, fees: ValidAmount, k: int)
    requires 0 <= k <= |rows| && forall i :: 0 <= i < |rows| ==> RowIs(rows[i], p, interest, fees, |rows|, i + 1)
    ensures SumPrincipal(rows, k) == SumPortions(p, |rows|, k)
  {
    hide Divide, RoundToCents;
    if k > 0 {
      PrincipalColumn(rows, p, interest, fees, k - 1);
      assert RowIs(rows[k - 1], p, interest, fees, |rows|, k);
    }
  }

  // The balance in each row of both schedules is the principal still to be paid
  // in the rows after it, or zero where those take some back.
  lemma BalanceIsUnpaid(r: Amortization, principal: int, interestRateBps: int, termLedgers: int, feeRateBps: int, i: nat)
    requires i < |r.rows|
    requires IsAmortization(r, principal, interestRateBps, termLedgers)
          || IsPreview(r, principal, interestRateBps, termLedgers, feeRateBps)
    ensures
      var unpaid := SumPrincipal(r.rows, |r.rows|) - SumPrincipal(r.rows, i + 1);
      r.rows[i].balance == if unpaid < 0 then 0 else unpaid
  {
    hide Divide, RoundToCents;
    var n, p := |r.rows|, Amount(principal, 1);
    var interest: ValidAmount, fees: ValidAmount :=
      if IsAmortization(r, principal, interestRateBps, termLedgers) then Amount(principal * interestRateBps, 10_000) else OfCents(r.totalInterest),
      if IsAmortization(r, principal, interestRateBps, termLedgers) then OfCents(0) else OfCents(r.totalFees);
    assert RowIs(r.rows[i], p, interest, fees, n, i + 1);
    PrincipalColumn(r.rows, p, interest, fees, n);
    PrincipalColumn(r.rows, p, interest, fees, i + 1);
    ColumnTotal(p, n);
    NothingRemains(principal, n);
    if i + 1 < n {
      RegularSum(p, n, i + 1);
      assert (i + 1) * Regular(p, n) == i * Regular(p, n) + Regular(p, n);
    }
  }
}
