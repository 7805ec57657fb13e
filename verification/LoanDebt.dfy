// What a borrower owes, computed once by the SQL of the loan list and once in
// bigint by the loan details endpoint.
module LoanDebt {
  import opened Prelude
  import opened Rounding
  import opened Digits
  import opened Decimal

  // A loan with at most one approval event; amounts in stroops.
  datatype Loan = Loan(principal: nat, repaid: nat, defaulted: bool,
                       approvedLedger: Option<nat>, rateBps: Option<nat>, termLedgers: Option<nat>)

  // Configured defaults, positive by the checks at startup.
  datatype Config = Config(defaultRateBps: nat, defaultTermLedgers: nat)

  ghost predicate ValidConfig(cfg: Config)
  {
    cfg.defaultRateBps > 0 && cfg.defaultTermLedgers > 0
  }

  datatype Status = PendingIndexing | Defaulted | Active | Repaid

  function Default(o: Option<nat>, d: nat): nat
  {
    if o.Some? then o.value else d
  }

  // JavaScript's `||`: zero falls through to the default as well.
  function OrElse(o: Option<nat>, d: nat): nat
  {
    if o.Some? && o.value != 0 then o.value else d
  }

  function Elapsed(ledger: nat, approved: nat): nat
  {
    if ledger > approved then ledger - approved else 0
  }

  // ---- The list query ----

  // `owed` is the numeric column, in units of 10^-scale stroop; `reported` is
  // the debt after it was read back as whole stroops.
  datatype ListEntry = ListEntry(status: Status, owed: int, reported: int)

  // A numeric quotient: Postgres keeps `scale` decimals, ties away from zero.
  function NumericQuotient(num: int, den: int, scale: nat): int
    requires den > 0
  {
    Divide(num * Pow10(scale), den, HalfUp)
  }

  const INT4_MAX: nat := 0x7FFF_FFFF
  const INT8_MAX: nat := 0x7FFF_FFFF_FFFF_FFFF

  // The term is an integer column, or the default written into the query as a
  // literal; 10000 * term has the width of that literal.
  predicate TermTooLarge(cfg: Config, term: nat)
  {
    if cfg.defaultTermLedgers <= INT4_MAX then 10_000 * term > INT4_MAX
    else cfg.defaultTermLedgers <= INT8_MAX && 10_000 * term > INT8_MAX
  }

  function ListLoan(loan: Loan, cfg: Config, currentLedger: nat, scale: nat): Result<ListEntry>
  {
    var rate := Default(loan.rateBps, cfg.defaultRateBps);
    var term := Default(loan.termLedgers, cfg.defaultTermLedgers);
    var approved := Default(loan.approvedLedger, 0);
    if term == 0 then Err(DivisionByZero)
    else if TermTooLarge(cfg, term) then Err(IntegerOutOfRange)
    else
      var accrued := NumericQuotient(loan.principal * rate * Elapsed(currentLedger, approved), 10_000 * term, scale);
      var owed := (loan.principal - loan.repaid) * Pow10(scale) + accrued;
      var status :=
        if loan.approvedLedger.None? || approved == 0 || currentLedger < approved then PendingIndexing
        else if loan.defaulted then Defaulted
        else if owed >= Pow10(scale) then Active
        else Repaid;
      Ok(ListEntry(status, owed, ReadThroughSeven(owed, Pow10(scale))))
  }

  // The rows of one page; an error in any of them fails the query.
  function ListPage(loans: seq<Loan>, cfg: Config, currentLedger: nat, scale: nat): Result<seq<ListEntry>>
  {
    if loans == [] then Ok([])
    else
      match ListLoan(loans[0], cfg, currentLedger, scale)
      case Err(e) => Err(e)
      case Ok(entry) =>
        match ListPage(loans[1..], cfg, currentLedger, scale)
        case Err(e) => Err(e)
        case Ok(rest) => Ok([entry] + rest)
  }

  // ---- When the list fails ----

  ghost predicate Unlistable(loan: Loan, cfg: Config)
  {
    loan.termLedgers == Some(0) || TermTooLarge(cfg, Default(loan.termLedgers, cfg.defaultTermLedgers))
  }

  // The borrower gets a list if and only if none of the loans has a term of zero
  // or one whose product overflows; then it has one entry for each loan.
  lemma {:induction false} ListFailsIff(loans: seq<Loan>, cfg: Config, currentLedger: nat, scale: nat)
    requires ValidConfig(cfg)
    ensures ListPage(loans, cfg, currentLedger, scale).Err? <==> exists i :: 0 <= i < |loans| && Unlistable(loans[i], cfg)
    ensures
      var page := ListPage(loans, cfg, currentLedger, scale);
      page.Ok? ==> |page.value| == |loans| && forall i :: 0 <= i < |loans| ==> ListLoan(loans[i], cfg, currentLedger, scale) == Ok(page.value[i])
  {
    hide ReadThroughSeven, NumericQuotient;
    if loans != [] {
      var rest := loans[1..];
      ListFailsIff(rest, cfg, currentLedger, scale);
      assert ListLoan(loans[0], cfg, currentLedger, scale).Err? <==> Unlistable(loans[0], cfg);
      assert forall i :: 0 <= i < |rest| ==> rest[i] == loans[i + 1];
      assert forall i :: 0 < i < |loans| ==> loans[i] == rest[i - 1];
    }
  }

  // With a default that fits an integer, every term from 214749 ledgers on is
  // too large; a larger default has the product computed in 64 bits, or exactly.
  lemma TermLimit(loan: Loan, cfg: Config, currentLedger: nat, scale: nat)
    requires ValidConfig(cfg)
    ensures
      var term, ok := if loan.termLedgers.Some? then loan.termLedgers.value else cfg.defaultTermLedgers, ListLoan(loan, cfg, currentLedger, scale).Ok?;
      && (cfg.defaultTermLedgers < 0x8000_0000 ==> (ok <==> 0 < term < 214_749))
      && (0x8000_0000 <= cfg.defaultTermLedgers < 0x8000_0000_0000_0000 ==> (ok <==> 0 < term <= 922_337_203_685_477))
      && (0x8000_0000_0000_0000 <= cfg.defaultTermLedgers ==> (ok <==> 0 < term))
  {
    hide ReadThroughSeven, NumericQuotient;
  }

  // A loan over thirty days fails the whole list of its borrower, whatever the
  // other loans are, while the details endpoint answers.
  lemma ThirtyDayTermFails(before: seq<Loan>, after: seq<Loan>, currentLedger: nat, scale: nat)
    requires currentLedger >= 1
    ensures
      var cfg := Config(1_200, 17_280);
      var loan := Loan(10_000_000_000, 0, false, Some(1), Some(1_200), Some(518_400));
      && ListPage(before + [loan] + after, cfg, currentLedger, scale).Err?
      && LoanDetails(loan, cfg, currentLedger, None).status == Active
  {
    hide Divide, ListLoan;
    var cfg := Config(1_200, 17_280);
    var loan := Loan(10_000_000_000, 0, false, Some(1), Some(1_200), Some(518_400));
    var loans := before + [loan] + after;
    assert loans[|before|] == loan && Unlistable(loan, cfg);
    ListFailsIff(loans, cfg, currentLedger, scale);
    InterestMonotone(loan, cfg, 0, currentLedger);
  }

  // ---- The details endpoint ----

  datatype Details = Details(status: Status, accrued: int, owed: int)

  // `freezeLedger` is the ledger at which an open dispute stopped the clock.
  function LoanDetails(loan: Loan, cfg: Config, currentLedger: nat, freezeLedger: Option<nat>): Details
    requires ValidConfig(cfg)
  {
    var rate := OrElse(loan.rateBps, cfg.defaultRateBps);
    var term := OrElse(loan.termLedgers, cfg.defaultTermLedgers);
    var approved := Default(loan.approvedLedger, 0);
    var elapsed := Elapsed(if freezeLedger.Some? then freezeLedger.value else currentLedger, approved);
    var isPending := approved == 0 || currentLedger < approved;
    var accrued := if isPending then 0 else Divide(loan.principal * rate * elapsed, 10_000 * term, HalfEven);
    var owed := loan.principal + accrued - loan.repaid;
    Details(
      if isPending then PendingIndexing
      else if loan.defaulted then Defaulted
      else if owed > 0 then Active
      else Repaid,
      accrued, owed)
  }

  // ---- Agreement ----

  // The loans both endpoints answer for and mean the same thing by: approved,
  // listable, with a rate that is not explicitly zero. (No open dispute either.)
  ghost predicate Comparable(loan: Loan, cfg: Config, currentLedger: nat)
  {
    && loan.approvedLedger.Some? && 0 < loan.approvedLedger.value <= currentLedger
    && loan.rateBps != Some(0) && !Unlistable(loan, cfg)
  }

  function InterestNum(loan: Loan, cfg: Config, currentLedger: nat): nat
  {
    loan.principal * Default(loan.rateBps, cfg.defaultRateBps) * Elapsed(currentLedger, Default(loan.approvedLedger, 0))
  }

  function InterestDen(loan: Loan, cfg: Config): nat
  {
    10_000 * Default(loan.termLedgers, cfg.defaultTermLedgers)
  }

  // Interest num/den on top of k stroops, through Postgres and seven decimals.
  function SevenDecimals(k: int, num: int, den: int, scale: nat): int
    requires den > 0
  {
    Divide((k * Pow10(scale) + NumericQuotient(num, den, scale)) * STROOP_SCALE, Pow10(scale), HalfEven)
  }

  lemma OneSide(m: int, k: int, num: int, den: int, half: int)
    requires den > 0 && half > 0
    ensures
      var a, h := Divide(num * (2 * half), den, HalfUp), 2 * (m - k) + 1;
      && (2 * num <= h * den ==> k * (2 * half) + a <= (2 * m + 1) * half)
      && (2 * num >= h * den ==> k * (2 * half) + a >= (2 * m + 1) * half)
  {
    hide Divide;
    var h := 2 * (m - k) + 1;
    RoundDivWhole(h * half, den, HalfUp);
    assert (h * half) * den == (h * den) * half;
    assert num * (2 * half) == (2 * num) * half;
    if 2 * num <= h * den {
      MulLe(2 * num, h * den, half);
      RoundDivMonotone(num * (2 * half), (h * half) * den, den, HalfUp);
    }
    if 2 * num >= h * den {
      MulLe(h * den, 2 * num, half);
      RoundDivMonotone((h * half) * den, num * (2 * half), den, HalfUp);
    }
    assert k * (2 * half) + h * half == (2 * m + 1) * half;
  }

  // With at least one decimal, neither the numeric column nor the seven
  // decimals carry the debt across a midpoint between two stroops.
  lemma NumericKeepsSides(k: int, num: int, den: int, scale: nat)
    requires den > 0 && scale >= 1
    ensures KeepsSides(SevenDecimals(k, num, den, scale), num + k * den, den)
  {
    hide Divide;
    var half := 5 * Pow10(scale - 1);
    assert Pow10(scale) == 2 * half;
    var o, t := k * (2 * half) + NumericQuotient(num, den, scale), SevenDecimals(k, num, den, scale);
    forall m {:trigger Midpoint(m)}
      ensures 2 * (num + k * den) <= (2 * m + 1) * den ==> t <= Midpoint(m)
      ensures 2 * (num + k * den) >= (2 * m + 1) * den ==> t >= Midpoint(m)
    {
      OneSide(m, k, num, den, half);
      assert (2 * m + 1) * den - 2 * (k * den) == (2 * (m - k) + 1) * den;
      assert ((2 * m + 1) * half) * STROOP_SCALE == Midpoint(m) * (2 * half);
      RoundDivWhole(Midpoint(m), 2 * half, HalfEven);
      if o <= (2 * m + 1) * half { RoundDivMonotone(o * STROOP_SCALE, Midpoint(m) * (2 * half), 2 * half, HalfEven); }
      if o >= (2 * m + 1) * half { RoundDivMonotone(Midpoint(m) * (2 * half), o * STROOP_SCALE, 2 * half, HalfEven); }
    }
  }

  // The two ways to add k whole stroops to a rounded interest.
  lemma WholePart(k: int, num: int, den: int)
    requires den > 0
    ensures
      var outside, inside := k + Divide(num, den, HalfEven), Divide(num + k * den, den, HalfEven);
      if IsTie(num, den) && k % 2 != 0 then inside % 2 == 0 && (outside == inside - 1 || outside == inside + 1)
      else outside == inside
    ensures IsTie(num, den) == IsTie(num + k * den, den)
  {
    hide Divide;
    assert 2 * (num + k * den) == 2 * num + k * (2 * den);
    TieStays(2 * num, k, den);
    if IsTie(num, den) && k % 2 != 0 {
      TieIsEven(num, den);
      TieIsEven(num + k * den, den);
      NearestTwo(k, num, den);
    } else {
      RoundDivShift(num, den, k);
    }
  }

  lemma TieStays(n: int, k: int, den: int)
    requires den > 0
    ensures (n + k * (2 * den)) % (2 * den) == n % (2 * den)
  {
    var q, r := n / (2 * den), n % (2 * den);
    assert n + k * (2 * den) == (q + k) * (2 * den) + r;
    ModIs(n + k * (2 * den), 2 * den, q + k, r);
  }

  lemma NearestTwo(k: int, num: int, den: int)
    requires den > 0
    ensures -1 <= k + Divide(num, den, HalfEven) - Divide(num + k * den, den, HalfEven) <= 1
  {
    hide Divide;
    var a, b := Divide(num, den, HalfEven), Divide(num + k * den, den, HalfEven);
    DivideMeetsMode(num, den, HalfEven);
    DivideMeetsMode(num + k * den, den, HalfEven);
    var x := k + a - b;
    assert x * den == k * den + a * den - b * den;
    if x >= 2 { MulLe(2, x, den); } else if x <= -2 { MulLe(x, -2, den); }
  }

  // k + rounded interest against the same debt read through the list: at most
  // one stroop apart, and apart exactly when the seven-decimal debt is a
  // midpoint and the details figure is odd.
  lemma FiguresAgree(k: int, num: int, den: int, scale: nat)
    requires den > 0 && scale >= 1
    ensures
      var details := k + Divide(num, den, HalfEven);
      var t := SevenDecimals(k, num, den, scale);
      var listed := Divide(t, STROOP_SCALE, HalfEven);
      && -1 <= listed - details <= 1
      && (listed != details <==> IsTie(t, STROOP_SCALE) && details % 2 != 0)
      && (IsTie(num, den) ==> (listed != details <==> k % 2 != 0))
  {
    hide Divide, IsTie, SevenDecimals, KeepsSides;
    var t := SevenDecimals(k, num, den, scale);
    NumericKeepsSides(k, num, den, scale);
    TwiceRounded(t, num + k * den, den);
    WholePart(k, num, den);
    if IsTie(num, den) {
      TieReachesMidpoint(t, num + k * den, den);
      TieIsEven(num, den);
    }
  }

  // A debt that is exactly half a stroop over is still so at seven decimals.
  lemma TieReachesMidpoint(t: int, num: int, den: int)
    requires den > 0 && KeepsSides(t, num, den) && IsTie(num, den)
    ensures IsTie(t, STROOP_SCALE)
  {
    var j := TieForm(num, den);
    assert (2 * j + 1) * den == 2 * (j * den) + den;
    var mid := Midpoint(j);
    MidpointIsTie(j);
  }

  lemma MidpointIsTie(m: int)
    ensures IsTie(Midpoint(m), STROOP_SCALE)
  {
  }

  lemma DetailsFigures(loan: Loan, cfg: Config, currentLedger: nat, scale: nat)
    requires ValidConfig(cfg) && Comparable(loan, cfg, currentLedger)
    ensures InterestDen(loan, cfg) > 0 && ListLoan(loan, cfg, currentLedger, scale).Ok?
    ensures
      var num, den, k := InterestNum(loan, cfg, currentLedger), InterestDen(loan, cfg), loan.principal - loan.repaid;
      var entry, details := ListLoan(loan, cfg, currentLedger, scale).value, LoanDetails(loan, cfg, currentLedger, None);
      && details.owed == k + Divide(num, den, HalfEven)
      && entry.owed == k * Pow10(scale) + NumericQuotient(num, den, scale)
      && entry.reported == Divide(SevenDecimals(k, num, den, scale), STROOP_SCALE, HalfEven)
      && (entry.status == Active <==> !loan.defaulted && entry.owed >= Pow10(scale))
      && (details.status == Active <==> !loan.defaulted && details.owed > 0)
  {
    hide Divide;
  }

  // When the list reports another debt than the details, by the exact debt and
  // its seven-decimal form t: t is a midpoint m + 1/2 that the exact debt
  // exceeds while m is even, falls short of while m is odd, or meets while the
  // whole part k is odd.
  ghost predicate Misread(t: int, k: int, num: int, den: int)
    requires den > 0
  {
    var m, debt := t / STROOP_SCALE, num + k * den;
    && IsTie(t, STROOP_SCALE)
    && ((2 * debt > (2 * m + 1) * den && m % 2 == 0)
        || (2 * debt < (2 * m + 1) * den && m % 2 != 0)
        || (2 * debt == (2 * m + 1) * den && k % 2 != 0))
  }

  lemma MisreadIff(k: int, num: int, den: int, scale: nat)
    requires den > 0 && scale >= 1
    ensures
      var t := SevenDecimals(k, num, den, scale);
      Divide(t, STROOP_SCALE, HalfEven) != k + Divide(num, den, HalfEven) <==> Misread(t, k, num, den)
  {
    hide Divide, SevenDecimals, KeepsSides, IsTie;
    var t, debt := SevenDecimals(k, num, den, scale), num + k * den;
    var m := t / STROOP_SCALE;
    FiguresAgree(k, num, den, scale);
    NumericKeepsSides(k, num, den, scale);
    WholePart(k, num, den);
    if IsTie(t, STROOP_SCALE) {
      TieAtMidpoint(t);
      if 2 * debt == (2 * m + 1) * den {
        HalfwayIsTie(debt, den, m);
      } else {
        NearestToMidpoint(t, m, debt, den);
      }
    }
  }

  lemma TieAtMidpoint(t: int)
    requires IsTie(t, STROOP_SCALE)
    ensures t == Midpoint(t / STROOP_SCALE)
  {
  }

  lemma HalfwayIsTie(debt: int, den: int, m: int)
    requires den > 0 && 2 * debt == (2 * m + 1) * den
    ensures IsTie(debt, den)
  {
    assert (2 * m + 1) * den == 2 * (m * den) + den;
    TieError(debt, den, m);
  }

  // A debt whose seven decimals are the midpoint m + 1/2, without being exactly
  // that, is nearest to m + 1 or to m, and no tie.
  lemma NearestToMidpoint(t: int, m: int, debt: int, den: int)
    requires den > 0 && KeepsSides(t, debt, den) && t == Midpoint(m) && 2 * debt != (2 * m + 1) * den
    ensures Divide(debt, den, HalfEven) == if 2 * debt > (2 * m + 1) * den then m + 1 else m
    ensures !IsTie(debt, den)
  {
    hide Divide;
    var lo, hi := Midpoint(m - 1), Midpoint(m + 1);
    assert (2 * (m + 1) + 1) * den == 2 * (m * den) + 3 * den && (2 * (m - 1) + 1) * den == 2 * (m * den) - den;
    assert (2 * m + 1) * den == 2 * (m * den) + den;
    if 2 * debt > (2 * m + 1) * den {
      assert (m + 1) * den == m * den + den;
      DivideIs(debt, den, HalfEven, m + 1);
      NoTieNear(debt, den, m + 1);
    } else {
      DivideIs(debt, den, HalfEven, m);
      NoTieNear(debt, den, m);
    }
  }

  lemma NoTieNear(debt: int, den: int, q: int)
    requires den > 0 && -den < 2 * (debt - q * den) < den
    ensures !IsTie(debt, den)
  {
    if IsTie(debt, den) {
      var j := TieForm(debt, den);
      if j < q { ProductGap(j, q, den); } else { MulLe(q, j, den); }
      assert false;
    }
  }

  // The debt both endpoints report.
  lemma ReportedDebtAgrees(loan: Loan, cfg: Config, currentLedger: nat, scale: nat)
    requires ValidConfig(cfg) && Comparable(loan, cfg, currentLedger) && scale >= 1
    ensures ListLoan(loan, cfg, currentLedger, scale).Ok? && InterestDen(loan, cfg) > 0
    ensures
      var listed, details := ListLoan(loan, cfg, currentLedger, scale).value.reported, LoanDetails(loan, cfg, currentLedger, None).owed;
      var num, den, k := InterestNum(loan, cfg, currentLedger), InterestDen(loan, cfg), loan.principal - loan.repaid;
      && -1 <= listed - details <= 1
      && (listed != details <==> Misread(SevenDecimals(k, num, den, scale), k, num, den))
      && (IsTie(num, den) ==> (listed != details <==> k % 2 != 0))
  {
    hide Divide, SevenDecimals, IsTie, ListLoan, LoanDetails, InterestNum, InterestDen, Misread;
    var num, den, k := InterestNum(loan, cfg, currentLedger), InterestDen(loan, cfg), loan.principal - loan.repaid;
    DetailsFigures(loan, cfg, currentLedger, scale);
    FiguresAgree(k, num, den, scale);
    MisreadIff(k, num, den, scale);
  }

  // An interest of 0.50000001 stroop on a repaid principal: the details say one
  // stroop is owed and the loan active, the list says none and repaid, although
  // nothing is an exact tie.
  lemma DisagreementWithoutTie()
    ensures
      var loan := Loan(50_000_001, 50_000_001, false, Some(1), Some(1), Some(10_000));
      var cfg := Config(1_200, 17_280);
      && LoanDetails(loan, cfg, 2, None).owed == 1
      && LoanDetails(loan, cfg, 2, None).status == Active
      && ListLoan(loan, cfg, 2, 8).Ok? && ListLoan(loan, cfg, 2, 8).value.reported == 0
      && ListLoan(loan, cfg, 2, 8).value.status == Repaid
      && !IsTie(InterestNum(loan, cfg, 2), InterestDen(loan, cfg))
  {
    hide Divide;
    var loan := Loan(50_000_001, 50_000_001, false, Some(1), Some(1), Some(10_000));
    var cfg := Config(1_200, 17_280);
    ScaleIsPow10();
    Pow10Add(1, 7);
    DetailsFigures(loan, cfg, 2, 8);
    SettledStatus(loan, cfg, 2, 8);
    DivideIs(50_000_001, 100_000_000, HalfEven, 1);
    DivideIs(50_000_001 * 100_000_000, 100_000_000, HalfUp, 50_000_001);
    DivideIs(50_000_001 * STROOP_SCALE, 100_000_000, HalfEven, 5_000_000);
    DivideIs(5_000_000, STROOP_SCALE, HalfEven, 0);
  }

  // Half-even rounding reaches n from n - 1/2 on, and at n - 1/2 when n is even.
  lemma NearestReaches(num: int, den: int, n: int)
    requires den > 0
    ensures Divide(num, den, HalfEven) >= n <==>
      2 * (num - n * den) > -den || (2 * (num - n * den) == -den && n % 2 == 0)
  {
    hide Divide;
    var q := Divide(num, den, HalfEven);
    DivideMeetsMode(num, den, HalfEven);
    if q > n { ProductGap(n, q, den); } else if q < n { ProductGap(q, n, den); }
  }

  // The numeric column reaches n from half a unit of its last decimal on.
  lemma ColumnReaches(num: nat, den: int, n: int, scale: nat)
    requires den > 0
    ensures NumericQuotient(num, den, scale) >= n * Pow10(scale) <==> (n * den - num) * (2 * Pow10(scale)) <= den
  {
    hide Divide;
    var p, a := Pow10(scale), NumericQuotient(num, den, scale);
    DivideMeetsMode(num * p, den, HalfUp);
    assert (n * p) * den == (n * den) * p;
    assert (n * den - num) * (2 * p) == 2 * ((n * den) * p - num * p);
    MulLe(0, num, p);
    if a > n * p { ProductGap(n * p, a, den); } else if a < n * p { ProductGap(a, n * p, den); }
  }

  // The exact debt lies between half a stroop and one, the half included when
  // the details round it up, and the numeric column has not rounded it to one.
  ghost predicate UnderOneStroop(k: int, num: int, den: int, scale: nat)
  {
    var debt := num + k * den;
    && (den < 2 * debt || (den == 2 * debt && k % 2 != 0))
    && den < 2 * Pow10(scale) * (den - debt)
  }

  // The same with n = 1 - k stroops of interest in place of one stroop of debt.
  lemma FromInterest(k: int, num: int, den: int, p: int)
    ensures
      var n := 1 - k;
      && n * p == p - k * p && num - n * den == num + k * den - den
      && (n * den - num) * (2 * p) == 2 * p * (den - (num + k * den))
  {
    assert (1 - k) * p == p - k * p && (1 - k) * den == den - k * den;
    assert (den - (num + k * den)) * (2 * p) == 2 * p * (den - (num + k * den));
  }

  lemma NearOne(k: int, num: nat, den: int, scale: nat)
    requires den > 0 && scale >= 1
    ensures
      var details, owed := k + Divide(num, den, HalfEven), k * Pow10(scale) + NumericQuotient(num, den, scale);
      && (owed >= Pow10(scale) ==> details > 0)
      && (details > 0 && owed < Pow10(scale) <==> UnderOneStroop(k, num, den, scale))
  {
    assert Pow10(scale) >= 2;
    hide Divide, NumericQuotient, Pow10;
    var n, p := 1 - k, Pow10(scale);
    NearestReaches(num, den, n);
    ColumnReaches(num, den, n, scale);
    FromInterest(k, num, den, p);
    Close(n * den - num, den, p);
    var debt := num + k * den;
    NearOneBy(k, Divide(num, den, HalfEven), NumericQuotient(num, den, scale), p, k * p, den, debt, 2 * p * (den - debt));
  }

  // The case distinction, with every product named.
  lemma NearOneBy(k: int, q: int, a: int, p: int, kp: int, den: int, debt: int, far: int)
    requires q >= 1 - k <==> 2 * (debt - den) > -den || (2 * (debt - den) == -den && (1 - k) % 2 == 0)
    requires a >= p - kp <==> far <= den
    requires far <= den ==> 2 * (den - debt) < den
    ensures kp + a >= p ==> k + q > 0
    ensures k + q > 0 && kp + a < p <==> (den < 2 * debt || (den == 2 * debt && k % 2 != 0)) && den < far
  {
  }

  // Within half a unit of a decimal is well within half a stroop.
  lemma Close(gap: int, den: int, p: int)
    requires den > 0 && p >= 2
    ensures gap * (2 * p) <= den ==> 2 * gap < den
  {
    if gap > 0 { MulLe(2, p, gap); }
  }

  // Active in the list implies active in the details, and the statuses differ if
  // and only if the loan is not defaulted and its exact debt is under one stroop
  // but rounds up to one in the details.
  lemma StatusAgrees(loan: Loan, cfg: Config, currentLedger: nat, scale: nat)
    requires ValidConfig(cfg) && Comparable(loan, cfg, currentLedger) && scale >= 1
    ensures ListLoan(loan, cfg, currentLedger, scale).Ok? && InterestDen(loan, cfg) > 0
    ensures
      var listed, details := ListLoan(loan, cfg, currentLedger, scale).value.status, LoanDetails(loan, cfg, currentLedger, None).status;
      && (listed == Active ==> details == Active)
      && (listed != details <==>
            !loan.defaulted
            && UnderOneStroop(loan.principal - loan.repaid, InterestNum(loan, cfg, currentLedger), InterestDen(loan, cfg), scale))
  {
    hide Divide, InterestNum, InterestDen, NumericQuotient, UnderOneStroop;
    var num, den, k := InterestNum(loan, cfg, currentLedger), InterestDen(loan, cfg), loan.principal - loan.repaid;
    DetailsFigures(loan, cfg, currentLedger, scale);
    NearOne(k, num, den, scale);
    SettledStatus(loan, cfg, currentLedger, scale);
  }

  lemma SettledStatus(loan: Loan, cfg: Config, currentLedger: nat, scale: nat)
    requires ValidConfig(cfg) && Comparable(loan, cfg, currentLedger)
    ensures
      var entry, details := ListLoan(loan, cfg, currentLedger, scale), LoanDetails(loan, cfg, currentLedger, None);
      && entry.Ok? && (loan.defaulted ==> entry.value.status == details.status == Defaulted)
      && (!loan.defaulted ==> entry.value.status in {Active, Repaid} && details.status in {Active, Repaid})
  {
    hide Divide, ReadThroughSeven, NumericQuotient;
  }

  // The interest the details add to a loan approved at a rate of zero.
  function DefaultInterest(loan: Loan, cfg: Config, currentLedger: nat): int
    requires ValidConfig(cfg)
  {
    Divide(InterestNum(loan.(rateBps := None), cfg, currentLedger), 10_000 * OrElse(loan.termLedgers, cfg.defaultTermLedgers), HalfEven)
  }

  // A rate approved as zero is zero in the list but the default in the details.
  // The debts differ if and only if the default interest does not round to
  // zero, and the statuses if and only if it alone keeps the loan active.
  lemma ZeroRateDisagrees(loan: Loan, cfg: Config, currentLedger: nat, scale: nat)
    requires ValidConfig(cfg) && loan.rateBps == Some(0)
    requires loan.approvedLedger.Some? && 0 < loan.approvedLedger.value <= currentLedger
    ensures Unlistable(loan, cfg) <==> ListLoan(loan, cfg, currentLedger, scale).Err?
    ensures
      var k, interest := loan.principal - loan.repaid, DefaultInterest(loan, cfg, currentLedger);
      var details := LoanDetails(loan, cfg, currentLedger, None);
      && details.owed == k + interest
      && (!Unlistable(loan, cfg) ==>
            var entry := ListLoan(loan, cfg, currentLedger, scale).value;
            && entry.reported == k && (entry.reported != details.owed <==> interest != 0)
            && (entry.status != details.status <==> !loan.defaulted && k <= 0 < k + interest))
  {
    hide Divide;
    assert loan.principal * 0 * Elapsed(currentLedger, Default(loan.approvedLedger, 0)) == 0;
    if !Unlistable(loan, cfg) {
      var k, p := loan.principal - loan.repaid, Pow10(scale);
      RoundDivWhole(0, 10_000 * Default(loan.termLedgers, cfg.defaultTermLedgers), HalfUp);
      ReadsWhole(k, p);
      MulOrder(k, 1, p);
      InterestMonotone(loan, cfg, 0, currentLedger);
    }
  }

  // Whole stroops are read as they are.
  lemma ReadsWhole(k: int, p: int)
    requires p > 0
    ensures ReadThroughSeven(k * p, p) == k
  {
    hide Divide;
    assert (k * p) * STROOP_SCALE == (k * STROOP_SCALE) * p;
    RoundDivWhole(k * STROOP_SCALE, p, HalfEven);
    RoundDivWhole(k, STROOP_SCALE, HalfEven);
  }

  // A repaid loan of one token at no interest: the list calls it repaid, the
  // details claim the default 12 percent.
  lemma ZeroRateWitness(scale: nat)
    ensures
      var loan := Loan(10_000_000, 10_000_000, false, Some(1), Some(0), Some(10_000));
      var cfg := Config(1_200, 17_280);
      var entry, details := ListLoan(loan, cfg, 10_001, scale), LoanDetails(loan, cfg, 10_001, None);
      && entry.Ok? && entry.value.reported == 0 && entry.value.status == Repaid
      && details.owed == 1_200_000 && details.status == Active
  {
    hide Divide, ReadThroughSeven, NumericQuotient;
    var loan := Loan(10_000_000, 10_000_000, false, Some(1), Some(0), Some(10_000));
    var cfg := Config(1_200, 17_280);
    ZeroRateDisagrees(loan, cfg, 10_001, scale);
    DivideIs(10_000_000 * 1_200 * 10_000, 100_000_000, HalfEven, 1_200_000);
  }

  // Accrued interest never decreases as ledgers elapse, and is never negative.
  lemma InterestMonotone(loan: Loan, cfg: Config, ledger: nat, later: nat)
    requires ValidConfig(cfg) && ledger <= later
    ensures 0 <= LoanDetails(loan, cfg, ledger, None).accrued <= LoanDetails(loan, cfg, later, None).accrued
  {
    hide Divide;
    var rate, term := OrElse(loan.rateBps, cfg.defaultRateBps), OrElse(loan.termLedgers, cfg.defaultTermLedgers);
    var approved := Default(loan.approvedLedger, 0);
    var perLedger, den := loan.principal * rate, 10_000 * term;
    var a, b := Elapsed(ledger, approved), Elapsed(later, approved);
    MulLe(a, b, perLedger);
    assert perLedger * a == a * perLedger && perLedger * b == b * perLedger;
    RoundDivWhole(0, den, HalfEven);
    RoundDivMonotone(0, perLedger * a, den, HalfEven);
    RoundDivMonotone(perLedger * a, perLedger * b, den, HalfEven);
    RoundDivMonotone(0, perLedger * b, den, HalfEven);
  }

  // Both endpoints agree on which loans are still being indexed, and on which
  // of the others are defaulted.
  lemma PendingAndDefaultedAgree(loan: Loan, cfg: Config, currentLedger: nat, freezeLedger: Option<nat>, scale: nat)
    requires ValidConfig(cfg)
    ensures ListLoan(loan, cfg, currentLedger, scale).Ok? <==> !Unlistable(loan, cfg)
    ensures !Unlistable(loan, cfg) ==>
      var listed, details := ListLoan(loan, cfg, currentLedger, scale).value.status, LoanDetails(loan, cfg, currentLedger, freezeLedger).status;
      && (listed == PendingIndexing <==> details == PendingIndexing)
      && (listed == Defaulted <==> details == Defaulted)
      && (listed == PendingIndexing <==> loan.approvedLedger in {None, Some(0)} || currentLedger < loan.approvedLedger.value)
  {
    hide Divide, ReadThroughSeven, NumericQuotient;
  }

  // ---- Disputes: the details stop the clock, the list does not ----

  // What the details report, spelled out: interest on the ledgers elapsed up to
  // the freeze, or up to now without one, rounded half-even.
  lemma AccruedIs(loan: Loan, cfg: Config, currentLedger: nat, freezeLedger: Option<nat>,
                  approved: nat, rate: nat, term: nat, clock: nat, elapsed: nat, num: nat, den: nat)
    requires ValidConfig(cfg) && num == loan.principal * rate * elapsed && den == 10_000 * term && term > 0
    requires approved == if loan.approvedLedger.Some? then loan.approvedLedger.value else 0
    requires rate == if loan.rateBps.None? || loan.rateBps == Some(0) then cfg.defaultRateBps else loan.rateBps.value
    requires term == if loan.termLedgers.None? || loan.termLedgers == Some(0) then cfg.defaultTermLedgers else loan.termLedgers.value
    requires clock == if freezeLedger.Some? then freezeLedger.value else currentLedger
    requires elapsed == if clock > approved then clock - approved else 0
    ensures
      var details := LoanDetails(loan, cfg, currentLedger, freezeLedger);
      && details.owed == loan.principal + details.accrued - loan.repaid
      && (if approved == 0 || currentLedger < approved then details.accrued == 0
          else IsRounding(details.accrued, num, den, HalfEven))
  {
    hide Divide, LoanDetails;
    AccruedAt(loan, cfg, currentLedger, freezeLedger, rate, term, elapsed);
    if approved != 0 && approved <= currentLedger {
      RoundsTo(LoanDetails(loan, cfg, currentLedger, freezeLedger).accrued, num, den);
    }
  }

  lemma RoundsTo(accrued: int, num: int, den: int)
    requires den > 0 && accrued == Divide(num, den, HalfEven)
    ensures IsRounding(accrued, num, den, HalfEven)
  {
    hide Divide;
    DivideMeetsMode(num, den, HalfEven);
  }

  lemma AccruedAt(loan: Loan, cfg: Config, currentLedger: nat, freezeLedger: Option<nat>, rate: nat, term: nat, elapsed: nat)
    requires ValidConfig(cfg) && term > 0
    requires rate == OrElse(loan.rateBps, cfg.defaultRateBps) && term == OrElse(loan.termLedgers, cfg.defaultTermLedgers)
    requires elapsed == Elapsed(if freezeLedger.Some? then freezeLedger.value else currentLedger, Default(loan.approvedLedger, 0))
    ensures
      var details, approved := LoanDetails(loan, cfg, currentLedger, freezeLedger), Default(loan.approvedLedger, 0);
      && details.owed == loan.principal + details.accrued - loan.repaid
      && details.accrued ==
           (if approved == 0 || currentLedger < approved then 0 else Divide(loan.principal * rate * elapsed, 10_000 * term, HalfEven))
  {
    hide Divide;
  }

  // While frozen, nothing the details report changes as ledgers close.
  lemma FrozenStands(loan: Loan, cfg: Config, ledger: nat, later: nat, freeze: nat)
    requires ValidConfig(cfg) && loan.approvedLedger.Some? && loan.approvedLedger.value <= ledger <= later
    ensures LoanDetails(loan, cfg, ledger, Some(freeze)) == LoanDetails(loan, cfg, later, Some(freeze))
  {
    hide Divide;
  }

  // A freeze at or before the current ledger never raises the debt.
  lemma FreezeNeverRaises(loan: Loan, cfg: Config, currentLedger: nat, freeze: nat)
    requires ValidConfig(cfg) && freeze <= currentLedger
    ensures
      var frozen, running := LoanDetails(loan, cfg, currentLedger, Some(freeze)), LoanDetails(loan, cfg, currentLedger, None);
      0 <= frozen.accrued <= running.accrued && frozen.owed <= running.owed
  {
    hide Divide;
    var rate, term := OrElse(loan.rateBps, cfg.defaultRateBps), OrElse(loan.termLedgers, cfg.defaultTermLedgers);
    var approved := Default(loan.approvedLedger, 0);
    var perLedger, den := loan.principal * rate, 10_000 * term;
    var a, b := Elapsed(freeze, approved), Elapsed(currentLedger, approved);
    MulLe(a, b, perLedger);
    MulLe(0, a, perLedger);
    assert perLedger * a == a * perLedger && perLedger * b == b * perLedger;
    RoundDivWhole(0, den, HalfEven);
    RoundDivMonotone(0, perLedger * a, den, HalfEven);
    RoundDivMonotone(perLedger * a, perLedger * b, den, HalfEven);
  }

  // By how much the list misreads an unfrozen debt.
  ghost function Correction(t: int, k: int, num: int, den: int): int
    requires den > 0
  {
    if !Misread(t, k, num, den) then 0 else if (t / STROOP_SCALE) % 2 == 0 then -1 else 1
  }

  lemma MisreadBy(k: int, num: int, den: int, scale: nat)
    requires den > 0 && scale >= 1
    ensures
      var t := SevenDecimals(k, num, den, scale);
      Divide(t, STROOP_SCALE, HalfEven) == k + Divide(num, den, HalfEven) + Correction(t, k, num, den)
  {
    hide Divide, SevenDecimals, KeepsSides, IsTie;
    var t, debt := SevenDecimals(k, num, den, scale), num + k * den;
    var m, q, listed := t / STROOP_SCALE, Divide(num, den, HalfEven), Divide(t, STROOP_SCALE, HalfEven);
    MisreadIff(k, num, den, scale);
    if Misread(t, k, num, den) {
      FiguresAgree(k, num, den, scale);
      TieAtMidpoint(t);
      DivideMeetsMode(t, STROOP_SCALE, HalfEven);
      MidpointRounds(t, m, listed);
      DivideMeetsMode(num, den, HalfEven);
      NumericKeepsSides(k, num, den, scale);
      BesideMidpoint(t, m, k, q, num, den);
    }
  }

  // The nearest integer to a debt whose seven decimals are m + 1/2 is m or m + 1.
  lemma BesideMidpoint(t: int, m: int, k: int, q: int, num: int, den: int)
    requires den > 0 && t == Midpoint(m) && KeepsSides(t, num + k * den, den) && -den <= 2 * (num - q * den) <= den
    ensures m <= k + q <= m + 1
  {
    var lo, hi := Midpoint(m - 1), Midpoint(m + 1);
    var debt, x := num + k * den, k + q;
    assert x * den == k * den + q * den;
    assert (2 * (m + 1) + 1) * den == 2 * (m * den) + 3 * den && (2 * (m - 1) + 1) * den == 2 * (m * den) - den;
    assert (2 * m + 1) * den == 2 * (m * den) + den;
    assert (m + 1) * den == m * den + den;
    if x > m + 1 { ProductGap(m + 1, x, den); }
    if x < m { ProductGap(x, m, den); }
  }

  // For a frozen loan the list reports more than the details by exactly the
  // interest that accrued since, each rounded, and the list's own misreading;
  // so they disagree if and only if these do not cancel.
  lemma FrozenDebtDisagrees(loan: Loan, cfg: Config, currentLedger: nat, freeze: nat, scale: nat)
    requires ValidConfig(cfg) && Comparable(loan, cfg, currentLedger) && scale >= 1
    ensures ListLoan(loan, cfg, currentLedger, scale).Ok? && InterestDen(loan, cfg) > 0
    ensures
      var listed, details := ListLoan(loan, cfg, currentLedger, scale).value.reported, LoanDetails(loan, cfg, currentLedger, Some(freeze)).owed;
      var num, frozen, den, k := InterestNum(loan, cfg, currentLedger), InterestNum(loan, cfg, freeze), InterestDen(loan, cfg), loan.principal - loan.repaid;
      var since := Divide(num, den, HalfEven) - Divide(frozen, den, HalfEven);
      var misread := Correction(SevenDecimals(k, num, den, scale), k, num, den);
      listed - details == since + misread && (listed != details <==> since != -misread)
  {
    hide Divide, SevenDecimals, Correction;
    DetailsFigures(loan, cfg, currentLedger, scale);
    MisreadBy(loan.principal - loan.repaid, InterestNum(loan, cfg, currentLedger), InterestDen(loan, cfg), scale);
  }

  // Its statuses differ if and only if it is not defaulted and the running debt
  // reaches one stroop in the numeric column while the frozen one does not round
  // up to one, or the other way round.
  lemma FrozenStatusDisagrees(loan: Loan, cfg: Config, currentLedger: nat, freeze: nat, scale: nat)
    requires ValidConfig(cfg) && Comparable(loan, cfg, currentLedger)
    ensures ListLoan(loan, cfg, currentLedger, scale).Ok? && InterestDen(loan, cfg) > 0
    ensures
      var listed, details := ListLoan(loan, cfg, currentLedger, scale).value.status, LoanDetails(loan, cfg, currentLedger, Some(freeze)).status;
      var den, k := InterestDen(loan, cfg), loan.principal - loan.repaid;
      var running, frozen := InterestNum(loan, cfg, currentLedger) + k * den, InterestNum(loan, cfg, freeze) + k * den;
      listed != details <==>
        !loan.defaulted && (2 * Pow10(scale) * (den - running) <= den) != (den < 2 * frozen || (den == 2 * frozen && k % 2 != 0))
  {
    hide Divide, NumericQuotient, Pow10, ListLoan, LoanDetails, InterestNum, InterestDen;
    var den, k := InterestDen(loan, cfg), loan.principal - loan.repaid;
    FrozenFigures(loan, cfg, currentLedger, freeze, scale);
    ColumnActiveIff(k, InterestNum(loan, cfg, currentLedger), den, scale);
    DetailsActiveIff(k, InterestNum(loan, cfg, freeze), den);
  }

  // When the numeric column reaches one stroop, and when the details' figure does.
  lemma ColumnActiveIff(k: int, num: nat, den: int, scale: nat)
    requires den > 0
    ensures k * Pow10(scale) + NumericQuotient(num, den, scale) >= Pow10(scale) <==> 2 * Pow10(scale) * (den - (num + k * den)) <= den
  {
    hide Divide, NumericQuotient, Pow10;
    ColumnReaches(num, den, 1 - k, scale);
    FromInterest(k, num, den, Pow10(scale));
  }

  lemma DetailsActiveIff(k: int, num: nat, den: int)
    requires den > 0
    ensures
      var debt := num + k * den;
      k + Divide(num, den, HalfEven) > 0 <==> den < 2 * debt || (den == 2 * debt && k % 2 != 0)
  {
    hide Divide;
    NearestReaches(num, den, 1 - k);
    FromInterest(k, num, den, 1);
  }

  lemma FrozenFigures(loan: Loan, cfg: Config, currentLedger: nat, freeze: nat, scale: nat)
    requires ValidConfig(cfg) && Comparable(loan, cfg, currentLedger)
    ensures ListLoan(loan, cfg, currentLedger, scale).Ok? && InterestDen(loan, cfg) > 0
    ensures
      var entry, details := ListLoan(loan, cfg, currentLedger, scale).value, LoanDetails(loan, cfg, currentLedger, Some(freeze));
      var den, k := InterestDen(loan, cfg), loan.principal - loan.repaid;
      && (loan.defaulted ==> entry.status == details.status == Defaulted)
      && (!loan.defaulted ==>
            && entry.status == (if k * Pow10(scale) + NumericQuotient(InterestNum(loan, cfg, currentLedger), den, scale) >= Pow10(scale) then Active else Repaid)
            && details.status == (if k + Divide(InterestNum(loan, cfg, freeze), den, HalfEven) > 0 then Active else Repaid))
  {
    hide Divide, NumericQuotient, Pow10, ReadThroughSeven;
  }

  // One token at 12 percent, disputed half way through its term: the details
  // report half the interest, the list all of it.
  lemma FrozenWitness(scale: nat)
    requires scale >= 1
    ensures
      var loan := Loan(10_000_000, 0, false, Some(1), Some(1_200), Some(10_000));
      var cfg := Config(1_200, 17_280);
      && LoanDetails(loan, cfg, 10_001, Some(5_001)).accrued == 600_000
      && ListLoan(loan, cfg, 10_001, scale).Ok? && ListLoan(loan, cfg, 10_001, scale).value.reported == 11_200_000
  {
    hide Divide, ReadThroughSeven, NumericQuotient;
    var loan := Loan(10_000_000, 0, false, Some(1), Some(1_200), Some(10_000));
    var cfg := Config(1_200, 17_280);
    DivideIs(10_000_000 * 1_200 * 5_000, 100_000_000, HalfEven, 600_000);
    FullTerm(scale);
  }

  lemma FullTerm(scale: nat)
    ensures
      var entry := ListLoan(Loan(10_000_000, 0, false, Some(1), Some(1_200), Some(10_000)), Config(1_200, 17_280), 10_001, scale);
      entry.Ok? && entry.value.reported == 11_200_000
  {
    hide Divide, ReadThroughSeven, Pow10;
    var p := Pow10(scale);
    assert (10_000_000 * 1_200 * 10_000) * p == (1_200_000 * p) * 100_000_000;
    RoundDivWhole(1_200_000 * p, 100_000_000, HalfUp);
    assert 10_000_000 * p + 1_200_000 * p == 11_200_000 * p;
    ReadsWhole(11_200_000, p);
  }
}
