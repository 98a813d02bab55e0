/** The year-by-year projection: a work phase in which a share of each year's wage is paid
    as pension tax and the same amount is deposited into a personal fund, followed by a
    retirement phase in which a constant pension allowance is redeemed and the same amount
    is withdrawn from the personal fund. Money and rate multipliers are real numbers. */
module Simulation {
  import opened Decimal

  /** The inputs of one projection, after the form has turned percentages into
      multipliers (`x / 100 + 1`) and the tax percentage into a fraction (`x / 100`). */
  datatype Assumptions = Assumptions(
    startingWage: real,
    workYears: nat,
    retirementYears: nat,
    cola: real,            // inflation_increase
    step: real,            // step_increase
    promotion: real,       // promotion_increase
    promotionYears: seq<nat>,
    taxRate: real,         // pension_tax_rate
    allowance: real,       // retirement_allowance
    indexReturns: real)    // index_returns_rate

  /** The accumulators and the three tracking lists left by a projection. */
  datatype Projection = Projection(
    pensionTaxPaid: real,
    pensionRedeemed: real,
    personalFund: real,
    years: seq<string>,
    pensionFundValues: seq<real>,
    personalFundValues: seq<real>)

  function Pow(x: real, n: nat): real
  {
    if n == 0 then 1.0 else x * Pow(x, n - 1)
  }

  // ---------------------------------------------------------------------------
  // Work phase

  /** The fixed step-raise window: raises after work years 2 through 5. */
  predicate InStepWindow(year: int) { 2 <= year <= 5 }

  /** The wage for the year after work year `year`: COLA always, the step multiplier
      inside the window, the promotion multiplier in a listed year, in that order. */
  function NextWage(a: Assumptions, wage: real, year: nat): real
  {
    var afterCola := wage * a.cola;
    var afterStep := if InStepWindow(year) then afterCola * a.step else afterCola;
    if year in a.promotionYears then afterStep * a.promotion else afterStep
  }

  /** The wage earned during work year `year` (1-based). */
  function WageIn(a: Assumptions, year: nat): real
    requires year >= 1
  {
    if year == 1 then a.startingWage else NextWage(a, WageIn(a, year - 1), year - 1)
  }

  /** The pension tax charged in work year `year`, which is also the deposit into the
      personal fund that year. */
  function Contribution(a: Assumptions, year: nat): real
    requires year >= 1
  {
    WageIn(a, year) * a.taxRate
  }

  /** `pension_tax_paid` after `n` work years: the sum of the first `n` contributions. */
  function TaxPaidAfter(a: Assumptions, n: nat): real
  {
    if n == 0 then 0.0 else TaxPaidAfter(a, n - 1) + Contribution(a, n)
  }

  /** The personal fund after `n` work years: each year the balance grows by the return
      multiplier and that year's contribution is added. */
  function WorkFund(a: Assumptions, n: nat): real
  {
    if n == 0 then 0.0 else WorkFund(a, n - 1) * a.indexReturns + Contribution(a, n)
  }

  // ---------------------------------------------------------------------------
  // Retirement phase

  /** `pension_redeemed` after `m` retirement years: the allowance added once per year. */
  function RedeemedAfter(a: Assumptions, m: nat): real
  {
    if m == 0 then 0.0 else RedeemedAfter(a, m - 1) + a.allowance
  }

  /** The personal fund `m` retirement years after a balance of `balance`: each year
      the allowance is withdrawn before the return multiplier is applied. Nothing keeps
      the balance from going negative. */
  function Drawdown(a: Assumptions, balance: real, m: nat): real
  {
    if m == 0 then balance else (Drawdown(a, balance, m - 1) - a.allowance) * a.indexReturns
  }

  // ---------------------------------------------------------------------------
  // Tracking lists

  /** `f"W{year}"` */
  function WorkLabel(year: nat): string { "W" + Show(year) }

  /** `f"R{year}"` */
  function RetirementLabel(year: nat): string { "R" + Show(year) }

  /** The labels appended during the first `n` work years. */
  function WorkLabels(n: nat): (labels: seq<string>)
    ensures |labels| == n
    ensures forall k :: 0 <= k < n ==> labels[k] == WorkLabel(k + 1)
  {
    if n == 0 then [] else WorkLabels(n - 1) + [WorkLabel(n)]
  }

  /** The pension values appended during the first `n` work years. */
  function Zeros(n: nat): (values: seq<real>)
    ensures |values| == n
    ensures forall k :: 0 <= k < n ==> values[k] == 0.0
  {
    if n == 0 then [] else Zeros(n - 1) + [0.0]
  }

  /** The labels appended during the first `m` retirement years. */
  function RetirementLabels(m: nat): (labels: seq<string>)
    ensures |labels| == m
    ensures forall k :: 0 <= k < m ==> labels[k] == RetirementLabel(k + 1)
  {
    if m == 0 then [] else RetirementLabels(m - 1) + [RetirementLabel(m)]
  }

  /** The personal-fund balances appended during the first `n` work years. */
  function WorkFundSeries(a: Assumptions, n: nat): (values: seq<real>)
    ensures |values| == n
    ensures forall k :: 0 <= k < n ==> values[k] == WorkFund(a, k + 1)
  {
    if n == 0 then [] else WorkFundSeries(a, n - 1) + [WorkFund(a, n)]
  }

  /** The redeemed totals appended during the first `m` retirement years. */
  function RedeemedSeries(a: Assumptions, m: nat): (values: seq<real>)
    ensures |values| == m
    ensures forall k :: 0 <= k < m ==> values[k] == RedeemedAfter(a, k + 1)
  {
    if m == 0 then [] else RedeemedSeries(a, m - 1) + [RedeemedAfter(a, m)]
  }

  /** The balances appended during the first `m` retirement years, starting from `balance`. */
  function DrawdownSeries(a: Assumptions, balance: real, m: nat): (values: seq<real>)
    ensures |values| == m
    ensures forall k :: 0 <= k < m ==> values[k] == Drawdown(a, balance, k + 1)
  {
    if m == 0 then [] else DrawdownSeries(a, balance, m - 1) + [Drawdown(a, balance, m)]
  }

  /** The `years` list: work-year labels, then retirement-year labels. */
  function YearLabels(a: Assumptions): (labels: seq<string>)
    ensures |labels| == a.workYears + a.retirementYears
  {
    WorkLabels(a.workYears) + RetirementLabels(a.retirementYears)
  }

  /** The `pension_fund_values` list: zeros while working, then the redeemed totals. */
  function PensionValues(a: Assumptions): (values: seq<real>)
    ensures |values| == a.workYears + a.retirementYears
  {
    Zeros(a.workYears) + RedeemedSeries(a, a.retirementYears)
  }

  /** The `personal_fund_values` list: the work-phase balances, then the retirement
      balances continuing from the balance at retirement. */
  function PersonalValues(a: Assumptions): (values: seq<real>)
    ensures |values| == a.workYears + a.retirementYears
  {
    WorkFundSeries(a, a.workYears) + DrawdownSeries(a, WorkFund(a, a.workYears), a.retirementYears)
  }

  /** What a projection with assumptions `a` leaves behind: the three accumulators and
      the tracking lists, work years first, then retirement years. */
  function Project(a: Assumptions): (p: Projection)
    ensures |p.years| == |p.pensionFundValues| == |p.personalFundValues| == a.workYears + a.retirementYears
  {
    Projection(
      TaxPaidAfter(a, a.workYears),
      RedeemedAfter(a, a.retirementYears),
      Drawdown(a, WorkFund(a, a.workYears), a.retirementYears),
      YearLabels(a),
      PensionValues(a),
      PersonalValues(a))
  }

  // ---------------------------------------------------------------------------
  // The simulation loops

  /** The work loop, for work years 1..workYears: charge the pension tax on the current
      wage, grow the personal fund and deposit the same amount, append to the tracking
      lists, then raise the wage. */
  method WorkPhase(a: Assumptions)
    returns (pensionTaxPaid: real, personalFund: real,
             years: seq<string>, pensionFundValues: seq<real>, personalFundValues: seq<real>)
    ensures pensionTaxPaid == TaxPaidAfter(a, a.workYears)
    ensures personalFund == WorkFund(a, a.workYears)
    ensures years == WorkLabels(a.workYears)
    ensures pensionFundValues == Zeros(a.workYears)
    ensures personalFundValues == WorkFundSeries(a, a.workYears)
  {
    pensionTaxPaid, personalFund := 0.0, 0.0;
    var currentWage := a.startingWage;
    years, pensionFundValues, personalFundValues := [], [], [];

    for workYear := 1 to a.workYears + 1
      invariant currentWage == WageIn(a, workYear)
      invariant pensionTaxPaid == TaxPaidAfter(a, workYear - 1)
      invariant personalFund == WorkFund(a, workYear - 1)
      invariant years == WorkLabels(workYear - 1)
      invariant pensionFundValues == Zeros(workYear - 1)
      invariant personalFundValues == WorkFundSeries(a, workYear - 1)
    {
      var contribution := currentWage * a.taxRate;
      pensionTaxPaid := pensionTaxPaid + contribution;
      personalFund := personalFund * a.indexReturns + contribution;

      years := years + [WorkLabel(workYear)];
      pensionFundValues := pensionFundValues + [0.0];
      personalFundValues := personalFundValues + [personalFund];

      currentWage := NextWage(a, currentWage, workYear);
    }
  }

  /** The retirement loop, for retirement years 1..retirementYears: redeem the allowance,
      withdraw it from the personal fund before growth, and append to the tracking lists
      that the work loop left behind. */
  method RetirementPhase(a: Assumptions, fundAtRetirement: real,
                         workYearLabels: seq<string>, workPensionValues: seq<real>, workFundValues: seq<real>)
    returns (pensionRedeemed: real, personalFund: real,
             years: seq<string>, pensionFundValues: seq<real>, personalFundValues: seq<real>)
    ensures pensionRedeemed == RedeemedAfter(a, a.retirementYears)
    ensures personalFund == Drawdown(a, fundAtRetirement, a.retirementYears)
    ensures years == workYearLabels + RetirementLabels(a.retirementYears)
    ensures pensionFundValues == workPensionValues + RedeemedSeries(a, a.retirementYears)
    ensures personalFundValues == workFundValues + DrawdownSeries(a, fundAtRetirement, a.retirementYears)
  {
    pensionRedeemed, personalFund := 0.0, fundAtRetirement;
    years, pensionFundValues, personalFundValues := workYearLabels, workPensionValues, workFundValues;

    for retYear := 1 to a.retirementYears + 1
      invariant pensionRedeemed == RedeemedAfter(a, retYear - 1)
      invariant personalFund == Drawdown(a, fundAtRetirement, retYear - 1)
      invariant years == workYearLabels + RetirementLabels(retYear - 1)
      invariant pensionFundValues == workPensionValues + RedeemedSeries(a, retYear - 1)
      invariant personalFundValues == workFundValues + DrawdownSeries(a, fundAtRetirement, retYear - 1)
    {
      pensionRedeemed := pensionRedeemed + a.allowance;
      personalFund := (personalFund - a.allowance) * a.indexReturns;

      years := years + [RetirementLabel(retYear)];
      pensionFundValues := pensionFundValues + [pensionRedeemed];
      personalFundValues := personalFundValues + [personalFund];
    }
  }

  /** The whole projection: the work loop, then the retirement loop continuing from the
      balance and the lists the work loop ends with. */
  method Simulate(a: Assumptions) returns (p: Projection)
    ensures p == Project(a)
  {
    var pensionTaxPaid, personalFund, years, pensionFundValues, personalFundValues := WorkPhase(a);
    var pensionRedeemed;
    pensionRedeemed, personalFund, years, pensionFundValues, personalFundValues :=
      RetirementPhase(a, personalFund, years, pensionFundValues, personalFundValues);
    p := Projection(pensionTaxPaid, pensionRedeemed, personalFund,
                    years, pensionFundValues, personalFundValues);
  }
}
