/** What the projection promises: closed forms for the wage, the contributions, the
    redeemed total and the personal fund; which inputs cannot change the result; and the
    shape of the three tracking lists. */
module ProjectionProperties {
  import opened Decimal
  import opened Simulation

  // ---------------------------------------------------------------------------
  // Wages

  /** How many of the work years before `year` fall in the step window. */
  function StepRaisesBefore(year: nat): nat
  {
    if year <= 1 then 0 else StepRaisesBefore(year - 1) + (if InStepWindow(year - 1) then 1 else 0)
  }

  /** How many of the work years before `year` are listed as promotion years
      (a year listed twice counts once). */
  function PromotionsBefore(promotionYears: seq<nat>, year: nat): nat
  {
    if year <= 1 then 0
    else PromotionsBefore(promotionYears, year - 1) + (if year - 1 in promotionYears then 1 else 0)
  }

  /** The step window is fixed: no raise reaches years 1 and 2, and at most four raises
      (after years 2, 3, 4 and 5) reach any later year, whatever the career length. */
  lemma {:induction false} StepRaisesBeforeValue(year: nat)
    ensures StepRaisesBefore(year) == if year <= 2 then 0 else if year >= 6 then 4 else year - 2
  {
    if year > 1 {
      StepRaisesBeforeValue(year - 1);
    }
  }

  /** The COLA multiplier compounded over the `year - 1` raises before work year `year`. */
  function ColaGrowth(a: Assumptions, year: nat): real
    requires year >= 1
  {
    Pow(a.cola, year - 1)
  }

  /** The step multiplier compounded over the raises before `year` that fall in the window. */
  function StepGrowth(a: Assumptions, year: nat): real
  {
    Pow(a.step, StepRaisesBefore(year))
  }

  /** The promotion multiplier compounded over the listed years before `year`. */
  function PromotionGrowth(a: Assumptions, year: nat): real
  {
    Pow(a.promotion, PromotionsBefore(a.promotionYears, year))
  }

  /** The wage in work year `year` written out: the starting wage times one COLA
      multiplier per earlier year, one step multiplier per earlier year in the window and
      one promotion multiplier per earlier listed year. */
  function ClosedWage(a: Assumptions, year: nat): real
    requires year >= 1
  {
    a.startingWage * ColaGrowth(a, year) * StepGrowth(a, year) * PromotionGrowth(a, year)
  }

  /** The step multiplier if work year `year` is in the window, else 1. */
  function StepFactor(step: real, year: nat): real
  {
    if InStepWindow(year) then step else 1.0
  }

  /** The promotion multiplier if work year `year` is listed, else 1. */
  function PromotionFactor(promotion: real, promotionYears: seq<nat>, year: nat): real
  {
    if year in promotionYears then promotion else 1.0
  }

  /** The multiplier applied to the wage after work year `year`. */
  function RaiseFactor(a: Assumptions, year: nat): real
  {
    a.cola * StepFactor(a.step, year) * PromotionFactor(a.promotion, a.promotionYears, year)
  }

  /** One year's raise multiplies the wage by the three multipliers that apply. */
  lemma NextWageFactors(a: Assumptions, wage: real, year: nat)
    ensures NextWage(a, wage, year) == wage * RaiseFactor(a, year)
  {
  }

  lemma WageStep(a: Assumptions, year: nat)
    requires year >= 2
    ensures WageIn(a, year) == WageIn(a, year - 1) * RaiseFactor(a, year - 1)
  {
    calc {
      WageIn(a, year);
      NextWage(a, WageIn(a, year - 1), year - 1);
    == { NextWageFactors(a, WageIn(a, year - 1), year - 1); }
      WageIn(a, year - 1) * RaiseFactor(a, year - 1);
    }
  }

  lemma ColaGrowthStep(a: Assumptions, year: nat)
    requires year >= 2
    ensures ColaGrowth(a, year) == a.cola * ColaGrowth(a, year - 1)
  {
  }

  lemma StepGrowthStep(a: Assumptions, year: nat)
    requires year >= 2
    ensures StepGrowth(a, year) == StepFactor(a.step, year - 1) * StepGrowth(a, year - 1)
  {
  }

  lemma PromotionGrowthStep(a: Assumptions, year: nat)
    requires year >= 2
    ensures PromotionGrowth(a, year)
         == PromotionFactor(a.promotion, a.promotionYears, year - 1) * PromotionGrowth(a, year - 1)
  {
  }

  /** Four factors, each grown by its own multiplier, grow by the product of the three
      multipliers (the first factor stays fixed). */
  lemma Regroup(w: real, k: real, cf: real, sf: real, pf: real,
                c1: real, c0: real, s1: real, s0: real, p1: real, p0: real)
    requires k == cf * sf * pf
    requires c1 == cf * c0 && s1 == sf * s0 && p1 == pf * p0
    ensures w * c1 * s1 * p1 == (w * c0 * s0 * p0) * k
  {
  }

  lemma GrowthStep(a: Assumptions, year: nat)
    requires year >= 2
    ensures a.startingWage * ColaGrowth(a, year) * StepGrowth(a, year) * PromotionGrowth(a, year)
         == (a.startingWage * ColaGrowth(a, year - 1) * StepGrowth(a, year - 1)
             * PromotionGrowth(a, year - 1)) * RaiseFactor(a, year - 1)
  {
    ColaGrowthStep(a, year);
    StepGrowthStep(a, year);
    PromotionGrowthStep(a, year);
    Regroup(a.startingWage, RaiseFactor(a, year - 1),
      a.cola, StepFactor(a.step, year - 1), PromotionFactor(a.promotion, a.promotionYears, year - 1),
      ColaGrowth(a, year), ColaGrowth(a, year - 1),
      StepGrowth(a, year), StepGrowth(a, year - 1),
      PromotionGrowth(a, year), PromotionGrowth(a, year - 1));
  }

  /** The closed form grows by the same multiplier as the wage from one year to the next. */
  lemma ClosedWageStep(a: Assumptions, year: nat)
    requires year >= 2
    ensures ClosedWage(a, year) == ClosedWage(a, year - 1) * RaiseFactor(a, year - 1)
  {
    GrowthStep(a, year);
  }

  /** The wage loop and the closed form agree in every work year. */
  lemma {:induction false} WageClosedForm(a: Assumptions, year: nat)
    requires year >= 1
    ensures WageIn(a, year) == ClosedWage(a, year)
  {
    if year > 1 {
      calc {
        WageIn(a, year);
      == { WageStep(a, year); }
        WageIn(a, year - 1) * RaiseFactor(a, year - 1);
      == { WageClosedForm(a, year - 1); }
        ClosedWage(a, year - 1) * RaiseFactor(a, year - 1);
      == { ClosedWageStep(a, year); }
        ClosedWage(a, year);
      }
    }
  }

  /** Wages depend on the promotion list only through which years before `year` it
      contains: order, duplicates and entries outside that range are inert. */
  lemma {:induction false} WagesFollowPromotionMembership(a: Assumptions, b: Assumptions, year: nat)
    requires b == a.(promotionYears := b.promotionYears)
    requires forall y :: 1 <= y < year ==> (y in a.promotionYears <==> y in b.promotionYears)
    requires year >= 1
    ensures WageIn(a, year) == WageIn(b, year)
  {
    if year > 1 {
      WagesFollowPromotionMembership(a, b, year - 1);
    }
  }

  /** With non-negative inputs, wages are non-negative. */
  lemma {:induction false} WageNonNegative(a: Assumptions, year: nat)
    requires year >= 1
    requires a.startingWage >= 0.0 && a.cola >= 0.0 && a.step >= 0.0 && a.promotion >= 0.0
    ensures WageIn(a, year) >= 0.0
  {
    if year > 1 {
      WageNonNegative(a, year - 1);
      var w := WageIn(a, year - 1);
      assert w * a.cola >= 0.0;
      assert w * a.cola * a.step >= 0.0;
      assert w * a.cola * a.promotion >= 0.0;
      assert w * a.cola * a.step * a.promotion >= 0.0;
    }
  }

  // ---------------------------------------------------------------------------
  // Contributions and the fund during work

  /** With non-negative inputs, the pension tax paid never decreases from one work year
      to a later one. */
  lemma {:induction false} TaxPaidNonDecreasing(a: Assumptions, i: nat, j: nat)
    requires i <= j
    requires a.startingWage >= 0.0 && a.cola >= 0.0 && a.step >= 0.0 && a.promotion >= 0.0
    requires a.taxRate >= 0.0
    ensures TaxPaidAfter(a, i) <= TaxPaidAfter(a, j)
  {
    if i < j {
      TaxPaidNonDecreasing(a, i, j - 1);
      WageNonNegative(a, j);
      assert Contribution(a, j) >= 0.0;
    }
  }

  /** With a zero tax rate nothing is paid and the personal fund stays at zero for the
      whole work phase. */
  lemma {:induction false} ZeroTaxKeepsFundEmpty(a: Assumptions, n: nat)
    requires a.taxRate == 0.0
    ensures TaxPaidAfter(a, n) == 0.0 && WorkFund(a, n) == 0.0
  {
    if n > 0 {
      ZeroTaxKeepsFundEmpty(a, n - 1);
    }
  }

  /** `x` grown by the multiplier `r` for `e` years. */
  function Grown(x: real, r: real, e: nat): real
  {
    if e == 0 then x else Grown(x, r, e - 1) * r
  }

  lemma ScaleOneMore(x: real, g1: real, g0: real, p1: real, p0: real, r: real)
    requires g1 == g0 * r && g0 == x * p0 && p1 == r * p0
    ensures g1 == x * p1
  {
  }

  /** Growing for `e` years multiplies by r^e. */
  lemma {:induction false} GrownIsScaledPower(x: real, r: real, e: nat)
    ensures Grown(x, r, e) == x * Pow(r, e)
  {
    if e > 0 {
      GrownIsScaledPower(x, r, e - 1);
      ScaleOneMore(x, Grown(x, r, e), Grown(x, r, e - 1), Pow(r, e), Pow(r, e - 1), r);
    }
  }

  /** The deposits of years 1..j, each grown by the return multiplier `r` once for every
      year from its deposit up to year `n`: the sum over k of deposit(k) * r^(n - k). */
  function FutureValue(deposit: nat -> real, r: real, n: nat, j: nat): real
    requires j <= n
  {
    if j == 0 then 0.0 else FutureValue(deposit, r, n, j - 1) + Grown(deposit(j), r, n - j)
  }

  /** A sum whose two parts both grow by `r` grows by `r`. */
  lemma SumGrows(c1: real, c0: real, b1: real, b0: real, t1: real, t0: real, r: real)
    requires b1 == b0 * r && t1 == t0 * r
    requires c1 == b1 + t1 && c0 == b0 + t0
    ensures c1 == c0 * r
  {
  }

  /** One more year of growth multiplies every compounded deposit once more. */
  lemma {:induction false} FutureValueOneMoreYear(deposit: nat -> real, r: real, n: nat, j: nat)
    requires j <= n
    ensures FutureValue(deposit, r, n + 1, j) == FutureValue(deposit, r, n, j) * r
  {
    if j > 0 {
      FutureValueOneMoreYear(deposit, r, n, j - 1);
      SumGrows(FutureValue(deposit, r, n + 1, j), FutureValue(deposit, r, n, j),
        FutureValue(deposit, r, n + 1, j - 1), FutureValue(deposit, r, n, j - 1),
        Grown(deposit(j), r, n + 1 - j), Grown(deposit(j), r, n - j), r);
    }
  }

  /** The contribution of each work year, as a function of the year. */
  function Deposits(a: Assumptions): nat -> real
  {
    k => if k >= 1 then Contribution(a, k) else 0.0
  }

  /** The fund after `n` work years is the future value of all contributions:
      the sum over k of contribution_k * indexReturns^(n - k). */
  lemma {:induction false} WorkFundClosedForm(a: Assumptions, n: nat)
    ensures WorkFund(a, n) == FutureValue(Deposits(a), a.indexReturns, n, n)
  {
    if n > 0 {
      var d, r := Deposits(a), a.indexReturns;
      WorkFundClosedForm(a, n - 1);
      FutureValueOneMoreYear(d, r, n - 1, n - 1);
      assert FutureValue(d, r, n, n - 1) == FutureValue(d, r, n - 1, n - 1) * r;
      assert Grown(d(n), r, n - n) == Contribution(a, n);
    }
  }

  /** Without investment growth the fund during work is exactly the tax paid so far. */
  lemma {:induction false} FlatReturnsWorkFund(a: Assumptions, n: nat)
    requires a.indexReturns == 1.0
    ensures WorkFund(a, n) == TaxPaidAfter(a, n)
  {
    if n > 0 {
      FlatReturnsWorkFund(a, n - 1);
    }
  }

  // ---------------------------------------------------------------------------
  // Retirement

  /** The allowance is never adjusted: after `m` retirement years exactly `m` allowances
      have been redeemed. */
  lemma {:induction false} RedeemedClosedForm(a: Assumptions, m: nat)
    ensures RedeemedAfter(a, m) == m as real * a.allowance
  {
    if m > 0 {
      RedeemedClosedForm(a, m - 1);
    }
  }

  /** r + r^2 + ... + r^m */
  function GrowthSum(r: real, m: nat): real
  {
    if m == 0 then 0.0 else GrowthSum(r, m - 1) + Pow(r, m)
  }

  lemma {:induction false} GrowthSumStep(r: real, m: nat)
    requires m >= 1
    ensures GrowthSum(r, m) == (GrowthSum(r, m - 1) + 1.0) * r
  {
    if m == 1 {
      assert Pow(r, 0) == 1.0;
    } else {
      GrowthSumStep(r, m - 1);
      AddPowerTerm(GrowthSum(r, m), GrowthSum(r, m - 1), GrowthSum(r, m - 2), Pow(r, m), Pow(r, m - 1), r);
    }
  }

  lemma AddPowerTerm(s2: real, s1: real, s0: real, p2: real, p1: real, r: real)
    requires s1 == (s0 + 1.0) * r
    requires s2 == s1 + p2 && s1 == s0 + p1 && p2 == r * p1
    ensures s2 == (s1 + 1.0) * r
  {
  }

  /** The retirement balance in closed form, withdrawing before growth: the starting
      balance grown m times, less each allowance grown from its withdrawal onwards,
      balance * r^m - allowance * (r + r^2 + ... + r^m). */
  function ClosedDrawdown(a: Assumptions, balance: real, m: nat): real
  {
    balance * Pow(a.indexReturns, m) - a.allowance * GrowthSum(a.indexReturns, m)
  }

  /** One year of withdrawing then growing keeps the closed form: the balance term gains
      a factor r and the withdrawal sum gains one more term. */
  lemma WithdrawThenGrow(d1: real, d0: real, balance: real, q1: real, q0: real,
                         g1: real, g0: real, allowance: real, r: real)
    requires d0 == balance * q0 - allowance * g0
    requires d1 == balance * q1 - allowance * g1
    requires q1 == r * q0 && g1 == (g0 + 1.0) * r
    ensures d1 == (d0 - allowance) * r
  {
  }

  lemma ClosedDrawdownStep(a: Assumptions, balance: real, m: nat)
    requires m >= 1
    ensures ClosedDrawdown(a, balance, m) == (ClosedDrawdown(a, balance, m - 1) - a.allowance) * a.indexReturns
  {
    var r := a.indexReturns;
    GrowthSumStep(r, m);
    WithdrawThenGrow(ClosedDrawdown(a, balance, m), ClosedDrawdown(a, balance, m - 1), balance,
      Pow(r, m), Pow(r, m - 1), GrowthSum(r, m), GrowthSum(r, m - 1), a.allowance, r);
  }

  /** The retirement loop and the closed form agree after every retirement year. */
  lemma {:induction false} DrawdownClosedForm(a: Assumptions, balance: real, m: nat)
    ensures Drawdown(a, balance, m) == ClosedDrawdown(a, balance, m)
  {
    if m > 0 {
      DrawdownClosedForm(a, balance, m - 1);
      ClosedDrawdownStep(a, balance, m);
    }
  }

  /** Without investment growth each withdrawal simply comes off the balance. */
  lemma {:induction false} FlatReturnsDrawdown(a: Assumptions, balance: real, m: nat)
    requires a.indexReturns == 1.0
    ensures Drawdown(a, balance, m) == balance - RedeemedAfter(a, m)
  {
    if m > 0 {
      FlatReturnsDrawdown(a, balance, m - 1);
    }
  }

  /** Starting from a balance at or below zero, with a positive allowance and a positive
      return multiplier, the fund is strictly negative after every retirement year:
      nothing clamps it at zero. */
  lemma {:induction false} DrawdownStaysNegative(a: Assumptions, balance: real, m: nat)
    requires balance <= 0.0 && a.allowance > 0.0 && a.indexReturns > 0.0
    requires m >= 1
    ensures Drawdown(a, balance, m) < 0.0
  {
    var d := if m == 1 then balance else Drawdown(a, balance, m - 1);
    if m > 1 {
      DrawdownStaysNegative(a, balance, m - 1);
    }
    assert d - a.allowance < 0.0;
    assert Drawdown(a, balance, m) == (d - a.allowance) * a.indexReturns;
  }

  // ---------------------------------------------------------------------------
  // The whole projection

  /** Without investment growth the final personal fund is the tax paid less the
      pension redeemed. */
  lemma FlatReturnsProjection(a: Assumptions)
    requires a.indexReturns == 1.0
    ensures Project(a).personalFund == Project(a).pensionTaxPaid - Project(a).pensionRedeemed
  {
    FlatReturnsWorkFund(a, a.workYears);
    FlatReturnsDrawdown(a, WorkFund(a, a.workYears), a.retirementYears);
  }

  /** With a zero tax rate and a positive allowance and return multiplier, the
      projection ends with a negative personal fund. */
  lemma NegativeFundReachable(a: Assumptions)
    requires a.taxRate == 0.0 && a.allowance > 0.0 && a.indexReturns > 0.0
    requires a.retirementYears >= 1
    ensures Project(a).personalFund < 0.0
  {
    ZeroTaxKeepsFundEmpty(a, a.workYears);
    DrawdownStaysNegative(a, 0.0, a.retirementYears);
  }

  /** The `years` list has one label per simulated year: W1..W{workYears}, then
      R1..R{retirementYears}; there is no W0 entry. */
  lemma YearsAt(a: Assumptions, i: nat)
    requires i < a.workYears + a.retirementYears
    ensures |YearLabels(a)| == a.workYears + a.retirementYears
    ensures YearLabels(a)[i] ==
      if i < a.workYears then WorkLabel(i + 1) else RetirementLabel(i - a.workYears + 1)
  {
    var w := a.workYears;
    var labels := YearLabels(a);
    assert labels == WorkLabels(w) + RetirementLabels(a.retirementYears);
    if i < w {
      assert labels[i] == WorkLabels(w)[i];
    } else {
      assert labels[i] == RetirementLabels(a.retirementYears)[i - w];
    }
  }

  /** The pension list has one value per simulated year: zero in every work year and,
      in retirement year m, the total redeemed after m years. */
  lemma PensionValueAt(a: Assumptions, i: nat)
    requires i < a.workYears + a.retirementYears
    ensures |PensionValues(a)| == a.workYears + a.retirementYears
    ensures PensionValues(a)[i] ==
      if i < a.workYears then 0.0 else RedeemedAfter(a, i - a.workYears + 1)
  {
    var w := a.workYears;
    var values := PensionValues(a);
    assert values == Zeros(w) + RedeemedSeries(a, a.retirementYears);
    if i < w {
      assert values[i] == Zeros(w)[i];
    } else {
      assert values[i] == RedeemedSeries(a, a.retirementYears)[i - w];
    }
  }

  /** The personal-fund list has one balance per simulated year: the work-phase balance
      after work year k, then the balance after retirement year m, continuing from the
      balance the work phase ends with. */
  lemma PersonalValueAt(a: Assumptions, i: nat)
    requires i < a.workYears + a.retirementYears
    ensures |PersonalValues(a)| == a.workYears + a.retirementYears
    ensures PersonalValues(a)[i] ==
      if i < a.workYears then WorkFund(a, i + 1)
      else Drawdown(a, WorkFund(a, a.workYears), i - a.workYears + 1)
  {
    var w := a.workYears;
    var values := PersonalValues(a);
    assert values == WorkFundSeries(a, w) + DrawdownSeries(a, WorkFund(a, w), a.retirementYears);
    if i < w {
      assert values[i] == WorkFundSeries(a, w)[i];
    } else {
      assert values[i] == DrawdownSeries(a, WorkFund(a, w), a.retirementYears)[i - w];
    }
  }

  /** Every label is a phase letter followed by the year number within that phase:
      'W' and 1..workYears for work years, 'R' and 1..retirementYears afterwards. */
  lemma LabelsDecode(a: Assumptions, i: nat)
    requires i < a.workYears + a.retirementYears
    ensures |YearLabels(a)[i]| >= 2
    ensures YearLabels(a)[i][0] == (if i < a.workYears then 'W' else 'R')
    ensures IsDigits(YearLabels(a)[i][1..])
    ensures Value(YearLabels(a)[i][1..]) == (if i < a.workYears then i + 1 else i - a.workYears + 1)
  {
    YearsAt(a, i);
    var n := if i < a.workYears then i + 1 else i - a.workYears + 1;
    var text := YearLabels(a)[i];
    assert text[1..] == Show(n);
    ValueOfShow(n);
  }

  /** No two entries of the `years` list carry the same label. */
  lemma LabelsDistinct(a: Assumptions, i: nat, j: nat)
    requires i < j < a.workYears + a.retirementYears
    ensures YearLabels(a)[i] != YearLabels(a)[j]
  {
    LabelsDecode(a, i);
    LabelsDecode(a, j);
  }

  /** With a non-negative allowance the redeemed total never decreases. */
  lemma {:induction false} RedeemedNonDecreasing(a: Assumptions, m: nat, n: nat)
    requires a.allowance >= 0.0
    requires m <= n
    ensures RedeemedAfter(a, m) <= RedeemedAfter(a, n)
  {
    if m < n {
      RedeemedNonDecreasing(a, m, n - 1);
    }
  }

  /** With a non-negative allowance the pension list never decreases. */
  lemma PensionValuesNonDecreasing(a: Assumptions, i: nat, j: nat)
    requires a.allowance >= 0.0
    requires i <= j < a.workYears + a.retirementYears
    ensures PensionValues(a)[i] <= PensionValues(a)[j]
  {
    PensionValueAt(a, i);
    PensionValueAt(a, j);
    var w := a.workYears;
    if j >= w {
      RedeemedNonDecreasing(a, if i >= w then i - w + 1 else 0, j - w + 1);
    }
  }

  /** With a zero tax rate the projection reports no tax paid and a personal fund of
      zero in every work year. */
  lemma ZeroTaxProjection(a: Assumptions)
    requires a.taxRate == 0.0
    ensures Project(a).pensionTaxPaid == 0.0
    ensures forall i :: 0 <= i < a.workYears ==> Project(a).personalFundValues[i] == 0.0
  {
    forall i | 0 <= i < a.workYears ensures Project(a).personalFundValues[i] == 0.0 {
      PersonalValueAt(a, i);
      ZeroTaxKeepsFundEmpty(a, i + 1);
    }
    ZeroTaxKeepsFundEmpty(a, a.workYears);
  }

  /** Promotion years that are never reached before the last work year (later years,
      year 0, the last work year itself), their order and their repetitions do not
      change the projection. */
  lemma ProjectionIgnoresPromotionsOutsideCareer(a: Assumptions, promotionYears: seq<nat>)
    requires forall y :: 1 <= y < a.workYears ==> (y in a.promotionYears <==> y in promotionYears)
    ensures Project(a) == Project(a.(promotionYears := promotionYears))
  {
    var b := a.(promotionYears := promotionYears);
    forall y | 1 <= y <= a.workYears ensures WageIn(a, y) == WageIn(b, y) {
      WagesFollowPromotionMembership(a, b, y);
    }
    SameWagesSameProjection(a, b);
  }

  /** With at most two work years no step raise ever reaches a wage that is used, so the
      step multiplier does not change the projection. */
  lemma ShortCareerIgnoresStep(a: Assumptions, step: real)
    requires a.workYears <= 2
    ensures Project(a) == Project(a.(step := step))
  {
    var b := a.(step := step);
    assert WageIn(a, 2) == WageIn(b, 2);
    SameWagesSameProjection(a, b);
  }

  /** Two assumption sets that agree on everything but the wage-growth inputs and
      produce the same wages in every work year give the same projection. */
  lemma SameWagesSameProjection(a: Assumptions, b: Assumptions)
    requires b == a.(cola := b.cola, step := b.step, promotion := b.promotion, promotionYears := b.promotionYears)
    requires forall y :: 1 <= y <= a.workYears ==> WageIn(a, y) == WageIn(b, y)
    ensures Project(a) == Project(b)
  {
    SameWagesSameTaxPaid(a, b, a.workYears);
    SameWagesSameWorkFund(a, b, a.workYears);
    SameWagesSameFundSeries(a, b, a.workYears);
    SameRetirementPhase(a, b, WorkFund(a, a.workYears), a.retirementYears);
  }

  lemma {:induction false} SameWagesSameTaxPaid(a: Assumptions, b: Assumptions, n: nat)
    requires a.taxRate == b.taxRate
    requires n <= a.workYears
    requires forall y :: 1 <= y <= a.workYears ==> WageIn(a, y) == WageIn(b, y)
    ensures TaxPaidAfter(a, n) == TaxPaidAfter(b, n)
  {
    if n > 0 {
      SameWagesSameTaxPaid(a, b, n - 1);
      assert Contribution(a, n) == Contribution(b, n);
    }
  }

  lemma {:induction false} SameWagesSameWorkFund(a: Assumptions, b: Assumptions, n: nat)
    requires a.taxRate == b.taxRate && a.indexReturns == b.indexReturns
    requires n <= a.workYears
    requires forall y :: 1 <= y <= a.workYears ==> WageIn(a, y) == WageIn(b, y)
    ensures WorkFund(a, n) == WorkFund(b, n)
  {
    if n > 0 {
      SameWagesSameWorkFund(a, b, n - 1);
      assert Contribution(a, n) == Contribution(b, n);
    }
  }

  lemma {:induction false} SameWagesSameFundSeries(a: Assumptions, b: Assumptions, n: nat)
    requires a.taxRate == b.taxRate && a.indexReturns == b.indexReturns
    requires n <= a.workYears
    requires forall y :: 1 <= y <= a.workYears ==> WageIn(a, y) == WageIn(b, y)
    ensures WorkFundSeries(a, n) == WorkFundSeries(b, n)
  {
    if n > 0 {
      SameWagesSameFundSeries(a, b, n - 1);
      SameWagesSameWorkFund(a, b, n);
    }
  }

  lemma {:induction false} SameRetirementPhase(a: Assumptions, b: Assumptions, balance: real, m: nat)
    requires a.allowance == b.allowance && a.indexReturns == b.indexReturns
    ensures RedeemedAfter(a, m) == RedeemedAfter(b, m)
    ensures RedeemedSeries(a, m) == RedeemedSeries(b, m)
    ensures Drawdown(a, balance, m) == Drawdown(b, balance, m)
    ensures DrawdownSeries(a, balance, m) == DrawdownSeries(b, balance, m)
  {
    if m > 0 {
      SameRetirementPhase(a, b, balance, m - 1);
    }
  }

  /** One work year and one retirement year without investment growth: the tax paid is
      the starting wage times the tax rate, the pension redeemed is one allowance, and
      the fund ends at their difference. No raise reaches a wage that is used. */
  lemma SingleYearsFlatReturns(a: Assumptions)
    requires a.workYears == 1 && a.retirementYears == 1
    requires a.indexReturns == 1.0
    ensures Project(a).pensionTaxPaid == a.startingWage * a.taxRate
    ensures Project(a).pensionRedeemed == a.allowance
    ensures Project(a).personalFund == a.startingWage * a.taxRate - a.allowance
    ensures Project(a).years == ["W1", "R1"]
  {
    assert DigitChar(1) == '1';
    assert Show(1) == "1";
    assert WorkLabel(1) == "W1" && RetirementLabel(1) == "R1";
    assert TaxPaidAfter(a, 1) == a.startingWage * a.taxRate;
    assert WorkFund(a, 1) == a.startingWage * a.taxRate;
    assert RedeemedAfter(a, 1) == a.allowance;
    assert Drawdown(a, WorkFund(a, 1), 1) == a.startingWage * a.taxRate - a.allowance;
    assert WorkLabels(1) == ["W1"];
    assert RetirementLabels(1) == ["R1"];
  }
}
