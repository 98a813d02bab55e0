# Pension calculator: retirement projection

The pension calculator compares a traditional pension with a personal retirement fund. The
user enters wage-growth assumptions, a pension tax rate, a pension allowance and an index
return rate, plus a comma-separated list of promotion years. The engine then runs a
year-by-year projection in two phases:

- **Work phase** (`W1 … W{work_years}`). Each year a share of the current wage is charged
  as pension tax. The same amount is deposited into the personal fund after the fund has
  grown by the return multiplier. The wage is then raised by the COLA multiplier. It also
  gets the step multiplier after work years 2 to 5, and the promotion multiplier after
  each listed year.
- **Retirement phase** (`R1 … R{retirement_years}`). Each year the constant allowance is
  added to the redeemed total. The same amount is withdrawn from the personal fund before
  the fund grows.

There are three tracking lists: the year labels, the redeemed pension per year (zero while
working), and the personal-fund balance per year.

The project has four modules:

- `Decimal` (`decimal.dfy`) covers ASCII digit strings. It models `str.isdigit()`,
  and the plain base-10 numeral and rendering behind `int(...)` and `f"{n}"`. They
  carry no digit limit; the limit of `int()` enters only through the parser's overlong
  pieces.
- `PromotionYears` (`promotion_years.dfy`) models the promotion-year comprehension:
  `split(",")`, `strip()`, the `isdigit()` filter and `int()`.
- `Simulation` (`simulation.dfy`) holds the assumptions and the projection as datatypes.
  It defines recursive specification functions for every accumulator and list, and the
  two loops as methods (`WorkPhase`, `RetirementPhase`, `Simulate`). Their loop
  invariants tie each loop variable to those functions.
- `ProjectionProperties` (`projection_properties.dfy`) proves what the projection
  promises: closed forms, monotonicity, which inputs cannot matter, and the shape of the
  tracking lists.

Money and rate multipliers are `real`. Numbers of years are `nat`. The percentages are
taken as already converted: `x / 100 + 1` for the multipliers, and `x / 100` for the tax
rate.

The code behaves as follows, and the model follows it:

- **No baseline year.** There is no `W0` entry; the lists start at `W1` and have
  `work_years + retirement_years` entries.
- **No COLA in retirement.** The allowance is never escalated, so after `m` retirement
  years exactly `m` allowances have been redeemed.
- **Withdrawal before growth.** The retirement balance becomes
  `(balance - allowance) * rate`.
- **Fixed step window.** The step window is `2 <= work_year <= 5`.
- **Promotion edge cases.** A promotion raise applies to the following year's wage. A
  promotion listed in the last work year, or in no work year, changes nothing.

## Model

| member | source | states |
|---|---|---|
| Decimal.IsDigits | pension_calculator.py:112 | `str.isdigit()` on ASCII text: the string is non-empty and every character is '0'–'9' (so signs, points and inner spaces are refused) |
| Decimal.Value | pension_calculator.py:112 | the value of a digit string read as a base-10 numeral (what `int(s)` returns within its digit limit), leading zeros allowed; an n-digit string denotes a number below 10^n |
| Decimal.Show | pension_calculator.py:132 | the rendering of a year number is a non-empty digit string, and only 0 renders with a leading '0' |
| Decimal.ValueOfShow | pension_calculator.py:132 | reading the decimal rendering of n back as a numeral gives n |
| Decimal.ShowInjective | pension_calculator.py:147 | distinct numbers render to distinct strings |
| Decimal.LeadingZeroIgnored | pension_calculator.py:112 | `Value("0" + s) == Value(s)`: `int()` ignores a leading zero (within its digit limit) |
| PromotionYears.Split | pension_calculator.py:112 | `split(",")` returns at least one piece, and no piece contains the separator |
| PromotionYears.JoinSplit | pension_calculator.py:112 | joining the pieces of a split with the separator gives back the text |
| PromotionYears.SplitJoin | pension_calculator.py:112 | splitting a join of separator-free pieces gives back the pieces |
| PromotionYears.IsSpace | pension_calculator.py:112 | the ASCII characters `strip()` removes: tab through carriage return, 0x1C–0x1F, and space |
| PromotionYears.Strip | pension_calculator.py:112 | `strip()` returns the middle part of the piece: it neither starts nor ends with whitespace, and everything removed is whitespace |
| PromotionYears.StripUnpadded | pension_calculator.py:112 | text with no whitespace at either end is left unchanged |
| PromotionYears.StripIdempotent | pension_calculator.py:112 | stripping twice is the same as stripping once |
| PromotionYears.IsYearToken | pension_calculator.py:112 | the filter `y.strip().isdigit()`: the stripped piece is a non-empty digit string |
| PromotionYears.Overlong | pension_calculator.py:112-114 | a piece passes the filter but its stripped digits, leading zeros included, exceed the 4300 digits `int()` accepts, so `int()` raises |
| PromotionYears.TokenYears | pension_calculator.py:112 | each piece contributes at most one year |
| PromotionYears.ParseTokens | pension_calculator.py:112 | the comprehension yields at most one year per piece |
| PromotionYears.ParsePromotionYears | pension_calculator.py:111-114 | if some stripped digit piece has more than 4300 digits, `int()` raises and the `except` leaves the list empty; otherwise a year is in the list exactly when some comma-separated piece, once stripped, is a non-empty digit string with that value |
| PromotionYears.HasOverlong | pension_calculator.py:112-114 | some piece passes the `isdigit()` filter but has more digits than `int()` accepts (CPython's default limit of 4300), so the comprehension raises |
| PromotionYears.OverlongAppend | pension_calculator.py:112-114 | a list of pieces joined from two parts holds a piece that makes `int()` raise exactly when one of the parts does |
| PromotionYears.ParseTokensAppend | pension_calculator.py:112 | input order is kept: parsing concatenated pieces gives the concatenated results |
| PromotionYears.ParseOneToken | pension_calculator.py:112 | a piece yields `[int(piece.strip())]` when the stripped piece is all digits; otherwise (empty, "x", "-3", "1.5") it yields nothing |
| PromotionYears.ParseTokensMember | pension_calculator.py:112 | a value is in the result exactly when some piece spells it (both directions) |
| PromotionYears.ParseTokensMembers | pension_calculator.py:112 | the same membership fact for every value at once |
| PromotionYears.ParseSinglePiece | pension_calculator.py:111-114 | text without a comma parses to `[]` when its one piece is overlong, and otherwise to `[int(text.strip())]` or `[]` as the filter decides |
| PromotionYears.ParseAcrossComma | pension_calculator.py:111-114 | for ASCII `x` and `y`, parsing `x + "," + y` gives the years of `x` followed by the years of `y` (duplicates kept), unless either side holds a piece that makes `int()` raise, in which case the result is empty |
| PromotionYears.RenderParseRoundTrip | pension_calculator.py:111-114 | writing a list of years in decimal (limit-free rendering) with commas and parsing it back gives the same list, in order and with duplicates, when every year has at most 4300 digits; one longer year makes the parse fall back to the empty list |
| Simulation.InStepWindow | pension_calculator.py:137-138 | the step raise applies after work years 2 to 5 inclusive |
| Simulation.NextWage | pension_calculator.py:136-140 | the wage for the next year: times the COLA multiplier, then times the step multiplier inside the window, then times the promotion multiplier when the year is listed |
| Simulation.WageIn | pension_calculator.py:120-140 | the wage earned in work year y: the starting wage in year 1, then each year's raise applied to the previous year's wage |
| Simulation.Contribution | pension_calculator.py:129-130 | the pension tax charged in work year y, `wage × tax_rate`, which is also that year's deposit into the personal fund |
| Simulation.TaxPaidAfter | pension_calculator.py:129 | `pension_tax_paid` after n work years: the sum of the first n contributions |
| Simulation.WorkFund | pension_calculator.py:130 | the personal fund after n work years: each year the previous balance times the return multiplier, plus that year's contribution |
| Simulation.RedeemedAfter | pension_calculator.py:144 | `pension_redeemed` after m retirement years: the allowance added once per year |
| Simulation.Drawdown | pension_calculator.py:145 | the personal fund m retirement years after a given balance: each year the allowance is withdrawn, then the return multiplier applied; nothing stops it going negative |
| Simulation.YearLabels | pension_calculator.py:132-147 | the `years` list: the work labels followed by the retirement labels, one per year of both phases |
| Simulation.PensionValues | pension_calculator.py:133-148 | the `pension_fund_values` list: zeros while working, then the redeemed totals, one per year of both phases |
| Simulation.PersonalValues | pension_calculator.py:134-149 | the `personal_fund_values` list: the work-phase balances, then the retirement balances continuing from the balance at retirement, one per year of both phases |
| Simulation.Project | pension_calculator.py:116-149 | what the projection leaves: tax paid after all work years, redeemed after all retirement years, the final balance, and three tracking lists of `work_years + retirement_years` entries each |
| Simulation.WorkLabel | pension_calculator.py:132 | `f"W{work_year}"`: the letter W followed by the decimal rendering of the year |
| Simulation.RetirementLabel | pension_calculator.py:147 | `f"R{ret_year}"`: the letter R followed by the decimal rendering of the year |
| Simulation.WorkLabels | pension_calculator.py:132 | the work phase appends `W1 … Wn`, one label per year |
| Simulation.Zeros | pension_calculator.py:133 | the work phase appends a 0 pension value for each year |
| Simulation.WorkFundSeries | pension_calculator.py:134 | the k-th fund value appended while working is the fund after work year k |
| Simulation.RetirementLabels | pension_calculator.py:147 | the retirement phase appends `R1 … Rm` |
| Simulation.RedeemedSeries | pension_calculator.py:148 | the k-th pension value appended in retirement is the total redeemed after k years |
| Simulation.DrawdownSeries | pension_calculator.py:149 | the k-th fund value appended in retirement is the balance after k retirement years |
| Simulation.WorkPhase | pension_calculator.py:127-140 | the work loop ends with the tax paid, the fund, and the three lists the specification functions give for `work_years` years |
| Simulation.RetirementPhase | pension_calculator.py:142-149 | the retirement loop ends with the redeemed total and the balance after `retirement_years` years; the lists it received gain exactly the retirement entries |
| Simulation.Simulate | pension_calculator.py:116-149 | the whole projection equals `Project(a)`; the tax paid is fixed by the work phase alone |
| ProjectionProperties.StepRaisesBeforeValue | pension_calculator.py:137-138 | no step raise reaches work years 1 and 2; year y gets y − 2 raises up to year 6; later years get exactly 4, whatever the career length |
| ProjectionProperties.NextWageFactors | pension_calculator.py:136-140 | one year's raise multiplies the wage by COLA × (step inside the window, else 1) × (promotion in a listed year, else 1) |
| ProjectionProperties.WageStep | pension_calculator.py:136-140 | each work year's wage is the previous wage times that year's raise factor |
| ProjectionProperties.ClosedWageStep | pension_calculator.py:136-140 | the closed-form wage grows by the same factor as the loop's wage |
| ProjectionProperties.WageClosedForm | pension_calculator.py:136-140 | the wage in work year y is `starting_wage × cola^(y−1) × step^(raises in the window before y) × promotion^(listed years before y)` |
| ProjectionProperties.WagesFollowPromotionMembership | pension_calculator.py:139-140 | wages depend on the promotion list only through which earlier years it contains; order and duplicates are inert |
| ProjectionProperties.WageNonNegative | pension_calculator.py:136-140 | with a non-negative starting wage and multipliers, every wage is non-negative |
| ProjectionProperties.TaxPaidNonDecreasing | pension_calculator.py:129 | with non-negative inputs, the tax paid never decreases from one work year to a later one |
| ProjectionProperties.ZeroTaxKeepsFundEmpty | pension_calculator.py:128-130 | with a zero tax rate, the tax paid and the fund stay at 0 through the whole work phase |
| ProjectionProperties.GrownIsScaledPower | pension_calculator.py:130 | growing x for e years at rate r gives x × r^e |
| ProjectionProperties.FutureValueOneMoreYear | pension_calculator.py:130 | one more year of growth multiplies the compounded sum of deposits by the rate |
| ProjectionProperties.WorkFundClosedForm | pension_calculator.py:128-130 | the fund after n work years is Σ_k contribution_k × rate^(n−k) |
| ProjectionProperties.FlatReturnsWorkFund | pension_calculator.py:129-130 | with a return multiplier of 1, the work-phase fund equals the tax paid so far |
| ProjectionProperties.RedeemedClosedForm | pension_calculator.py:143-144 | after m retirement years, `pension_redeemed == m × retirement_allowance` |
| ProjectionProperties.GrowthSumStep | pension_calculator.py:145 | `r + … + r^m == (r + … + r^(m−1) + 1) × r` |
| ProjectionProperties.ClosedDrawdownStep | pension_calculator.py:145 | the closed-form balance follows the withdraw-then-grow recurrence |
| ProjectionProperties.DrawdownClosedForm | pension_calculator.py:145 | after m retirement years the balance is `balance × r^m − allowance × (r + r^2 + … + r^m)` |
| ProjectionProperties.FlatReturnsDrawdown | pension_calculator.py:144-145 | with a return multiplier of 1, the balance falls by exactly the amount redeemed |
| ProjectionProperties.DrawdownStaysNegative | pension_calculator.py:145 | from a balance ≤ 0, with a positive allowance and positive rate, the balance is < 0 after every retirement year: nothing clamps it |
| ProjectionProperties.FlatReturnsProjection | pension_calculator.py:116-149 | with a return multiplier of 1, the final fund is the tax paid minus the pension redeemed |
| ProjectionProperties.NegativeFundReachable | pension_calculator.py:116-149 | with a zero tax rate, a positive allowance, a positive return multiplier and at least one retirement year, the projection ends with a negative fund |
| ProjectionProperties.YearsAt | pension_calculator.py:132-147 | `years` has `work_years + retirement_years` entries: exactly `W1 … W{work_years}`, then `R1 … R{retirement_years}`, with no `W0` |
| ProjectionProperties.PensionValueAt | pension_calculator.py:133-148 | the pension list has one entry per year: 0 in every work year, then the total redeemed after m retirement years (m allowances, by RedeemedClosedForm) |
| ProjectionProperties.PersonalValueAt | pension_calculator.py:134-149 | the fund list has one entry per year: the work-phase balance after each work year, then the retirement balance continuing from the balance at retirement |
| ProjectionProperties.LabelsDecode | pension_calculator.py:132-147 | every label is 'W' or 'R' followed by a digit string whose value is the year within that phase |
| ProjectionProperties.LabelsDistinct | pension_calculator.py:132-147 | no two entries of `years` are equal |
| ProjectionProperties.RedeemedNonDecreasing | pension_calculator.py:144 | with a non-negative allowance, the redeemed total never decreases |
| ProjectionProperties.PensionValuesNonDecreasing | pension_calculator.py:133-148 | with a non-negative allowance, the pension list is non-decreasing over all years |
| ProjectionProperties.ZeroTaxProjection | pension_calculator.py:129-134 | with a zero tax rate, no tax is paid and the fund list is 0 at every work-phase index |
| ProjectionProperties.ProjectionIgnoresPromotionsOutsideCareer | pension_calculator.py:139-140 | listing or unlisting year 0, the last work year, or later years, and reordering or repeating entries, leaves the whole projection unchanged |
| ProjectionProperties.ShortCareerIgnoresStep | pension_calculator.py:137-138 | with at most two work years, the step multiplier does not change the projection |
| ProjectionProperties.SameWagesSameProjection | pension_calculator.py:116-149 | two assumption sets with the same wages (and the same other inputs) give the same projection |
| ProjectionProperties.SameWagesSameTaxPaid | pension_calculator.py:129 | equal wages and tax rate give equal tax paid |
| ProjectionProperties.SameWagesSameWorkFund | pension_calculator.py:130 | equal wages, tax rate and return rate give equal work-phase funds |
| ProjectionProperties.SameWagesSameFundSeries | pension_calculator.py:134 | …and equal work-phase fund lists |
| ProjectionProperties.SameRetirementPhase | pension_calculator.py:143-149 | the retirement phase depends only on the allowance, the return rate and the starting balance |
| ProjectionProperties.SingleYearsFlatReturns | pension_calculator.py:116-149 | one work year and one retirement year with no growth: tax paid is `starting_wage × tax_rate`, redeemed is one allowance, the fund ends at their difference, and `years == ["W1", "R1"]` |

## Left out

- The Streamlit interface is not part of this model: the title, expanders, form widgets,
  columns, the submit button and the `submitted` branching (pension_calculator.py:1-107,
  152-156, 177-188). It is presentation and input.
- The percent-to-multiplier conversion inside the number inputs (pension_calculator.py:28-54)
  is not modelled. The model takes the resulting multipliers and the tax fraction as
  inputs. The widgets' bounds (1 to 60 years) are not enforced; the model accepts any
  number of years, including 0, for which a loop does not run.
- Plotting and tick-label selection (pension_calculator.py:159-174) are presentation.
- Currency formatting and rounding of the summary metrics (pension_calculator.py:154-156)
  are presentation.
- IEEE floating-point rounding is not modelled: money and multipliers are exact reals.
- The promotion-year parser is stated for ASCII text only. The non-ASCII digits that
  `isdigit()` accepts and `int()` rejects, which would also reach the bare `except`
  (pension_calculator.py:113-114), are outside the model.
- Decimal.Show: the rendering has no digit limit, whereas CPython's `f"{n}"` raises for
  `n` of more than 4300 digits. The labels `f"W{work_year}"` and `f"R{ret_year}"` never
  come near it, and the parser round trip is stated for this limit-free rendering.
- The digit limit of `int()` is fixed at CPython's default of 4300 digits. A limit changed
  with `sys.set_int_max_str_digits` or `PYTHONINTMAXSTRDIGITS` is not modelled, nor are
  older Python releases that have no limit and never fall back to the empty list.
- Unicode whitespace beyond ASCII is not modelled. `strip()` is modelled on the ASCII
  whitespace characters (tab through carriage return, 0x1C–0x1F, space).
