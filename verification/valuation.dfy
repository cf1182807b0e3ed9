/**
  The valuation roll-up of the calculator's screen: reading the form, the
  five-year projection, discounting the selected cash flows and the
  terminal value, the bridge from enterprise to equity value, the implied
  share price, and the figures derived from it (upside, margin of safety,
  the inputs handed to the IRR solver, and the credit verdict).
 */
module Valuation {
  import opened Wrappers
  import opened Rates
  import opened Projections

  // ---------------------------------------------------------------- reading the form

  /** The form's numeric fields as `parseFloat` reads them (`None` for NaN),
      with the two drop-down values and the mid-year check box. */
  datatype Form = Form(
    units: Option<real>, price: Option<real>, unitGrowth: Option<real>, priceGrowth: Option<real>,
    cogsPct: Option<real>, sgaPct: Option<real>, daPct: Option<real>, taxRate: Option<real>,
    capexPct: Option<real>, nwcPct: Option<real>,
    interestExpense: Option<real>, netBorrowing: Option<real>, netDebt: Option<real>, shares: Option<real>,
    discountRate: Option<real>, marketPrice: Option<real>, tvInput: Option<real>,
    tvMethod: string, midYear: bool, modelType: string)

  /** JavaScript's `parseFloat(v) || d`: NaN and 0 both fall back to `d`. */
  function OrElse(x: Option<real>, d: real): (r: real)
    ensures x.Some? && x.value != 0.0 ==> r == x.value
    ensures x.None? || x.value == 0.0 ==> r == d
  {
    match x
    case Some(v) => if v != 0.0 then v else d
    case None => d
  }

  /** The model's inputs after coercion and unit conversion: growth and
      discount rates as fractions, cost percentages still on a 0-100 scale. */
  datatype Inputs = Inputs(
    units: real, price: real, unitGrowth: real, priceGrowth: real,
    cogsPct: real, sgaPct: real, daPct: real, taxRate: real,
    capexPct: real, nwcPct: real,
    interestExpense: real, netBorrowing: real, netDebt: real, sharesOutstanding: real,
    discountRate: real, marketPrice: real,
    tvMethod: string, tvInput: real, midYear: bool, modelType: string)

  predicate IsGrowthMethod(tvMethod: string) {
    tvMethod == "growth"
  }

  predicate IsLevered(modelType: string) {
    modelType == "levered"
  }

  /** The `inputs` object built at the top of `updateUI`. */
  function ReadInputs(f: Form): (inp: Inputs)
    ensures inp.sharesOutstanding != 0.0
    ensures f.shares.Some? && f.shares.value != 0.0 ==> inp.sharesOutstanding == f.shares.value
    ensures inp.unitGrowth * 100.0 == OrElse(f.unitGrowth, 0.0)
    ensures inp.priceGrowth * 100.0 == OrElse(f.priceGrowth, 0.0)
    ensures inp.discountRate * 100.0 == OrElse(f.discountRate, 0.0)
    ensures IsGrowthMethod(f.tvMethod) ==> inp.tvInput * 100.0 == OrElse(f.tvInput, 0.0)
    ensures !IsGrowthMethod(f.tvMethod) ==> inp.tvInput == OrElse(f.tvInput, 0.0)
    ensures inp.units == OrElse(f.units, 0.0) && inp.price == OrElse(f.price, 0.0)
    ensures inp.cogsPct == OrElse(f.cogsPct, 0.0) && inp.sgaPct == OrElse(f.sgaPct, 0.0)
    ensures inp.daPct == OrElse(f.daPct, 0.0) && inp.taxRate == OrElse(f.taxRate, 0.0)
    ensures inp.capexPct == OrElse(f.capexPct, 0.0) && inp.nwcPct == OrElse(f.nwcPct, 0.0)
    ensures inp.interestExpense == OrElse(f.interestExpense, 0.0) && inp.netBorrowing == OrElse(f.netBorrowing, 0.0)
    ensures inp.netDebt == OrElse(f.netDebt, 0.0) && inp.marketPrice == OrElse(f.marketPrice, 0.0)
    ensures inp.tvMethod == f.tvMethod && inp.modelType == f.modelType && inp.midYear == f.midYear
  {
    Inputs(
      OrElse(f.units, 0.0), OrElse(f.price, 0.0),
      OrElse(f.unitGrowth, 0.0) / 100.0, OrElse(f.priceGrowth, 0.0) / 100.0,
      OrElse(f.cogsPct, 0.0), OrElse(f.sgaPct, 0.0), OrElse(f.daPct, 0.0), OrElse(f.taxRate, 0.0),
      OrElse(f.capexPct, 0.0), OrElse(f.nwcPct, 0.0),
      OrElse(f.interestExpense, 0.0), OrElse(f.netBorrowing, 0.0), OrElse(f.netDebt, 0.0), OrElse(f.shares, 1.0),
      OrElse(f.discountRate, 0.0) / 100.0, OrElse(f.marketPrice, 0.0),
      f.tvMethod,
      if IsGrowthMethod(f.tvMethod) then OrElse(f.tvInput, 0.0) / 100.0 else OrElse(f.tvInput, 0.0),
      f.midYear, f.modelType)
  }

  /** A blank or zero share count reads as one share. */
  lemma BlankSharesReadAsOne(f: Form)
    requires f.shares.None? || f.shares == Some(0.0)
    ensures ReadInputs(f).sharesOutstanding == 1.0
  {
  }

  /** The form as it would show a given set of inputs: every number entered,
      rates and the growth-method terminal input in percent. */
  function FormOf(inp: Inputs): Form {
    Form(
      Some(inp.units), Some(inp.price), Some(inp.unitGrowth * 100.0), Some(inp.priceGrowth * 100.0),
      Some(inp.cogsPct), Some(inp.sgaPct), Some(inp.daPct), Some(inp.taxRate),
      Some(inp.capexPct), Some(inp.nwcPct),
      Some(inp.interestExpense), Some(inp.netBorrowing), Some(inp.netDebt), Some(inp.sharesOutstanding),
      Some(inp.discountRate * 100.0), Some(inp.marketPrice),
      Some(if IsGrowthMethod(inp.tvMethod) then inp.tvInput * 100.0 else inp.tvInput),
      inp.tvMethod, inp.midYear, inp.modelType)
  }

  /** Reading the form back gives the inputs it shows: a zero entry falls
      back to the default 0, which is the value it already had, and only a
      zero share count would read differently (as 1). */
  lemma FormRoundTrip(inp: Inputs)
    requires inp.sharesOutstanding != 0.0
    ensures ReadInputs(FormOf(inp)) == inp
  {
    var f := FormOf(inp);
    var r := ReadInputs(f);
    ZeroFallsBackToItself(inp.units);
    ZeroFallsBackToItself(inp.price);
    ZeroFallsBackToItself(inp.cogsPct);
    ZeroFallsBackToItself(inp.sgaPct);
    ZeroFallsBackToItself(inp.daPct);
    ZeroFallsBackToItself(inp.taxRate);
    ZeroFallsBackToItself(inp.capexPct);
    ZeroFallsBackToItself(inp.nwcPct);
    ZeroFallsBackToItself(inp.interestExpense);
    ZeroFallsBackToItself(inp.netBorrowing);
    ZeroFallsBackToItself(inp.netDebt);
    ZeroFallsBackToItself(inp.marketPrice);
    PercentReadBack(inp.unitGrowth);
    PercentReadBack(inp.priceGrowth);
    PercentReadBack(inp.discountRate);
    if IsGrowthMethod(inp.tvMethod) {
      PercentReadBack(inp.tvInput);
    } else {
      ZeroFallsBackToItself(inp.tvInput);
    }
  }

  lemma ZeroFallsBackToItself(x: real)
    ensures OrElse(Some(x), 0.0) == x
  {
  }

  lemma PercentReadBack(x: real)
    ensures OrElse(Some(x * 100.0), 0.0) / 100.0 == x
  {
  }

  // ---------------------------------------------------------------- the roll-up

  /** The projection horizon of the screen. */
  const ForecastYears: nat := 5

  function AssumptionsOf(inp: Inputs): Assumptions {
    Assumptions(ForecastYears, inp.units, inp.price, inp.unitGrowth, inp.priceGrowth,
      inp.cogsPct, inp.sgaPct, inp.daPct, inp.taxRate, inp.capexPct, inp.nwcPct,
      inp.interestExpense, inp.netBorrowing)
  }

  /** The cash flow the model values: levered free cash flow in the levered
      model and unlevered free cash flow otherwise. */
  function CashFlow(row: YearRow, modelType: string): real {
    if IsLevered(modelType) then row.lfcf else row.ufcf
  }

  /** `sumPV`: the selected cash flows, each discounted over its own year,
      added up in row order. */
  function SumPv(rows: seq<YearRow>, modelType: string, r: real, midYear: bool, root: real -> real): real
    requires 1.0 + r != 0.0
  {
    if |rows| == 0 then 0.0
    else
      var n := |rows| - 1;
      SumPv(rows[..n], modelType, r, midYear, root) + CalculatePv(CashFlow(rows[n], modelType), r, rows[n].year, midYear, root)
  }

  /** Rows numbered 1, 2, … in order, as the projection produces them. */
  predicate Numbered(rows: seq<YearRow>) {
    forall k :: 0 <= k < |rows| ==> rows[k].year == k + 1
  }

  /** The terminal value: the Gordon perpetuity of the final year's selected
      cash flow, or the final year's EBITDA times the exit multiple. */
  function TerminalValue(inp: Inputs, last: YearRow): (tv: real)
    ensures IsGrowthMethod(inp.tvMethod) && inp.discountRate <= inp.tvInput ==> tv == 0.0
    ensures IsGrowthMethod(inp.tvMethod) && inp.discountRate > inp.tvInput ==>
              tv * (inp.discountRate - inp.tvInput) == CashFlow(last, inp.modelType) * (1.0 + inp.tvInput)
    ensures !IsGrowthMethod(inp.tvMethod) && inp.tvInput != 0.0 ==> tv / inp.tvInput == last.ebitda
    ensures !IsGrowthMethod(inp.tvMethod) ==> (tv == 0.0 <==> last.ebitda == 0.0 || inp.tvInput == 0.0)
  {
    if IsGrowthMethod(inp.tvMethod) then CalculateTvGrowth(CashFlow(last, inp.modelType), inp.tvInput, inp.discountRate)
    else CalculateTvMultiple(last.ebitda, inp.tvInput)
  }

  datatype Valuation = Valuation(
    rows: seq<YearRow>, sumPv: real, terminalValue: real, pvOfTv: real,
    enterpriseValue: real, equityValue: real, sharePrice: real)

  /** The inputs the roll-up can value: a share count to divide by (always
      so after `ReadInputs`) and a discount factor `1 + r` that is not zero. */
  predicate Valid(inp: Inputs) {
    inp.sharesOutstanding != 0.0 && 1.0 + inp.discountRate != 0.0
  }

  /** An equity value spread over the share count. */
  function PerShare(equityValue: real, shares: real): (price: real)
    requires shares != 0.0
    ensures price * shares == equityValue
  {
    equityValue / shares
  }

  /** The five-year projection of the roll-up. */
  function Forecast(inp: Inputs): (rows: seq<YearRow>)
    ensures |rows| == ForecastYears
  {
    ProjectDetailedFinancials(AssumptionsOf(inp))
  }

  /** The valuation computed by `updateUI`. */
  function Valuate(inp: Inputs, root: real -> real): (v: Valuation)
    requires Valid(inp)
    ensures v.rows == Forecast(inp)
    ensures v.terminalValue == TerminalValue(inp, v.rows[ForecastYears - 1])
    ensures v.pvOfTv == CalculatePv(v.terminalValue, inp.discountRate, ForecastYears, inp.midYear, root)
    ensures v.enterpriseValue - v.equityValue == inp.netDebt
    ensures IsLevered(inp.modelType) ==> v.equityValue == v.sumPv + v.pvOfTv
    ensures !IsLevered(inp.modelType) ==> v.enterpriseValue == v.sumPv + v.pvOfTv
    ensures v.sharePrice * inp.sharesOutstanding == v.equityValue
  {
    var rows := Forecast(inp);
    var terminalValue := TerminalValue(inp, rows[ForecastYears - 1]);
    var sumPv := SumPv(rows, inp.modelType, inp.discountRate, inp.midYear, root);
    var pvOfTv := CalculatePv(terminalValue, inp.discountRate, ForecastYears, inp.midYear, root);
    RollUp(inp, rows, sumPv, terminalValue, pvOfTv)
  }

  /** The bridge from the discounted total to enterprise value, equity value
      and the price per share. */
  function RollUp(inp: Inputs, rows: seq<YearRow>, sumPv: real, terminalValue: real, pvOfTv: real): (v: Valuation)
    requires inp.sharesOutstanding != 0.0
    ensures v.rows == rows && v.sumPv == sumPv && v.terminalValue == terminalValue && v.pvOfTv == pvOfTv
    ensures v.enterpriseValue - v.equityValue == inp.netDebt
    ensures IsLevered(inp.modelType) ==> v.equityValue == sumPv + pvOfTv
    ensures !IsLevered(inp.modelType) ==> v.enterpriseValue == sumPv + pvOfTv
    ensures v.sharePrice * inp.sharesOutstanding == v.equityValue
  {
    if IsLevered(inp.modelType) then
      var equityValue := sumPv + pvOfTv;
      Valuation(rows, sumPv, terminalValue, pvOfTv, equityValue + inp.netDebt, equityValue, PerShare(equityValue, inp.sharesOutstanding))
    else
      var enterpriseValue := sumPv + pvOfTv;
      var equityValue := enterpriseValue - inp.netDebt;
      Valuation(rows, sumPv, terminalValue, pvOfTv, enterpriseValue, equityValue, PerShare(equityValue, inp.sharesOutstanding))
  }

  /** The final forecast row is year 5, so the terminal value is discounted
      over the last forecast year and not a sixth. */
  lemma TerminalDiscountedAtFinalYear(inp: Inputs, root: real -> real)
    requires Valid(inp)
    ensures Valuate(inp, root).rows[ForecastYears - 1].year == ForecastYears
  {
    RowsNumberedAndBalanced(AssumptionsOf(inp), ForecastYears - 1);
  }

  // ---------------------------------------------------------------- derived figures

  /** Upside of the implied price over the market price, 0 without a market price. */
  function Upside(sharePrice: real, marketPrice: real): (u: real)
    ensures marketPrice <= 0.0 ==> u == 0.0
    ensures marketPrice > 0.0 ==> (u + 1.0) * marketPrice == sharePrice
  {
    if marketPrice > 0.0 then (sharePrice / marketPrice) - 1.0 else 0.0
  }

  /** Margin of safety in percent: the share of the implied price the market
      price leaves uncovered, 0 when the implied price is not positive. */
  function MarginOfSafety(sharePrice: real, marketPrice: real): (m: real)
    ensures sharePrice <= 0.0 ==> m == 0.0
    ensures sharePrice > 0.0 ==> m * sharePrice == (sharePrice - marketPrice) * 100.0
  {
    if sharePrice > 0.0 then (1.0 - (marketPrice / sharePrice)) * 100.0 else 0.0
  }

  /** With both prices positive, upside and margin of safety have the same
      sign and determine each other: `mos · (1 + upside) = 100 · upside`. */
  lemma UpsideAndMarginAgree(sharePrice: real, marketPrice: real)
    requires sharePrice > 0.0 && marketPrice > 0.0
    ensures var u := Upside(sharePrice, marketPrice);
            var m := MarginOfSafety(sharePrice, marketPrice);
            && (u >= 0.0 <==> m >= 0.0)
            && m * (1.0 + u) == 100.0 * u
  {
    var u := Upside(sharePrice, marketPrice);
    var m := MarginOfSafety(sharePrice, marketPrice);
    SameSign(u, m, sharePrice, marketPrice);
    MarginTimesGrowth(u, m, sharePrice, marketPrice);
  }

  lemma SameSign(u: real, m: real, s: real, mp: real)
    requires s > 0.0 && mp > 0.0
    requires (u + 1.0) * mp == s && m * s == (s - mp) * 100.0
    ensures u >= 0.0 <==> m >= 0.0
  {
    SignOfProduct(u, mp);
    SignOfProduct(m, s);
  }

  lemma SignOfProduct(a: real, b: real)
    requires b > 0.0
    ensures a >= 0.0 <==> a * b >= 0.0
  {
    if a < 0.0 {
      assert a * b < 0.0 * b;
    }
  }

  lemma MarginTimesGrowth(u: real, m: real, s: real, mp: real)
    requires s > 0.0 && mp > 0.0
    requires (u + 1.0) * mp == s && m * s == (s - mp) * 100.0
    ensures m * (1.0 + u) == 100.0 * u
  {
    assert (m * (1.0 + u)) * mp == m * s;
    assert (100.0 * u) * mp == (s - mp) * 100.0;
  }

  /** The cash-flow series handed to the IRR solver: the same per-year
      selection as the discounted sum. */
  function IrrCashFlows(rows: seq<YearRow>, modelType: string): (cfs: seq<real>)
    ensures |cfs| == |rows|
    ensures forall k :: 0 <= k < |rows| ==> cfs[k] == CashFlow(rows[k], modelType)
  {
    seq(|rows|, k requires 0 <= k < |rows| => CashFlow(rows[k], modelType))
  }

  /** A cash-flow series discounted with year `k + 1` for its `k`-th entry. */
  function DiscountedSum(cfs: seq<real>, r: real, midYear: bool, root: real -> real): real
    requires 1.0 + r != 0.0
  {
    if |cfs| == 0 then 0.0
    else DiscountedSum(cfs[..|cfs| - 1], r, midYear, root) + CalculatePv(cfs[|cfs| - 1], r, |cfs|, midYear, root)
  }

  /** For rows numbered 1, 2, … the discounted sum over the rows' own years
      is the series discounted with year `k + 1` for entry `k`. */
  lemma {:induction false} SumPvOfNumberedRows(rows: seq<YearRow>, modelType: string, r: real, midYear: bool, root: real -> real)
    requires 1.0 + r != 0.0
    requires Numbered(rows)
    ensures SumPv(rows, modelType, r, midYear, root) == DiscountedSum(IrrCashFlows(rows, modelType), r, midYear, root)
  {
    if |rows| > 0 {
      var n := |rows| - 1;
      assert Numbered(rows[..n]);
      SumPvOfNumberedRows(rows[..n], modelType, r, midYear, root);
      assert IrrCashFlows(rows[..n], modelType) == IrrCashFlows(rows, modelType)[..n];
    }
  }

  /** The IRR solver is given the very cash flows the valuation discounts:
      discounting its series at the model's rate gives back `sumPV`. */
  lemma IrrSeriesMatchesValuation(inp: Inputs, root: real -> real)
    requires Valid(inp)
    ensures var v := Valuate(inp, root);
            DiscountedSum(IrrCashFlows(v.rows, inp.modelType), inp.discountRate, inp.midYear, root) == v.sumPv
  {
    var v := Valuate(inp, root);
    forall k | 0 <= k < |v.rows|
      ensures v.rows[k].year == k + 1
    {
      RowsNumberedAndBalanced(AssumptionsOf(inp), k);
    }
    SumPvOfNumberedRows(v.rows, inp.modelType, inp.discountRate, inp.midYear, root);
  }

  /** The value the IRR solver prices the cash flows against: the market
      capitalisation, plus net debt for the unlevered model. */
  function IrrTarget(inp: Inputs): (t: real)
    ensures IsLevered(inp.modelType) ==> t == MarketValue(inp)
    ensures !IsLevered(inp.modelType) ==> t - inp.netDebt == MarketValue(inp)
  {
    if IsLevered(inp.modelType) then MarketValue(inp) else MarketValue(inp) + inp.netDebt
  }

  function MarketValue(inp: Inputs): real {
    inp.marketPrice * inp.sharesOutstanding
  }

  /** When the market prices the shares at the implied price, the IRR
      target is exactly the discounted value of the modelled cash flows
      and terminal value. */
  lemma IrrTargetAtImpliedPrice(inp: Inputs, root: real -> real)
    requires Valid(inp) && inp.marketPrice == Valuate(inp, root).sharePrice
    ensures IrrTarget(inp) == Valuate(inp, root).sumPv + Valuate(inp, root).pvOfTv
  {
    var v := Valuate(inp, root);
    assert MarketValue(inp) == v.equityValue;
  }

  // ---------------------------------------------------------------- credit

  datatype CreditStatus = StrongCredit | CovenantWarning

  /** The screen's credit verdict: strong when interest is covered more than
      three times and leverage is below four times EBITDA. */
  function CreditStatusOf(m: CreditMetrics): (s: CreditStatus)
    ensures s == StrongCredit <==> m.interestCoverage > 3.0 && m.debtToEbitda < 4.0
  {
    if m.interestCoverage > 3.0 && m.debtToEbitda < 4.0 then StrongCredit else CovenantWarning
  }

  /** The credit metrics of the roll-up: final-year EBIT and EBITDA against
      the interest expense and the net debt. */
  function CreditOf(inp: Inputs, v: Valuation): (m: CreditMetrics)
    requires |v.rows| > 0
    ensures var last := v.rows[|v.rows| - 1];
            && (inp.interestExpense == 0.0 ==> m.interestCoverage == CoverageSentinel)
            && (inp.interestExpense != 0.0 ==> m.interestCoverage * inp.interestExpense == last.ebit)
            && (last.ebitda <= 0.0 ==> m.debtToEbitda == 0.0)
            && (last.ebitda > 0.0 ==> m.debtToEbitda * last.ebitda == inp.netDebt)
  {
    var last := v.rows[|v.rows| - 1];
    CalculateCreditMetrics(last.ebit, inp.interestExpense, inp.netDebt, last.ebitda)
  }

  /** The verdict in terms of the underlying figures: each test passes either
      on its sentinel (no interest, no positive EBITDA) or on the ratio itself. */
  lemma CreditStatusInTermsOfFigures(ebit: real, interest: real, debt: real, ebitda: real)
    ensures CreditStatusOf(CalculateCreditMetrics(ebit, interest, debt, ebitda)) == StrongCredit
        <==> (interest == 0.0 || ebit / interest > 3.0) && (ebitda <= 0.0 || debt < 4.0 * ebitda)
  {
    var m := CalculateCreditMetrics(ebit, interest, debt, ebitda);
    if interest != 0.0 {
      assert m.interestCoverage == ebit / interest;
    }
    if ebitda > 0.0 {
      LeverageBelow(m.debtToEbitda, debt, ebitda);
    }
  }

  /** The verdict the screen shows: strong exactly when the final forecast
      year covers the interest expense more than three times (or there is
      none) and net debt is below four times that year's EBITDA (or EBITDA
      is not positive). */
  lemma RollUpCreditStatus(inp: Inputs, root: real -> real)
    requires Valid(inp)
    ensures var last := Forecast(inp)[ForecastYears - 1];
            (CreditStatusOf(CreditOf(inp, Valuate(inp, root))) == StrongCredit
             <==> (inp.interestExpense == 0.0 || last.ebit / inp.interestExpense > 3.0)
                  && (last.ebitda <= 0.0 || inp.netDebt < 4.0 * last.ebitda))
  {
    var last := Forecast(inp)[ForecastYears - 1];
    assert CreditOf(inp, Valuate(inp, root)) == CalculateCreditMetrics(last.ebit, inp.interestExpense, inp.netDebt, last.ebitda);
    CreditStatusInTermsOfFigures(last.ebit, inp.interestExpense, inp.netDebt, last.ebitda);
  }

  lemma LeverageBelow(ratio: real, debt: real, ebitda: real)
    requires ebitda > 0.0 && ratio * ebitda == debt
    ensures ratio < 4.0 <==> debt < 4.0 * ebitda
  {
    assert debt - 4.0 * ebitda == (ratio - 4.0) * ebitda;
  }

  /** The sentinels pass both tests: a business with no interest expense and
      no positive EBITDA is reported as a strong credit. */
  lemma SentinelsReadAsStrong(ebit: real, debt: real, ebitda: real)
    requires ebitda <= 0.0
    ensures CreditStatusOf(CalculateCreditMetrics(ebit, 0.0, debt, ebitda)) == StrongCredit
  {
  }
}
