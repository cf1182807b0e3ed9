/**
  The two compounding projections of `DCFLite`: the plain free-cash-flow
  series `projectFCF`, and `projectDetailedFinancials`, which grows units and
  price every year and runs each year's revenue through the income statement
  and the unlevered and levered free-cash-flow bridges.
 */
module Projections {
  import opened Rates

  // ---------------------------------------------------------------- projectFCF

  datatype FcfYear = FcfYear(year: nat, fcf: real)

  /** `DCFLite.projectFCF`: year `i` carries the current cash flow compounded
      `i` times at the growth rate, for `i` from 1 to `years`. */
  method ProjectFcf(currentFcf: real, growthRate: real, years: int) returns (projections: seq<FcfYear>)
    ensures |projections| == if years > 0 then years else 0
    ensures forall k :: 0 <= k < |projections| ==>
              projections[k] == FcfYear(k + 1, currentFcf * Pow(1.0 + growthRate, k + 1))
  {
    projections := [];
    var runningFcf := currentFcf;
    var i := 1;
    while i <= years
      invariant 1 <= i <= (if years > 0 then years else 0) + 1
      invariant |projections| == i - 1
      invariant runningFcf == currentFcf * Pow(1.0 + growthRate, i - 1)
      invariant forall k :: 0 <= k < |projections| ==>
                  projections[k] == FcfYear(k + 1, currentFcf * Pow(1.0 + growthRate, k + 1))
    {
      runningFcf := runningFcf * (1.0 + growthRate);
      projections := projections + [FcfYear(i, runningFcf)];
      i := i + 1;
    }
  }

  // ---------------------------------------------------------------- projectDetailedFinancials

  /** The parameters of `projectDetailedFinancials`. Growth rates are
      fractions; the cost, tax, capital-expenditure and working-capital
      percentages are on a 0-100 scale. */
  datatype Assumptions = Assumptions(
    years: int,
    units: real, price: real, unitGrowth: real, priceGrowth: real,
    cogsPct: real, sgaPct: real, daPct: real, taxRate: real,
    capexPct: real, nwcPct: real,
    interestExpense: real, netBorrowing: real)

  /** One projected year of the income statement and both cash-flow bridges. */
  datatype YearRow = YearRow(
    year: nat, revenue: real, cogs: real, grossProfit: real, sga: real,
    ebitda: real, ebit: real, taxes: real, nopat: real,
    da: real, capex: real, deltaNwc: real, ufcf: real,
    netIncome: real, lfcf: real)

  /** The accounting identities every projected row satisfies. */
  predicate Balanced(row: YearRow, netBorrowing: real) {
    && row.grossProfit == row.revenue - row.cogs
    && row.ebitda == row.grossProfit - row.sga
    && row.ebit == row.ebitda - row.da
    && row.nopat == row.ebit - row.taxes
    && row.ufcf == row.nopat + row.da - row.capex - row.deltaNwc
    && row.lfcf == row.netIncome + row.da - row.capex - row.deltaNwc + netBorrowing
  }

  /** A percentage of an amount, the percentage on a 0-100 scale. */
  function PercentOf(amount: real, pct: real): (r: real)
    ensures r * 100.0 == amount * pct
  {
    amount * (pct / 100.0)
  }

  /** The body of the projection loop for year `year`, given that year's
      revenue and the revenue of the year before. */
  function BridgeRow(p: Assumptions, year: nat, revenue: real, prevRevenue: real): (row: YearRow)
    ensures row.year == year && row.revenue == revenue
    ensures Balanced(row, p.netBorrowing)
    ensures row.cogs * 100.0 == revenue * p.cogsPct && row.sga * 100.0 == revenue * p.sgaPct
    ensures row.da * 100.0 == revenue * p.daPct && row.capex * 100.0 == revenue * p.capexPct
    ensures row.taxes * 100.0 == row.ebit * p.taxRate
    ensures row.deltaNwc * 100.0 == (revenue - prevRevenue) * p.nwcPct
    ensures row.netIncome == (row.ebit - p.interestExpense) - Max(0.0, PercentOf(row.ebit - p.interestExpense, p.taxRate))
    ensures row.netIncome <= row.ebit - p.interestExpense
  {
    var cogs := PercentOf(revenue, p.cogsPct);
    var grossProfit := revenue - cogs;
    var sga := PercentOf(revenue, p.sgaPct);
    var ebitda := grossProfit - sga;
    var da := PercentOf(revenue, p.daPct);
    var ebit := ebitda - da;
    var taxes := PercentOf(ebit, p.taxRate);
    var nopat := ebit - taxes;
    var capex := PercentOf(revenue, p.capexPct);
    var deltaNwc := PercentOf(revenue - prevRevenue, p.nwcPct);
    var ufcf := nopat + da - capex - deltaNwc;
    var ebt := ebit - p.interestExpense;
    var leveredTaxes := Max(0.0, PercentOf(ebt, p.taxRate));
    var netIncome := ebt - leveredTaxes;
    var lfcf := netIncome + da - capex - deltaNwc + p.netBorrowing;
    YearRow(year, revenue, cogs, grossProfit, sga, ebitda, ebit, taxes, nopat, da, capex, deltaNwc, ufcf, netIncome, lfcf)
  }

  /** EBIT is what the cost percentages leave of revenue. */
  lemma BridgeRatios(p: Assumptions, year: nat, revenue: real, prevRevenue: real)
    ensures BridgeRow(p, year, revenue, prevRevenue).ebit * 100.0 == revenue * (100.0 - p.cogsPct - p.sgaPct - p.daPct)
  {
  }

  /** Revenue is units sold times price per unit. */
  function Revenue(units: real, price: real): real {
    units * price
  }

  /** The number of rows a projection starting at year `i` produces. */
  function RowsFrom(years: int, i: nat): nat {
    if years >= i then years - i + 1 else 0
  }

  /** What one turn of the projection loop feeds into the bridge: the year,
      its revenue, and the revenue of the year before. */
  datatype YearDrivers = YearDrivers(year: nat, revenue: real, prevRevenue: real)

  /** The growth half of the projection loop from year `i` on, given the
      units and price of year `i - 1` (whose product is that year's revenue). */
  function DriversFrom(p: Assumptions, i: nat, units: real, price: real): (ds: seq<YearDrivers>)
    requires i >= 1
    ensures |ds| == RowsFrom(p.years, i)
    decreases RowsFrom(p.years, i)
  {
    if i > p.years then []
    else
      var nextUnits := Grow(units, p.unitGrowth);
      var nextPrice := Grow(price, p.priceGrowth);
      [YearDrivers(i, Revenue(nextUnits, nextPrice), Revenue(units, price))] + DriversFrom(p, i + 1, nextUnits, nextPrice)
  }

  /** `DCFLite.projectDetailedFinancials`: one row per year `1..years`, in
      order. Year `n` books the revenue of units and price each grown `n`
      times, and its working-capital change is measured against year
      `n - 1`, the first year against the ungrown revenue `units * price`. */
  function ProjectDetailedFinancials(p: Assumptions): (rows: seq<YearRow>)
    ensures |rows| == if p.years > 0 then p.years else 0
    ensures forall k :: 0 <= k < |rows| ==> rows[k] == BridgeRow(p, k + 1, RevenueAt(p, k + 1), RevenueAt(p, k))
  {
    var ds := DriversFrom(p, 1, p.units, p.price);
    DriversFromStart(p);
    seq(|ds|, k requires 0 <= k < |ds| => BridgeRow(p, ds[k].year, ds[k].revenue, ds[k].prevRevenue))
  }

  /** Units after `n` years of growth. */
  function UnitsAt(p: Assumptions, n: nat): real {
    p.units * Pow(1.0 + p.unitGrowth, n)
  }

  /** Price after `n` years of growth. */
  function PriceAt(p: Assumptions, n: nat): real {
    p.price * Pow(1.0 + p.priceGrowth, n)
  }

  /** Revenue after `n` years: units and price each compounded `n` times. */
  function RevenueAt(p: Assumptions, n: nat): real {
    Revenue(UnitsAt(p, n), PriceAt(p, n))
  }

  /** Revenue grows by both growth factors every year. */
  lemma RevenueRecurrence(p: Assumptions, n: nat)
    ensures RevenueAt(p, n + 1) == RevenueAt(p, n) * (1.0 + p.unitGrowth) * (1.0 + p.priceGrowth)
  {
  }

  /** One more year of growth moves units and price to the next year's values. */
  lemma GrowthStep(p: Assumptions, n: nat)
    requires n >= 1
    ensures Grow(UnitsAt(p, n - 1), p.unitGrowth) == UnitsAt(p, n)
    ensures Grow(PriceAt(p, n - 1), p.priceGrowth) == PriceAt(p, n)
  {
  }

  lemma DriversStep(p: Assumptions, i: nat, units: real, price: real)
    requires 1 <= i <= p.years
    ensures DriversFrom(p, i, units, price)
         == [YearDrivers(i, Revenue(Grow(units, p.unitGrowth), Grow(price, p.priceGrowth)), Revenue(units, price))]
            + DriversFrom(p, i + 1, Grow(units, p.unitGrowth), Grow(price, p.priceGrowth))
  {
  }

  /** Started from the units and price of year `i - 1`, the growth loop
      produces the closed-form revenues. */
  lemma {:induction false} DriversClosedForm(p: Assumptions, i: nat, k: nat)
    requires i >= 1 && k < RowsFrom(p.years, i)
    ensures DriversFrom(p, i, UnitsAt(p, i - 1), PriceAt(p, i - 1))[k]
         == YearDrivers(i + k, RevenueAt(p, i + k), RevenueAt(p, i + k - 1))
    decreases k
  {
    GrowthStep(p, i);
    DriversStep(p, i, UnitsAt(p, i - 1), PriceAt(p, i - 1));
    if k > 0 {
      DriversClosedForm(p, i + 1, k - 1);
    }
  }

  lemma DriversFromStart(p: Assumptions)
    ensures forall k :: 0 <= k < RowsFrom(p.years, 1) ==>
              DriversFrom(p, 1, p.units, p.price)[k] == YearDrivers(k + 1, RevenueAt(p, k + 1), RevenueAt(p, k))
  {
    assert UnitsAt(p, 0) == p.units && PriceAt(p, 0) == p.price;
    forall k | 0 <= k < RowsFrom(p.years, 1)
      ensures DriversFrom(p, 1, p.units, p.price)[k] == YearDrivers(k + 1, RevenueAt(p, k + 1), RevenueAt(p, k))
    {
      DriversClosedForm(p, 1, k);
    }
  }

  /** Rows are numbered 1, 2, ... in order and each satisfies the accounting identities. */
  lemma RowsNumberedAndBalanced(p: Assumptions, k: nat)
    requires k < |ProjectDetailedFinancials(p)|
    ensures ProjectDetailedFinancials(p)[k].year == k + 1
    ensures Balanced(ProjectDetailedFinancials(p)[k], p.netBorrowing)
  {
    var row := BridgeRow(p, k + 1, RevenueAt(p, k + 1), RevenueAt(p, k));
    assert ProjectDetailedFinancials(p)[k] == row;
  }

  /** 100 units at 10, growing 5% in volume and 2% in price, sell 1071 in the first year. */
  lemma FirstYearRevenueExample(p: Assumptions)
    requires p.years >= 1 && p.units == 100.0 && p.price == 10.0 && p.unitGrowth == 0.05 && p.priceGrowth == 0.02
    ensures ProjectDetailedFinancials(p)[0].revenue == 1071.0
  {
  }

  /** Without unit or price growth revenue is flat, so working capital never changes. */
  lemma NoGrowthNoWorkingCapital(p: Assumptions, k: nat)
    requires p.unitGrowth == 0.0 && p.priceGrowth == 0.0
    requires k < |ProjectDetailedFinancials(p)|
    ensures ProjectDetailedFinancials(p)[k].deltaNwc == 0.0
  {
    PowOfOne(k);
    PowOfOne(k + 1);
    assert RevenueAt(p, k + 1) == RevenueAt(p, k);
    var row := BridgeRow(p, k + 1, RevenueAt(p, k + 1), RevenueAt(p, k));
    assert ProjectDetailedFinancials(p)[k] == row;
  }

  /** Unlevered free cash flow as a margin on revenue: after-tax operating
      margin plus D&A less capital expenditure, less the working-capital
      share of the revenue change. */
  lemma UfcfMargin(p: Assumptions, year: nat, revenue: real, prevRevenue: real)
    ensures var row := BridgeRow(p, year, revenue, prevRevenue);
            row.ufcf * 10000.0
            == revenue * (100.0 - p.cogsPct - p.sgaPct - p.daPct) * (100.0 - p.taxRate)
             + revenue * (p.daPct - p.capexPct) * 100.0
             - (revenue - prevRevenue) * p.nwcPct * 100.0
  {
    var row := BridgeRow(p, year, revenue, prevRevenue);
    assert row.taxes * 100.0 == row.ebit * p.taxRate;
    assert row.nopat * 10000.0 == revenue * (100.0 - p.cogsPct - p.sgaPct - p.daPct) * (100.0 - p.taxRate);
  }

  /** The two cash flows differ only by financing: after-interest, floor-taxed
      net income in place of NOPAT, plus net borrowing. */
  lemma LeveredVersusUnlevered(p: Assumptions, year: nat, revenue: real, prevRevenue: real)
    ensures var row := BridgeRow(p, year, revenue, prevRevenue);
            row.lfcf - row.ufcf == row.netIncome - row.nopat + p.netBorrowing
  {
  }

  /** Levered taxes are never negative, while the unlevered tax line is: an
      operating loss at a positive tax rate books a tax credit. */
  lemma UnleveredTaxCanBeNegative(p: Assumptions, year: nat, revenue: real, prevRevenue: real)
    requires p.taxRate > 0.0
    ensures var row := BridgeRow(p, year, revenue, prevRevenue);
            && (row.ebit < 0.0 ==> row.taxes < 0.0)
            && (row.ebit - p.interestExpense < 0.0 ==> row.netIncome == row.ebit - p.interestExpense)
  {
    var row := BridgeRow(p, year, revenue, prevRevenue);
    assert row.taxes * 100.0 == row.ebit * p.taxRate;
    if row.ebit - p.interestExpense < 0.0 {
      assert PercentOf(row.ebit - p.interestExpense, p.taxRate) * 100.0 == (row.ebit - p.interestExpense) * p.taxRate;
    }
  }

  /** Without interest or borrowing, and with a non-negative profit and tax
      rate, the levered bridge coincides with the unlevered one. */
  lemma NoDebtLeveredIsUnlevered(p: Assumptions, year: nat, revenue: real, prevRevenue: real)
    requires p.interestExpense == 0.0 && p.netBorrowing == 0.0 && p.taxRate >= 0.0
    requires BridgeRow(p, year, revenue, prevRevenue).ebit >= 0.0
    ensures var row := BridgeRow(p, year, revenue, prevRevenue);
            row.netIncome == row.nopat && row.lfcf == row.ufcf
  {
    var row := BridgeRow(p, year, revenue, prevRevenue);
    assert PercentOf(row.ebit, p.taxRate) >= 0.0 by {
      assert PercentOf(row.ebit, p.taxRate) * 100.0 == row.ebit * p.taxRate;
    }
  }

  /** The loop of `projectDetailedFinancials` as written, with running units,
      price and previous revenue; it produces exactly the rows above. */
  method ProjectDetailedFinancialsLoop(p: Assumptions) returns (projections: seq<YearRow>)
    ensures projections == ProjectDetailedFinancials(p)
  {
    projections := [];
    var currentUnits := p.units;
    var currentPrice := p.price;
    var prevRevenue := Revenue(p.units, p.price);
    var i: nat := 1;
    while i <= p.years
      invariant 1 <= i <= |ProjectDetailedFinancials(p)| + 1
      invariant currentUnits == UnitsAt(p, i - 1) && currentPrice == PriceAt(p, i - 1)
      invariant prevRevenue == RevenueAt(p, i - 1)
      invariant projections == ProjectDetailedFinancials(p)[..i - 1]
    {
      GrowthStep(p, i);
      currentUnits := Grow(currentUnits, p.unitGrowth);
      currentPrice := Grow(currentPrice, p.priceGrowth);
      var revenue := Revenue(currentUnits, currentPrice);
      var row := BridgeRow(p, i, revenue, prevRevenue);
      assert revenue == RevenueAt(p, i);
      assert ProjectDetailedFinancials(p)[i - 1] == BridgeRow(p, i, RevenueAt(p, i), RevenueAt(p, i - 1));
      assert ProjectDetailedFinancials(p)[..i] == ProjectDetailedFinancials(p)[..i - 1] + [row];
      projections := projections + [row];
      prevRevenue := revenue;
      i := i + 1;
    }
  }
}
