/**
  The sensitivity table: the implied share price recomputed on a 5 × 5 grid
  of discount-rate offsets (rows) and growth offsets (columns). The growth
  that varies is the long-term growth of the Gordon terminal value in the
  perpetuity-growth method, and the unit-volume growth otherwise.
 */
module Sensitivity {
  import opened Rates
  import opened Projections
  import opened Valuation

  /** The offsets of both axes, in the order the table lists them. */
  const Offsets: seq<real> := [-0.01, -0.005, 0.0, 0.005, 0.01]

  /** The position of the unperturbed row and column. */
  const BaseIndex: nat := 2

  /** The recalculation the table runs per cell: a fresh five-year projection,
      its discounted cash flows, the discounted terminal value, and the
      resulting equity per share. It repeats the roll-up's arithmetic, and
      gives the roll-up's implied share price. */
  function SensitivityPrice(p: Inputs, root: real -> real): (price: real)
    requires Valid(p)
    ensures price == Valuate(p, root).sharePrice
  {
    var rows := Forecast(p);
    var sumPv := SumPv(rows, p.modelType, p.discountRate, p.midYear, root);
    var pvOfTv := CalculatePv(TerminalValue(p, rows[|rows| - 1]), p.discountRate, ForecastYears, p.midYear, root);
    PerShare(EquityOf(p, sumPv + pvOfTv), p.sharesOutstanding)
  }

  /** The equity value the table derives from the discounted total: the total
      itself in the levered model, the total less net debt otherwise. */
  function EquityOf(p: Inputs, discounted: real): real {
    if IsLevered(p.modelType) then discounted else discounted - p.netDebt
  }

  /** The base growth the columns move around. */
  function BaseGrowth(p: Inputs): real {
    if IsGrowthMethod(p.tvMethod) then p.tvInput else p.unitGrowth
  }

  /** `tempParams`: the inputs with the discount rate moved by `w` and the
      varied growth moved by `g`. */
  function Perturb(p: Inputs, w: real, g: real): (q: Inputs)
    ensures q.discountRate == p.discountRate + w
    ensures BaseGrowth(q) == BaseGrowth(p) + g
    ensures IsGrowthMethod(p.tvMethod) ==> q == p.(discountRate := p.discountRate + w, tvInput := p.tvInput + g)
    ensures !IsGrowthMethod(p.tvMethod) ==> q == p.(discountRate := p.discountRate + w, unitGrowth := p.unitGrowth + g)
  {
    if IsGrowthMethod(p.tvMethod) then p.(discountRate := p.discountRate + w, tvInput := BaseGrowth(p) + g)
    else p.(discountRate := p.discountRate + w, unitGrowth := BaseGrowth(p) + g)
  }

  /** In the perpetuity-growth method the columns leave the operating
      forecast alone: only discounting and the terminal value move. */
  lemma GrowthColumnsKeepForecast(p: Inputs, w: real, g: real)
    requires IsGrowthMethod(p.tvMethod)
    ensures ProjectDetailedFinancials(AssumptionsOf(Perturb(p, w, g))) == ProjectDetailedFinancials(AssumptionsOf(p))
  {
    assert AssumptionsOf(Perturb(p, w, g)) == AssumptionsOf(p);
  }

  /** Every discount rate of the table leaves a non-zero discount factor. */
  predicate GridDomain(p: Inputs) {
    && p.sharesOutstanding != 0.0
    && forall i :: 0 <= i < |Offsets| ==> 1.0 + (p.discountRate + Offsets[i]) != 0.0
  }

  datatype Table = Table(rates: seq<real>, growths: seq<real>, prices: seq<seq<real>>)

  function PriceRow(p: Inputs, w: real, root: real -> real): (row: seq<real>)
    requires p.sharesOutstanding != 0.0 && 1.0 + (p.discountRate + w) != 0.0
    ensures |row| == |Offsets|
    ensures forall j :: 0 <= j < |Offsets| ==> row[j] == SensitivityPrice(Perturb(p, w, Offsets[j]), root)
  {
    seq(|Offsets|, j requires 0 <= j < |Offsets| => SensitivityPrice(Perturb(p, w, Offsets[j]), root))
  }

  /** `renderSensitivity`: the row and column headings and the 5 × 5 prices. */
  function SensitivityTable(p: Inputs, root: real -> real): (t: Table)
    requires GridDomain(p)
    ensures |t.rates| == |Offsets| && |t.growths| == |Offsets| && |t.prices| == |Offsets|
    ensures forall i :: 0 <= i < |Offsets| ==> t.rates[i] - p.discountRate == Offsets[i]
    ensures forall j :: 0 <= j < |Offsets| ==> t.growths[j] - BaseGrowth(p) == Offsets[j]
    ensures forall i, j :: 0 <= i < |Offsets| && 0 <= j < |Offsets| ==>
              |t.prices[i]| == |Offsets| && t.prices[i][j] == SensitivityPrice(Perturb(p, Offsets[i], Offsets[j]), root)
  {
    Table(
      seq(|Offsets|, i requires 0 <= i < |Offsets| => p.discountRate + Offsets[i]),
      seq(|Offsets|, j requires 0 <= j < |Offsets| => BaseGrowth(p) + Offsets[j]),
      seq(|Offsets|, i requires 0 <= i < |Offsets| => PriceRow(p, Offsets[i], root)))
  }

  /** The highlighted cell is the one with both offsets zero, and it is the only one. */
  lemma BaseCellIsUnique(i: nat, j: nat)
    requires i < |Offsets| && j < |Offsets|
    ensures Offsets[i] == 0.0 && Offsets[j] == 0.0 <==> i == BaseIndex && j == BaseIndex
  {
  }

  /** The highlighted centre of the table shows the headline share price. */
  lemma CentreIsSharePrice(p: Inputs, root: real -> real)
    requires GridDomain(p)
    ensures Valid(p)
    ensures SensitivityTable(p, root).prices[BaseIndex][BaseIndex] == Valuate(p, root).sharePrice
  {
    assert 1.0 + (p.discountRate + Offsets[BaseIndex]) != 0.0;
    assert Perturb(p, 0.0, 0.0) == p;
  }
}
