/**
  The numeric helpers of `DCFLite`: cost of capital, credit ratios,
  terminal values and the present-value discount. JavaScript doubles are
  modelled as exact reals.
 */
module Rates {

  /** `x` raised to a whole power, compounding one factor at a time. */
  function Pow(x: real, n: nat): real {
    if n == 0 then 1.0 else Pow(x, n - 1) * x
  }

  /** One period of growth at rate `g`. */
  function Grow(x: real, g: real): real {
    x * (1.0 + g)
  }

  lemma {:induction false} PowNonZero(x: real, n: nat)
    requires x != 0.0
    ensures Pow(x, n) != 0.0
  {
    if n > 0 {
      PowNonZero(x, n - 1);
    }
  }

  lemma {:induction false} PowPositive(x: real, n: nat)
    requires x > 0.0
    ensures Pow(x, n) > 0.0
  {
    if n > 0 {
      PowPositive(x, n - 1);
    }
  }

  /** Compounding above 1 makes every further period's factor at least as large. */
  lemma {:induction false} PowAtLeastOne(x: real, n: nat)
    requires x >= 1.0
    ensures Pow(x, n) >= 1.0
  {
    if n > 0 {
      PowAtLeastOne(x, n - 1);
    }
  }

  lemma {:induction false} PowOfOne(n: nat)
    ensures Pow(1.0, n) == 1.0
  {
    if n > 0 {
      PowOfOne(n - 1);
    }
  }

  // ---------------------------------------------------------------- cost of capital

  /** `DCFLite.calculateWACC`: the capital-weighted blend of the cost of
      equity and the after-tax cost of debt, or 0 when there is no capital. */
  function CalculateWacc(equity: real, debt: real, costOfEquity: real, costOfDebt: real, taxRate: real): (w: real)
    ensures equity + debt == 0.0 ==> w == 0.0
    ensures equity + debt != 0.0 ==> w * (equity + debt) == equity * costOfEquity + debt * costOfDebt * (1.0 - taxRate)
    ensures debt == 0.0 && equity != 0.0 ==> w == costOfEquity
  {
    var totalValue := equity + debt;
    if totalValue == 0.0 then 0.0
    else
      var weightEquity := equity / totalValue;
      var weightDebt := debt / totalValue;
      (weightEquity * costOfEquity) + (weightDebt * costOfDebt * (1.0 - taxRate))
  }

  /** The smaller of two amounts: below both, and one of them. */
  function Min(a: real, b: real): (r: real)
    ensures r <= a && r <= b && (r == a || r == b)
  {
    if a <= b then a else b
  }

  /** The larger of two amounts: above both, and one of them. */
  function Max(a: real, b: real): (r: real)
    ensures r >= a && r >= b && (r == a || r == b)
  {
    if a <= b then b else a
  }

  /** With non-negative capital amounts, the WACC lies between the cost of
      equity and the after-tax cost of debt. */
  lemma WaccBetweenCosts(equity: real, debt: real, costOfEquity: real, costOfDebt: real, taxRate: real)
    requires equity >= 0.0 && debt >= 0.0 && equity + debt > 0.0
    ensures var w := CalculateWacc(equity, debt, costOfEquity, costOfDebt, taxRate);
            var afterTaxDebt := costOfDebt * (1.0 - taxRate);
            Min(costOfEquity, afterTaxDebt) <= w <= Max(costOfEquity, afterTaxDebt)
  {
    var w := CalculateWacc(equity, debt, costOfEquity, costOfDebt, taxRate);
    MulAssociates(debt, costOfDebt, 1.0 - taxRate);
    WeightedBetween(equity, debt, costOfEquity, costOfDebt * (1.0 - taxRate), w,
      Min(costOfEquity, costOfDebt * (1.0 - taxRate)), Max(costOfEquity, costOfDebt * (1.0 - taxRate)));
  }

  lemma MulAssociates(a: real, b: real, c: real)
    ensures a * b * c == a * (b * c)
  {
  }

  /** A weighted average with non-negative weights lies between any bounds of its two values. */
  lemma WeightedBetween(e: real, d: real, a: real, b: real, w: real, lo: real, hi: real)
    requires e >= 0.0 && d >= 0.0 && e + d > 0.0
    requires lo <= a <= hi && lo <= b <= hi
    requires w * (e + d) == e * a + d * b
    ensures lo <= w <= hi
  {
    WeightedAbove(e, d, a, b, w, lo);
    WeightedAbove(e, d, -a, -b, -w, -hi);
  }

  lemma WeightedAbove(e: real, d: real, a: real, b: real, w: real, lo: real)
    requires e >= 0.0 && d >= 0.0 && e + d > 0.0
    requires lo <= a && lo <= b
    requires w * (e + d) == e * a + d * b
    ensures lo <= w
  {
    MulNonNegative(e, a - lo);
    MulNonNegative(d, b - lo);
    assert (w - lo) * (e + d) == e * (a - lo) + d * (b - lo);
    NonNegativeFactor(w - lo, e + d);
  }

  lemma MulNonNegative(x: real, y: real)
    requires x >= 0.0 && y >= 0.0
    ensures x * y >= 0.0
  {
  }

  lemma NonNegativeFactor(x: real, t: real)
    requires t > 0.0 && x * t >= 0.0
    ensures x >= 0.0
  {
    if x < 0.0 {
      MulPositive(-x, t);
    }
  }

  /** `DCFLite.calculateCostOfEquity`: CAPM with the risk-free rate and the
      equity risk premium given in percent and the result as a fraction. */
  function CalculateCostOfEquity(riskFreeRate: real, beta: real, equityRiskPremium: real): (r: real)
    ensures r * 100.0 == riskFreeRate + beta * equityRiskPremium
  {
    (riskFreeRate / 100.0) + (beta * (equityRiskPremium / 100.0))
  }

  /** A riskier stock (higher beta) never costs less equity when the premium is non-negative. */
  lemma CostOfEquityMonotoneInBeta(riskFreeRate: real, beta1: real, beta2: real, equityRiskPremium: real)
    requires beta1 <= beta2 && equityRiskPremium >= 0.0
    ensures CalculateCostOfEquity(riskFreeRate, beta1, equityRiskPremium)
         <= CalculateCostOfEquity(riskFreeRate, beta2, equityRiskPremium)
  {
    assert beta1 * equityRiskPremium <= beta2 * equityRiskPremium;
  }

  // ---------------------------------------------------------------- credit

  datatype CreditMetrics = CreditMetrics(interestCoverage: real, debtToEbitda: real)

  /** The interest coverage reported when there is no interest expense. */
  const CoverageSentinel: real := 99.0

  /** `DCFLite.calculateCreditMetrics`: EBIT over interest (99 when there is
      no interest) and debt over EBITDA (0 when EBITDA is not positive). */
  function CalculateCreditMetrics(ebit: real, interest: real, totalDebt: real, ebitda: real): (m: CreditMetrics)
    ensures interest == 0.0 ==> m.interestCoverage == CoverageSentinel
    ensures interest != 0.0 ==> m.interestCoverage * interest == ebit
    ensures ebitda <= 0.0 ==> m.debtToEbitda == 0.0
    ensures ebitda > 0.0 ==> m.debtToEbitda * ebitda == totalDebt
  {
    CreditMetrics(
      if interest != 0.0 then ebit / interest else CoverageSentinel,
      if ebitda > 0.0 then totalDebt / ebitda else 0.0)
  }

  /** The sentinel is not a tell-tale: a real coverage of 99 looks the same. */
  lemma CoverageSentinelIsAmbiguous()
    ensures CalculateCreditMetrics(99.0, 1.0, 0.0, 1.0).interestCoverage == CoverageSentinel
  {
  }

  /** No interest expense, debt of 100 against EBITDA of 40: the coverage
      sentinel and a leverage of 2.5 times. */
  lemma CreditExample()
    ensures CalculateCreditMetrics(50.0, 0.0, 100.0, 40.0) == CreditMetrics(CoverageSentinel, 2.5)
  {
  }

  // ---------------------------------------------------------------- terminal value

  /** `DCFLite.calculateTVGrowth`: the Gordon growing perpetuity of the next
      year's cash flow, or 0 when the discount rate does not exceed the growth. */
  function CalculateTvGrowth(finalYearFcf: real, longTermGrowth: real, discountRate: real): (tv: real)
    ensures discountRate <= longTermGrowth ==> tv == 0.0
    ensures discountRate > longTermGrowth ==> tv * (discountRate - longTermGrowth) == finalYearFcf * (1.0 + longTermGrowth)
  {
    if discountRate <= longTermGrowth then 0.0
    else (finalYearFcf * (1.0 + longTermGrowth)) / (discountRate - longTermGrowth)
  }

  /** The perpetuity is self-consistent: its value is next year's cash flow
      plus next year's terminal value (the same perpetuity one year on),
      discounted by one year. */
  lemma GordonOneYearOn(fcf: real, g: real, r: real)
    requires r > g
    ensures var tv := CalculateTvGrowth(fcf, g, r);
            var next := fcf * (1.0 + g);
            && CalculateTvGrowth(next, g, r) == tv * (1.0 + g)
            && tv * (1.0 + r) == next + CalculateTvGrowth(next, g, r)
  {
    var tv := CalculateTvGrowth(fcf, g, r);
    var next := fcf * (1.0 + g);
    var tvNext := CalculateTvGrowth(next, g, r);
    assert tvNext * (r - g) == next * (1.0 + g);
    assert (tv * (1.0 + g)) * (r - g) == next * (1.0 + g);
    assert tvNext == tv * (1.0 + g);
    assert tv * (1.0 + r) == tv * (r - g) + tv * (1.0 + g);
  }

  /** `DCFLite.calculateTVMultiple`: the final-year metric times the exit multiple. */
  function CalculateTvMultiple(finalYearMetric: real, multiple: real): (tv: real)
    ensures multiple != 0.0 ==> tv / multiple == finalYearMetric
    ensures tv == 0.0 <==> finalYearMetric == 0.0 || multiple == 0.0
  {
    finalYearMetric * multiple
  }

  /** The exit multiple a Gordon value implies: dividing the perpetuity by a
      nonzero final-year metric gives the multiple at which the exit-multiple
      method reproduces it, and the exit value grows with the multiple by the
      metric per unit. */
  lemma ImpliedExitMultiple(fcf: real, g: real, r: real, metric: real, multiple: real)
    requires metric != 0.0
    ensures CalculateTvMultiple(metric, CalculateTvGrowth(fcf, g, r) / metric) == CalculateTvGrowth(fcf, g, r)
    ensures CalculateTvMultiple(metric, multiple + 1.0) == CalculateTvMultiple(metric, multiple) + metric
  {
    var tv := CalculateTvGrowth(fcf, g, r);
    assert metric * (tv / metric) == tv;
    assert metric * (multiple + 1.0) == metric * multiple + metric;
  }

  // ---------------------------------------------------------------- present value

  /** The square root of `1 + r` that mid-year discounting needs, as
      `Math.pow(1 + r, year - 0.5)` equals `(1 + r)^year / sqrt(1 + r)`. */
  ghost predicate IsSquareRoot(root: real -> real) {
    forall x :: x > 0.0 ==> root(x) > 0.0 && root(x) * root(x) == x
  }

  /** What is discounted over whole periods: the future value, or under the
      mid-year convention the future value grown by the half period
      `sqrt(1 + r)` that the discount does not cover. */
  function DiscountedAmount(futureValue: real, discountRate: real, midYear: bool, root: real -> real): real {
    if midYear then futureValue * root(1.0 + discountRate) else futureValue
  }

  /** `DCFLite.calculatePV`: the future value discounted over `year`
      periods, or over `year - 0.5` periods under the mid-year convention. */
  function CalculatePv(futureValue: real, discountRate: real, year: nat, midYear: bool, root: real -> real): (pv: real)
    requires 1.0 + discountRate != 0.0
    ensures pv * Pow(1.0 + discountRate, year) == DiscountedAmount(futureValue, discountRate, midYear, root)
  {
    PowNonZero(1.0 + discountRate, year);
    DiscountedAmount(futureValue, discountRate, midYear, root) / Pow(1.0 + discountRate, year)
  }

  /** At a zero rate, end-of-year discounting leaves the amount unchanged. */
  lemma PvAtZeroRate(fv: real, year: nat, root: real -> real)
    ensures CalculatePv(fv, 0.0, year, false, root) == fv
  {
    PowOfOne(year);
  }

  /** 100 due in one year at 10% is worth 1000/11 today. */
  lemma PvExample(root: real -> real)
    ensures CalculatePv(100.0, 0.10, 1, false, root) * 11.0 == 1000.0
  {
    assert Pow(1.1, 1) == 1.1;
  }

  /** Discounting is linear in the amount discounted. */
  lemma PvAdditive(a: real, b: real, r: real, year: nat, midYear: bool, root: real -> real)
    requires 1.0 + r != 0.0
    ensures CalculatePv(a + b, r, year, midYear, root) == CalculatePv(a, r, year, midYear, root) + CalculatePv(b, r, year, midYear, root)
  {
    PowNonZero(1.0 + r, year);
    AddQuotients(CalculatePv(a + b, r, year, midYear, root), CalculatePv(a, r, year, midYear, root), CalculatePv(b, r, year, midYear, root),
      Pow(1.0 + r, year), DiscountedAmount(a + b, r, midYear, root), DiscountedAmount(a, r, midYear, root), DiscountedAmount(b, r, midYear, root));
  }

  lemma AddQuotients(pab: real, pa: real, pb: real, f: real, fab: real, fa: real, fb: real)
    requires f != 0.0 && fab == fa + fb
    requires pab * f == fab && pa * f == fa && pb * f == fb
    ensures pab == pa + pb
  {
    assert (pab - pa - pb) * f == 0.0;
  }

  /** One more year of growth at the discount rate is undone by one more year of discounting. */
  lemma PvOneYearLater(fv: real, r: real, year: nat, midYear: bool, root: real -> real)
    requires 1.0 + r != 0.0
    ensures CalculatePv(Grow(fv, r), r, year + 1, midYear, root) == CalculatePv(fv, r, year, midYear, root)
  {
    PowNonZero(1.0 + r, year);
    AmountScales(fv, r, midYear, root);
    ShiftOneYear(CalculatePv(Grow(fv, r), r, year + 1, midYear, root), CalculatePv(fv, r, year, midYear, root),
      Pow(1.0 + r, year), Pow(1.0 + r, year + 1), 1.0 + r,
      DiscountedAmount(fv, r, midYear, root), DiscountedAmount(Grow(fv, r), r, midYear, root));
  }

  lemma AmountScales(fv: real, r: real, midYear: bool, root: real -> real)
    ensures DiscountedAmount(Grow(fv, r), r, midYear, root) == DiscountedAmount(fv, r, midYear, root) * (1.0 + r)
  {
  }

  lemma ShiftOneYear(p1: real, p0: real, f: real, f1: real, x: real, amount: real, amount1: real)
    requires f != 0.0 && x != 0.0 && f1 == f * x && amount1 == amount * x
    requires p0 * f == amount && p1 * f1 == amount1
    ensures p1 == p0
  {
    assert (p1 * f - amount) * x == 0.0;
    assert p1 * f == amount;
    assert (p1 - p0) * f == 0.0;
  }

  /** At a positive rate a positive amount is worth less the later it arrives. */
  lemma PvBelowFaceValue(fv: real, r: real, year: nat, root: real -> real)
    requires r > 0.0 && fv > 0.0 && year >= 1
    ensures 0.0 < CalculatePv(fv, r, year, false, root) < fv
  {
    PowAtLeastOne(1.0 + r, year - 1);
    GrowthFactorAboveOne(Pow(1.0 + r, year - 1), Pow(1.0 + r, year), r);
    BelowFace(CalculatePv(fv, r, year, false, root), Pow(1.0 + r, year), fv);
  }

  lemma GrowthFactorAboveOne(f0: real, f: real, r: real)
    requires f0 >= 1.0 && r > 0.0 && f == f0 * (1.0 + r)
    ensures f > 1.0
  {
    assert f0 * (1.0 + r) == f0 + f0 * r;
    assert f0 * r > 0.0;
  }

  lemma BelowFace(pv: real, f: real, fv: real)
    requires f > 1.0 && fv > 0.0 && pv * f == fv
    ensures 0.0 < pv < fv
  {
    if pv <= 0.0 {
      MulNonPositive(pv, f);
    }
    MulPositive(pv, f - 1.0);
    MulSubtract(pv, f, 1.0);
    PositiveGap(pv * (f - 1.0), pv, fv);
  }

  lemma PositiveGap(gap: real, lo: real, hi: real)
    requires gap > 0.0 && gap == hi - lo
    ensures lo < hi
  {
  }

  lemma MulPositive(a: real, b: real)
    requires a > 0.0 && b > 0.0
    ensures a * b > 0.0
  {
  }

  lemma MulNonPositive(a: real, b: real)
    requires a <= 0.0 && b > 0.0
    ensures a * b <= 0.0
  {
  }

  lemma MulSubtract(a: real, b: real, c: real)
    ensures a * (b - c) == a * b - a * c
  {
  }

  /** With a true square root, a mid-year cash flow is worth more than the
      same amount at the end of its year and less than at the end of the year before. */
  lemma MidYearBetween(fv: real, r: real, year: nat, root: real -> real)
    requires IsSquareRoot(root)
    requires r > 0.0 && fv > 0.0 && year >= 1
    ensures CalculatePv(fv, r, year, false, root) < CalculatePv(fv, r, year, true, root) < CalculatePv(fv, r, year - 1, false, root)
  {
    PowPositive(1.0 + r, year - 1);
    assert root(1.0 + r) > 0.0 && root(1.0 + r) * root(1.0 + r) == 1.0 + r;
    HalfStep(CalculatePv(fv, r, year, false, root), CalculatePv(fv, r, year, true, root), CalculatePv(fv, r, year - 1, false, root),
             Pow(1.0 + r, year - 1), Pow(1.0 + r, year), 1.0 + r, root(1.0 + r), fv, DiscountedAmount(fv, r, true, root));
  }

  lemma HalfStep(pEnd: real, pMid: real, pPrev: real, f0: real, f: real, x: real, s: real, fv: real, grown: real)
    requires f0 > 0.0 && x > 1.0 && s > 0.0 && s * s == x && fv > 0.0 && f == f0 * x && grown == fv * s
    requires pEnd * f == fv && pMid * f == grown && pPrev * f0 == fv
    ensures pEnd < pMid < pPrev
  {
    assert s > 1.0 by {
      if s <= 1.0 {
        MulSubtract(s, 1.0, s);
        MulNonPositive(s - 1.0, s);
      }
    }
    MulPositive(s, s - 1.0);
    MulSubtract(s, s, 1.0);
    assert s < x;
    MulPositive(f0, x);
    MulPositive(fv, s - 1.0);
    MulSubtract(fv, s, 1.0);
    assert grown > fv;
    MulSubtract(pMid - pEnd, f, 0.0);
    assert (pMid - pEnd) * f == grown - fv;
    MulPositiveInverse(pMid - pEnd, f);
    MulPositive(fv, x - s);
    MulSubtract(fv, x, s);
    assert pPrev * f == fv * x;
    assert (pPrev - pMid) * f == fv * x - fv * s;
    MulPositiveInverse(pPrev - pMid, f);
  }

  lemma MulPositiveInverse(a: real, b: real)
    requires b > 0.0 && a * b > 0.0
    ensures a > 0.0
  {
    if a <= 0.0 {
      MulNonPositive(a, b);
    }
  }
}
