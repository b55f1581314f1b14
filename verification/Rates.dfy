/** Utilization, the kinked interest-rate curve and the depositors' rate. */
module Rates {
  import opened RayMath
  import opened Records

  datatype InterestRates = InterestRates(liquidity: int, stable: int, variable: int)

  predicate ValidParams(p: ReserveParams) {
    && 0 < p.optimalUtilizationRate < RAY
    && p.baseVariableBorrowRate >= 0
    && p.variableRateSlope1 >= 0
    && p.variableRateSlope2 >= 0
    && p.stableRateSlope1 >= 0
    && p.stableRateSlope2 >= 0
    && 0 <= p.reserveFactor <= PERCENTAGE_FACTOR
  }

  /** When the utilization is a number: either nothing is borrowed or there is liquidity. */
  predicate HasUtilization(stableDebt: int, variableDebt: int, totalLiquidity: int) {
    (stableDebt == 0 && variableDebt == 0) || totalLiquidity != 0
  }

  function UtilizationRate(stableDebt: int, variableDebt: int, totalLiquidity: int): int
    requires HasUtilization(stableDebt, variableDebt, totalLiquidity)
  {
    if stableDebt == 0 && variableDebt == 0 then 0 else RayDiv(stableDebt + variableDebt, totalLiquidity)
  }

  function OverallBorrowRate(stableDebt: int, variableDebt: int, variableRate: int, averageStableRate: int): int {
    var totalBorrows := stableDebt + variableDebt;
    if totalBorrows == 0 then 0
    else
      RayDiv(RayMul(WadToRay(variableDebt), variableRate) + RayMul(WadToRay(stableDebt), averageStableRate),
             WadToRay(totalBorrows))
  }

  /** A rate that climbs by slope1 up to the optimal utilization and by slope2 beyond it. */
  function Curve(start: int, slope1: int, slope2: int, optimal: int, utilization: int): int
    requires 0 < optimal < RAY
  {
    if utilization > optimal then
      start + slope1 + RayMul(slope2, RayDiv(utilization - optimal, RAY - optimal))
    else
      start + RayMul(slope1, RayDiv(utilization, optimal))
  }

  function VariableRate(p: ReserveParams, utilization: int): int
    requires ValidParams(p)
  {
    Curve(p.baseVariableBorrowRate, p.variableRateSlope1, p.variableRateSlope2, p.optimalUtilizationRate, utilization)
  }

  function StableRate(p: ReserveParams, marketStableRate: int, utilization: int): int
    requires ValidParams(p)
  {
    Curve(marketStableRate, p.stableRateSlope1, p.stableRateSlope2, p.optimalUtilizationRate, utilization)
  }

  function DepositorRate(p: ReserveParams, overall: int, utilization: int): int {
    PercentMul(RayMul(overall, utilization), PERCENTAGE_FACTOR - p.reserveFactor)
  }

  function ExpectedInterestRates(p: ReserveParams, marketStableRate: int, utilization: int,
                                 stableDebt: int, variableDebt: int, averageStableRate: int): InterestRates
    requires ValidParams(p)
  {
    var variable := VariableRate(p, utilization);
    var overall := OverallBorrowRate(stableDebt, variableDebt, variable, averageStableRate);
    InterestRates(DepositorRate(p, overall, utilization), StableRate(p, marketStableRate, utilization), variable)
  }

  method CalcExpectedInterestRates(p: ReserveParams, marketStableRate: int, utilizationRate: int,
                                   totalStableDebt: int, totalVariableDebt: int, averageStableBorrowRate: int)
    returns (rates: InterestRates)
    requires ValidParams(p)
    ensures rates == ExpectedInterestRates(p, marketStableRate, utilizationRate, totalStableDebt,
                                           totalVariableDebt, averageStableBorrowRate)
  {
    var stableBorrowRate := marketStableRate;
    var variableBorrowRate := p.baseVariableBorrowRate;
    var excessRate := RAY - p.optimalUtilizationRate;
    if utilizationRate > p.optimalUtilizationRate {
      var excessUtilizationRateRatio := RayDiv(utilizationRate - p.optimalUtilizationRate, excessRate);
      stableBorrowRate := stableBorrowRate + p.stableRateSlope1
        + RayMul(p.stableRateSlope2, excessUtilizationRateRatio);
      variableBorrowRate :=
        variableBorrowRate + p.variableRateSlope1 + RayMul(p.variableRateSlope2, excessUtilizationRateRatio);
    } else {
      stableBorrowRate :=
        stableBorrowRate + RayMul(p.stableRateSlope1, RayDiv(utilizationRate, p.optimalUtilizationRate));
      RayMulSwap(p.variableRateSlope1, RayDiv(utilizationRate, p.optimalUtilizationRate));
      variableBorrowRate :=
        variableBorrowRate + RayMul(RayDiv(utilizationRate, p.optimalUtilizationRate), p.variableRateSlope1);
    }
    var expectedOverallRate :=
      OverallBorrowRate(totalStableDebt, totalVariableDebt, variableBorrowRate, averageStableBorrowRate);
    var liquidityRate :=
      PercentMul(RayMul(expectedOverallRate, utilizationRate), PERCENTAGE_FACTOR - p.reserveFactor);
    rates := InterestRates(liquidityRate, stableBorrowRate, variableBorrowRate);
  }

  lemma RayMulSwap(a: int, b: int)
    ensures RayMul(a, b) == RayMul(b, a)
  {
    assert a * b == b * a;
  }

  // ---------- the curve ----------

  lemma RatioAtMostOne(u: int, whole: int)
    requires 0 <= u <= whole && 0 < whole
    ensures 0 <= RayDiv(u, whole) <= RAY
  {
    RayDivNearest(u, whole);
    RayDivSelf(whole);
    RayDivMono(u, whole, whole, whole);
  }

  /** Exactly start + slope1 at the optimal point, start + slope1 + slope2 at full utilization, and
      the starting rate when nothing is used. */
  lemma CurveAnchors(start: int, slope1: int, slope2: int, optimal: int)
    requires slope1 >= 0 && slope2 >= 0 && 0 < optimal < RAY
    ensures Curve(start, slope1, slope2, optimal, 0) == start
    ensures Curve(start, slope1, slope2, optimal, optimal) == start + slope1
    ensures Curve(start, slope1, slope2, optimal, RAY) == start + slope1 + slope2
  {
    RayDivZero(optimal);
    RayDivSelf(optimal);
    RayDivSelf(RAY - optimal);
    RayMulOne(slope1);
    RayMulOne(slope2);
  }

  /** The curve never falls as utilization grows, across the kink included. */
  lemma CurveMono(start: int, slope1: int, slope2: int, optimal: int, u: int, u': int)
    requires slope1 >= 0 && slope2 >= 0 && 0 < optimal < RAY && 0 <= u <= u'
    ensures start <= Curve(start, slope1, slope2, optimal, u) <= Curve(start, slope1, slope2, optimal, u')
  {
    hide RayMul, RayDiv;
    RayDivNearest(u, optimal);
    if u' <= optimal {
      RayDivMono(u, optimal, u', optimal);
      RayMulMono(slope1, slope1, RayDiv(u, optimal), RayDiv(u', optimal));
      RayMulNearest(slope1, RayDiv(u, optimal));
    } else if u > optimal {
      RayDivNearest(u - optimal, RAY - optimal);
      RayDivMono(u - optimal, RAY - optimal, u' - optimal, RAY - optimal);
      RayMulMono(slope2, slope2, RayDiv(u - optimal, RAY - optimal), RayDiv(u' - optimal, RAY - optimal));
      RayMulNearest(slope2, RayDiv(u - optimal, RAY - optimal));
    } else {
      RayDivNearest(u' - optimal, RAY - optimal);
      RatioAtMostOne(u, optimal);
      RayMulOne(slope1);
      RayMulMono(slope1, slope1, RayDiv(u, optimal), RAY);
      RayMulNearest(slope1, RayDiv(u, optimal));
      RayMulNearest(slope2, RayDiv(u' - optimal, RAY - optimal));
    }
  }

  /** The configured rates, parameter by parameter, at no, optimal and full utilization. */
  lemma RateAnchors(p: ReserveParams, market: int)
    requires ValidParams(p)
    ensures VariableRate(p, 0) == p.baseVariableBorrowRate
    ensures VariableRate(p, p.optimalUtilizationRate) == p.baseVariableBorrowRate + p.variableRateSlope1
    ensures VariableRate(p, RAY) == p.baseVariableBorrowRate + p.variableRateSlope1 + p.variableRateSlope2
    ensures StableRate(p, market, 0) == market
    ensures StableRate(p, market, p.optimalUtilizationRate) == market + p.stableRateSlope1
    ensures StableRate(p, market, RAY) == market + p.stableRateSlope1 + p.stableRateSlope2
  {
    hide Curve;
    CurveAnchors(p.baseVariableBorrowRate, p.variableRateSlope1, p.variableRateSlope2, p.optimalUtilizationRate);
    CurveAnchors(market, p.stableRateSlope1, p.stableRateSlope2, p.optimalUtilizationRate);
  }

  /** y rises from 0 to a slope as x rises from 0 to a width: twice RAY times y * width is within
      (RAY + slope) * width of the exact line. */
  predicate OnLine(y: int, slope: int, x: int, width: int) {
    -((RAY + slope) * width) <= 2 * RAY * (y * width - slope * x) <= (RAY + slope) * width
  }

  /** A rate on two lines that meet at the optimal utilization. */
  predicate OnKinkedLine(rate: int, start: int, slope1: int, slope2: int, optimal: int, utilization: int) {
    if utilization <= optimal then OnLine(rate - start, slope1, utilization, optimal)
    else OnLine(rate - start - slope1, slope2, utilization - optimal, RAY - optimal)
  }

  lemma SegmentOnLine(slope: int, x: int, width: int)
    requires slope >= 0 && x >= 0 && width > 0
    ensures OnLine(RayMul(slope, RayDiv(x, width)), slope, x, width)
  {
    hide RayMul, RayDiv;
    var q := RayDiv(x, width);
    var y := RayMul(slope, q);
    RayDivNearest(x, width);
    RayMulNearest(slope, q);
    StepDown(q, width);
    var e1, e2 := 2 * (q * width) - 2 * (x * RAY), 2 * (y * RAY) - 2 * (slope * q);
    Scale(e1, width, slope);
    Scale(e2, RAY, width);
    assert e2 * width == 2 * (RAY * (y * width)) - 2 * (slope * (q * width));
    assert e1 * slope == 2 * (slope * (q * width)) - 2 * (RAY * (slope * x));
    Distribute(width, RAY, slope, 0, 0);
  }

  /** Between the anchors both configured rates follow their two lines, up to rounding. */
  lemma RatesOnKinkedLines(p: ReserveParams, market: int, u: int)
    requires ValidParams(p) && u >= 0
    ensures OnKinkedLine(VariableRate(p, u), p.baseVariableBorrowRate, p.variableRateSlope1, p.variableRateSlope2,
                         p.optimalUtilizationRate, u)
    ensures OnKinkedLine(StableRate(p, market, u), market, p.stableRateSlope1, p.stableRateSlope2,
                         p.optimalUtilizationRate, u)
  {
    hide RayMul, RayDiv, OnLine;
    var optimal := p.optimalUtilizationRate;
    if u <= optimal {
      SegmentOnLine(p.variableRateSlope1, u, optimal);
      SegmentOnLine(p.stableRateSlope1, u, optimal);
    } else {
      SegmentOnLine(p.variableRateSlope2, u - optimal, RAY - optimal);
      SegmentOnLine(p.stableRateSlope2, u - optimal, RAY - optimal);
    }
  }

  lemma VariableRateNonNeg(p: ReserveParams, u: int)
    requires ValidParams(p) && u >= 0
    ensures VariableRate(p, u) >= p.baseVariableBorrowRate
  {
    CurveMono(p.baseVariableBorrowRate, p.variableRateSlope1, p.variableRateSlope2, p.optimalUtilizationRate, u, u);
  }

  /** Debt that does not exceed the total liquidity uses at most one ray of it. */
  lemma UtilizationAtMostOne(stableDebt: int, variableDebt: int, totalLiquidity: int)
    requires stableDebt >= 0 && variableDebt >= 0 && stableDebt + variableDebt <= totalLiquidity
    ensures 0 <= UtilizationRate(stableDebt, variableDebt, totalLiquidity) <= RAY
  {
    if stableDebt + variableDebt > 0 {
      RatioAtMostOne(stableDebt + variableDebt, totalLiquidity);
    }
  }

  /** Up to full utilization the curve stays between its start and its ceiling; with
      `UtilizationAtMostOne`, both borrow rates of every solvent reserve do. */
  lemma CurveWithinFloorAndCeiling(start: int, slope1: int, slope2: int, optimal: int, u: int)
    requires slope1 >= 0 && slope2 >= 0 && 0 < optimal < RAY && 0 <= u <= RAY
    ensures start <= Curve(start, slope1, slope2, optimal, u) <= start + slope1 + slope2
  {
    hide RayMul, RayDiv, Curve;
    CurveMono(start, slope1, slope2, optimal, u, RAY);
    CurveAnchors(start, slope1, slope2, optimal);
  }

  lemma UtilizationNonNeg(stableDebt: int, variableDebt: int, totalLiquidity: int)
    requires stableDebt >= 0 && variableDebt >= 0 && totalLiquidity >= 0
    requires HasUtilization(stableDebt, variableDebt, totalLiquidity)
    ensures UtilizationRate(stableDebt, variableDebt, totalLiquidity) >= 0
  {
    if stableDebt + variableDebt > 0 {
      RayDivNearest(stableDebt + variableDebt, totalLiquidity);
    }
  }

  /** Utilization rises with the debt and falls with the liquidity left over, half-up rounding and
      odd divisors included. The total liquidity of each side may be anything at least (at most) the
      idle liquidity plus the debt. */
  lemma UtilizationMono(stable: int, variable: int, total: int, stable': int, variable': int, total': int)
    requires stable >= 0 && variable >= 0 && stable' >= 0 && variable' >= 0
    requires stable + variable <= stable' + variable'
    requires 0 <= total' - (stable' + variable') <= total - (stable + variable)
    ensures UtilizationRate(stable, variable, total) <= UtilizationRate(stable', variable', total')
  {
    var d, d' := stable + variable, stable' + variable';
    if d' > 0 && d > 0 {
      IdleFraction(d, total, d', total');
    } else if d' > 0 {
      UtilizationNonNeg(stable', variable', total');
    }
  }

  /** d / l <= d' / l' when d <= d' and the idle parts satisfy l - d >= l' - d'. */
  lemma IdleFraction(d: int, l: int, d': int, l': int)
    requires 0 < d <= d' && 0 <= l' - d' <= l - d
    ensures RayDiv(d, l) <= RayDiv(d', l')
  {
    hide RayDiv;
    RayDivNearest(d, l);
    RayDivNearest(d', l');
    IdleArithmetic(d, l, d', l', RayDiv(d, l), RayDiv(d', l'));
  }

  lemma IdleArithmetic(d: int, l: int, d': int, l': int, q: int, q': int)
    requires 0 < d <= d' && 0 <= l' - d' <= l - d
    requires 2 * (q * l) <= 2 * (d * RAY) + l
    requires 2 * (d' * RAY) + l' < 2 * ((q' + 1) * l')
    ensures q <= q'
  {
    CrossProduct(d, l - d, d', l' - d');
    Swap(RAY, d, l');
    Swap(RAY, d', l);
    HalfUpOrder(q, l, d * RAY, q', l', d' * RAY);
  }

  lemma CrossProduct(d: int, e: int, d': int, e': int)
    requires 0 < d <= d' && 0 <= e' <= e
    ensures d * (d' + e') <= d' * (d + e)
  {
    MulMono(d, d', e');
    MulMono(e', e, d');
    assert d * (d' + e') == d * d' + d * e';
    assert d' * (d + e) == d * d' + d' * e;
  }

  // ---------- what depositors are promised ----------

  lemma ZeroUtilizationPaysNothing(p: ReserveParams, overall: int)
    ensures DepositorRate(p, overall, 0) == 0
  {
  }

  lemma OverallNonNeg(stableDebt: int, variableDebt: int, variableRate: int, averageStableRate: int)
    requires stableDebt >= 0 && variableDebt >= 0 && variableRate >= 0 && averageStableRate >= 0
    ensures OverallBorrowRate(stableDebt, variableDebt, variableRate, averageStableRate) >= 0
  {
    var v, s := WadToRay(variableDebt), WadToRay(stableDebt);
    RayMulNearest(v, variableRate);
    RayMulNearest(s, averageStableRate);
    if stableDebt + variableDebt != 0 {
      RayDivNearest(RayMul(v, variableRate) + RayMul(s, averageStableRate), WadToRay(stableDebt + variableDebt));
    }
  }

  lemma WeightedSum(v: int, rv: int, s: int, rs: int)
    requires v >= 0 && rv >= 0 && s >= 0 && rs >= 0
    ensures
      var num := RayMul(WadToRay(v), rv) + RayMul(WadToRay(s), rs);
      num >= 0 && -RAY <= num * RAY - WAD_RAY_RATIO * (v * rv + s * rs) <= RAY
  {
    hide RayMul;
    RayMulNearest(WadToRay(v), rv);
    RayMulNearest(WadToRay(s), rs);
    assert WadToRay(v) * rv == WAD_RAY_RATIO * (v * rv);
    assert WadToRay(s) * rs == WAD_RAY_RATIO * (s * rs);
  }

  lemma AverageArithmetic(num: int, debt: int, paid: int)
    requires num >= 0 && debt > 0
    requires -RAY <= num * RAY - WAD_RAY_RATIO * paid <= RAY
    ensures
      var overall := RayDiv(num, WadToRay(debt));
      -(debt + 2 * (RAY / WAD_RAY_RATIO)) <= 2 * (overall * debt - paid) <= debt + 2 * (RAY / WAD_RAY_RATIO)
  {
    hide RayDiv;
    var den := WadToRay(debt);
    var overall := RayDiv(num, den);
    RayDivNearest(num, den);
    assert overall * den == WAD_RAY_RATIO * (overall * debt);
    assert (overall + 1) * den == overall * den + den;
  }

  /** The overall borrow rate is the debt-weighted average of the two rates, up to half a unit plus
      10^18 / debt. */
  lemma OverallIsWeightedAverage(stableDebt: int, variableDebt: int, variableRate: int, averageStableRate: int)
    requires stableDebt >= 0 && variableDebt >= 0 && stableDebt + variableDebt > 0
    requires variableRate >= 0 && averageStableRate >= 0
    ensures
      var debt := stableDebt + variableDebt;
      var paid := variableDebt * variableRate + stableDebt * averageStableRate;
      var overall := OverallBorrowRate(stableDebt, variableDebt, variableRate, averageStableRate);
      -(debt + 2 * (RAY / WAD_RAY_RATIO)) <= 2 * (overall * debt - paid) <= debt + 2 * (RAY / WAD_RAY_RATIO)
  {
    hide RayMul, RayDiv, WadToRay;
    WeightedSum(variableDebt, variableRate, stableDebt, averageStableRate);
    AverageArithmetic(RayMul(WadToRay(variableDebt), variableRate) + RayMul(WadToRay(stableDebt), averageStableRate),
                      stableDebt + variableDebt,
                      variableDebt * variableRate + stableDebt * averageStableRate);
  }

  /** The three roundings between the overall rate and the depositors' rate, put together. */
  lemma PromiseArithmetic(overall: int, u: int, x: int, rate: int, bps: int, debt: int, liquidity: int,
                          paid: int, slack: int)
    requires overall >= 0 && liquidity >= 0 && 0 <= bps <= PERCENTAGE_FACTOR && slack >= 0
    requires -HALF_RAY <= x * RAY - overall * u <= HALF_RAY
    requires -liquidity <= 2 * (u * liquidity) - 2 * (debt * RAY) <= liquidity
    requires -HALF_PERCENTAGE <= rate * PERCENTAGE_FACTOR - x * bps <= HALF_PERCENTAGE
    requires -slack <= 2 * (overall * debt - paid) <= slack
    ensures
      var bound := PERCENTAGE_FACTOR * (RAY * slack + 2 * (RAY * liquidity) + overall * liquidity);
      -bound <= 2 * RAY * (PERCENTAGE_FACTOR * (rate * liquidity) - paid * bps) <= bound
  {
    var e1, e2 := x * RAY - overall * u, 2 * (u * liquidity) - 2 * (debt * RAY);
    var e3, e4 := rate * PERCENTAGE_FACTOR - x * bps, 2 * (overall * debt - paid);
    PromiseExpand(overall, u, x, rate, bps, debt, liquidity, paid, e1, e2, e3, e4);
    PromiseTerms(overall, bps, liquidity, slack, e1, e2, e3, e4);
  }

  /** The size of the four error terms of the expansion. */
  lemma PromiseTerms(overall: int, bps: int, liquidity: int, slack: int, e1: int, e2: int, e3: int, e4: int)
    requires overall >= 0 && liquidity >= 0 && 0 <= bps <= PERCENTAGE_FACTOR && slack >= 0
    requires -HALF_RAY <= e1 <= HALF_RAY && -liquidity <= e2 <= liquidity
    requires -HALF_PERCENTAGE <= e3 <= HALF_PERCENTAGE && -slack <= e4 <= slack
    ensures
      var bound := PERCENTAGE_FACTOR * (RAY * slack + 2 * (RAY * liquidity) + overall * liquidity);
      -bound <= 2 * RAY * (e3 * liquidity) + 2 * (e1 * (bps * liquidity)) + e2 * (overall * bps)
        + RAY * (e4 * bps) <= bound
  {
    var bl, ob, ol := bps * liquidity, overall * bps, overall * liquidity;
    MulNonNeg(bps, liquidity);
    MulNonNeg(overall, bps);
    MulNonNeg(overall, liquidity);
    Scale(e3, HALF_PERCENTAGE, liquidity);
    Scale(e1, HALF_RAY, bl);
    Scale(e2, liquidity, ob);
    Scale(e4, slack, bps);
    MulMono(bps, PERCENTAGE_FACTOR, liquidity);
    MulMono(bps, PERCENTAGE_FACTOR, ol);
    MulMono(bps, PERCENTAGE_FACTOR, slack);
    Swap(liquidity, overall, bps);
    Swap(bps, overall, liquidity);
    Swap(overall, liquidity, bps);
    PromiseSum(liquidity, slack, ol, e3 * liquidity, e1 * bl, e2 * ob, e4 * bps);
  }

  lemma PromiseSum(liquidity: int, slack: int, ol: int, t3: int, t1: int, t2: int, t4: int)
    requires -(HALF_PERCENTAGE * liquidity) <= t3 <= HALF_PERCENTAGE * liquidity
    requires -(HALF_RAY * PERCENTAGE_FACTOR * liquidity) <= t1 <= HALF_RAY * PERCENTAGE_FACTOR * liquidity
    requires -(PERCENTAGE_FACTOR * ol) <= t2 <= PERCENTAGE_FACTOR * ol
    requires -(PERCENTAGE_FACTOR * slack) <= t4 <= PERCENTAGE_FACTOR * slack
    ensures
      var bound := PERCENTAGE_FACTOR * (RAY * slack + 2 * (RAY * liquidity) + ol);
      -bound <= 2 * RAY * t3 + 2 * t1 + t2 + RAY * t4 <= bound
  {
  }

  lemma Scale(e: int, bound: int, k: int)
    requires -bound <= e <= bound && k >= 0
    ensures -(bound * k) <= e * k <= bound * k
  {
    MulMono(e, bound, k);
    MulMono(-bound, e, k);
    assert (-bound) * k == -(bound * k);
  }

  lemma PromiseExpand(overall: int, u: int, x: int, rate: int, bps: int, debt: int, liquidity: int, paid: int,
                      e1: int, e2: int, e3: int, e4: int)
    requires e1 == x * RAY - overall * u
    requires e2 == 2 * (u * liquidity) - 2 * (debt * RAY)
    requires e3 == rate * PERCENTAGE_FACTOR - x * bps
    requires e4 == 2 * (overall * debt - paid)
    ensures 2 * RAY * (PERCENTAGE_FACTOR * (rate * liquidity) - paid * bps)
      == 2 * RAY * (e3 * liquidity) + 2 * (e1 * (bps * liquidity)) + e2 * (overall * bps) + RAY * (e4 * bps)
  {
    assert e3 * liquidity == PERCENTAGE_FACTOR * (rate * liquidity) - x * (bps * liquidity);
    assert e1 * (bps * liquidity) == RAY * (x * (bps * liquidity)) - overall * u * (bps * liquidity);
    assert e2 * (overall * bps) == 2 * (overall * u * (bps * liquidity)) - 2 * (RAY * (debt * (overall * bps)));
    assert e4 * bps == 2 * (debt * (overall * bps)) - 2 * (paid * bps);
  }

  /** Depositors are promised what borrowers pay less the reserve factor, and neither more nor less
      than that by more than the stated rounding. */
  lemma DepositorsGetWhatBorrowersPay(p: ReserveParams, market: int, available: int, stableDebt: int,
                                      variableDebt: int, averageStableRate: int)
    requires ValidParams(p)
    requires available >= 0 && stableDebt >= 0 && variableDebt >= 0 && stableDebt + variableDebt > 0
    requires averageStableRate >= 0
    ensures
      var debt := stableDebt + variableDebt;
      var liquidity := available + debt;
      var u := UtilizationRate(stableDebt, variableDebt, liquidity);
      var rates := ExpectedInterestRates(p, market, u, stableDebt, variableDebt, averageStableRate);
      var overall := OverallBorrowRate(stableDebt, variableDebt, rates.variable, averageStableRate);
      var paid := variableDebt * rates.variable + stableDebt * averageStableRate;
      var bound := PERCENTAGE_FACTOR *
        (RAY * (debt + 2 * (RAY / WAD_RAY_RATIO)) + 2 * (RAY * liquidity) + overall * liquidity);
      -bound <= 2 * RAY * (PERCENTAGE_FACTOR * (rates.liquidity * liquidity)
                           - paid * (PERCENTAGE_FACTOR - p.reserveFactor)) <= bound
  {
    hide RayMul, RayDiv, PercentMul, OverallBorrowRate, VariableRate, StableRate;
    var debt := stableDebt + variableDebt;
    var liquidity := available + debt;
    var u := UtilizationRate(stableDebt, variableDebt, liquidity);
    var variable := VariableRate(p, u);
    RayDivNearest(debt, liquidity);
    VariableRateNonNeg(p, u);
    OverallNonNeg(stableDebt, variableDebt, variable, averageStableRate);
    OverallIsWeightedAverage(stableDebt, variableDebt, variable, averageStableRate);
    var overall := OverallBorrowRate(stableDebt, variableDebt, variable, averageStableRate);
    RayMulNearest(overall, u);
    var x := RayMul(overall, u);
    var bps := PERCENTAGE_FACTOR - p.reserveFactor;
    PercentMulNearest(x, bps);
    assert (u + 1) * liquidity == u * liquidity + liquidity;
    PromiseArithmetic(overall, u, x, DepositorRate(p, overall, u), bps, debt, liquidity,
                      variableDebt * variable + stableDebt * averageStableRate, debt + 2 * (RAY / WAD_RAY_RATIO));
  }
}
