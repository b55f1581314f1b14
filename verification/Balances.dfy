/** Indices, token balances and stable-rate averages derived from the two records. */
module Balances {
  import opened RayMath
  import opened Interest
  import opened Records

  function LiquidityIndex(reserve: ReserveData, timestamp: int): int {
    if reserve.utilizationRate == 0 then reserve.liquidityIndex
    else
      RayMul(LinearInterest(reserve.liquidityRate, timestamp, reserve.lastUpdateTimestamp), reserve.liquidityIndex)
  }

  function VariableBorrowIndex(reserve: ReserveData, timestamp: int): int {
    if reserve.totalVariableDebt == 0 then reserve.variableBorrowIndex
    else
      RayMul(CompoundedInterest(reserve.variableBorrowRate, timestamp, reserve.lastUpdateTimestamp),
             reserve.variableBorrowIndex)
  }

  function NormalizedIncome(reserve: ReserveData, currentTimestamp: int): int {
    if reserve.liquidityRate == 0 then reserve.liquidityIndex
    else
      RayMul(LinearInterest(reserve.liquidityRate, currentTimestamp, reserve.lastUpdateTimestamp),
          reserve.liquidityIndex)
  }

  function NormalizedDebt(variableBorrowRate: int, variableBorrowIndex: int, lastUpdateTimestamp: int,
                          currentTimestamp: int): int
  {
    if variableBorrowRate == 0 then variableBorrowIndex
    else
      RayMul(CompoundedInterest(variableBorrowRate, currentTimestamp, lastUpdateTimestamp), variableBorrowIndex)
  }

  function ATokenBalance(reserve: ReserveData, user: UserReserveData, currentTimestamp: int): int {
    RayMul(user.scaledATokenBalance, NormalizedIncome(reserve, currentTimestamp))
  }

  function ScaledATokenBalance(user: UserReserveData, index: int, amountAdded: int, amountTaken: int): int
    requires index != 0
  {
    user.scaledATokenBalance + RayDiv(amountAdded, index) - RayDiv(amountTaken, index)
  }

  function VariableDebtBalance(reserve: ReserveData, scaledVariableDebt: int, currentTimestamp: int): int {
    RayMul(scaledVariableDebt,
           NormalizedDebt(reserve.variableBorrowRate, reserve.variableBorrowIndex, reserve.lastUpdateTimestamp,
                          currentTimestamp))
  }

  function StableDebtBalance(principalStableDebt: int, stableBorrowRate: int, stableRateLastUpdated: int,
                             currentTimestamp: int): int
  {
    if stableBorrowRate == 0 || currentTimestamp == stableRateLastUpdated || stableRateLastUpdated == 0 then
      principalStableDebt
    else
      RayMul(principalStableDebt, CompoundedInterest(stableBorrowRate, currentTimestamp, stableRateLastUpdated))
  }

  function UserStableDebt(user: UserReserveData, currentTimestamp: int): int {
    StableDebtBalance(user.principalStableDebt, user.stableBorrowRate, user.stableRateLastUpdated, currentTimestamp)
  }

  function UserVariableDebt(reserve: ReserveData, user: UserReserveData, currentTimestamp: int): int {
    VariableDebtBalance(reserve, user.scaledVariableDebt, currentTimestamp)
  }

  function TotalStableDebt(principalStableDebt: int, averageStableBorrowRate: int, lastUpdateTimestamp: int,
                           currentTimestamp: int): int
  {
    RayMul(CompoundedInterest(averageStableBorrowRate, currentTimestamp, lastUpdateTimestamp), principalStableDebt)
  }

  /** The reserve's stable debt accrued from its own last stable update. */
  function AccruedStableDebt(reserve: ReserveData, timestamp: int): int {
    TotalStableDebt(reserve.principalStableDebt, reserve.averageStableBorrowRate, reserve.totalStableDebtLastUpdated,
                    timestamp)
  }

  /** The reserve's variable debt accrued from its own last update. */
  function AccruedVariableDebt(reserve: ReserveData, timestamp: int): int {
    RayMul(reserve.scaledVariableDebt, VariableBorrowIndex(reserve, timestamp))
  }

  /** The average stable rate after a signed change of the stable debt at a given rate. */
  function AverageStableRate(averageBefore: int, totalBefore: int, amountChanged: int, rate: int): int {
    var total := totalBefore + amountChanged;
    if total == 0 then 0 else TruncDiv(averageBefore * totalBefore + rate * amountChanged, total)
  }

  function UserStableRate(balanceBefore: int, rateBefore: int, amount: int, rateNew: int): int
    requires balanceBefore + amount != 0
  {
    TruncDiv(balanceBefore * rateBefore + amount * rateNew, balanceBefore + amount)
  }

  // ---------- indices ----------

  /** What accrual needs of a reserve: rates and time run forward from indices of at least one ray. */
  predicate Accruable(reserve: ReserveData, timestamp: int) {
    && reserve.liquidityRate >= 0
    && reserve.variableBorrowRate >= 0
    && reserve.liquidityIndex >= RAY
    && reserve.variableBorrowIndex >= RAY
    && reserve.lastUpdateTimestamp <= timestamp
  }

  /** Both indices never decrease and never fall below one ray. */
  lemma IndicesGrow(reserve: ReserveData, timestamp: int)
    requires Accruable(reserve, timestamp)
    ensures LiquidityIndex(reserve, timestamp) >= reserve.liquidityIndex
    ensures VariableBorrowIndex(reserve, timestamp) >= reserve.variableBorrowIndex
    ensures NormalizedIncome(reserve, timestamp) >= reserve.liquidityIndex
  {
    hide CompoundedInterest, LinearInterest, RayMul;
    LinearAtLeastRay(reserve.liquidityRate, timestamp, reserve.lastUpdateTimestamp);
    CompoundedGrows(reserve.variableBorrowRate, reserve.lastUpdateTimestamp, timestamp, timestamp);
    RayMulGrows(LinearInterest(reserve.liquidityRate, timestamp, reserve.lastUpdateTimestamp), reserve.liquidityIndex);
    RayMulGrows(CompoundedInterest(reserve.variableBorrowRate, timestamp, reserve.lastUpdateTimestamp),
                reserve.variableBorrowIndex);
  }

  /** x is an index raised by a factor, to the nearest unit. */
  predicate Raised(x: int, index: int, factor: int) {
    -RAY <= 2 * RAY * x - 2 * (factor * index) <= RAY
  }

  /** Both indices rise by their accrual factors, and the one of a side nobody uses does not move. */
  lemma IndicesEarn(reserve: ReserveData, t: int)
    requires Accruable(reserve, t)
    ensures reserve.utilizationRate != 0 ==>
      Raised(LiquidityIndex(reserve, t), reserve.liquidityIndex,
             LinearInterest(reserve.liquidityRate, t, reserve.lastUpdateTimestamp))
    ensures reserve.utilizationRate == 0 ==> LiquidityIndex(reserve, t) == reserve.liquidityIndex
    ensures reserve.totalVariableDebt != 0 ==>
      Raised(VariableBorrowIndex(reserve, t), reserve.variableBorrowIndex,
             CompoundedInterest(reserve.variableBorrowRate, t, reserve.lastUpdateTimestamp))
    ensures reserve.totalVariableDebt == 0 ==> VariableBorrowIndex(reserve, t) == reserve.variableBorrowIndex
    ensures Raised(NormalizedIncome(reserve, t), reserve.liquidityIndex,
                   LinearInterest(reserve.liquidityRate, t, reserve.lastUpdateTimestamp))
  {
    hide CompoundedInterest, LinearInterest, RayMul;
    var t0 := reserve.lastUpdateTimestamp;
    LinearAtLeastRay(reserve.liquidityRate, t, t0);
    CompoundedGrows(reserve.variableBorrowRate, t0, t, t);
    RayMulNearest(LinearInterest(reserve.liquidityRate, t, t0), reserve.liquidityIndex);
    RayMulNearest(CompoundedInterest(reserve.variableBorrowRate, t, t0), reserve.variableBorrowIndex);
  }

  /** A deposit earns at least the linear interest on its scaled balance, in whole units. */
  lemma DepositEarns(reserve: ReserveData, user: UserReserveData, t: int)
    requires Accruable(reserve, t) && user.scaledATokenBalance >= 0
    ensures
      var t0 := reserve.lastUpdateTimestamp;
      var earned := LinearInterest(reserve.liquidityRate, t, t0) - RAY;
      && earned * ONE_YEAR <= reserve.liquidityRate * (t - t0) < (earned + 1) * ONE_YEAR
      && user.scaledATokenBalance * earned >= 0
      && ATokenBalance(reserve, user, t0) + user.scaledATokenBalance * earned / RAY <= ATokenBalance(reserve, user, t)
  {
    hide LinearInterest, RayMul;
    var t0, rate, index := reserve.lastUpdateTimestamp, reserve.liquidityRate, reserve.liquidityIndex;
    LinearEarns(rate, t, t0);
    LinearAtLeastRay(rate, t0, t0);
    LinearAtLeastRay(rate, t, t0);
    var earned := LinearInterest(rate, t, t0) - RAY;
    RayMulOne(index);
    RayMulFactorGains(RAY, earned, index);
    GainsAcross(user.scaledATokenBalance, NormalizedIncome(reserve, t0), NormalizedIncome(reserve, t), earned);
  }

  /** The income a depositor reads equals the new liquidity index, although one tests the rate and
      the other the utilization, because an unused reserve pays nothing. */
  lemma IncomeIsNewIndex(reserve: ReserveData, timestamp: int)
    requires Accruable(reserve, timestamp)
    requires reserve.utilizationRate == 0 ==> reserve.liquidityRate == 0
    ensures NormalizedIncome(reserve, timestamp) == LiquidityIndex(reserve, timestamp)
  {
    hide LinearInterest, RayMul;
    LinearAtLeastRay(reserve.liquidityRate, timestamp, reserve.lastUpdateTimestamp);
    RayMulOne(reserve.liquidityIndex);
  }

  /** The normalized debt a borrower reads equals the new borrow index whenever the reserve records
      variable debt, although one tests the rate and the other the recorded debt. */
  lemma DebtIsNewIndex(reserve: ReserveData, timestamp: int)
    requires Accruable(reserve, timestamp) && reserve.totalVariableDebt != 0
    ensures NormalizedDebt(reserve.variableBorrowRate, reserve.variableBorrowIndex, reserve.lastUpdateTimestamp,
        timestamp)
      == VariableBorrowIndex(reserve, timestamp)
  {
    hide CompoundedInterest, RayMul;
    CompoundedGrows(reserve.variableBorrowRate, reserve.lastUpdateTimestamp, timestamp, timestamp);
    RayMulOne(reserve.variableBorrowIndex);
  }

  /** A reserve updated in the second it is read in has the index it records. */
  lemma FreshBorrowIndex(r: ReserveData, t: int)
    requires Accruable(r, t) && r.lastUpdateTimestamp == t
    ensures VariableBorrowIndex(r, t) == r.variableBorrowIndex
  {
    hide CompoundedInterest, RayMul;
    CompoundedGrows(r.variableBorrowRate, t, t, t);
    RayMulOne(r.variableBorrowIndex);
  }

  /** A borrower's balance scaled back by the new borrow index is the scaled balance: the swap to
      stable and the full repayment remove exactly what the user holds. */
  lemma DebtScalesBack(reserve: ReserveData, scaled: int, timestamp: int)
    requires Accruable(reserve, timestamp) && scaled >= 0
    requires reserve.totalVariableDebt == 0 ==> scaled == 0
    ensures VariableBorrowIndex(reserve, timestamp) >= RAY
    ensures RayDiv(VariableDebtBalance(reserve, scaled, timestamp), VariableBorrowIndex(reserve, timestamp)) == scaled
  {
    hide CompoundedInterest, RayMul, RayDiv, TruncDiv;
    IndicesGrow(reserve, timestamp);
    var index := VariableBorrowIndex(reserve, timestamp);
    if scaled == 0 {
      RayMulZero(NormalizedDebt(reserve.variableBorrowRate, reserve.variableBorrowIndex,
                                reserve.lastUpdateTimestamp, timestamp));
      RayDivZero(index);
    } else {
      DebtIsNewIndex(reserve, timestamp);
      ScaledRoundTrip(scaled, index);
    }
  }

  lemma RayMulZero(b: int)
    ensures RayMul(0, b) == 0
  {
  }

  // ---------- accrual of debts ----------

  lemma NormalizedDebtGrows(rate: int, index: int, t0: int, t1: int, t2: int)
    requires rate >= 0 && index >= RAY && t0 <= t1 <= t2
    ensures index <= NormalizedDebt(rate, index, t0, t1) <= NormalizedDebt(rate, index, t0, t2)
    ensures t0 == t1 ==> NormalizedDebt(rate, index, t0, t1) == index
  {
    hide CompoundedInterest, RayMul;
    CompoundedGrows(rate, t0, t1, t2);
    RayMulGrows(CompoundedInterest(rate, t1, t0), index);
    RayMulOne(index);
    RayMulMono(CompoundedInterest(rate, t1, t0), CompoundedInterest(rate, t2, t0), index, index);
  }

  lemma StableDebtGrows(principal: int, rate: int, t0: int, t1: int, t2: int)
    requires principal >= 0 && rate >= 0 && t0 <= t1 <= t2
    ensures principal <= StableDebtBalance(principal, rate, t0, t1) <= StableDebtBalance(principal, rate, t0, t2)
  {
    hide CompoundedInterest, RayMul;
    CompoundedGrows(rate, t0, t1, t2);
    RayMulGrows(CompoundedInterest(rate, t1, t0), principal);
    RayMulGrows(CompoundedInterest(rate, t2, t0), principal);
    RayMulMono(principal, principal, CompoundedInterest(rate, t1, t0), CompoundedInterest(rate, t2, t0));
  }

  lemma JustUpdated(principal: int, rate: int, t: int)
    ensures StableDebtBalance(principal, rate, t, t) == principal
  {
  }

  lemma TotalStableDebtGrows(principal: int, rate: int, t0: int, t1: int, t2: int)
    requires principal >= 0 && rate >= 0 && t0 <= t1 <= t2
    ensures principal <= TotalStableDebt(principal, rate, t0, t1) <= TotalStableDebt(principal, rate, t0, t2)
    ensures t0 == t1 ==> TotalStableDebt(principal, rate, t0, t1) == principal
  {
    hide CompoundedInterest, RayMul;
    CompoundedGrows(rate, t0, t1, t2);
    RayMulGrows(CompoundedInterest(rate, t1, t0), principal);
    RayMulOne(principal);
    RayMulMono(CompoundedInterest(rate, t1, t0), CompoundedInterest(rate, t2, t0), principal, principal);
  }

  /** From one reading to a later one a stable debt grows by at least the simple interest on its
      principal, in whole units; a rate below one unit per second never accrues. */
  lemma StableDebtGains(principal: int, rate: int, t0: int, t1: int, t2: int)
    requires principal >= 0 && rate >= 0 && t0 <= t1 <= t2
    ensures principal * (PerSecond(rate) * (t2 - t1)) >= 0
    ensures t0 != 0 ==>
      StableDebtBalance(principal, rate, t0, t1) + principal * (PerSecond(rate) * (t2 - t1)) / RAY
        <= StableDebtBalance(principal, rate, t0, t2)
    ensures t0 == 0 || PerSecond(rate) == 0 || principal == 0 ==>
      StableDebtBalance(principal, rate, t0, t1) == StableDebtBalance(principal, rate, t0, t2)
  {
    hide CompoundedInterest, RayMul, PerSecond;
    CompoundedGrows(rate, t0, t1, t2);
    CompoundedGains(rate, t0, t1, t2);
    CompoundedGains(rate, t0, t0, t1);
    SmallRate(rate);
    MulNonNeg(PerSecond(rate), t2 - t1);
    MulNonNeg(principal, PerSecond(rate) * (t2 - t1));
    GainsAcross(principal, CompoundedInterest(rate, t1, t0), CompoundedInterest(rate, t2, t0),
                PerSecond(rate) * (t2 - t1));
    RayMulOne(principal);
    RayMulZero(CompoundedInterest(rate, t1, t0));
    RayMulZero(CompoundedInterest(rate, t2, t0));
  }

  lemma GainsAcross(a: int, from: int, to: int, k: int)
    requires a >= 0 && from >= 0 && k >= 0 && from + k <= to
    ensures a * k >= 0
    ensures RayMul(a, from) + a * k / RAY <= RayMul(a, to)
  {
    RayMulGains(a, from, k);
    RayMulMono(a, a, from + k, to);
  }

  /** The normalized debt gains at least the simple interest on one ray. */
  lemma NormalizedDebtGains(rate: int, index: int, t0: int, t1: int, t2: int)
    requires rate >= 0 && index >= RAY && t0 <= t1 <= t2
    ensures PerSecond(rate) * (t2 - t1) >= 0
    ensures NormalizedDebt(rate, index, t0, t1) + PerSecond(rate) * (t2 - t1) <= NormalizedDebt(rate, index, t0, t2)
    ensures PerSecond(rate) == 0 ==> NormalizedDebt(rate, index, t0, t2) == index
  {
    hide CompoundedInterest, RayMul, PerSecond;
    var k := PerSecond(rate) * (t2 - t1);
    SmallRate(rate);
    MulNonNeg(PerSecond(rate), t2 - t1);
    CompoundedGrows(rate, t0, t1, t2);
    CompoundedGains(rate, t0, t1, t2);
    RayMulOne(index);
    var from, to := CompoundedInterest(rate, t1, t0), CompoundedInterest(rate, t2, t0);
    RayMulFactorGains(from, k, index);
    RayMulMono(from + k, to, index, index);
  }

  /** From one reading to a later one a variable debt grows by at least the simple interest on the
      scaled debt, in whole units. */
  lemma VariableDebtGains(reserve: ReserveData, scaled: int, t1: int, t2: int)
    requires Accruable(reserve, t1) && t1 <= t2 && scaled >= 0
    ensures scaled * (PerSecond(reserve.variableBorrowRate) * (t2 - t1)) >= 0
    ensures
      VariableDebtBalance(reserve, scaled, t1) + scaled * (PerSecond(reserve.variableBorrowRate) * (t2 - t1)) / RAY
        <= VariableDebtBalance(reserve, scaled, t2)
    ensures PerSecond(reserve.variableBorrowRate) == 0 || scaled == 0 ==>
      VariableDebtBalance(reserve, scaled, t1) == VariableDebtBalance(reserve, scaled, t2)
  {
    hide NormalizedDebt, RayMul, PerSecond, CompoundedInterest;
    var rate, index, t0 := reserve.variableBorrowRate, reserve.variableBorrowIndex, reserve.lastUpdateTimestamp;
    NormalizedDebtGrows(rate, index, t0, t1, t2);
    NormalizedDebtGains(rate, index, t0, t1, t2);
    NormalizedDebtGains(rate, index, t0, t0, t1);
    var from, to := NormalizedDebt(rate, index, t0, t1), NormalizedDebt(rate, index, t0, t2);
    GainsAcross(scaled, from, to, PerSecond(rate) * (t2 - t1));
    RayMulZero(from);
    RayMulZero(to);
  }

  /** What a user reads as variable debt beyond the reserve's own borrow index. */
  function UnrecordedInterest(reserve: ReserveData, user: UserReserveData, timestamp: int): int {
    UserVariableDebt(reserve, user, timestamp)
      - RayMul(user.scaledVariableDebt, VariableBorrowIndex(reserve, timestamp))
  }

  /** Readings and the borrow index part only when the reserve records no variable debt: they agree
      if it records some, if the user holds none, if no time has passed or if the rate is below one
      unit per second, and otherwise the user reads more, by at least the simple interest in whole
      units. */
  lemma WhenInterestIsUnrecorded(reserve: ReserveData, user: UserReserveData, t: int)
    requires Accruable(reserve, t) && user.scaledVariableDebt >= 0
    ensures UnrecordedInterest(reserve, user, t) >= 0
    ensures
      reserve.totalVariableDebt != 0 || user.scaledVariableDebt == 0 || t == reserve.lastUpdateTimestamp
        || reserve.variableBorrowRate < ONE_YEAR
      ==> UnrecordedInterest(reserve, user, t) == 0
    ensures reserve.totalVariableDebt == 0 ==>
      user.scaledVariableDebt * (PerSecond(reserve.variableBorrowRate) * (t - reserve.lastUpdateTimestamp)) / RAY
        <= UnrecordedInterest(reserve, user, t)
  {
    hide NormalizedDebt, RayMul, PerSecond, CompoundedInterest;
    var rate, index, t0 := reserve.variableBorrowRate, reserve.variableBorrowIndex, reserve.lastUpdateTimestamp;
    NormalizedDebtGrows(rate, index, t0, t, t);
    NormalizedDebtGrows(rate, index, t0, t0, t);
    VariableDebtGains(reserve, user.scaledVariableDebt, t0, t);
    SmallRate(rate);
    MulNonNeg(PerSecond(rate), t - t0);
    MulNonNeg(user.scaledVariableDebt, PerSecond(rate) * (t - t0));
    if reserve.totalVariableDebt != 0 {
      DebtIsNewIndex(reserve, t);
    }
  }

  lemma SmallRate(rate: int)
    requires rate >= 0
    ensures PerSecond(rate) >= 0
    ensures PerSecond(rate) == 0 <==> rate < ONE_YEAR
  {
    TruncDivBrackets(rate, ONE_YEAR);
  }

  lemma VariableDebtGrows(reserve: ReserveData, t1: int, t2: int)
    requires Accruable(reserve, t1) && t1 <= t2 && reserve.scaledVariableDebt >= 0
    ensures reserve.scaledVariableDebt <= AccruedVariableDebt(reserve, t1) <= AccruedVariableDebt(reserve, t2)
  {
    hide CompoundedInterest, RayMul;
    IndicesGrow(reserve, t1);
    CompoundedGrows(reserve.variableBorrowRate, reserve.lastUpdateTimestamp, t1, t2);
    RayMulMono(CompoundedInterest(reserve.variableBorrowRate, t1, reserve.lastUpdateTimestamp),
               CompoundedInterest(reserve.variableBorrowRate, t2, reserve.lastUpdateTimestamp),
               reserve.variableBorrowIndex, reserve.variableBorrowIndex);
    RayMulMono(reserve.scaledVariableDebt, reserve.scaledVariableDebt,
               VariableBorrowIndex(reserve, t1), VariableBorrowIndex(reserve, t2));
    RayMulGrows(VariableBorrowIndex(reserve, t1), reserve.scaledVariableDebt);
  }

  // ---------- averages ----------

  lemma AverageNonNeg(averageBefore: int, totalBefore: int, amount: int, rate: int)
    requires averageBefore >= 0 && totalBefore >= 0 && amount >= 0 && rate >= 0
    ensures AverageStableRate(averageBefore, totalBefore, amount, rate) >= 0
  {
    MulNonNeg(averageBefore, totalBefore);
    MulNonNeg(rate, amount);
  }

  /** Adding debt keeps the average between the old average and the new rate. */
  lemma AverageBetween(averageBefore: int, totalBefore: int, amount: int, rate: int, low: int, high: int)
    requires averageBefore >= 0 && totalBefore >= 0 && amount >= 0 && rate >= 0 && totalBefore + amount > 0
    requires low <= averageBefore <= high && low <= rate <= high
    ensures low <= AverageStableRate(averageBefore, totalBefore, amount, rate) <= high
  {
    hide TruncDiv;
    var total := totalBefore + amount;
    TruncDivBrackets(averageBefore * totalBefore + rate * amount, total);
    MulNonNeg(averageBefore, totalBefore);
    MulNonNeg(rate, amount);
    MulMono(low, averageBefore, totalBefore);
    MulMono(averageBefore, high, totalBefore);
    MulMono(low, rate, amount);
    MulMono(rate, high, amount);
    var x := averageBefore * totalBefore + rate * amount;
    Distribute(low, totalBefore, amount, 0, 0);
    Distribute(high, totalBefore, amount, 0, 0);
    StepDown(high, total);
    var q := AverageStableRate(averageBefore, totalBefore, amount, rate);
    QuotientOrder(q, high, total, x, x);
    QuotientOrder(low, q, total, x, x);
  }

  /** Removing debt: the average is non-negative if and only if the weighted remainder is above
      minus the remaining total, because the quotient truncates towards zero. */
  lemma AverageAfterRemoval(averageBefore: int, totalBefore: int, amount: int, rate: int)
    requires totalBefore > amount
    ensures AverageStableRate(averageBefore, totalBefore, -amount, rate) >= 0
      <==> averageBefore * totalBefore - rate * amount > -(totalBefore - amount)
  {
    var total := totalBefore - amount;
    var x := averageBefore * totalBefore + rate * -amount;
    assert rate * -amount == -(rate * amount);
    hide TruncDiv;
    var q := TruncDiv(x, total);
    TruncDivBrackets(x, total);
    if x < 0 {
      if q >= 0 {
        MulNonNeg(q, total);
      } else {
        MulMono(q, -1, total);
      }
    }
  }

  // ---------- touching the reserve midway ----------

  lemma MidwayArithmetic(l1: int, l2: int, l12: int, i: int, j: int, k: int, one: int)
    requires l2 >= 0 && i >= 0
    requires l1 * l2 >= RAY * (l12 - 1)
    requires 2 * (j * RAY) > 2 * (l1 * i) - RAY
    requires 2 * (k * RAY) > 2 * (l2 * j) - RAY
    requires 2 * (one * RAY) <= 2 * (l12 * i) + RAY
    ensures 2 * RAY * (one - k) < 2 * i + l2 + 2 * RAY
  {
    MulMono(2 * (l1 * i) - RAY + 1, 2 * (j * RAY), l2);
    MulMono(RAY * (l12 - 1), l1 * l2, i);
    assert 2 * (j * RAY) * l2 == 2 * RAY * (l2 * j);
    assert (2 * (l1 * i) - RAY + 1) * l2 == 2 * (l1 * l2 * i) - RAY * l2 + l2;
    assert RAY * (l12 - 1) * i == RAY * (l12 * i) - RAY * i;
    assert RAY * (2 * (l2 * j)) >= RAY * (2 * (l12 * i) - 2 * i - l2);
  }

  /** Touching the reserve midway costs depositors at most rounding: accruing the liquidity index up
      to t1 and then up to t2 at an unchanged rate falls short of the one-shot index by less than
      index / RAY + linear(t2 - t1) / (2 * RAY) + 1. */
  lemma TouchingMidway(reserve: ReserveData, t1: int, t2: int)
    requires Accruable(reserve, t1) && t1 <= t2
    ensures
      var touched := reserve.(liquidityIndex := LiquidityIndex(reserve, t1), lastUpdateTimestamp := t1);
      2 * RAY * (LiquidityIndex(reserve, t2) - LiquidityIndex(touched, t2))
        < 2 * reserve.liquidityIndex + LinearInterest(reserve.liquidityRate, t2, t1) + 2 * RAY
  {
    hide LinearInterest, RayMul;
    var rate, t0, i := reserve.liquidityRate, reserve.lastUpdateTimestamp, reserve.liquidityIndex;
    LinearAtLeastRay(rate, t1, t0);
    LinearAtLeastRay(rate, t2, t1);
    LinearAtLeastRay(rate, t2, t0);
    if reserve.utilizationRate != 0 {
      var l1, l2, l12 := LinearInterest(rate, t1, t0), LinearInterest(rate, t2, t1), LinearInterest(rate, t2, t0);
      LinearSplit(rate, t0, t1, t2);
      RayMulNearest(l1, i);
      RayMulNearest(l12, i);
      var j := RayMul(l1, i);
      RayMulNearest(l2, j);
      MidwayArithmetic(l1, l2, l12, i, j, RayMul(l2, j), RayMul(l12, i));
    }
  }
}
