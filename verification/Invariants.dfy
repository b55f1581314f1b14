/** What every step keeps, and hence what holds throughout every story. */
module Invariants {
  import opened RayMath
  import opened Interest
  import opened Records
  import opened Rates
  import opened Balances
  import opened ReserveTransitions
  import opened UserTransitions
  import opened Market

  ghost predicate ReserveInv(r: ReserveData, now: int) {
    && 0 <= r.availableLiquidity && 0 <= r.totalLiquidity
    && 0 <= r.totalStableDebt && 0 <= r.totalVariableDebt
    && 0 <= r.principalStableDebt && 0 <= r.scaledVariableDebt
    && 0 <= r.averageStableBorrowRate && 0 <= r.marketStableRate
    && 0 <= r.liquidityRate && 0 <= r.stableBorrowRate && 0 <= r.variableBorrowRate
    && 0 <= r.utilizationRate
    && RAY <= r.liquidityIndex && RAY <= r.variableBorrowIndex
    && r.lastUpdateTimestamp <= now && r.totalStableDebtLastUpdated <= now
    && (r.utilizationRate == 0 ==> r.liquidityRate == 0)
    && (r.totalVariableDebt == 0 ==> r.scaledVariableDebt == 0)
    && (r.totalStableDebtLastUpdated == 0 ==> r.averageStableBorrowRate == 0)
    && r.totalLiquidity <= Outstanding(r)
  }

  /** The recorded totals are never ahead of the debts accrued from now on. */
  ghost predicate NotAhead(r: ReserveData, now: int) {
    && (forall t :: now <= t ==> r.totalStableDebt <= AccruedStableDebt(r, t))
    && (forall t :: now <= t ==> r.totalVariableDebt <= AccruedVariableDebt(r, t))
  }

  ghost predicate UserInv(u: UserReserveData, now: int) {
    && 0 <= u.scaledATokenBalance && 0 <= u.currentATokenBalance
    && 0 <= u.currentStableDebt && 0 <= u.principalStableDebt
    && 0 <= u.currentVariableDebt && 0 <= u.scaledVariableDebt
    && 0 <= u.liquidityRate && 0 <= u.stableBorrowRate
    && u.stableRateLastUpdated <= now
    && 0 <= u.walletBalance
  }

  ghost predicate Inv(s: State) {
    && ReserveInv(s.reserve, s.now)
    && NotAhead(s.reserve, s.now)
    && 0 < s.now
    && forall i :: 0 <= i < |s.users| ==> UserInv(s.users[i], s.now)
  }

  // ---------- the reserve ----------

  lemma InvParts(s: State)
    requires Inv(s)
    ensures ReserveInv(s.reserve, s.now) && NotAhead(s.reserve, s.now)
  {
  }

  /** What a ledger must satisfy for the repriced record to satisfy the invariant. */
  ghost predicate LedgerInv(l: ReserveData, tx: int) {
    && CanPrice(l)
    && 0 <= l.availableLiquidity && 0 <= l.totalLiquidity <= Outstanding(l)
    && 0 <= l.totalStableDebt && 0 <= l.principalStableDebt && 0 <= l.scaledVariableDebt <= l.totalVariableDebt
    && 0 <= l.averageStableBorrowRate && 0 <= l.marketStableRate
    && RAY <= l.liquidityIndex && RAY <= l.variableBorrowIndex
    && l.lastUpdateTimestamp == tx && l.totalStableDebtLastUpdated <= tx
    && (l.totalStableDebtLastUpdated == 0 ==> l.averageStableBorrowRate == 0)
  }

  /** The ledger's totals belong to the transaction: the variable debt is the scaled debt at the new
      index, the stable debt at most what has accrued. */
  ghost predicate LedgerFresh(l: ReserveData, tx: int) {
    && l.totalVariableDebt == RayMul(l.scaledVariableDebt, l.variableBorrowIndex)
    && l.totalStableDebt <= AccruedStableDebt(l, tx)
  }

  lemma PricedRatesNonNeg(p: ReserveParams, l: ReserveData)
    requires ValidParams(p) && CanPrice(l)
    requires 0 <= l.totalStableDebt && 0 <= l.totalVariableDebt && 0 <= l.totalLiquidity
    requires 0 <= l.averageStableBorrowRate && 0 <= l.marketStableRate
    ensures
      var r := Priced(p, l);
      && 0 <= r.utilizationRate && 0 <= r.liquidityRate && 0 <= r.stableBorrowRate && 0 <= r.variableBorrowRate
      && (r.utilizationRate == 0 ==> r.liquidityRate == 0)
  {
    hide OverallBorrowRate, Curve, RayMul, UtilizationRate;
    var u := UtilizationRate(l.totalStableDebt, l.totalVariableDebt, l.totalLiquidity);
    UtilizationNonNeg(l.totalStableDebt, l.totalVariableDebt, l.totalLiquidity);
    CurveMono(p.baseVariableBorrowRate, p.variableRateSlope1, p.variableRateSlope2, p.optimalUtilizationRate, u, u);
    CurveMono(l.marketStableRate, p.stableRateSlope1, p.stableRateSlope2, p.optimalUtilizationRate, u, u);
    var variable := VariableRate(p, u);
    var overall :=
      OverallBorrowRate(l.totalStableDebt, l.totalVariableDebt, variable, l.averageStableBorrowRate);
    OverallNonNeg(l.totalStableDebt, l.totalVariableDebt, variable, l.averageStableBorrowRate);
    DepositorRateNonNeg(p, overall, u);
  }

  lemma DepositorRateNonNeg(p: ReserveParams, overall: int, u: int)
    requires ValidParams(p) && overall >= 0 && u >= 0
    ensures DepositorRate(p, overall, u) >= 0
    ensures u == 0 ==> DepositorRate(p, overall, u) == 0
  {
    RayMulNearest(overall, u);
    PercentMulNearest(RayMul(overall, u), PERCENTAGE_FACTOR - p.reserveFactor);
    if u == 0 {
      ZeroUtilizationPaysNothing(p, overall);
    }
  }

  /** A freshly settled variable debt accrues from exactly its recorded value. */
  lemma SettledVariableDebt(r: ReserveData, now: int)
    requires r.variableBorrowRate >= 0 && r.variableBorrowIndex >= RAY && r.lastUpdateTimestamp <= now
    requires r.scaledVariableDebt >= 0
    requires r.totalVariableDebt == RayMul(r.scaledVariableDebt, r.variableBorrowIndex)
    ensures 0 <= r.totalVariableDebt <= AccruedVariableDebt(r, now)
    ensures r.totalVariableDebt == 0 ==> r.scaledVariableDebt == 0
  {
    hide RayMul, CompoundedInterest;
    CompoundedGrows(r.variableBorrowRate, r.lastUpdateTimestamp, now, now);
    RayMulGrows(CompoundedInterest(r.variableBorrowRate, now, r.lastUpdateTimestamp), r.variableBorrowIndex);
    RayMulGrows(r.variableBorrowIndex, r.scaledVariableDebt);
    RayMulMono(r.scaledVariableDebt, r.scaledVariableDebt, r.variableBorrowIndex, VariableBorrowIndex(r, now));
  }

  lemma PricedKeeps(p: ReserveParams, l: ReserveData, tx: int, now: int)
    requires ValidParams(p) && LedgerInv(l, tx) && tx <= now
    ensures ReserveInv(Priced(p, l), now)
  {
    hide ExpectedInterestRates, UtilizationRate;
    PricedRatesNonNeg(p, l);
  }

  lemma PricedNotAhead(p: ReserveParams, l: ReserveData, tx: int, now: int)
    requires ValidParams(p) && LedgerInv(l, tx) && LedgerFresh(l, tx) && tx <= now
    ensures NotAhead(Priced(p, l), now)
  {
    hide RayMul, CompoundedInterest, ExpectedInterestRates, UtilizationRate, VariableBorrowIndex, TotalStableDebt;
    PricedRatesNonNeg(p, l);
    forall t | now <= t
      ensures Priced(p, l).totalVariableDebt <= AccruedVariableDebt(Priced(p, l), t)
      ensures l.totalStableDebt <= AccruedStableDebt(Priced(p, l), t)
    {
      SettledVariableDebt(Priced(p, l), t);
      TotalStableDebtGrows(l.principalStableDebt, l.averageStableBorrowRate, l.totalStableDebtLastUpdated, tx, t);
    }
  }

  lemma PricedSound(p: ReserveParams, l: ReserveData, tx: int, now: int)
    requires ValidParams(p) && LedgerInv(l, tx) && LedgerFresh(l, tx) && tx <= now
    ensures ReserveInv(Priced(p, l), now) && NotAhead(Priced(p, l), now)
  {
    PricedKeeps(p, l, tx, now);
    PricedNotAhead(p, l, tx, now);
  }

  /** The accrued debts and indices are no less than the principal amounts and the old indices. */
  lemma AccrualFloor(r: ReserveData, now: int, tx: int)
    requires ReserveInv(r, now) && now <= tx
    ensures r.principalStableDebt <= AccruedStableDebt(r, tx)
    ensures r.scaledVariableDebt <= AccruedVariableDebt(r, tx)
    ensures VariableBorrowIndex(r, tx) >= r.variableBorrowIndex && LiquidityIndex(r, tx) >= r.liquidityIndex
  {
    hide RayMul, CompoundedInterest, VariableBorrowIndex, LiquidityIndex, TotalStableDebt;
    IndicesGrow(r, tx);
    VariableDebtGrows(r, tx, tx);
    TotalStableDebtGrows(r.principalStableDebt, r.averageStableBorrowRate, r.totalStableDebtLastUpdated, tx, tx);
  }

  lemma DepositKeepsLedger(r: ReserveData, now: int, amount: int, tx: int)
    requires ReserveInv(r, now) && NotAhead(r, now) && 0 < now <= tx && 0 < amount
    ensures LedgerInv(DepositLedger(amount, r, tx), tx) && LedgerFresh(DepositLedger(amount, r, tx), tx)
  {
    hide RayMul, CompoundedInterest, VariableBorrowIndex, LiquidityIndex, TotalStableDebt;
    AccrualFloor(r, now, tx);
  }

  lemma WithdrawKeepsLedger(r: ReserveData, now: int, withdrawn: int, tx: int)
    requires ReserveInv(r, now) && 0 < now <= tx && withdrawn <= r.availableLiquidity
    ensures LedgerInv(WithdrawLedger(withdrawn, r, tx), tx) && LedgerFresh(WithdrawLedger(withdrawn, r, tx), tx)
  {
    hide RayMul, CompoundedInterest, VariableBorrowIndex, LiquidityIndex, TotalStableDebt;
    AccrualFloor(r, now, tx);
  }

  lemma BorrowKeepsLedger(r: ReserveData, now: int, amount: int, mode: RateMode, tx: int)
    requires ReserveInv(r, now) && 0 < now <= tx && 0 < amount <= r.availableLiquidity
    ensures VariableBorrowIndex(r, tx) >= RAY
    ensures LedgerInv(BorrowLedger(amount, mode, r, tx), tx) && LedgerFresh(BorrowLedger(amount, mode, r, tx), tx)
  {
    hide RayMul, CompoundedInterest, VariableBorrowIndex, LiquidityIndex, TotalStableDebt, RayDiv, AverageStableRate,
      StableDebtBalance;
    AccrualFloor(r, now, tx);
    var debt := AccruedStableDebt(r, tx);
    if mode == Stable {
      AverageNonNeg(r.averageStableBorrowRate, debt, amount, r.stableBorrowRate);
      TotalStableDebtGrows(debt + amount, BorrowLedger(amount, mode, r, tx).averageStableBorrowRate, tx, tx, tx);
    } else {
      RayDivNearest(amount, VariableBorrowIndex(r, tx));
      RayMulGrows(VariableBorrowIndex(r, tx), BorrowLedger(amount, mode, r, tx).scaledVariableDebt);
      BalanceBelowTotal(r, tx);
    }
  }

  /** The token-balance form of the stable debt never exceeds the total-debt form. */
  lemma BalanceBelowTotal(r: ReserveData, tx: int)
    requires 0 <= r.principalStableDebt && 0 <= r.averageStableBorrowRate && r.totalStableDebtLastUpdated <= tx
    ensures 0 <= StableDebtBalance(r.principalStableDebt, r.averageStableBorrowRate, r.totalStableDebtLastUpdated, tx)
      <= AccruedStableDebt(r, tx)
  {
    hide CompoundedInterest;
    TotalStableDebtGrows(r.principalStableDebt, r.averageStableBorrowRate, r.totalStableDebtLastUpdated, tx, tx);
    var factor := CompoundedInterest(r.averageStableBorrowRate, tx, r.totalStableDebtLastUpdated);
    CompoundedGrows(r.averageStableBorrowRate, r.totalStableDebtLastUpdated, tx, tx);
    RayMulGrows(factor, r.principalStableDebt);
    RayMulSwap(factor, r.principalStableDebt);
  }

  lemma RepayKeepsLedger(r: ReserveData, now: int, repaid: int, rate: int, mode: RateMode, tx: int)
    requires ReserveInv(r, now) && NotAhead(r, now) && 0 < now <= tx && 0 <= repaid
    requires mode != Stable ==> BurnedScaled(r, repaid, tx) <= r.scaledVariableDebt
    ensures VariableBorrowIndex(r, tx) >= RAY
    ensures LedgerInv(RepayLedger(repaid, mode, r, rate, tx), tx)
      && LedgerFresh(RepayLedger(repaid, mode, r, rate, tx), tx)
  {
    hide RayMul, CompoundedInterest, VariableBorrowIndex, LiquidityIndex, TotalStableDebt, RayDiv, AverageStableRate;
    AccrualFloor(r, now, tx);
    var l := RepayLedger(repaid, mode, r, rate, tx);
    if mode == Stable {
      TotalStableDebtGrows(l.principalStableDebt, l.averageStableBorrowRate, tx, tx, tx);
    } else {
      RayMulGrows(l.variableBorrowIndex, l.scaledVariableDebt);
    }
  }

  lemma SwapKeepsLedger(r: ReserveData, now: int, moved: int, rate: int, mode: RateMode, tx: int)
    requires ReserveInv(r, now) && 0 < now <= tx && 0 < moved
    requires mode == Stable ==> RemovableStableDebt(r, moved, rate, tx)
    requires mode != Stable ==> BurnedScaled(r, moved, tx) <= r.scaledVariableDebt
    ensures VariableBorrowIndex(r, tx) >= RAY
    ensures LedgerInv(SwapLedger(moved, mode, r, rate, tx), tx) && LedgerFresh(SwapLedger(moved, mode, r, rate, tx), tx)
  {
    hide RayMul, CompoundedInterest, VariableBorrowIndex, LiquidityIndex, TotalStableDebt, RayDiv, AverageStableRate;
    AccrualFloor(r, now, tx);
    var l := SwapLedger(moved, mode, r, rate, tx);
    var total := AccruedStableDebt(r, tx);
    if mode == Stable {
      RayDivNearest(moved, l.variableBorrowIndex);
      if moved < total {
        AverageAfterRemoval(r.averageStableBorrowRate, total, moved, rate);
      } else {
        AverageOfNothing(r.averageStableBorrowRate, total, rate);
      }
    } else {
      AverageNonNeg(r.averageStableBorrowRate, r.totalStableDebt, moved, r.stableBorrowRate);
    }
    RayMulGrows(l.variableBorrowIndex, l.scaledVariableDebt);
    TotalStableDebtGrows(l.principalStableDebt, l.averageStableBorrowRate, tx, tx, tx);
  }

  lemma AverageOfNothing(average: int, total: int, rate: int)
    ensures AverageStableRate(average, total, -total, rate) == 0
  {
  }

  /** A borrow is reported at a later time than it is priced. The report keeps the invariant, and a
      report that shows no utilization still pays nothing. */
  lemma ReportKeeps(r: ReserveData, tx: int, now: int)
    requires ReserveInv(r, tx) && r.lastUpdateTimestamp == tx <= now
    requires r.totalLiquidity == Outstanding(r)
    requires r.totalVariableDebt == RayMul(r.scaledVariableDebt, r.variableBorrowIndex)
    requires r.totalStableDebt <= AccruedStableDebt(r, tx)
    requires CanPrice(r)
    requires r.utilizationRate == UtilizationRate(r.totalStableDebt, r.totalVariableDebt, r.totalLiquidity)
    ensures CanPrice(AccruedTo(r, now))
    ensures ReserveInv(Reported(r, now), now) && NotAhead(Reported(r, now), now)
  {
    hide RayMul, CompoundedInterest, UtilizationRate, TotalStableDebt, NormalizedDebt, VariableBorrowIndex;
    var a := AccruedTo(r, now);
    TotalStableDebtGrows(r.principalStableDebt, r.averageStableBorrowRate, r.totalStableDebtLastUpdated, tx, now);
    ReportedVariableDebt(r, now);
    UtilizationMono(r.totalStableDebt, r.totalVariableDebt, r.totalLiquidity,
                    a.totalStableDebt, a.totalVariableDebt, a.totalLiquidity);
    UtilizationNonNeg(a.totalStableDebt, a.totalVariableDebt, a.totalLiquidity);
    ReportNotAhead(Reported(r, now), now);
  }

  lemma ReportNotAhead(rep: ReserveData, now: int)
    requires Accruable(rep, now) && rep.scaledVariableDebt >= 0
    requires rep.principalStableDebt >= 0 && rep.averageStableBorrowRate >= 0 && rep.totalStableDebtLastUpdated <= now
    requires rep.totalStableDebt == AccruedStableDebt(rep, now)
    requires rep.totalVariableDebt == VariableDebtBalance(rep, rep.scaledVariableDebt, now)
    ensures NotAhead(rep, now)
  {
    hide RayMul, CompoundedInterest, NormalizedDebt, VariableBorrowIndex, TotalStableDebt;
    ReportedStillAccrues(rep, now);
    forall t | now <= t
      ensures rep.totalVariableDebt <= AccruedVariableDebt(rep, t)
      ensures rep.totalStableDebt <= AccruedStableDebt(rep, t)
    {
      VariableDebtGrows(rep, now, t);
      TotalStableDebtGrows(rep.principalStableDebt, rep.averageStableBorrowRate, rep.totalStableDebtLastUpdated,
        now, t);
    }
  }

  lemma ReportedVariableDebt(r: ReserveData, now: int)
    requires r.variableBorrowRate >= 0 && r.variableBorrowIndex >= RAY && r.scaledVariableDebt >= 0
    requires r.lastUpdateTimestamp <= now
    ensures 0 <= r.scaledVariableDebt <= RayMul(r.scaledVariableDebt, r.variableBorrowIndex)
      <= VariableDebtBalance(r, r.scaledVariableDebt, now)
  {
    hide RayMul, CompoundedInterest, NormalizedDebt;
    NormalizedDebtGrows(r.variableBorrowRate, r.variableBorrowIndex, r.lastUpdateTimestamp, now, now);
    RayMulGrows(r.variableBorrowIndex, r.scaledVariableDebt);
    RayMulMono(r.scaledVariableDebt, r.scaledVariableDebt, r.variableBorrowIndex,
               NormalizedDebt(r.variableBorrowRate, r.variableBorrowIndex, r.lastUpdateTimestamp, now));
  }

  lemma ReportedStillAccrues(rep: ReserveData, now: int)
    requires Accruable(rep, now) && rep.scaledVariableDebt >= 0
    requires rep.totalVariableDebt == VariableDebtBalance(rep, rep.scaledVariableDebt, now)
    ensures rep.totalVariableDebt <= AccruedVariableDebt(rep, now)
  {
    hide RayMul, CompoundedInterest, NormalizedDebt, VariableBorrowIndex;
    if rep.totalVariableDebt != 0 {
      DebtIsNewIndex(rep, now);
    } else {
      VariableDebtGrows(rep, now, now);
    }
  }

  // ---------- one step ----------

  lemma UserDebtsNonNeg(r: ReserveData, u: UserReserveData, now: int, tx: int)
    requires ReserveInv(r, now) && UserInv(u, now) && now <= tx
    ensures UserStableDebt(u, tx) >= 0 && UserVariableDebt(r, u, tx) >= 0
    ensures u.principalStableDebt <= UserStableDebt(u, tx)
  {
    hide RayMul, CompoundedInterest, NormalizedDebt, StableDebtBalance;
    StableDebtGrows(u.principalStableDebt, u.stableBorrowRate, u.stableRateLastUpdated, tx, tx);
    NormalizedDebtGrows(r.variableBorrowRate, r.variableBorrowIndex, r.lastUpdateTimestamp, tx, tx);
    RayMulNearest(u.scaledVariableDebt,
                  NormalizedDebt(r.variableBorrowRate, r.variableBorrowIndex, r.lastUpdateTimestamp, tx));
  }

  lemma BorrowReportKeeps(p: ReserveParams, r: ReserveData, now: int, amount: int, mode: RateMode, tx: int,
                          current: int)
    requires ValidParams(p) && ReserveInv(r, now) && 0 < now <= tx <= current && 0 < amount <= r.availableLiquidity
    ensures BorrowDefined(p, amount, mode, r, tx, current)
    ensures
      var after := ReserveAfterBorrow(p, amount, mode, r, tx, current);
      ReserveInv(after, current) && NotAhead(after, current)
  {
    hide RayMul, CompoundedInterest, VariableBorrowIndex, LiquidityIndex, TotalStableDebt, RayDiv, AverageStableRate,
      ExpectedInterestRates, StableDebtBalance, ReserveInv, NotAhead;
    BorrowKeepsLedger(r, now, amount, mode, tx);
    var l := BorrowLedger(amount, mode, r, tx);
    PricedKeeps(p, l, tx, tx);
    ReportKeeps(Priced(p, l), tx, current);
  }

  /** An enabled action never divides by zero, and its reserve record satisfies the invariant. */
  lemma ReserveStep(p: ReserveParams, s: State, e: Event)
    requires ValidParams(p) && Inv(s) && Enabled(s, e)
    ensures StepDefined(p, s, e)
    ensures ReserveInv(NextReserve(p, s, e), e.current)
    ensures NotAhead(NextReserve(p, s, e), e.current)
  {
    hide RayMul, CompoundedInterest, VariableBorrowIndex, LiquidityIndex, TotalStableDebt, RayDiv, AverageStableRate,
      ExpectedInterestRates, UtilizationRate, DepositLedger, WithdrawLedger, BorrowLedger, RepayLedger, SwapLedger,
      StableDebtBalance, UserVariableDebt, UserStableDebt, BurnedScaled, ReserveRepaid, WithdrawnAmount, UserInv,
      NotAhead, RemovableStableDebt, LedgerFresh;
    var r, u := s.reserve, s.users[e.action.user];
    AccrualFloor(r, s.now, e.tx);
    UserDebtsNonNeg(r, u, s.now, e.tx);
    match e.action
    case Deposit(_, amount) =>
      DepositKeepsLedger(r, s.now, amount, e.tx);
      PricedSound(p, DepositLedger(amount, r, e.tx), e.tx, e.current);
    case Withdraw(_, amount) =>
      var withdrawn := WithdrawnAmount(amount, r, u, e.tx);
      WithdrawKeepsLedger(r, s.now, withdrawn, e.tx);
      PricedSound(p, WithdrawLedger(withdrawn, r, e.tx), e.tx, e.current);
    case Borrow(_, amount, mode) =>
      BorrowReportKeeps(p, r, s.now, amount, mode, e.tx, e.current);
    case Repay(_, _, amount, mode) =>
      var repaid := ReserveRepaid(amount, mode, r, u, e.tx);
      RepayKeepsLedger(r, s.now, repaid, u.stableBorrowRate, mode, e.tx);
      PricedSound(p, RepayLedger(repaid, mode, r, u.stableBorrowRate, e.tx), e.tx, e.current);
    case SwapRateMode(_, mode) =>
      var moved := DebtInMode(mode, r, u, e.tx);
      SwapKeepsLedger(r, s.now, moved, u.stableBorrowRate, mode, e.tx);
      PricedSound(p, SwapLedger(moved, mode, r, u.stableBorrowRate, e.tx), e.tx, e.current);
  }

  /** The indices after a step are the accrued indices, and they never decrease. */
  lemma IndicesAfterStep(p: ReserveParams, s: State, e: Event)
    requires ValidParams(p) && Inv(s) && Enabled(s, e) && StepDefined(p, s, e)
    ensures NextReserve(p, s, e).liquidityIndex == LiquidityIndex(s.reserve, e.tx) >= s.reserve.liquidityIndex
    ensures NextReserve(p, s, e).variableBorrowIndex == VariableBorrowIndex(s.reserve, e.tx)
      >= s.reserve.variableBorrowIndex
  {
    hide RayMul, CompoundedInterest, VariableBorrowIndex, LiquidityIndex, TotalStableDebt, RayDiv, AverageStableRate,
      ExpectedInterestRates, UtilizationRate, StableDebtBalance, UserVariableDebt, UserStableDebt, BurnedScaled,
      ReserveRepaid, WithdrawnAmount, UserInv, NotAhead;
    AccrualFloor(s.reserve, s.now, e.tx);
  }
}
