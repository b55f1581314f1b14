/** Which way each action moves the borrow rates. */
module RateMonotonicity {
  import opened RayMath
  import opened Interest
  import opened Records
  import opened Rates
  import opened Balances
  import opened ReserveTransitions
  import opened UserTransitions
  import opened Market
  import opened Invariants
  import opened UserInvariants

  /** Utilization compared through debt and idle liquidity. */
  lemma CompareUtilization(a: ReserveData, b: ReserveData)
    requires 0 <= a.totalStableDebt && 0 <= a.totalVariableDebt && 0 <= b.totalStableDebt && 0 <= b.totalVariableDebt
    requires a.totalStableDebt + a.totalVariableDebt <= b.totalStableDebt + b.totalVariableDebt
    requires a.totalLiquidity - (a.totalStableDebt + a.totalVariableDebt)
      >= b.totalLiquidity - (b.totalStableDebt + b.totalVariableDebt) >= 0
    ensures CanPrice(a) && CanPrice(b)
    ensures UtilizationRate(a.totalStableDebt, a.totalVariableDebt, a.totalLiquidity)
      <= UtilizationRate(b.totalStableDebt, b.totalVariableDebt, b.totalLiquidity)
  {
    UtilizationMono(a.totalStableDebt, a.totalVariableDebt, a.totalLiquidity,
                    b.totalStableDebt, b.totalVariableDebt, b.totalLiquidity);
  }

  /** The reserve with its debts accrued and its liquidity reconciled. */
  function Accrued(r: ReserveData, tx: int): ReserveData {
    Reconciled(r.(totalStableDebt := AccruedStableDebt(r, tx), totalVariableDebt := AccruedVariableDebt(r, tx)))
  }

  /** The rates of two priced records with the same market rate follow their utilizations. */
  lemma RatesFollowUtilization(p: ReserveParams, a: ReserveData, b: ReserveData)
    requires ValidParams(p) && CanPrice(a) && CanPrice(b) && a.marketStableRate == b.marketStableRate
    requires 0 <= UtilizationRate(a.totalStableDebt, a.totalVariableDebt, a.totalLiquidity)
      <= UtilizationRate(b.totalStableDebt, b.totalVariableDebt, b.totalLiquidity)
    ensures Priced(p, a).variableBorrowRate <= Priced(p, b).variableBorrowRate
    ensures Priced(p, a).stableBorrowRate <= Priced(p, b).stableBorrowRate
  {
    hide UtilizationRate, OverallBorrowRate, Curve, DepositorRate;
    var u := UtilizationRate(a.totalStableDebt, a.totalVariableDebt, a.totalLiquidity);
    var v := UtilizationRate(b.totalStableDebt, b.totalVariableDebt, b.totalLiquidity);
    CurveMono(p.baseVariableBorrowRate, p.variableRateSlope1, p.variableRateSlope2, p.optimalUtilizationRate, u, v);
    CurveMono(a.marketStableRate, p.stableRateSlope1, p.stableRateSlope2, p.optimalUtilizationRate, u, v);
  }

  ghost predicate RatesAtMost(a: ReserveData, b: ReserveData) {
    a.variableBorrowRate <= b.variableBorrowRate && a.stableBorrowRate <= b.stableBorrowRate
  }

  lemma LowerRates(p: ReserveParams, a: ReserveData, b: ReserveData)
    requires ValidParams(p) && a.marketStableRate == b.marketStableRate
    requires 0 <= a.totalStableDebt && 0 <= a.totalVariableDebt && 0 <= b.totalStableDebt && 0 <= b.totalVariableDebt
    requires a.totalStableDebt + a.totalVariableDebt <= b.totalStableDebt + b.totalVariableDebt
    requires a.totalLiquidity - (a.totalStableDebt + a.totalVariableDebt)
      >= b.totalLiquidity - (b.totalStableDebt + b.totalVariableDebt) >= 0
    ensures CanPrice(a) && CanPrice(b)
    ensures RatesAtMost(Priced(p, a), Priced(p, b))
  {
    hide UtilizationRate, ExpectedInterestRates;
    CompareUtilization(a, b);
    UtilizationNonNeg(a.totalStableDebt, a.totalVariableDebt, a.totalLiquidity);
    RatesFollowUtilization(p, a, b);
  }

  /** The rates had nothing but accrual happened. */
  function IdlePriced(p: ReserveParams, r: ReserveData, tx: int): ReserveData
    requires ValidParams(p) && CanPrice(Accrued(r, tx))
  {
    Priced(p, Accrued(r, tx))
  }

  lemma IdlePriceable(r: ReserveData, now: int, tx: int)
    requires ReserveInv(r, now) && now <= tx
    ensures CanPrice(Accrued(r, tx))
  {
    hide TotalStableDebt, VariableBorrowIndex, RayMul;
    AccrualFloor(r, now, tx);
  }

  /** The same debts against less liquidity. */
  lemma LessLiquidity(p: ReserveParams, a: ReserveData, b: ReserveData)
    requires ValidParams(p) && a.marketStableRate == b.marketStableRate
    requires 0 <= a.totalStableDebt == b.totalStableDebt && 0 <= a.totalVariableDebt == b.totalVariableDebt
    requires 0 < b.totalLiquidity <= a.totalLiquidity
    ensures CanPrice(a) && CanPrice(b)
    ensures RatesAtMost(Priced(p, a), Priced(p, b))
  {
    hide UtilizationRate, ExpectedInterestRates;
    SameDebtUtilization(a.totalStableDebt, a.totalVariableDebt, a.totalLiquidity, b.totalLiquidity);
    UtilizationNonNeg(a.totalStableDebt, a.totalVariableDebt, a.totalLiquidity);
    RatesFollowUtilization(p, a, b);
  }

  lemma SameDebtUtilization(stable: int, variable: int, total: int, total': int)
    requires 0 <= stable && 0 <= variable && 0 < total' <= total
    ensures UtilizationRate(stable, variable, total) <= UtilizationRate(stable, variable, total')
  {
    hide RayDiv;
    RayDivMono(stable + variable, total, stable + variable, total');
  }

  lemma DepositLowers(p: ReserveParams, r: ReserveData, now: int, amount: int, tx: int)
    requires ValidParams(p) && ReserveInv(r, now) && 0 < now <= tx && 0 < amount
    ensures CanPrice(DepositLedger(amount, r, tx)) && CanPrice(Accrued(r, tx))
    ensures r.totalLiquidity + amount >= Accrued(r, tx).totalLiquidity
      ==> RatesAtMost(ReserveAfterDeposit(p, amount, r, tx), IdlePriced(p, r, tx))
    ensures r.totalLiquidity + amount <= Accrued(r, tx).totalLiquidity
      ==> RatesAtMost(IdlePriced(p, r, tx), ReserveAfterDeposit(p, amount, r, tx))
  {
    hide TotalStableDebt, VariableBorrowIndex, LiquidityIndex, ExpectedInterestRates, UtilizationRate, RayMul;
    AccrualFloor(r, now, tx);
    assert CanPrice(Accrued(r, tx)) && CanPrice(DepositLedger(amount, r, tx));
    if r.totalLiquidity + amount >= Accrued(r, tx).totalLiquidity {
      LowerRates(p, DepositLedger(amount, r, tx), Accrued(r, tx));
    } else {
      LessLiquidity(p, Accrued(r, tx), DepositLedger(amount, r, tx));
    }
  }

  lemma WithdrawRaises(p: ReserveParams, r: ReserveData, now: int, withdrawn: int, tx: int)
    requires ValidParams(p) && ReserveInv(r, now) && 0 < now <= tx && 0 <= withdrawn <= r.availableLiquidity
    ensures CanPrice(WithdrawLedger(withdrawn, r, tx)) && CanPrice(Accrued(r, tx))
    ensures RatesAtMost(IdlePriced(p, r, tx), Priced(p, WithdrawLedger(withdrawn, r, tx)))
  {
    hide TotalStableDebt, VariableBorrowIndex, LiquidityIndex, ExpectedInterestRates, UtilizationRate, RayMul;
    AccrualFloor(r, now, tx);
    LowerRates(p, Accrued(r, tx), WithdrawLedger(withdrawn, r, tx));
  }

  /** Once the average rate is only ever non-zero with a recorded update time, the two ways of
      reading the reserve's stable debt agree. */
  lemma BalanceIsTotal(r: ReserveData, now: int, tx: int)
    requires ReserveInv(r, now) && now <= tx
    ensures StableDebtBalance(r.principalStableDebt, r.averageStableBorrowRate, r.totalStableDebtLastUpdated, tx)
      == AccruedStableDebt(r, tx)
  {
    hide CompoundedInterest, RayMul, AccruedVariableDebt;
    CompoundedGrows(r.averageStableBorrowRate, r.totalStableDebtLastUpdated, tx, tx);
    RayMulOne(r.principalStableDebt);
    RayMulSwap(CompoundedInterest(r.averageStableBorrowRate, tx, r.totalStableDebtLastUpdated), r.principalStableDebt);
  }

  lemma BorrowRaises(p: ReserveParams, r: ReserveData, now: int, amount: int, mode: RateMode, tx: int, current: int)
    requires ValidParams(p) && ReserveInv(r, now) && 0 < now <= tx <= current && 0 < amount <= r.availableLiquidity
    ensures BorrowDefined(p, amount, mode, r, tx, current) && CanPrice(Accrued(r, tx))
    ensures RatesAtMost(IdlePriced(p, r, tx), ReserveAfterBorrow(p, amount, mode, r, tx, current))
  {
    hide TotalStableDebt, VariableBorrowIndex, LiquidityIndex, ExpectedInterestRates, UtilizationRate, RayMul, RayDiv,
      AverageStableRate, StableDebtBalance, NormalizedDebt;
    AccrualFloor(r, now, tx);
    BorrowReportKeeps(p, r, now, amount, mode, tx, current);
    BalanceIsTotal(r, now, tx);
    var l := BorrowLedger(amount, mode, r, tx);
    if mode != Stable {
      RayDivNearest(amount, l.variableBorrowIndex);
      RayMulMono(r.scaledVariableDebt, l.scaledVariableDebt, l.variableBorrowIndex, l.variableBorrowIndex);
    }
    LowerRates(p, Accrued(r, tx), l);
  }

  lemma RepayLowers(p: ReserveParams, r: ReserveData, now: int, repaid: int, rate: int, mode: RateMode, tx: int)
    requires ValidParams(p) && ReserveInv(r, now) && NotAhead(r, now) && 0 < now <= tx && 0 <= repaid
    requires mode != Stable ==> BurnedScaled(r, repaid, tx) <= r.scaledVariableDebt
    ensures VariableBorrowIndex(r, tx) >= RAY
    ensures CanPrice(RepayLedger(repaid, mode, r, rate, tx)) && CanPrice(Accrued(r, tx))
    ensures RatesAtMost(Priced(p, RepayLedger(repaid, mode, r, rate, tx)), IdlePriced(p, r, tx))
  {
    hide TotalStableDebt, VariableBorrowIndex, LiquidityIndex, ExpectedInterestRates, UtilizationRate, RayMul, RayDiv,
      AverageStableRate;
    AccrualFloor(r, now, tx);
    RepayKeepsLedger(r, now, repaid, rate, mode, tx);
    var l := RepayLedger(repaid, mode, r, rate, tx);
    if mode != Stable {
      RayDivNearest(repaid, l.variableBorrowIndex);
      RayMulMono(l.scaledVariableDebt, r.scaledVariableDebt, l.variableBorrowIndex, l.variableBorrowIndex);
      RayMulNearest(l.scaledVariableDebt, l.variableBorrowIndex);
    }
    LowerRates(p, l, Accrued(r, tx));
  }

  /** Repayments never leave the borrow rates above what mere accrual would have given, withdrawals and
      borrows never below, in both rate modes and for any elapsed time. A deposit lowers the rates if
      its amount covers the interest missing from the recorded total liquidity, and raises them if the
      interest covers the amount. */
  lemma RatesMove(p: ReserveParams, s: State, e: Event)
    requires ValidParams(p) && Inv(s) && Enabled(s, e) && !e.action.SwapRateMode?
    ensures StepDefined(p, s, e) && CanPrice(Accrued(s.reserve, e.tx))
    ensures
      var after, idle := NextReserve(p, s, e), IdlePriced(p, s.reserve, e.tx);
      if e.action.Deposit? then
        && (s.reserve.totalLiquidity + e.action.amount >= Accrued(s.reserve, e.tx).totalLiquidity
            ==> RatesAtMost(after, idle))
        && (s.reserve.totalLiquidity + e.action.amount <= Accrued(s.reserve, e.tx).totalLiquidity
            ==> RatesAtMost(idle, after))
      else if e.action.Repay? then RatesAtMost(after, idle)
      else RatesAtMost(idle, after)
  {
    hide TotalStableDebt, VariableBorrowIndex, LiquidityIndex, RayMul, RayDiv, BurnedScaled, ReserveInv, Accrued,
      Priced, IdlePriced, RatesAtMost, UserStableDebt, UserVariableDebt, ReserveRepaid, WithdrawnAmount, ATokenBalance,
      DepositLedger, WithdrawLedger, BorrowLedger, RepayLedger, CanPrice, NotAhead;
    ReserveStep(p, s, e);
    var r, u := s.reserve, s.users[e.action.user];
    IdlePriceable(r, s.now, e.tx);
    match e.action
    case Deposit(_, amount) => DepositLowers(p, r, s.now, amount, e.tx);
    case Withdraw(_, amount) => WithdrawRaises(p, r, s.now, WithdrawnAmount(amount, r, u, e.tx), e.tx);
    case Borrow(_, amount, mode) => BorrowRaises(p, r, s.now, amount, mode, e.tx, e.current);
    case Repay(_, _, amount, mode) =>
      RepayLowers(p, r, s.now, ReserveRepaid(amount, mode, r, u, e.tx), u.stableBorrowRate, mode, e.tx);
  }

  // ---------- floor and ceiling ----------

  /** Both borrow rates at least where their curves start. */
  ghost predicate AboveFloor(p: ReserveParams, r: ReserveData) {
    p.baseVariableBorrowRate <= r.variableBorrowRate && r.marketStableRate <= r.stableBorrowRate
  }

  ghost predicate BelowCeiling(p: ReserveParams, r: ReserveData) {
    && r.variableBorrowRate <= p.baseVariableBorrowRate + p.variableRateSlope1 + p.variableRateSlope2
    && r.stableBorrowRate <= r.marketStableRate + p.stableRateSlope1 + p.stableRateSlope2
  }

  lemma PricedWithin(p: ReserveParams, l: ReserveData, tx: int)
    requires ValidParams(p) && LedgerInv(l, tx)
    ensures AboveFloor(p, Priced(p, l))
    ensures l.totalStableDebt + l.totalVariableDebt <= l.totalLiquidity ==> BelowCeiling(p, Priced(p, l))
  {
    hide UtilizationRate, OverallBorrowRate, Curve, DepositorRate;
    var u := UtilizationRate(l.totalStableDebt, l.totalVariableDebt, l.totalLiquidity);
    UtilizationNonNeg(l.totalStableDebt, l.totalVariableDebt, l.totalLiquidity);
    CurveMono(p.baseVariableBorrowRate, p.variableRateSlope1, p.variableRateSlope2, p.optimalUtilizationRate, u, u);
    CurveMono(l.marketStableRate, p.stableRateSlope1, p.stableRateSlope2, p.optimalUtilizationRate, u, u);
    if l.totalStableDebt + l.totalVariableDebt <= l.totalLiquidity {
      UtilizationAtMostOne(l.totalStableDebt, l.totalVariableDebt, l.totalLiquidity);
      CurveWithinFloorAndCeiling(p.baseVariableBorrowRate, p.variableRateSlope1, p.variableRateSlope2,
                                 p.optimalUtilizationRate, u);
      CurveWithinFloorAndCeiling(l.marketStableRate, p.stableRateSlope1, p.stableRateSlope2,
                                 p.optimalUtilizationRate, u);
    }
  }

  lemma LedgerCovers(l: ReserveData, tx: int)
    requires LedgerInv(l, tx) && l.totalLiquidity == Outstanding(l)
    ensures l.totalStableDebt + l.totalVariableDebt <= l.totalLiquidity
  {
  }

  /** Every action leaves both borrow rates at or above their floors, and every withdrawal, borrow,
      repayment and swap leaves them at or below their ceilings; a deposit does if the recorded total
      and the amount cover the accrued debts. */
  lemma RatesStayWithin(p: ReserveParams, s: State, e: Event)
    requires ValidParams(p) && Inv(s) && Enabled(s, e)
    ensures StepDefined(p, s, e)
    ensures AboveFloor(p, NextReserve(p, s, e))
    ensures
      (e.action.Deposit? ==>
         AccruedStableDebt(s.reserve, e.tx) + AccruedVariableDebt(s.reserve, e.tx)
           <= s.reserve.totalLiquidity + e.action.amount)
      ==> BelowCeiling(p, NextReserve(p, s, e))
  {
    hide TotalStableDebt, VariableBorrowIndex, LiquidityIndex, RayMul, RayDiv, AverageStableRate, Priced,
      UserStableDebt, UserVariableDebt, ReserveRepaid, WithdrawnAmount, ATokenBalance, BurnedScaled, ReserveInv,
      LedgerInv, AccruedVariableDebt, AccruedStableDebt, CanPrice, NotAhead, LedgerFresh, RemovableStableDebt,
      StableDebtBalance, DebtInMode;
    ReserveStep(p, s, e);
    var r, u := s.reserve, s.users[e.action.user];
    match e.action
    case Deposit(_, amount) =>
      DepositKeepsLedger(r, s.now, amount, e.tx);
      PricedWithin(p, DepositLedger(amount, r, e.tx), e.tx);
    case Withdraw(_, amount) =>
      var withdrawn := WithdrawnAmount(amount, r, u, e.tx);
      WithdrawKeepsLedger(r, s.now, withdrawn, e.tx);
      LedgerCovers(WithdrawLedger(withdrawn, r, e.tx), e.tx);
      PricedWithin(p, WithdrawLedger(withdrawn, r, e.tx), e.tx);
    case Borrow(_, amount, mode) =>
      BorrowKeepsLedger(r, s.now, amount, mode, e.tx);
      LedgerCovers(BorrowLedger(amount, mode, r, e.tx), e.tx);
      PricedWithin(p, BorrowLedger(amount, mode, r, e.tx), e.tx);
    case Repay(_, _, amount, mode) =>
      var repaid := ReserveRepaid(amount, mode, r, u, e.tx);
      RepayKeepsLedger(r, s.now, repaid, u.stableBorrowRate, mode, e.tx);
      LedgerCovers(RepayLedger(repaid, mode, r, u.stableBorrowRate, e.tx), e.tx);
      PricedWithin(p, RepayLedger(repaid, mode, r, u.stableBorrowRate, e.tx), e.tx);
    case SwapRateMode(_, mode) =>
      var moved := DebtInMode(mode, r, u, e.tx);
      SwapKeepsLedger(r, s.now, moved, u.stableBorrowRate, mode, e.tx);
      LedgerCovers(SwapLedger(moved, mode, r, u.stableBorrowRate, e.tx), e.tx);
      PricedWithin(p, SwapLedger(moved, mode, r, u.stableBorrowRate, e.tx), e.tx);
  }

  // ---------- the recorded rates ----------

  /** Pricing records the utilization of the ledger's own debts to the nearest unit, and both borrow
      rates on their lines at that utilization. */
  lemma PricedOnLines(p: ReserveParams, l: ReserveData, tx: int)
    requires ValidParams(p) && LedgerInv(l, tx)
    ensures RatesOnLines(p, Priced(p, l))
    ensures UtilizationRecorded(Priced(p, l))
  {
    hide RayDiv, OverallBorrowRate, VariableRate, StableRate, DepositorRate, OnKinkedLine;
    UtilizationNonNeg(l.totalStableDebt, l.totalVariableDebt, l.totalLiquidity);
    RatesOnKinkedLines(p, l.marketStableRate,
                       UtilizationRate(l.totalStableDebt, l.totalVariableDebt, l.totalLiquidity));
    if l.totalStableDebt + l.totalVariableDebt > 0 {
      RayDivNearest(l.totalStableDebt + l.totalVariableDebt, l.totalLiquidity);
      StepDown(UtilizationRate(l.totalStableDebt, l.totalVariableDebt, l.totalLiquidity), l.totalLiquidity);
    }
  }

  /** Both recorded borrow rates, at the recorded utilization. */
  predicate RatesOnLines(p: ReserveParams, r: ReserveData) {
    && OnKinkedLine(r.variableBorrowRate, p.baseVariableBorrowRate, p.variableRateSlope1, p.variableRateSlope2,
                    p.optimalUtilizationRate, r.utilizationRate)
    && OnKinkedLine(r.stableBorrowRate, r.marketStableRate, p.stableRateSlope1, p.stableRateSlope2,
                    p.optimalUtilizationRate, r.utilizationRate)
  }

  /** The recorded utilization is the recorded debts over the recorded liquidity. */
  predicate UtilizationRecorded(r: ReserveData) {
    var debts := r.totalStableDebt + r.totalVariableDebt;
    && (debts == 0 ==> r.utilizationRate == 0)
    && -r.totalLiquidity <= 2 * (r.utilizationRate * r.totalLiquidity) - 2 * (debts * RAY) <= r.totalLiquidity
  }

  /** A borrow read in the second it happens is its priced ledger. */
  lemma BorrowAtOnce(p: ReserveParams, r: ReserveData, now: int, amount: int, mode: RateMode, tx: int)
    requires ValidParams(p) && ReserveInv(r, now) && 0 < now <= tx && 0 < amount <= r.availableLiquidity
    ensures BorrowDefined(p, amount, mode, r, tx, tx)
    ensures
      var l := BorrowLedger(amount, mode, r, tx);
      l.totalStableDebt == AccruedStableDebt(l, tx)
    ensures ReserveAfterBorrow(p, amount, mode, r, tx, tx) == Priced(p, BorrowLedger(amount, mode, r, tx))
  {
    hide VariableBorrowIndex, LiquidityIndex, RayMul, RayDiv, TotalStableDebt, AverageStableRate,
      StableDebtBalance, NormalizedDebt, UtilizationRate, ExpectedInterestRates;
    BorrowKeepsLedger(r, now, amount, mode, tx);
    BorrowReportKeeps(p, r, now, amount, mode, tx, tx);
    BalanceIsTotal(r, now, tx);
    var l := BorrowLedger(amount, mode, r, tx);
    TotalStableDebtGrows(l.principalStableDebt, l.averageStableBorrowRate, l.totalStableDebtLastUpdated, tx, tx);
    PricedKeeps(p, l, tx, tx);
    NormalizedDebtGrows(Priced(p, l).variableBorrowRate, l.variableBorrowIndex, tx, tx, tx);
  }

  /** Every action records utilization and both borrow rates so; a borrow read later than it happens
      records its later utilization, and the rates of the borrow read at once. */
  lemma RecordedRates(p: ReserveParams, s: State, e: Event)
    requires ValidParams(p) && Inv(s) && Enabled(s, e) && (e.action.Borrow? ==> e.tx == e.current)
    ensures StepDefined(p, s, e)
    ensures RatesOnLines(p, NextReserve(p, s, e)) && UtilizationRecorded(NextReserve(p, s, e))
  {
    hide TotalStableDebt, VariableBorrowIndex, LiquidityIndex, RayMul, RayDiv, AverageStableRate, Priced,
      UserStableDebt, UserVariableDebt, ReserveRepaid, WithdrawnAmount, ATokenBalance, BurnedScaled, ReserveInv,
      LedgerInv, AccruedVariableDebt, AccruedStableDebt, CanPrice, NotAhead, LedgerFresh, RemovableStableDebt,
      StableDebtBalance, DebtInMode, DepositLedger, WithdrawLedger, BorrowLedger, RepayLedger, SwapLedger,
      RatesOnLines, UtilizationRecorded, ReserveAfterBorrow;
    ReserveStep(p, s, e);
    var r, u := s.reserve, s.users[e.action.user];
    match e.action
    case Deposit(_, amount) =>
      DepositKeepsLedger(r, s.now, amount, e.tx);
      PricedOnLines(p, DepositLedger(amount, r, e.tx), e.tx);
    case Withdraw(_, amount) =>
      var withdrawn := WithdrawnAmount(amount, r, u, e.tx);
      WithdrawKeepsLedger(r, s.now, withdrawn, e.tx);
      PricedOnLines(p, WithdrawLedger(withdrawn, r, e.tx), e.tx);
    case Borrow(_, amount, mode) =>
      BorrowKeepsLedger(r, s.now, amount, mode, e.tx);
      PricedOnLines(p, BorrowLedger(amount, mode, r, e.tx), e.tx);
      BorrowAtOnce(p, r, s.now, amount, mode, e.tx);
    case Repay(_, _, amount, mode) =>
      var repaid := ReserveRepaid(amount, mode, r, u, e.tx);
      RepayKeepsLedger(r, s.now, repaid, u.stableBorrowRate, mode, e.tx);
      PricedOnLines(p, RepayLedger(repaid, mode, r, u.stableBorrowRate, e.tx), e.tx);
    case SwapRateMode(_, mode) =>
      var moved := DebtInMode(mode, r, u, e.tx);
      SwapKeepsLedger(r, s.now, moved, u.stableBorrowRate, mode, e.tx);
      PricedOnLines(p, SwapLedger(moved, mode, r, u.stableBorrowRate, e.tx), e.tx);
  }

  // ---------- within one second ----------

  /** A reserve whose totals, liquidity, utilization and rates are all those of time t. */
  ghost predicate Settled(p: ReserveParams, r: ReserveData, t: int)
    requires ValidParams(p)
  {
    && r == Accrued(r, t)
    && r.lastUpdateTimestamp == t
    && CanPrice(r)
    && r == Priced(p, r)
  }

  /** From a settled reserve every action of the same second moves the recorded rates the same way. */
  lemma SameSecond(p: ReserveParams, s: State, e: Event)
    requires ValidParams(p) && Inv(s) && Enabled(s, e) && !e.action.SwapRateMode?
    requires Settled(p, s.reserve, e.tx)
    ensures StepDefined(p, s, e)
    ensures
      var before, after := s.reserve, NextReserve(p, s, e);
      if e.action.Deposit? || e.action.Repay? then RatesAtMost(after, before) else RatesAtMost(before, after)
  {
    hide TotalStableDebt, VariableBorrowIndex, LiquidityIndex, RayMul, RayDiv, Inv, Priced, NextReserve, StepDefined;
    RatesMove(p, s, e);
  }

  lemma PricedIsSettled(p: ReserveParams, l: ReserveData, tx: int)
    requires ValidParams(p) && LedgerInv(l, tx) && LedgerFresh(l, tx)
    requires l.totalLiquidity == Outstanding(l) && l.totalStableDebt == AccruedStableDebt(l, tx)
    ensures Settled(p, Priced(p, l), tx)
  {
    hide TotalStableDebt, RayMul, UtilizationRate, ExpectedInterestRates, CompoundedInterest;
    RayMulOne(l.variableBorrowIndex);
    FreshIndex(p, l, tx);
  }

  lemma FreshIndex(p: ReserveParams, l: ReserveData, tx: int)
    requires ValidParams(p) && LedgerInv(l, tx)
    ensures VariableBorrowIndex(Priced(p, l), tx) == l.variableBorrowIndex
  {
    hide TotalStableDebt, RayMul, UtilizationRate, ExpectedInterestRates;
    RayMulOne(l.variableBorrowIndex);
  }

  /** Deposits and variable repayments keep a settled reserve settled, and every other action read in
      the second it happens settles the reserve from any state. */
  lemma StepSettles(p: ReserveParams, s: State, e: Event)
    requires ValidParams(p) && Inv(s) && Enabled(s, e) && e.tx == e.current
    requires e.action.Deposit? || (e.action.Repay? && e.action.mode != Stable) ==> Settled(p, s.reserve, e.tx)
    ensures StepDefined(p, s, e)
    ensures Settled(p, NextReserve(p, s, e), e.tx)
  {
    hide TotalStableDebt, VariableBorrowIndex, LiquidityIndex, RayMul, RayDiv, AverageStableRate, Priced, Settled,
      UserStableDebt, UserVariableDebt, ReserveRepaid, WithdrawnAmount, ATokenBalance, BurnedScaled, ReserveInv,
      LedgerInv, DepositLedger, WithdrawLedger, BorrowLedger, RepayLedger, SwapLedger, AccruedVariableDebt, CanPrice,
      NotAhead, LedgerFresh, RemovableStableDebt;
    ReserveStep(p, s, e);
    var r, u := s.reserve, s.users[e.action.user];
    match e.action
    case Deposit(_, amount) =>
      DepositSettles(p, r, s.now, amount, e.tx);
    case Withdraw(_, amount) =>
      var withdrawn := WithdrawnAmount(amount, r, u, e.tx);
      WithdrawKeepsLedger(r, s.now, withdrawn, e.tx);
      WithdrawSettles(p, r, withdrawn, e.tx);
    case Borrow(_, amount, mode) =>
      BorrowSettles(p, r, s.now, amount, mode, e.tx);
    case Repay(_, _, amount, mode) =>
      var repaid := ReserveRepaid(amount, mode, r, u, e.tx);
      RepayKeepsLedger(r, s.now, repaid, u.stableBorrowRate, mode, e.tx);
      RepaySettles(p, r, repaid, u.stableBorrowRate, mode, e.tx);
    case SwapRateMode(_, mode) =>
      var moved := DebtInMode(mode, r, u, e.tx);
      SwapKeepsLedger(r, s.now, moved, u.stableBorrowRate, mode, e.tx);
      SwapSettles(p, r, moved, u.stableBorrowRate, mode, e.tx);
  }

  /** A variable repayment keeps the recorded stable total without accruing it, so it leaves a settled
      reserve if and only if that total was already accrued. */
  lemma VariableRepaySettles(p: ReserveParams, s: State, e: Event)
    requires ValidParams(p) && Inv(s) && Enabled(s, e) && e.action.Repay? && e.action.mode != Stable
    ensures StepDefined(p, s, e)
    ensures
      var r, after := s.reserve, NextReserve(p, s, e);
      && after.totalStableDebt == r.totalStableDebt
      && (Settled(p, after, e.tx) <==> r.totalStableDebt == AccruedStableDebt(r, e.tx))
  {
    hide VariableBorrowIndex, LiquidityIndex, RayMul, RayDiv, TotalStableDebt, AverageStableRate, ReserveInv, NotAhead,
      UserStableDebt, UserVariableDebt, BurnedScaled, UtilizationRate, ExpectedInterestRates, LedgerInv, LedgerFresh;
    ReserveStep(p, s, e);
    var r, u := s.reserve, s.users[e.action.user];
    var repaid := ReserveRepaid(e.action.amount, e.action.mode, r, u, e.tx);
    RepayKeepsLedger(r, s.now, repaid, u.stableBorrowRate, e.action.mode, e.tx);
    if r.totalStableDebt == AccruedStableDebt(r, e.tx) {
      PricedIsSettled(p, RepayLedger(repaid, e.action.mode, r, u.stableBorrowRate, e.tx), e.tx);
    }
  }

  lemma DepositSettles(p: ReserveParams, r: ReserveData, now: int, amount: int, tx: int)
    requires ValidParams(p) && ReserveInv(r, now) && NotAhead(r, now) && 0 < now <= tx && 0 < amount
      && Settled(p, r, tx)
    ensures CanPrice(DepositLedger(amount, r, tx))
    ensures Settled(p, ReserveAfterDeposit(p, amount, r, tx), tx)
  {
    hide TotalStableDebt, VariableBorrowIndex, LiquidityIndex, RayMul, Priced, CanPrice;
    DepositKeepsLedger(r, now, amount, tx);
    PricedIsSettled(p, DepositLedger(amount, r, tx), tx);
  }

  lemma WithdrawSettles(p: ReserveParams, r: ReserveData, withdrawn: int, tx: int)
    requires ValidParams(p) && LedgerInv(WithdrawLedger(withdrawn, r, tx), tx)
    ensures Settled(p, Priced(p, WithdrawLedger(withdrawn, r, tx)), tx)
  {
    hide TotalStableDebt, VariableBorrowIndex, LiquidityIndex, RayMul, Priced, Settled;
    PricedIsSettled(p, WithdrawLedger(withdrawn, r, tx), tx);
  }

  lemma RepaySettles(p: ReserveParams, r: ReserveData, repaid: int, rate: int, mode: RateMode, tx: int)
    requires ValidParams(p) && (mode != Stable ==> VariableBorrowIndex(r, tx) != 0)
    requires LedgerInv(RepayLedger(repaid, mode, r, rate, tx), tx)
    requires mode != Stable ==> Settled(p, r, tx)
    ensures Settled(p, Priced(p, RepayLedger(repaid, mode, r, rate, tx)), tx)
  {
    hide VariableBorrowIndex, LiquidityIndex, RayMul, RayDiv, Priced, TotalStableDebt, AverageStableRate;
    var l := RepayLedger(repaid, mode, r, rate, tx);
    if mode == Stable {
      TotalStableDebtGrows(l.principalStableDebt, l.averageStableBorrowRate, tx, tx, tx);
    }
    PricedIsSettled(p, l, tx);
  }

  lemma SwapSettles(p: ReserveParams, r: ReserveData, moved: int, rate: int, mode: RateMode, tx: int)
    requires ValidParams(p) && VariableBorrowIndex(r, tx) != 0
    requires LedgerInv(SwapLedger(moved, mode, r, rate, tx), tx)
    ensures Settled(p, Priced(p, SwapLedger(moved, mode, r, rate, tx)), tx)
  {
    hide VariableBorrowIndex, LiquidityIndex, RayMul, RayDiv, Priced, Settled, TotalStableDebt, AverageStableRate;
    var l := SwapLedger(moved, mode, r, rate, tx);
    TotalStableDebtGrows(l.principalStableDebt, l.averageStableBorrowRate, tx, tx, tx);
    PricedIsSettled(p, l, tx);
  }

  lemma BorrowSettles(p: ReserveParams, r: ReserveData, now: int, amount: int, mode: RateMode, tx: int)
    requires ValidParams(p) && ReserveInv(r, now) && 0 < now <= tx && 0 < amount <= r.availableLiquidity
    ensures BorrowDefined(p, amount, mode, r, tx, tx)
    ensures Settled(p, ReserveAfterBorrow(p, amount, mode, r, tx, tx), tx)
  {
    hide VariableBorrowIndex, LiquidityIndex, RayMul, RayDiv, Settled, TotalStableDebt, AverageStableRate,
      StableDebtBalance, NormalizedDebt, UtilizationRate, ExpectedInterestRates;
    BorrowKeepsLedger(r, now, amount, mode, tx);
    BorrowAtOnce(p, r, now, amount, mode, tx);
    PricedIsSettled(p, BorrowLedger(amount, mode, r, tx), tx);
  }

  /** Every event of the story happens and is read at time t. */
  ghost predicate AllAt(events: seq<Event>, t: int) {
    forall e :: e in events ==> e.tx == e.current == t
  }

  lemma SameSecondAttempt(p: ReserveParams, s: State, e: Event)
    requires ValidParams(p) && Inv(s) && Settled(p, s.reserve, e.tx) && e.tx == e.current && !e.action.SwapRateMode?
    ensures
      var before, after := s.reserve, Attempt(p, s, e).reserve;
      && Settled(p, after, e.tx)
      && (if e.action.Deposit? || e.action.Repay? then RatesAtMost(after, before) else RatesAtMost(before, after))
  {
    hide Inv, Enabled, StepDefined, NextReserve, NextUser, Settled;
    if Enabled(s, e) {
      StepKeeps(p, s, e);
      StepSettles(p, s, e);
      SameSecond(p, s, e);
    }
  }

  /** Within one second and from a settled reserve, no story of deposits and repayments ends with a
      higher borrow rate, and no story of withdrawals and borrows with a lower one. */
  lemma {:induction false} SameSecondStory(p: ReserveParams, s: State, events: seq<Event>, t: int)
    requires ValidParams(p) && Inv(s) && Settled(p, s.reserve, t) && AllAt(events, t)
    requires forall e :: e in events ==> !e.action.SwapRateMode?
    ensures Settled(p, Story(p, s, events).reserve, t)
    ensures (forall e :: e in events ==> e.action.Deposit? || e.action.Repay?)
      ==> RatesAtMost(Story(p, s, events).reserve, s.reserve)
    ensures (forall e :: e in events ==> e.action.Withdraw? || e.action.Borrow?)
      ==> RatesAtMost(s.reserve, Story(p, s, events).reserve)
    decreases |events|
  {
    hide Inv, Enabled, Attempt, Settled;
    if events != [] {
      assert events[0] in events;
      assert forall e :: e in events[1..] ==> e in events;
      SameSecondAttempt(p, s, events[0]);
      SameSecondStory(p, Attempt(p, s, events[0]), events[1..], t);
    }
  }
}
