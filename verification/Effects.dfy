/** The whole effect of an action on both records, field group by field group: what moves is given by
    what it means (an amount, a nearest quotient, a weighted average), and everything else stays. */
module Effects {
  import opened RayMath
  import opened Interest
  import opened Records
  import opened Rates
  import opened Balances
  import opened ReserveTransitions
  import opened UserTransitions
  import opened Market
  import opened Invariants
  import opened UserInvariants

  // ---------- which side an action touches ----------

  /** The reserve's stable debt is minted, burned or re-stamped. */
  predicate TouchesStable(e: Event) {
    match e.action
    case Deposit(_, _) => false
    case Withdraw(_, _) => false
    case Borrow(_, _, mode) => mode == Stable
    case Repay(_, _, _, mode) => mode == Stable
    case SwapRateMode(_, _) => true
  }

  predicate TouchesVariable(e: Event) {
    match e.action
    case Deposit(_, _) => false
    case Withdraw(_, _) => false
    case Borrow(_, _, mode) => mode != Stable
    case Repay(_, _, _, mode) => mode != Stable
    case SwapRateMode(_, _) => true
  }

  /** The amount an action moves, with the maximum resolved. */
  function Moved(s: State, e: Event): int
    requires e.action.user < |s.users|
  {
    var r, u := s.reserve, s.users[e.action.user];
    match e.action
    case Deposit(_, amount) => amount
    case Withdraw(_, amount) => WithdrawnAmount(amount, r, u, e.tx)
    case Borrow(_, amount, _) => amount
    case Repay(_, _, amount, mode) => ReserveRepaid(amount, mode, r, u, e.tx)
    case SwapRateMode(_, mode) => DebtInMode(mode, r, u, e.tx)
  }

  /** The stable (variable) debt an action mints, negative for what it burns. */
  function MintedStable(s: State, e: Event): int
    requires e.action.user < |s.users|
  {
    match e.action
    case Borrow(_, _, mode) => if mode == Stable then Moved(s, e) else 0
    case Repay(_, _, _, mode) => if mode == Stable then -Moved(s, e) else 0
    case SwapRateMode(_, mode) => if mode == Stable then -Moved(s, e) else Moved(s, e)
    case _ => 0
  }

  function MintedVariable(s: State, e: Event): int
    requires e.action.user < |s.users|
  {
    match e.action
    case Borrow(_, _, mode) => if mode == Stable then 0 else Moved(s, e)
    case Repay(_, _, _, mode) => if mode == Stable then 0 else -Moved(s, e)
    case SwapRateMode(_, mode) => if mode == Stable then Moved(s, e) else -Moved(s, e)
    case _ => 0
  }

  /** What leaves the wallet for the reserve, negative for what comes back. */
  function PaidToReserve(s: State, e: Event): int
    requires e.action.user < |s.users|
  {
    match e.action
    case Deposit(_, _) => Moved(s, e)
    case Withdraw(_, _) => -Moved(s, e)
    case Borrow(_, _, _) => -Moved(s, e)
    case Repay(_, _, _, _) => Moved(s, e)
    case SwapRateMode(_, _) => 0
  }

  // ---------- cash and frames ----------

  /** Cash: the reserve takes exactly what is paid, and so does the wallet unless a third party pays. */
  lemma CashEffect(p: ReserveParams, s: State, e: Event)
    requires ValidParams(p) && Inv(s) && Enabled(s, e)
    ensures StepDefined(p, s, e)
    ensures NextReserve(p, s, e).availableLiquidity == s.reserve.availableLiquidity + PaidToReserve(s, e)
    ensures
      var own := !e.action.Repay? || e.action.payer == e.action.user;
      NextUser(p, s, e).walletBalance
        == s.users[e.action.user].walletBalance - (if own then PaidToReserve(s, e) else 0)
  {
    hide RayMul, CompoundedInterest, VariableBorrowIndex, LiquidityIndex, TotalStableDebt, RayDiv, Inv,
      StableDebtBalance, AverageStableRate, ExpectedInterestRates, UtilizationRate, NormalizedDebt,
      NormalizedIncome, BurnedScaled, UserStableRate;
    ReserveStep(p, s, e);
  }

  /** What an action does not touch stays: the reserve's market rate always; its stable principal,
      average and stamp, and so its accrued stable debt at every time, unless the action touches stable
      debt; its scaled debt unless it touches variable debt. Only the touched stamp moves. */
  lemma ReserveFrame(p: ReserveParams, s: State, e: Event)
    requires ValidParams(p) && Inv(s) && Enabled(s, e)
    ensures StepDefined(p, s, e)
    ensures
      var r, after := s.reserve, NextReserve(p, s, e);
      && after.marketStableRate == r.marketStableRate
      && after.lastUpdateTimestamp == e.tx
      && after.totalStableDebtLastUpdated == (if TouchesStable(e) then e.tx else r.totalStableDebtLastUpdated)
      && (!TouchesStable(e) ==>
            && after.principalStableDebt == r.principalStableDebt
            && after.averageStableBorrowRate == r.averageStableBorrowRate
            && forall t :: AccruedStableDebt(after, t) == AccruedStableDebt(r, t))
      && (!TouchesVariable(e) ==> after.scaledVariableDebt == r.scaledVariableDebt)
  {
    hide RayMul, CompoundedInterest, VariableBorrowIndex, LiquidityIndex, TotalStableDebt, RayDiv, Inv,
      StableDebtBalance, AverageStableRate, ExpectedInterestRates, UtilizationRate, NormalizedDebt,
      NormalizedIncome, BurnedScaled, UserVariableDebt, UserStableDebt, RemovableStableDebt;
    ReserveStep(p, s, e);
  }

  /** The same for the user: the scaled deposit moves only with deposits and withdrawals, the scaled debt
      only with variable debt, the stable rate and stamp only with stable debt, and the record always
      shows the reserve's new deposit rate. */
  lemma UserFrame(p: ReserveParams, s: State, e: Event)
    requires ValidParams(p) && Inv(s) && Enabled(s, e)
    ensures StepDefined(p, s, e)
    ensures
      var u, after := s.users[e.action.user], NextUser(p, s, e);
      && after.liquidityRate == NextReserve(p, s, e).liquidityRate
      && (!e.action.Deposit? && !e.action.Withdraw? ==>
            && after.scaledATokenBalance == u.scaledATokenBalance
            && after.usageAsCollateralEnabled == u.usageAsCollateralEnabled)
      && (!TouchesVariable(e) ==> after.scaledVariableDebt == u.scaledVariableDebt)
      && (!TouchesStable(e) ==>
            && after.stableBorrowRate == u.stableBorrowRate
            && after.stableRateLastUpdated == u.stableRateLastUpdated)
      && (!TouchesStable(e) && (e.action.Withdraw? || e.action.Borrow?) ==>
            after.principalStableDebt == u.principalStableDebt)
  {
    hide RayMul, CompoundedInterest, VariableBorrowIndex, LiquidityIndex, TotalStableDebt, RayDiv, Inv,
      StableDebtBalance, AverageStableRate, NormalizedDebt, NormalizedIncome, BurnedScaled, NextReserve,
      UserStableRate, RemovableStableDebt;
    ReserveStep(p, s, e);
  }

  // ---------- scaled amounts ----------

  /** d is an amount divided by an index, to the nearest unit with ties up. */
  predicate NearestScaled(d: int, amount: int, index: int) {
    2 * (d * index) <= 2 * (amount * RAY) + index < 2 * ((d + 1) * index)
  }

  /** The reserve mints (burns) the minted (burned) variable debt at its new borrow index. */
  lemma ScaledDebtEffect(p: ReserveParams, s: State, e: Event)
    requires ValidParams(p) && Inv(s) && Enabled(s, e)
    ensures StepDefined(p, s, e)
    ensures
      var after, minted := NextReserve(p, s, e), MintedVariable(s, e);
      var change := after.scaledVariableDebt - s.reserve.scaledVariableDebt;
      if minted >= 0 then NearestScaled(change, minted, after.variableBorrowIndex)
      else NearestScaled(-change, -minted, after.variableBorrowIndex)
  {
    hide RayMul, CompoundedInterest, VariableBorrowIndex, LiquidityIndex, TotalStableDebt, RayDiv, ReserveInv, NotAhead,
      StableDebtBalance, AverageStableRate, ExpectedInterestRates, UtilizationRate, NormalizedDebt,
      NormalizedIncome, BurnedScaled, RemovableStableDebt;
    ReserveStep(p, s, e);
    IndicesAfterStep(p, s, e);
    IndexPositive(s, e.tx);
    var minted := MintedVariable(s, e);
    RayDivNearest(if minted >= 0 then minted else -minted, VariableBorrowIndex(s.reserve, e.tx));
    RayDivZero(VariableBorrowIndex(s.reserve, e.tx));
  }

  lemma IndexPositive(s: State, t: int)
    requires Inv(s) && s.now <= t
    ensures VariableBorrowIndex(s.reserve, t) >= RAY && LiquidityIndex(s.reserve, t) >= RAY
  {
    hide VariableBorrowIndex, LiquidityIndex;
    AccrualFloor(s.reserve, s.now, t);
  }

  /** A deposit (withdrawal) mints (burns) its amount at the new liquidity index, and the recorded
      balance is the accrued one plus (less) the amount. It enables collateral when no balance was
      recorded; otherwise a withdrawal of the whole balance disables it, and nothing else changes it. */
  lemma DepositEffect(p: ReserveParams, s: State, e: Event)
    requires ValidParams(p) && Inv(s) && Enabled(s, e) && (e.action.Deposit? || e.action.Withdraw?)
    ensures StepDefined(p, s, e)
    ensures
      var u, after, index := s.users[e.action.user], NextUser(p, s, e), NextReserve(p, s, e).liquidityIndex;
      var balance, paid := ATokenBalance(s.reserve, u, e.tx), PaidToReserve(s, e);
      var change := after.scaledATokenBalance - u.scaledATokenBalance;
      && (if paid >= 0 then NearestScaled(change, paid, index) else NearestScaled(-change, -paid, index))
      && after.currentATokenBalance == balance + paid
      && (after.usageAsCollateralEnabled <==>
            u.currentATokenBalance == 0 || (u.usageAsCollateralEnabled && balance + paid != 0))
  {
    hide RayMul, CompoundedInterest, VariableBorrowIndex, LiquidityIndex, TotalStableDebt, RayDiv, ReserveInv, NotAhead,
      StableDebtBalance, NormalizedDebt, NormalizedIncome, NextReserve;
    ReserveStep(p, s, e);
    IndicesAfterStep(p, s, e);
    IndexPositive(s, e.tx);
    BalancesNonNeg(s, e.action.user, e.tx);
    RayDivNearest(Moved(s, e), LiquidityIndex(s.reserve, e.tx));
    RayDivZero(LiquidityIndex(s.reserve, e.tx));
  }

  lemma BalancesNonNeg(s: State, i: nat, t: int)
    requires Inv(s) && i < |s.users| && s.now <= t
    ensures ATokenBalance(s.reserve, s.users[i], t) >= 0
  {
    hide ATokenBalance, UserVariableDebt, NotAhead;
    assert UserInv(s.users[i], s.now);
    BalanceNonNeg(s.reserve, s.users[i], t);
  }

  // ---------- stable debt and its rates ----------

  /** q is the average of rate a on x and rate b on y, truncated towards zero; nothing has average zero. */
  predicate Weighted(q: int, x: int, a: int, y: int, b: int) {
    var total, sum := x + y, a * x + b * y;
    && (total == 0 ==> q == 0)
    && (total > 0 && sum >= 0 ==> q * total <= sum < (q + 1) * total)
    && (total > 0 && sum < 0 ==> (q - 1) * total < sum <= q * total)
  }

  lemma AverageIsWeighted(average: int, total: int, amount: int, rate: int)
    ensures Weighted(AverageStableRate(average, total, amount, rate), total, average, amount, rate)
  {
    hide TruncDiv;
    if total + amount > 0 {
      TruncDivBrackets(average * total + rate * amount, total + amount);
    }
  }

  lemma UserRateIsWeighted(balance: int, rateBefore: int, amount: int, rateNew: int)
    requires balance + amount > 0
    ensures Weighted(UserStableRate(balance, rateBefore, amount, rateNew), balance, rateBefore, amount, rateNew)
  {
    hide TruncDiv;
    assert balance * rateBefore == rateBefore * balance && amount * rateNew == rateNew * amount;
    TruncDivBrackets(balance * rateBefore + amount * rateNew, balance + amount);
  }

  /** The clamp of a stable repayment: it repays more than is accrued, or leaves a negative average. */
  predicate Clamped(s: State, e: Event)
    requires e.action.user < |s.users|
  {
    var total, repaid := AccruedStableDebt(s.reserve, e.tx), Moved(s, e);
    && e.action.Repay?
    && e.action.mode == Stable
    && (total < repaid
        || (repaid < total
            && s.reserve.averageStableBorrowRate * total - s.users[e.action.user].stableBorrowRate * repaid
                 <= -(total - repaid)))
  }

  /** The reserve's accrued stable debt moves by exactly what is minted, at the average of what it had
      and what moved: a loan at the reserve's rate, a removal at the user's. A swap to stable averages
      on the recorded total instead of the accrued one. A clamped repayment wipes both out. */
  lemma StableDebtEffect(p: ReserveParams, s: State, e: Event)
    requires ValidParams(p) && Inv(s) && Enabled(s, e) && TouchesStable(e)
    ensures StepDefined(p, s, e)
    ensures
      var r, u, after := s.reserve, s.users[e.action.user], NextReserve(p, s, e);
      var total, minted := AccruedStableDebt(r, e.tx), MintedStable(s, e);
      if Clamped(s, e) then
        after.principalStableDebt == AccruedStableDebt(after, e.tx) == after.averageStableBorrowRate == 0
      else
        && after.principalStableDebt == AccruedStableDebt(after, e.tx) == total + minted
        && (e.action.SwapRateMode? && e.action.mode != Stable ==>
              Weighted(after.averageStableBorrowRate, r.totalStableDebt, r.averageStableBorrowRate, minted,
                       r.stableBorrowRate))
        && (!e.action.SwapRateMode? || e.action.mode == Stable ==>
              Weighted(after.averageStableBorrowRate, total, r.averageStableBorrowRate, minted,
                       if minted >= 0 then r.stableBorrowRate else u.stableBorrowRate))
  {
    hide RayMul, CompoundedInterest, VariableBorrowIndex, LiquidityIndex, TotalStableDebt, RayDiv, StableDebtBalance,
      AverageStableRate, ExpectedInterestRates, UtilizationRate, NormalizedDebt, NormalizedIncome, BurnedScaled,
      NotAhead, Weighted, UserVariableDebt;
    ReserveStep(p, s, e);
    var r, u, after := s.reserve, s.users[e.action.user], NextReserve(p, s, e);
    AccrualFloor(r, s.now, e.tx);
    UserStep(p, s, e);
    var total, minted := AccruedStableDebt(r, e.tx), MintedStable(s, e);
    TotalStableDebtGrows(after.principalStableDebt, after.averageStableBorrowRate, e.tx, e.tx, e.tx);
    AverageIsWeighted(r.averageStableBorrowRate, r.totalStableDebt, minted, r.stableBorrowRate);
    AverageIsWeighted(r.averageStableBorrowRate, total, minted, r.stableBorrowRate);
    AverageIsWeighted(r.averageStableBorrowRate, total, minted, u.stableBorrowRate);
    if -minted < total {
      AverageAfterRemoval(r.averageStableBorrowRate, total, -minted, u.stableBorrowRate);
    } else {
      AverageOfNothing(r.averageStableBorrowRate, total, u.stableBorrowRate);
    }
  }

  /** The user's side: a stable borrow adds the loan to the accrued debt, and a swap to stable the moved
      debt to the recorded one, stamped now and at the average of what was owed and what moved; a stable
      repayment takes the amount off and keeps the rate; and whoever owes nothing afterwards has neither
      rate nor stamp. */
  lemma UserStableEffect(p: ReserveParams, s: State, e: Event)
    requires ValidParams(p) && Inv(s) && Enabled(s, e) && TouchesStable(e)
    ensures StepDefined(p, s, e)
    ensures
      var r, u, after := s.reserve, s.users[e.action.user], NextUser(p, s, e);
      var minted := MintedStable(s, e);
      if minted >= 0 then
        && after.principalStableDebt
             == (if e.action.Borrow? then UserStableDebt(u, e.tx) else u.currentStableDebt) + minted
        && after.stableRateLastUpdated == e.tx
        && Weighted(after.stableBorrowRate, UserStableDebt(u, e.tx), u.stableBorrowRate, minted, r.stableBorrowRate)
      else
        && after.principalStableDebt
             == (if e.action.Repay? then UserStableDebt(u, e.current) else UserStableDebt(u, e.tx)) + minted
        && after.stableBorrowRate == (if after.principalStableDebt == 0 then 0 else u.stableBorrowRate)
        && after.stableRateLastUpdated == (if after.principalStableDebt == 0 then 0 else e.tx)
  {
    hide RayMul, CompoundedInterest, VariableBorrowIndex, LiquidityIndex, TotalStableDebt, RayDiv, StableDebtBalance,
      NormalizedDebt, NormalizedIncome, BurnedScaled, ReserveInv, NotAhead, NextReserve, Weighted, UserStableRate,
      UserVariableDebt, RemovableStableDebt;
    ReserveStep(p, s, e);
    var r, u := s.reserve, s.users[e.action.user];
    UserDebts(s, e.action.user, e.tx);
    var minted := MintedStable(s, e);
    if minted >= 0 {
      UserRateIsWeighted(UserStableDebt(u, e.tx), u.stableBorrowRate, minted, r.stableBorrowRate);
    }
  }

  lemma UserDebts(s: State, i: nat, t: int)
    requires Inv(s) && i < |s.users| && s.now <= t
    ensures UserStableDebt(s.users[i], t) >= 0 && UserVariableDebt(s.reserve, s.users[i], t) >= 0
  {
    hide UserStableDebt, UserVariableDebt, NotAhead;
    assert UserInv(s.users[i], s.now);
    UserDebtsNonNeg(s.reserve, s.users[i], s.now, t);
  }

  /** The user's scaled debt moves by the nearest quotient too: a variable borrow from the reserve's
      total, everything else from the user's own; a swap to stable leaves none. */
  lemma UserScaledEffect(p: ReserveParams, s: State, e: Event)
    requires ValidParams(p) && Inv(s) && Enabled(s, e) && TouchesVariable(e)
    ensures StepDefined(p, s, e)
    ensures
      var u, after, index := s.users[e.action.user], NextUser(p, s, e), NextReserve(p, s, e).variableBorrowIndex;
      var minted := MintedVariable(s, e);
      if e.action.Borrow? then NearestScaled(after.scaledVariableDebt - s.reserve.scaledVariableDebt, minted, index)
      else if e.action.Repay? then NearestScaled(u.scaledVariableDebt - after.scaledVariableDebt, -minted, index)
      else if minted >= 0 then NearestScaled(after.scaledVariableDebt - u.scaledVariableDebt, minted, index)
      else after.scaledVariableDebt == 0
  {
    hide RayMul, CompoundedInterest, VariableBorrowIndex, LiquidityIndex, TotalStableDebt, RayDiv, StableDebtBalance,
      NormalizedDebt, NormalizedIncome, BurnedScaled, ReserveInv, NotAhead, NextReserve, UserStableRate,
      UserVariableDebt, UserStableDebt, RemovableStableDebt;
    ReserveStep(p, s, e);
    IndicesAfterStep(p, s, e);
    IndexPositive(s, e.tx);
    if e.action.Repay? {
      SameRepaid(s, e);
    }
    var minted := MintedVariable(s, e);
    RayDivNearest(if minted >= 0 then minted else -minted, VariableBorrowIndex(s.reserve, e.tx));
  }

  /** The reserve and the user resolve the repaid amount alike. */
  lemma SameRepaid(s: State, e: Event)
    requires Enabled(s, e) && e.action.Repay?
    ensures UserRepaid(e.action.amount, e.action.mode, s.reserve, s.users[e.action.user], e.current) == Moved(s, e)
  {
  }

  // ---------- when the balances are read ----------

  /** Deposits and withdrawals record both debts as accrued to the transaction. A repayment records the
      other side's debt as accrued to the report, and its own side less the amount. Repayments and swaps
      record the deposit as accrued to the transaction. */
  lemma ReadingTimes(p: ReserveParams, s: State, e: Event)
    requires ValidParams(p) && Inv(s) && Enabled(s, e)
    ensures StepDefined(p, s, e)
    ensures
      var r, u, after := s.reserve, s.users[e.action.user], NextUser(p, s, e);
      && (e.action.Deposit? || e.action.Withdraw? ==>
            && after.currentStableDebt == UserStableDebt(u, e.tx)
            && after.currentVariableDebt == UserVariableDebt(r, u, e.tx))
      && (e.action.Repay? && e.action.mode == Stable ==>
            && after.currentStableDebt == UserStableDebt(u, e.current) - Moved(s, e)
            && after.currentVariableDebt == UserVariableDebt(r, u, e.current))
      && (e.action.Repay? && e.action.mode != Stable ==> after.principalStableDebt == UserStableDebt(u, e.current))
      && (e.action.Repay? || e.action.SwapRateMode? ==> after.currentATokenBalance == ATokenBalance(r, u, e.tx))
  {
    hide RayMul, CompoundedInterest, VariableBorrowIndex, LiquidityIndex, TotalStableDebt, RayDiv, StableDebtBalance,
      NormalizedDebt, NormalizedIncome, BurnedScaled, ReserveInv, NotAhead, NextReserve, UserStableRate,
      RemovableStableDebt;
    ReserveStep(p, s, e);
    if e.action.Repay? {
      SameRepaid(s, e);
    }
  }

  /** A borrow read at a later time is the same borrow read at once, and then read again: only debts,
      liquidity and utilization of the reserve, and the user's three balances, differ, and they are what
      the records of the borrow read at once accrue to. */
  lemma BorrowReadLater(p: ReserveParams, s: State, user: nat, amount: int, mode: RateMode, tx: int, current: int)
    requires ValidParams(p) && Inv(s) && Enabled(s, Event(Borrow(user, amount, mode), tx, current))
    ensures
      && StepDefined(p, s, Event(Borrow(user, amount, mode), tx, tx))
      && StepDefined(p, s, Event(Borrow(user, amount, mode), tx, current))
    ensures
      var r0 := NextReserve(p, s, Event(Borrow(user, amount, mode), tx, tx));
      var r1 := NextReserve(p, s, Event(Borrow(user, amount, mode), tx, current));
      && r1 == r0.(totalStableDebt := r1.totalStableDebt, totalVariableDebt := r1.totalVariableDebt,
                   totalLiquidity := r1.totalLiquidity, utilizationRate := r1.utilizationRate)
      && r1.totalStableDebt == AccruedStableDebt(r0, current)
      && (r0.totalVariableDebt != 0 ==> r1.totalVariableDebt == AccruedVariableDebt(r0, current))
      && (r0.totalVariableDebt == 0 ==> r1.totalVariableDebt == 0)
      && r1.totalLiquidity == Outstanding(r1)
      && CanPrice(r1)
      && r1.utilizationRate == UtilizationRate(r1.totalStableDebt, r1.totalVariableDebt, r1.totalLiquidity)
    ensures
      var r0 := NextReserve(p, s, Event(Borrow(user, amount, mode), tx, tx));
      var u0 := NextUser(p, s, Event(Borrow(user, amount, mode), tx, tx));
      var u1 := NextUser(p, s, Event(Borrow(user, amount, mode), tx, current));
      u1 == u0.(currentStableDebt := UserStableDebt(u0, current),
                currentVariableDebt := UserVariableDebt(r0, u0, current),
                currentATokenBalance := ATokenBalance(r0, u0, current))
  {
    hide RayMul, CompoundedInterest, VariableBorrowIndex, LiquidityIndex, TotalStableDebt, RayDiv, StableDebtBalance,
      AverageStableRate, ExpectedInterestRates, UtilizationRate, NormalizedDebt, LinearInterest, UserStableRate,
      BorrowLedger, NotAhead;
    var e0, e1 := Event(Borrow(user, amount, mode), tx, tx), Event(Borrow(user, amount, mode), tx, current);
    ReserveStep(p, s, e0);
    ReserveStep(p, s, e1);
    var r0 := NextReserve(p, s, e0);
    if r0.totalVariableDebt != 0 {
      DebtIsNewIndex(r0, current);
    } else {
      assert r0.scaledVariableDebt == 0;
      RayMulZero(NormalizedDebt(r0.variableBorrowRate, r0.variableBorrowIndex, r0.lastUpdateTimestamp, current));
    }
  }
}
