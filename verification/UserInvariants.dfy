/** The invariant of the user records, and what holds throughout every story. */
module UserInvariants {
  import opened RayMath
  import opened Interest
  import opened Records
  import opened Rates
  import opened Balances
  import opened ReserveTransitions
  import opened UserTransitions
  import opened Market
  import opened Invariants

  // ---------- scaled balances ----------

  /** Withdrawing at most the balance burns at most the scaled balance. */
  lemma WithdrawalFits(r: ReserveData, u: UserReserveData, withdrawn: int, now: int, tx: int)
    requires ReserveInv(r, now) && now <= tx && u.scaledATokenBalance >= 0
    requires 0 <= withdrawn <= ATokenBalance(r, u, tx)
    ensures LiquidityIndex(r, tx) >= RAY
    ensures 0 <= RayDiv(withdrawn, LiquidityIndex(r, tx)) <= u.scaledATokenBalance
    ensures withdrawn == ATokenBalance(r, u, tx) ==>
      RayDiv(withdrawn, LiquidityIndex(r, tx)) == u.scaledATokenBalance
  {
    hide RayMul, RayDiv, LinearInterest, LiquidityIndex, NormalizedIncome, CompoundedInterest;
    IndicesGrow(r, tx);
    IncomeIsNewIndex(r, tx);
    var index := LiquidityIndex(r, tx);
    ScaledRoundTrip(u.scaledATokenBalance, index);
    RayDivNearest(withdrawn, index);
    RayDivMono(withdrawn, index, ATokenBalance(r, u, tx), index);
  }

  /** Repaying at most the debt, and burning at most the reserve's scaled debt, burns at most the
      user's scaled debt. */
  lemma RepaymentFits(r: ReserveData, u: UserReserveData, repaid: int, now: int, tx: int)
    requires ReserveInv(r, now) && now <= tx && u.scaledVariableDebt >= 0
    requires 0 <= repaid <= UserVariableDebt(r, u, tx)
    requires BurnedScaled(r, repaid, tx) <= r.scaledVariableDebt
    ensures VariableBorrowIndex(r, tx) >= RAY
    ensures 0 <= RayDiv(repaid, VariableBorrowIndex(r, tx)) <= u.scaledVariableDebt
  {
    hide RayMul, RayDiv, NormalizedDebt, VariableBorrowIndex, CompoundedInterest;
    IndicesGrow(r, tx);
    var index := VariableBorrowIndex(r, tx);
    RayDivNearest(repaid, index);
    if r.totalVariableDebt != 0 {
      DebtScalesBack(r, u.scaledVariableDebt, tx);
      RayDivMono(repaid, index, UserVariableDebt(r, u, tx), index);
    }
  }

  lemma BalanceNonNeg(r: ReserveData, u: UserReserveData, t: int)
    requires Accruable(r, t) && u.scaledATokenBalance >= 0 && u.scaledVariableDebt >= 0
    ensures ATokenBalance(r, u, t) >= 0 && UserVariableDebt(r, u, t) >= 0
  {
    hide RayMul, NormalizedDebt, NormalizedIncome, CompoundedInterest;
    IndicesGrow(r, t);
    NormalizedDebtGrows(r.variableBorrowRate, r.variableBorrowIndex, r.lastUpdateTimestamp, t, t);
    RayMulNearest(u.scaledATokenBalance, NormalizedIncome(r, t));
    RayMulNearest(u.scaledVariableDebt,
                  NormalizedDebt(r.variableBorrowRate, r.variableBorrowIndex, r.lastUpdateTimestamp, t));
  }

  lemma UserRateNonNeg(balance: int, rate: int, amount: int, rateNew: int)
    requires balance >= 0 && rate >= 0 && amount >= 0 && rateNew >= 0 && balance + amount > 0
    ensures UserStableRate(balance, rate, amount, rateNew) >= 0
  {
    MulNonNeg(balance, rate);
    MulNonNeg(amount, rateNew);
  }

  // ---------- each action ----------

  lemma DepositUserInv(r: ReserveData, after: ReserveData, u: UserReserveData, amount: int, now: int, tx: int)
    requires ReserveInv(r, now) && UserInv(u, now) && now <= tx && 0 < amount <= u.walletBalance
    requires after.liquidityIndex == LiquidityIndex(r, tx) && after.liquidityRate >= 0
    ensures after.liquidityIndex >= RAY
    ensures UserInv(UserAfterDeposit(amount, r, after, u, tx), tx)
  {
    hide RayMul, RayDiv, CompoundedInterest, LiquidityIndex, StableDebtBalance, NormalizedDebt, NormalizedIncome;
    IndicesGrow(r, tx);
    UserDebtsNonNeg(r, u, now, tx);
    BalanceNonNeg(r, u, tx);
    RayDivNearest(amount, after.liquidityIndex);
    RayDivZero(after.liquidityIndex);
  }

  lemma WithdrawUserInv(r: ReserveData, after: ReserveData, u: UserReserveData, amount: int, now: int, tx: int)
    requires ReserveInv(r, now) && UserInv(u, now) && now <= tx
    requires 0 < WithdrawnAmount(amount, r, u, tx) <= ATokenBalance(r, u, tx)
    requires after.liquidityIndex == LiquidityIndex(r, tx) && after.liquidityRate >= 0
    ensures after.liquidityIndex >= RAY
    ensures UserInv(UserAfterWithdraw(amount, r, after, u, tx), tx)
  {
    hide RayMul, RayDiv, CompoundedInterest, LiquidityIndex, StableDebtBalance, NormalizedDebt, NormalizedIncome;
    IndicesGrow(r, tx);
    UserDebtsNonNeg(r, u, now, tx);
    WithdrawalFits(r, u, WithdrawnAmount(amount, r, u, tx), now, tx);
    RayDivZero(after.liquidityIndex);
  }

  lemma BorrowUserInv(r: ReserveData, after: ReserveData, u: UserReserveData, amount: int, mode: RateMode, now: int,
                      tx: int, current: int)
    requires ReserveInv(r, now) && UserInv(u, now) && now <= tx <= current && 0 < amount
    requires ReserveInv(after, current)
    requires UserBorrowDefined(amount, mode, after, u, tx)
    ensures UserInv(UserAfterBorrow(amount, mode, r, after, u, tx, current), current)
  {
    hide RayMul, RayDiv, CompoundedInterest, StableDebtBalance, NormalizedDebt, NormalizedIncome, UserStableRate;
    UserDebtsNonNeg(r, u, now, tx);
    BalanceNonNeg(after, u, current);
    if mode == Stable {
      UserRateNonNeg(UserStableDebt(u, tx), u.stableBorrowRate, amount, r.stableBorrowRate);
    } else {
      RayDivNearest(amount, after.variableBorrowIndex);
    }
    var n := UserAfterBorrow(amount, mode, r, after, u, tx, current);
    BalanceNonNeg(after, n, current);
    StableDebtGrows(n.principalStableDebt, n.stableBorrowRate, n.stableRateLastUpdated, current, current);
  }

  lemma RepayUserInv(r: ReserveData, after: ReserveData, u: UserReserveData, amount: int, mode: RateMode, own: bool,
                     now: int, tx: int, current: int)
    requires ReserveInv(r, now) && UserInv(u, now) && 0 <= now <= tx <= current
    requires after.variableBorrowIndex == VariableBorrowIndex(r, tx) >= RAY && after.liquidityRate >= 0
    requires Abs(amount) == MAX_UINT_AMOUNT ==> tx == current
    requires
      var repaid := ReserveRepaid(amount, mode, r, u, tx);
      && 0 < repaid <= (if mode == Stable then UserStableDebt(u, tx) else UserVariableDebt(r, u, tx))
      && (own ==> repaid <= u.walletBalance)
      && (mode != Stable ==> BurnedScaled(r, repaid, tx) <= r.scaledVariableDebt)
    ensures UserInv(UserAfterRepay(amount, mode, r, after, u, own, tx, current), current)
  {
    hide RayMul, RayDiv, CompoundedInterest, StableDebtBalance, NormalizedDebt, NormalizedIncome, VariableBorrowIndex,
      BurnedScaled;
    UserDebtsNonNeg(r, u, now, tx);
    UserDebtsNonNeg(r, u, now, current);
    BalanceNonNeg(r, u, tx);
    var repaid := ReserveRepaid(amount, mode, r, u, tx);
    assert repaid == UserRepaid(amount, mode, r, u, current);
    if mode == Stable {
      StableDebtGrows(u.principalStableDebt, u.stableBorrowRate, u.stableRateLastUpdated, tx, current);
    } else {
      RepaymentFits(r, u, repaid, now, tx);
      RayMulNearest(u.scaledVariableDebt - RayDiv(repaid, after.variableBorrowIndex), after.variableBorrowIndex);
    }
  }

  lemma SwapUserInv(r: ReserveData, after: ReserveData, u: UserReserveData, mode: RateMode, now: int, tx: int)
    requires ReserveInv(r, now) && UserInv(u, now) && 0 <= now <= tx
    requires after.variableBorrowIndex == VariableBorrowIndex(r, tx) >= RAY && after.liquidityRate >= 0
    requires UserSwapDefined(mode, r, after, u, tx)
    ensures UserInv(UserAfterSwap(mode, r, after, u, tx), tx)
  {
    hide RayMul, RayDiv, CompoundedInterest, StableDebtBalance, NormalizedDebt, NormalizedIncome, VariableBorrowIndex,
      UserStableRate;
    UserDebtsNonNeg(r, u, now, tx);
    BalanceNonNeg(r, u, tx);
    if mode == Stable {
      RayDivNearest(UserStableDebt(u, tx), after.variableBorrowIndex);
      RayMulNearest(UserAfterSwap(mode, r, after, u, tx).scaledVariableDebt, after.variableBorrowIndex);
    } else {
      UserRateNonNeg(UserStableDebt(u, tx), u.stableBorrowRate, UserVariableDebt(r, u, tx), r.stableBorrowRate);
    }
  }

  lemma UserStep(p: ReserveParams, s: State, e: Event)
    requires ValidParams(p) && Inv(s) && Enabled(s, e) && StepDefined(p, s, e)
    ensures UserInv(NextUser(p, s, e), e.current)
  {
    hide RayMul, CompoundedInterest, VariableBorrowIndex, LiquidityIndex, TotalStableDebt, RayDiv, ReserveInv,
      StableDebtBalance, NextReserve, UserVariableDebt, UserStableDebt, BurnedScaled, ReserveRepaid, WithdrawnAmount,
      UserAfterDeposit, UserAfterWithdraw, UserAfterBorrow, UserAfterRepay, UserAfterSwap, ATokenBalance, NotAhead,
      RemovableStableDebt;
    ReserveStep(p, s, e);
    IndicesAfterStep(p, s, e);
    var r, u, after := s.reserve, s.users[e.action.user], NextReserve(p, s, e);
    RatesOfInv(r, s.now);
    RatesOfInv(after, e.current);
    match e.action
    case Deposit(_, amount) => DepositUserInv(r, after, u, amount, s.now, e.tx);
    case Withdraw(_, amount) => WithdrawUserInv(r, after, u, amount, s.now, e.tx);
    case Borrow(_, amount, mode) => BorrowUserInv(r, after, u, amount, mode, s.now, e.tx, e.current);
    case Repay(payer, user, amount, mode) =>
      RepayUserInv(r, after, u, amount, mode, payer == user, s.now, e.tx, e.current);
    case SwapRateMode(_, mode) => SwapUserInv(r, after, u, mode, s.now, e.tx);
  }

  lemma RatesOfInv(r: ReserveData, now: int)
    requires ReserveInv(r, now)
    ensures r.liquidityRate >= 0 && r.liquidityIndex >= RAY && r.variableBorrowIndex >= RAY
  {
  }

  /** Every enabled action is well defined and keeps the invariant. */
  lemma StepKeeps(p: ReserveParams, s: State, e: Event)
    requires ValidParams(p) && Inv(s) && Enabled(s, e)
    ensures StepDefined(p, s, e)
    ensures Inv(Step(p, s, e))
  {
    hide RayMul, CompoundedInterest, ReserveInv, NotAhead, NextReserve, NextUser, StepDefined, Enabled;
    ReserveStep(p, s, e);
    UserStep(p, s, e);
    EnabledTimes(s, e);
    var s' := Step(p, s, e);
    forall i | 0 <= i < |s'.users|
      ensures UserInv(s'.users[i], s'.now)
    {
      assert UserInv(s.users[i], s.now);
    }
  }

  lemma EnabledTimes(s: State, e: Event)
    requires Enabled(s, e)
    ensures e.action.user < |s.users| && s.now <= e.tx <= e.current
  {
  }

  // ---------- stories ----------

  /** An action of a story: it takes its step, or reverts and changes nothing. */
  function Attempt(p: ReserveParams, s: State, e: Event): (s': State)
    requires ValidParams(p) && Inv(s)
    ensures Inv(s')
    ensures |s'.users| == |s.users| && s.now <= s'.now
  {
    hide Inv, Enabled, StepDefined, NextReserve, NextUser;
    if Enabled(s, e) then
      StepKeeps(p, s, e);
      EnabledTimes(s, e);
      Step(p, s, e)
    else s
  }

  /** A story: its actions attempted in order. */
  function Story(p: ReserveParams, s: State, events: seq<Event>): (s': State)
    requires ValidParams(p) && Inv(s)
    ensures Inv(s')
    ensures |s'.users| == |s.users| && s.now <= s'.now
    decreases |events|
  {
    hide *;
    if events == [] then s else Story(p, Attempt(p, s, events[0]), events[1..])
  }

  /** No attempt lowers an index. */
  lemma AttemptIndices(p: ReserveParams, s: State, e: Event)
    requires ValidParams(p) && Inv(s)
    ensures s.reserve.liquidityIndex <= Attempt(p, s, e).reserve.liquidityIndex
    ensures s.reserve.variableBorrowIndex <= Attempt(p, s, e).reserve.variableBorrowIndex
  {
    hide Inv, Enabled, StepDefined, NextReserve, NextUser, LiquidityIndex, VariableBorrowIndex;
    if Enabled(s, e) {
      StepKeeps(p, s, e);
      IndicesAfterStep(p, s, e);
    }
  }

  lemma {:induction false} StoryIndices(p: ReserveParams, s: State, events: seq<Event>)
    requires ValidParams(p) && Inv(s)
    ensures s.reserve.liquidityIndex <= Story(p, s, events).reserve.liquidityIndex
    ensures s.reserve.variableBorrowIndex <= Story(p, s, events).reserve.variableBorrowIndex
    decreases |events|
  {
    hide Inv, Attempt, ValidParams;
    if events != [] {
      AttemptIndices(p, s, events[0]);
      StoryIndices(p, Attempt(p, s, events[0]), events[1..]);
    }
  }

  /** Through every story, whatever its actions: both indices never decrease and stay at least one
      ray, all rates, debts and the average stable rate stay non-negative, an unused reserve pays
      nothing, and no wallet or balance is overdrawn. */
  lemma StorySafety(p: ReserveParams, s: State, events: seq<Event>)
    requires ValidParams(p) && Inv(s)
    ensures
      var r, r' := s.reserve, Story(p, s, events).reserve;
      && RAY <= r.liquidityIndex <= r'.liquidityIndex
      && RAY <= r.variableBorrowIndex <= r'.variableBorrowIndex
      && 0 <= r'.liquidityRate && 0 <= r'.stableBorrowRate && 0 <= r'.variableBorrowRate
      && 0 <= r'.totalStableDebt && 0 <= r'.totalVariableDebt && 0 <= r'.averageStableBorrowRate
      && 0 <= r'.availableLiquidity
      && (r'.utilizationRate == 0 ==> r'.liquidityRate == 0)
    ensures forall i :: 0 <= i < |s.users| ==>
      var u := Story(p, s, events).users[i];
      0 <= u.scaledATokenBalance && 0 <= u.scaledVariableDebt && 0 <= u.principalStableDebt && 0 <= u.walletBalance
  {
    hide Story, ValidParams, NotAhead;
    StoryIndices(p, s, events);
  }
}
