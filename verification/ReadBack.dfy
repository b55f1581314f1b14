/** Do the balances a step records agree with the balances read back from the new records? Deposit
    balances do, up to the rounding that `ToleranceIsSound` bounds for deposits and withdrawals.
    Variable debts do unless they were read past the reserve's own index. The stable debt does except
    after a deposit and a variable repayment, whose user transitions store it in the wrong field, and
    there exactly when nothing distinguishes the two fields. */
module ReadBack {
  import opened RayMath
  import opened Interest
  import opened Records
  import opened Rates
  import opened Balances
  import opened ReserveTransitions
  import opened UserTransitions
  import opened Market
  import opened Invariants
  import opened UserInvariants

  /** A record read in the second it was last updated is read at its own indices. */
  lemma FreshReadings(r: ReserveData, t: int)
    requires Accruable(r, t) && r.lastUpdateTimestamp == t
    ensures NormalizedIncome(r, t) == r.liquidityIndex
    ensures NormalizedDebt(r.variableBorrowRate, r.variableBorrowIndex, r.lastUpdateTimestamp,
        t) == r.variableBorrowIndex
  {
    hide CompoundedInterest, LinearInterest, RayMul;
    LinearAtLeastRay(r.liquidityRate, t, t);
    RayMulOne(r.liquidityIndex);
    NormalizedDebtGrows(r.variableBorrowRate, r.variableBorrowIndex, t, t, t);
  }

  lemma StampedNow(p: ReserveParams, s: State, e: Event)
    requires ValidParams(p) && Inv(s) && Enabled(s, e) && StepDefined(p, s, e)
    ensures NextReserve(p, s, e).lastUpdateTimestamp == e.tx
  {
    hide RayMul, CompoundedInterest, VariableBorrowIndex, LiquidityIndex, TotalStableDebt, RayDiv, AverageStableRate,
      ExpectedInterestRates, UtilizationRate, StableDebtBalance, UserVariableDebt, UserStableDebt, BurnedScaled,
      ReserveRepaid, WithdrawnAmount, Inv, Enabled;
  }

  /** What both sides of a step are read at: the accrued indices of the reserve before. */
  lemma SameReadings(p: ReserveParams, s: State, e: Event)
    requires ValidParams(p) && Inv(s) && Enabled(s, e) && e.tx == e.current
    ensures StepDefined(p, s, e)
    ensures
      var r, after := s.reserve, NextReserve(p, s, e);
      && NormalizedIncome(after, e.tx) == after.liquidityIndex == NormalizedIncome(r, e.tx)
      && NormalizedDebt(after.variableBorrowRate, after.variableBorrowIndex, after.lastUpdateTimestamp, e.tx)
           == after.variableBorrowIndex
      && (r.totalVariableDebt != 0 ==>
            NormalizedDebt(r.variableBorrowRate, r.variableBorrowIndex, r.lastUpdateTimestamp, e.tx)
              == after.variableBorrowIndex)
  {
    hide RayMul, CompoundedInterest, VariableBorrowIndex, LiquidityIndex, TotalStableDebt, NextReserve, NextUser,
      StepDefined, Enabled, NormalizedIncome, NormalizedDebt;
    ReserveStep(p, s, e);
    EnabledTimes(s, e);
    IndicesAfterStep(p, s, e);
    StampedNow(p, s, e);
    FreshReadings(NextReserve(p, s, e), e.tx);
    IncomeIsNewIndex(s.reserve, e.tx);
    if s.reserve.totalVariableDebt != 0 {
      DebtIsNewIndex(s.reserve, e.tx);
    }
  }

  /** Deposits, withdrawals and stable repayments record the variable debt as the user read it before
      the step; the other actions compute it from the new record. */
  predicate KeepsVariableReading(e: Event) {
    e.action.Deposit? || e.action.Withdraw? || (e.action.Repay? && e.action.mode == Stable)
  }

  /** A step records a variable debt that is ahead of what the new records read at that time by
      exactly the interest the reserve does not record, if it keeps the old reading, and by nothing
      otherwise; `WhenInterestIsUnrecorded` says when that is nothing. The deposit balance reads back
      whenever the step moves no deposit. */
  lemma VariableDebtReadsBack(p: ReserveParams, s: State, e: Event)
    requires ValidParams(p) && Inv(s) && Enabled(s, e) && e.tx == e.current
    ensures StepDefined(p, s, e)
    ensures
      var after, u := NextReserve(p, s, e), NextUser(p, s, e);
      && u.currentVariableDebt - UserVariableDebt(after, u, e.tx)
           == (if KeepsVariableReading(e) then UnrecordedInterest(s.reserve, s.users[e.action.user], e.tx) else 0)
      && (!e.action.Deposit? && !e.action.Withdraw? ==> u.currentATokenBalance == ATokenBalance(after, u, e.tx))
  {
    hide RayMul, CompoundedInterest, VariableBorrowIndex, LiquidityIndex, TotalStableDebt, RayDiv, NextReserve, Inv,
      StepDefined, Enabled, StableDebtBalance, NormalizedIncome, NormalizedDebt;
    SameReadings(p, s, e);
    ReserveStep(p, s, e);
    IndicesAfterStep(p, s, e);
    EnabledTimes(s, e);
    RayMulZero(NextReserve(p, s, e).variableBorrowIndex);
  }

  // ---------- stable debt ----------

  lemma RayMulInjective(a: int, b: int, factor: int)
    requires a >= 0 && b >= 0 && factor >= RAY
    ensures RayMul(a, factor) == RayMul(b, factor) <==> a == b
  {
    hide RayMul;
    RayMulNearest(a, factor);
    RayMulNearest(b, factor);
    if a < b {
      MulMono(a + 1, b, factor);
      StepDown(a, factor);
    } else if b < a {
      MulMono(b + 1, a, factor);
      StepDown(b, factor);
    }
  }

  /** Stable accrual tells principals apart. */
  lemma StableBalanceInjective(a: int, b: int, rate: int, t0: int, t: int)
    requires a >= 0 && b >= 0 && rate >= 0 && t0 <= t
    ensures StableDebtBalance(a, rate, t0, t) == StableDebtBalance(b, rate, t0, t) <==> a == b
  {
    hide RayMul, CompoundedInterest;
    CompoundedGrows(rate, t0, t, t);
    RayMulInjective(a, b, CompoundedInterest(rate, t, t0));
  }

  /** Withdrawals, borrows, stable repayments and swaps record the stable debt the new record reads. */
  lemma StableDebtReadsBack(p: ReserveParams, s: State, e: Event)
    requires ValidParams(p) && Inv(s) && Enabled(s, e) && e.tx == e.current
    requires !e.action.Deposit? && !(e.action.Repay? && e.action.mode != Stable)
    ensures StepDefined(p, s, e)
    ensures NextUser(p, s, e).currentStableDebt == UserStableDebt(NextUser(p, s, e), e.tx)
  {
    hide RayMul, CompoundedInterest, VariableBorrowIndex, LiquidityIndex, TotalStableDebt, RayDiv, NextReserve,
      NormalizedIncome, NormalizedDebt, UserStableRate, Inv, StepDefined, Enabled;
    ReserveStep(p, s, e);
    EnabledTimes(s, e);
  }

  /** A deposit overwrites the stable principal with the variable debt, so its record reads back its
      own stable debt if and only if the two were equal. */
  lemma DepositStableDebtReadsBack(p: ReserveParams, s: State, e: Event)
    requires ValidParams(p) && Inv(s) && Enabled(s, e) && e.tx == e.current && e.action.Deposit?
    ensures StepDefined(p, s, e)
    ensures NextUser(p, s, e).currentStableDebt == UserStableDebt(NextUser(p, s, e), e.tx)
      <==> UserVariableDebt(s.reserve, s.users[e.action.user], e.tx) == s.users[e.action.user].principalStableDebt
  {
    hide RayMul, CompoundedInterest, VariableBorrowIndex, LiquidityIndex, TotalStableDebt, RayDiv, NextReserve,
      NormalizedIncome, NormalizedDebt, StableDebtBalance, ReserveInv, StepDefined, Enabled;
    ReserveStep(p, s, e);
    EnabledTimes(s, e);
    var r, u := s.reserve, s.users[e.action.user];
    UserDebtsNonNeg(r, u, s.now, e.tx);
    StableBalanceInjective(UserVariableDebt(r, u, e.tx), u.principalStableDebt, u.stableBorrowRate,
                           u.stableRateLastUpdated, e.tx);
  }

  /** A variable repayment exchanges the current stable debt and its principal, so its record reads
      back its own stable debt if and only if no stable interest had accrued. */
  lemma RepayStableDebtReadsBack(p: ReserveParams, s: State, e: Event)
    requires ValidParams(p) && Inv(s) && Enabled(s, e) && e.tx == e.current
    requires e.action.Repay? && e.action.mode != Stable
    ensures StepDefined(p, s, e)
    ensures NextUser(p, s, e).currentStableDebt == UserStableDebt(NextUser(p, s, e), e.tx)
      <==> UserStableDebt(s.users[e.action.user], e.tx) == s.users[e.action.user].principalStableDebt
  {
    hide RayMul, CompoundedInterest, VariableBorrowIndex, LiquidityIndex, TotalStableDebt, RayDiv, NextReserve,
      NormalizedIncome, NormalizedDebt, StableDebtBalance, ReserveInv, StepDefined, Enabled;
    ReserveStep(p, s, e);
    EnabledTimes(s, e);
    var r, u := s.reserve, s.users[e.action.user];
    UserDebtsNonNeg(r, u, s.now, e.tx);
    StableDebtGrows(UserStableDebt(u, e.tx), u.stableBorrowRate, u.stableRateLastUpdated, e.tx, e.tx);
  }

  /** A swap to stable keeps what the user owes, both debts accrued to the transaction, if and only
      if the recorded stable debt was already accrued: the source starts from the recorded one. */
  lemma SwapToStablePreservesDebt(p: ReserveParams, s: State, e: Event)
    requires ValidParams(p) && Inv(s) && Enabled(s, e)
    requires e.action.SwapRateMode? && e.action.mode != Stable
    ensures StepDefined(p, s, e)
    ensures
      var u, after := s.users[e.action.user], NextUser(p, s, e);
      && after.scaledVariableDebt == 0
      && (UserStableDebt(after, e.tx) == UserStableDebt(u, e.tx) + UserVariableDebt(s.reserve, u, e.tx)
          <==> u.currentStableDebt == UserStableDebt(u, e.tx))
  {
    hide RayMul, CompoundedInterest, VariableBorrowIndex, LiquidityIndex, TotalStableDebt, RayDiv, NextReserve,
      NormalizedIncome, NormalizedDebt, UserStableRate, Inv, StepDefined, Enabled;
    ReserveStep(p, s, e);
    EnabledTimes(s, e);
  }
}
