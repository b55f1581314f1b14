/** What one call undoes and what it preserves, up to rounding. */
module RoundTrips {
  import opened RayMath
  import opened Interest
  import opened Records
  import opened Rates
  import opened Balances
  import opened ReserveTransitions
  import opened UserTransitions
  import opened Market
  import opened Invariants
  import opened UserInvariants

  // ---------- leaving completely ----------

  /** Withdrawing the maximum leaves nothing behind, for every index and every accrual period, and
      collateral use ends up off exactly when the recorded balance was not already zero. */
  lemma WithdrawAll(p: ReserveParams, s: State, e: Event)
    requires ValidParams(p) && Inv(s) && Enabled(s, e)
    requires e.action.Withdraw? && e.action.amount == MAX_UINT_AMOUNT
    ensures StepDefined(p, s, e)
    ensures
      var before, after := s.users[e.action.user], NextUser(p, s, e);
      && after.scaledATokenBalance == 0
      && after.currentATokenBalance == 0
      && (!after.usageAsCollateralEnabled <==> before.currentATokenBalance != 0)
  {
    hide RayMul, RayDiv, CompoundedInterest, VariableBorrowIndex, LiquidityIndex, TotalStableDebt, StableDebtBalance,
      NormalizedIncome, NormalizedDebt, UtilizationRate, ExpectedInterestRates;
    ReserveStep(p, s, e);
    IndicesAfterStep(p, s, e);
    var u := s.users[e.action.user];
    WithdrawalFits(s.reserve, u, ATokenBalance(s.reserve, u, e.tx), s.now, e.tx);
    RayDivZero(LiquidityIndex(s.reserve, e.tx));
  }

  /** When the reserve records no variable debt, a repayment that burns nothing repays nothing. */
  lemma NothingRecordedNothingOwed(r: ReserveData, u: UserReserveData, tx: int)
    requires Accruable(r, tx) && u.scaledVariableDebt >= 0 && r.totalVariableDebt == 0
    ensures VariableBorrowIndex(r, tx) >= RAY
    ensures RayDiv(UserVariableDebt(r, u, tx), VariableBorrowIndex(r, tx)) >= u.scaledVariableDebt
  {
    hide RayMul, RayDiv, CompoundedInterest;
    var index := r.variableBorrowIndex;
    var debt := NormalizedDebt(r.variableBorrowRate, index, r.lastUpdateTimestamp, tx);
    NormalizedDebtGrows(r.variableBorrowRate, index, r.lastUpdateTimestamp, tx, tx);
    ScaledRoundTrip(u.scaledVariableDebt, index);
    RayMulNearest(u.scaledVariableDebt, index);
    RayMulMono(u.scaledVariableDebt, u.scaledVariableDebt, index, debt);
    RayDivMono(RayMul(u.scaledVariableDebt, index), index, UserVariableDebt(r, u, tx), index);
  }

  /** Repaying the maximum in variable mode leaves no scaled and no current variable debt. */
  lemma RepayAllVariable(p: ReserveParams, s: State, e: Event)
    requires ValidParams(p) && Inv(s) && Enabled(s, e)
    requires e.action.Repay? && e.action.mode == Variable && Abs(e.action.amount) == MAX_UINT_AMOUNT
    ensures StepDefined(p, s, e)
    ensures NextUser(p, s, e).scaledVariableDebt == 0 && NextUser(p, s, e).currentVariableDebt == 0
  {
    hide RayMul, RayDiv, CompoundedInterest, VariableBorrowIndex, LiquidityIndex, TotalStableDebt, StableDebtBalance,
      NormalizedIncome, NormalizedDebt, UtilizationRate, ExpectedInterestRates;
    ReserveStep(p, s, e);
    IndicesAfterStep(p, s, e);
    if s.reserve.totalVariableDebt == 0 {
      NothingRecordedNothingOwed(s.reserve, s.users[e.action.user], e.tx);
    }
    DebtScalesBack(s.reserve, s.users[e.action.user].scaledVariableDebt, e.tx);
    RayMulZero(VariableBorrowIndex(s.reserve, e.tx));
  }

  // ---------- swapping to variable ----------

  /** Swapping stable debt to variable preserves what the user owes, both debts accrued to the
      transaction, up to less than index / (2 * RAY) + 1 and up to the interest the reserve does not
      record. `WhenInterestIsUnrecorded` says when that is nothing. */
  lemma SwapPreservesDebt(p: ReserveParams, s: State, e: Event)
    requires ValidParams(p) && Inv(s) && Enabled(s, e)
    requires e.action.SwapRateMode? && e.action.mode == Stable
    ensures StepDefined(p, s, e)
    ensures
      var u, after := s.users[e.action.user], NextUser(p, s, e);
      var owed := UserVariableDebt(s.reserve, u, e.tx) + UserStableDebt(u, e.tx);
      var kept := owed - UnrecordedInterest(s.reserve, u, e.tx);
      var index := VariableBorrowIndex(s.reserve, e.tx);
      && after.currentStableDebt == 0
      && -(index + 2 * RAY) < 2 * RAY * (after.currentVariableDebt - kept) < index + 2 * RAY
      && (index <= 2 * RAY ==> -1 <= after.currentVariableDebt - kept <= 1)
  {
    hide RayMul, RayDiv, CompoundedInterest, VariableBorrowIndex, LiquidityIndex, TotalStableDebt, StableDebtBalance,
      NormalizedIncome, NormalizedDebt, UtilizationRate, ExpectedInterestRates, AverageStableRate;
    ReserveStep(p, s, e);
    IndicesAfterStep(p, s, e);
    var u := s.users[e.action.user];
    ScaledAddition(u.scaledVariableDebt, UserStableDebt(u, e.tx), VariableBorrowIndex(s.reserve, e.tx));
  }

  // ---------- the tolerance of the test comparison ----------

  /** The comparison the scenario tests apply to every number, disjunct by disjunct. */
  predicate AlmostEqualOrEqual(actual: int, expected: int) {
    || actual == expected
    || actual + 1 == expected
    || actual == expected + 1
    || actual + 2 == expected
    || actual == expected + 2
    || actual + 3 == expected
    || actual == expected + 3
  }

  lemma WithinThree(index: int, difference: int)
    requires index <= 6 * RAY
    requires -(index + 2 * RAY) < 2 * RAY * difference < index + 2 * RAY
    ensures -3 <= difference <= 3
  {
  }

  /** After a deposit or a withdrawal the balance tracked by addition and the balance read back from
      the scaled one differ by less than index / (2 * RAY) + 1, and so pass that comparison for every
      index up to six rays. */
  lemma ToleranceIsSound(p: ReserveParams, s: State, e: Event)
    requires ValidParams(p) && Inv(s) && Enabled(s, e) && (e.action.Deposit? || e.action.Withdraw?)
    ensures StepDefined(p, s, e)
    ensures
      var after, index := NextUser(p, s, e), NextReserve(p, s, e).liquidityIndex;
      var read := RayMul(after.scaledATokenBalance, index);
      && -(index + 2 * RAY) < 2 * RAY * (read - after.currentATokenBalance) < index + 2 * RAY
      && (index <= 6 * RAY ==> AlmostEqualOrEqual(read, after.currentATokenBalance))
  {
    hide RayMul, RayDiv, CompoundedInterest, VariableBorrowIndex, LiquidityIndex, TotalStableDebt, StableDebtBalance,
      NormalizedIncome, NormalizedDebt, UtilizationRate, ExpectedInterestRates;
    ReserveStep(p, s, e);
    IndicesAfterStep(p, s, e);
    var r, u, after := s.reserve, s.users[e.action.user], NextUser(p, s, e);
    var index := LiquidityIndex(r, e.tx);
    IncomeIsNewIndex(r, e.tx);
    RayDivZero(index);
    if e.action.Deposit? {
      ScaledAddition(u.scaledATokenBalance, e.action.amount, index);
    } else {
      var withdrawn := WithdrawnAmount(e.action.amount, r, u, e.tx);
      WithdrawalFits(r, u, withdrawn, s.now, e.tx);
      ScaledSubtraction(u.scaledATokenBalance, withdrawn, index);
    }
    if index <= 6 * RAY {
      WithinThree(index, RayMul(after.scaledATokenBalance, index) - after.currentATokenBalance);
    }
  }

  // ---------- stable borrow and stable repayment ----------

  function CeilDiv(a: int, b: int): int
    requires b > 0
  {
    (a + b - 1) / b
  }

  /** What averaging in a new loan truncates away. */
  function LostInAverage(averageBefore: int, totalBefore: int, amount: int, rate: int): int
    requires totalBefore + amount > 0
  {
    (averageBefore * totalBefore + rate * amount) % (totalBefore + amount)
  }

  /** Averaging a loan in and out again: the remainder of the first division comes off the weighted
      total. */
  lemma AverageInAndOut(average: int, total: int, amount: int, rate: int)
    requires average >= 0 && total > 0 && amount > 0 && rate >= 0
    ensures
      var during := AverageStableRate(average, total, amount, rate);
      var lost := LostInAverage(average, total, amount, rate);
      && 0 <= lost < total + amount
      && during * (total + amount) + rate * -amount == average * total - lost
  {
    var x, t := average * total + rate * amount, total + amount;
    MulNonNeg(average, total);
    MulNonNeg(rate, amount);
    assert x == x / t * t + x % t;
    assert rate * -amount == -(rate * amount);
  }

  lemma AverageDrop(average: int, total: int, amount: int, lost: int)
    requires average >= 0 && total > 0 && amount > 0 && 0 <= lost < total + amount
    ensures
      var out := TruncDiv(average * total - lost, total);
      && (out < 0 <==> lost >= (average + 1) * total)
      && out <= average
      && average - out <= CeilDiv(total + amount - 1, total)
  {
    var x := average * total - lost;
    hide TruncDiv;
    var out := TruncDiv(x, total);
    TruncDivBrackets(x, total);
    var k := CeilDiv(total + amount - 1, total);
    QuotientBrackets(total + amount - 1 + total - 1, total);
    assert (average + 1) * total == average * total + total;
    assert (average - k) * total == average * total - k * total;
    assert (out + 1) * total == out * total + total && (out - 1) * total == out * total - total;
    if x >= 0 {
      QuotientOrder(out, average, total, x, average * total);
      QuotientOrder(average - k, out, total, x, x);
    } else {
      if out < average - k {
        MulMono(out + 1, average - k, total);
      }
      if out < 0 {
        MulMono(out, -1, total);
      }
      if out > average {
        MulMono(average, out, total);
      }
    }
  }

  /** A stable borrow: the accrued debts of reserve and user plus the loan, each at an average between
      the old average and the loan's rate. */
  lemma StableBorrowEffect(p: ReserveParams, s: State, user: nat, amount: int, t: int)
    requires ValidParams(p) && Inv(s)
    requires Enabled(s, Event(Borrow(user, amount, Stable), t, t))
    ensures StepDefined(p, s, Event(Borrow(user, amount, Stable), t, t))
    ensures
      var s1 := Step(p, s, Event(Borrow(user, amount, Stable), t, t));
      var r, r1 := s.reserve, s1.reserve;
      var total := AccruedStableDebt(r, t);
      && total >= 0
      && AccruedStableDebt(r1, t) == total + amount
      && r1.averageStableBorrowRate
           == AverageStableRate(r.averageStableBorrowRate, total, amount, r.stableBorrowRate)
      && Between(r.averageStableBorrowRate, r1.averageStableBorrowRate, r.stableBorrowRate)
      && r1.availableLiquidity == r.availableLiquidity - amount
    ensures
      var s1 := Step(p, s, Event(Borrow(user, amount, Stable), t, t));
      var u, u1 := s.users[user], s1.users[user];
      var debt := UserStableDebt(u, t);
      && debt >= 0
      && UserStableDebt(u1, t) == debt + amount
      && Between(u.stableBorrowRate, u1.stableBorrowRate, s.reserve.stableBorrowRate)
      && (debt == 0 ==> u1.stableBorrowRate == s.reserve.stableBorrowRate)
      && u1.walletBalance == u.walletBalance + amount
  {
    hide RayMul, RayDiv, CompoundedInterest, VariableBorrowIndex, LiquidityIndex, TotalStableDebt, StableDebtBalance,
      NormalizedIncome, NormalizedDebt, UtilizationRate, ExpectedInterestRates, AverageStableRate, UserStableRate,
      Between;
    var e := Event(Borrow(user, amount, Stable), t, t);
    ReserveStep(p, s, e);
    var r, u := s.reserve, s.users[user];
    AccrualFloor(r, s.now, t);
    UserDebtsNonNeg(r, u, s.now, t);
    var total, debt := AccruedStableDebt(r, t), UserStableDebt(u, t);
    var during := AverageStableRate(r.averageStableBorrowRate, total, amount, r.stableBorrowRate);
    AverageIsBetween(r.averageStableBorrowRate, total, amount, r.stableBorrowRate);
    TotalStableDebtGrows(total + amount, during, t, t, t);
    UserRateIsAverage(debt, u.stableBorrowRate, amount, r.stableBorrowRate);
    AverageIsBetween(u.stableBorrowRate, debt, amount, r.stableBorrowRate);
    JustUpdated(debt + amount, UserStableRate(debt, u.stableBorrowRate, amount, r.stableBorrowRate), t);
    if debt == 0 {
      FirstLoanRate(u.stableBorrowRate, amount, r.stableBorrowRate);
    }
  }

  predicate Between(a: int, x: int, b: int) {
    a <= x <= b || b <= x <= a
  }

  lemma AverageIsBetween(average: int, total: int, amount: int, rate: int)
    requires average >= 0 && total >= 0 && amount > 0 && rate >= 0
    ensures Between(average, AverageStableRate(average, total, amount, rate), rate)
  {
    hide AverageStableRate;
    if average <= rate {
      AverageBetween(average, total, amount, rate, average, rate);
    } else {
      AverageBetween(average, total, amount, rate, rate, average);
    }
  }

  /** The user's rate is the same average. */
  lemma UserRateIsAverage(balance: int, rateBefore: int, amount: int, rateNew: int)
    requires balance + amount != 0
    ensures UserStableRate(balance, rateBefore, amount, rateNew)
      == AverageStableRate(rateBefore, balance, amount, rateNew)
  {
    hide TruncDiv;
    assert balance * rateBefore == rateBefore * balance && amount * rateNew == rateNew * amount;
  }

  lemma FirstLoanRate(rateBefore: int, amount: int, rateNew: int)
    requires amount > 0 && rateNew >= 0
    ensures UserStableRate(0, rateBefore, amount, rateNew) == rateNew
  {
    hide AverageStableRate;
    UserRateIsAverage(0, rateNew, amount, rateNew);
    AverageBetween(rateNew, 0, amount, rateNew, rateNew, rateNew);
  }

  /** A stable borrow undone in the same second by repaying it. Cash and the user's debt are restored
      exactly, and the total too unless the clamp of negative averages wipes it out. For a borrower
      without stable debt, or whose debt is already at the reserve's rate, the average drops by at most
      a rounding, and the clamp fires if and only if what the averaging truncated reaches one more
      unit of average on the old total. */
  lemma StableBorrowUndone(p: ReserveParams, s: State, user: nat, amount: int, t: int)
    requires ValidParams(p) && Inv(s)
    requires Enabled(s, Event(Borrow(user, amount, Stable), t, t))
    requires amount == MAX_UINT_AMOUNT ==> UserStableDebt(s.users[user], t) == 0
    ensures StepDefined(p, s, Event(Borrow(user, amount, Stable), t, t))
    ensures
      var s1 := Step(p, s, Event(Borrow(user, amount, Stable), t, t));
      Enabled(s1, Event(Repay(user, user, amount, Stable), t, t))
      && StepDefined(p, s1, Event(Repay(user, user, amount, Stable), t, t))
    ensures
      var s1 := Step(p, s, Event(Borrow(user, amount, Stable), t, t));
      var s2 := Step(p, s1, Event(Repay(user, user, amount, Stable), t, t));
      var r, u, r2, u2 := s.reserve, s.users[user], s2.reserve, s2.users[user];
      var total, average, debt := AccruedStableDebt(r, t), r.averageStableBorrowRate, UserStableDebt(u, t);
      && r2.availableLiquidity == r.availableLiquidity
      && u2.walletBalance == u.walletBalance
      && u2.principalStableDebt == u2.currentStableDebt == debt
      && r2.principalStableDebt == r2.totalStableDebt
      && (r2.totalStableDebt == total || (r2.totalStableDebt == 0 && r2.averageStableBorrowRate == 0))
      && (debt > 0 && u.stableBorrowRate == r.stableBorrowRate ==> u2.stableBorrowRate == u.stableBorrowRate)
      && (debt == 0 || u.stableBorrowRate == r.stableBorrowRate ==>
            if LostInAverage(average, total, amount, r.stableBorrowRate) >= (average + 1) * total then
              r2.totalStableDebt == 0 && r2.averageStableBorrowRate == 0
            else
              && r2.totalStableDebt == total > 0
              && r2.averageStableBorrowRate <= average
              && average - r2.averageStableBorrowRate <= CeilDiv(total + amount - 1, total))
  {
    hide RayMul, RayDiv, CompoundedInterest, VariableBorrowIndex, LiquidityIndex, TotalStableDebt,
      NormalizedIncome, NormalizedDebt, UtilizationRate, ExpectedInterestRates, LostInAverage, CeilDiv, NextReserve,
      NextUser, Inv, UserStableDebt, StepDefined, AverageStableRate;
    var e1, e2 := Event(Borrow(user, amount, Stable), t, t), Event(Repay(user, user, amount, Stable), t, t);
    StableBorrowEffect(p, s, user, amount, t);
    StepKeeps(p, s, e1);
    var s1 := Step(p, s, e1);
    assert s1.users[user].walletBalance >= amount by {
      WalletNonNeg(s, user);
    }
    assert Enabled(s1, e2);
    StepKeeps(p, s1, e2);
    StableRepayEffect(p, s1, e2);
    AverageNonNegOfInv(s);
    if UserStableDebt(s.users[user], t) == 0 || s.users[user].stableBorrowRate == s.reserve.stableBorrowRate {
      UndoneAverage(s.reserve.averageStableBorrowRate, AccruedStableDebt(s.reserve, t), amount,
                    s.reserve.stableBorrowRate);
    }
  }

  /** The average in and out again at one rate, on whatever total. */
  lemma UndoneAverage(average: int, total: int, amount: int, rate: int)
    requires average >= 0 && total >= 0 && amount > 0 && rate >= 0
    ensures
      var during := AverageStableRate(average, total, amount, rate);
      var out := AverageStableRate(during, total + amount, -amount, rate);
      if LostInAverage(average, total, amount, rate) >= (average + 1) * total then out < 0 || total == 0 == out
      else total > 0 && 0 <= out <= average && average - out <= CeilDiv(total + amount - 1, total)
  {
    hide LostInAverage, CeilDiv;
    if total == 0 {
      MulNonNeg(rate, amount);
      assert LostInAverage(average, total, amount, rate) >= 0 by {
        LostNonNeg(average, total, amount, rate);
      }
    } else {
      AverageInAndOut(average, total, amount, rate);
      AverageDrop(average, total, amount, LostInAverage(average, total, amount, rate));
    }
  }

  lemma LostNonNeg(average: int, total: int, amount: int, rate: int)
    requires total + amount > 0
    ensures LostInAverage(average, total, amount, rate) >= 0
  {
  }

  lemma WalletNonNeg(s: State, user: nat)
    requires Inv(s) && user < |s.users|
    ensures s.users[user].walletBalance >= 0
  {
    assert UserInv(s.users[user], s.now);
  }

  lemma AverageNonNegOfInv(s: State)
    requires Inv(s)
    ensures s.reserve.averageStableBorrowRate >= 0 && s.reserve.stableBorrowRate >= 0
  {
  }

  /** The reserve's stable side, the cash and the user after a stable repayment of all or part of the
      debt from the debtor's own wallet. */
  lemma StableRepayEffect(p: ReserveParams, s: State, e: Event)
    requires Enabled(s, e) && StepDefined(p, s, e) && e.tx == e.current
    requires e.action.Repay? && e.action.mode == Stable && e.action.payer == e.action.user
    requires Abs(e.action.amount) == MAX_UINT_AMOUNT
      ==> UserStableDebt(s.users[e.action.user], e.tx) == e.action.amount
    ensures
      var r, u, amount := s.reserve, s.users[e.action.user], e.action.amount;
      var r2, u2 := NextReserve(p, s, e), NextUser(p, s, e);
      var side := StableSideAfterRepay(amount, r, u.stableBorrowRate, e.tx);
      && r2.availableLiquidity == r.availableLiquidity + amount
      && r2.principalStableDebt == r2.totalStableDebt == side.debt
      && r2.averageStableBorrowRate == side.average
      && u2.principalStableDebt == u2.currentStableDebt == UserStableDebt(u, e.tx) - amount
      && (amount < UserStableDebt(u, e.tx) ==> u2.stableBorrowRate == u.stableBorrowRate)
      && u2.walletBalance == u.walletBalance - amount
  {
    hide RayMul, RayDiv, CompoundedInterest, VariableBorrowIndex, LiquidityIndex, TotalStableDebt, StableDebtBalance,
      NormalizedIncome, NormalizedDebt, UtilizationRate, ExpectedInterestRates, AverageStableRate;
  }
}
