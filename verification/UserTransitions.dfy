/** What each pool action does to the record of the user it is for. The reserve records before and
    after the action are inputs, as in the source. */
module UserTransitions {
  import opened RayMath
  import opened Interest
  import opened Records
  import opened Balances
  import opened ReserveTransitions

  // ---------- deposit ----------

  function UserAfterDeposit(amount: int, reserveBefore: ReserveData, reserveAfter: ReserveData, before: UserReserveData,
                            txTimestamp: int): UserReserveData
    requires reserveAfter.liquidityIndex != 0
  {
    before.(
      scaledATokenBalance := ScaledATokenBalance(before, reserveAfter.liquidityIndex, amount, 0),
      currentATokenBalance := ATokenBalance(reserveBefore, before, txTimestamp) + amount,
      currentStableDebt := UserStableDebt(before, txTimestamp),
      currentVariableDebt := UserVariableDebt(reserveBefore, before, txTimestamp),
      principalStableDebt := UserVariableDebt(reserveBefore, before, txTimestamp),
      liquidityRate := reserveAfter.liquidityRate,
      usageAsCollateralEnabled := before.currentATokenBalance == 0 || before.usageAsCollateralEnabled,
      walletBalance := before.walletBalance - amount)
  }

  method CalcUserAfterDeposit(amountDeposited: int, reserveBefore: ReserveData, reserveAfter: ReserveData,
                              before: UserReserveData, txTimestamp: int)
    returns (expected: UserReserveData)
    requires reserveAfter.liquidityIndex != 0
    ensures expected == UserAfterDeposit(amountDeposited, reserveBefore, reserveAfter, before, txTimestamp)
  {
    hide CompoundedInterest, NormalizedIncome, NormalizedDebt, StableDebtBalance, RayMul, RayDiv;
    expected := before;
    expected := expected.(currentStableDebt := UserStableDebt(before, txTimestamp));
    expected := expected.(currentVariableDebt := UserVariableDebt(reserveBefore, before, txTimestamp));
    expected := expected.(principalStableDebt := before.principalStableDebt);
    expected := expected.(scaledVariableDebt := before.scaledVariableDebt);
    expected := expected.(stableBorrowRate := before.stableBorrowRate);
    expected := expected.(stableRateLastUpdated := before.stableRateLastUpdated);
    expected := expected.(liquidityRate := reserveAfter.liquidityRate);
    expected := expected.(scaledATokenBalance :=
      ScaledATokenBalance(before, reserveAfter.liquidityIndex, amountDeposited, 0));
    expected := expected.(currentATokenBalance := ATokenBalance(reserveBefore, before, txTimestamp) + amountDeposited);
    if before.currentATokenBalance == 0 {
      expected := expected.(usageAsCollateralEnabled := true);
    } else {
      expected := expected.(usageAsCollateralEnabled := before.usageAsCollateralEnabled);
    }
    expected := expected.(walletBalance := before.walletBalance - amountDeposited);
    expected := expected.(principalStableDebt := UserStableDebt(before, txTimestamp));
    expected := expected.(currentStableDebt := expected.principalStableDebt);
    expected := expected.(principalStableDebt := UserVariableDebt(reserveBefore, before, txTimestamp));
    expected := expected.(currentVariableDebt := expected.principalStableDebt);
  }

  // ---------- withdraw ----------

  function UserAfterWithdraw(amount: int, reserveBefore: ReserveData, reserveAfter: ReserveData,
                             before: UserReserveData,
                             txTimestamp: int): UserReserveData
    requires reserveAfter.liquidityIndex != 0
  {
    var balance := ATokenBalance(reserveBefore, before, txTimestamp);
    var withdrawn := if amount == MAX_UINT_AMOUNT then balance else amount;
    before.(
      scaledATokenBalance := ScaledATokenBalance(before, reserveAfter.liquidityIndex, 0, withdrawn),
      currentATokenBalance := balance - withdrawn,
      currentStableDebt := UserStableDebt(before, txTimestamp),
      currentVariableDebt := UserVariableDebt(reserveBefore, before, txTimestamp),
      liquidityRate := reserveAfter.liquidityRate,
      usageAsCollateralEnabled :=
        before.currentATokenBalance == 0 || (balance != withdrawn && before.usageAsCollateralEnabled),
      walletBalance := before.walletBalance + withdrawn)
  }

  method CalcUserAfterWithdraw(amount: int, reserveBefore: ReserveData, reserveAfter: ReserveData,
                               before: UserReserveData, txTimestamp: int)
    returns (expected: UserReserveData)
    requires reserveAfter.liquidityIndex != 0
    ensures expected == UserAfterWithdraw(amount, reserveBefore, reserveAfter, before, txTimestamp)
  {
    hide CompoundedInterest, NormalizedIncome, NormalizedDebt, StableDebtBalance, RayMul, RayDiv;
    expected := before;
    var amountWithdrawn := amount;
    var aTokenBalance := ATokenBalance(reserveBefore, before, txTimestamp);
    if amountWithdrawn == MAX_UINT_AMOUNT {
      amountWithdrawn := aTokenBalance;
    }
    expected := expected.(scaledATokenBalance :=
      ScaledATokenBalance(before, reserveAfter.liquidityIndex, 0, amountWithdrawn));
    expected := expected.(currentATokenBalance := aTokenBalance - amountWithdrawn);
    expected := expected.(principalStableDebt := before.principalStableDebt);
    expected := expected.(scaledVariableDebt := before.scaledVariableDebt);
    expected := expected.(currentStableDebt := UserStableDebt(before, txTimestamp));
    expected := expected.(currentVariableDebt := UserVariableDebt(reserveBefore, before, txTimestamp));
    expected := expected.(stableBorrowRate := before.stableBorrowRate);
    expected := expected.(stableRateLastUpdated := before.stableRateLastUpdated);
    expected := expected.(liquidityRate := reserveAfter.liquidityRate);
    if before.currentATokenBalance == 0 {
      expected := expected.(usageAsCollateralEnabled := true);
    } else if expected.currentATokenBalance == 0 {
      expected := expected.(usageAsCollateralEnabled := false);
    } else {
      expected := expected.(usageAsCollateralEnabled := before.usageAsCollateralEnabled);
    }
    expected := expected.(walletBalance := before.walletBalance + amountWithdrawn);
  }

  // ---------- borrow ----------

  predicate UserBorrowDefined(amount: int, mode: RateMode, reserveAfter: ReserveData, before: UserReserveData,
                              txTimestamp: int)
  {
    if mode == Stable then UserStableDebt(before, txTimestamp) + amount != 0
    else reserveAfter.variableBorrowIndex != 0
  }

  function UserAfterBorrow(amount: int, mode: RateMode, reserveBefore: ReserveData, reserveAfter: ReserveData,
                           before: UserReserveData, txTimestamp: int, currentTimestamp: int): UserReserveData
    requires UserBorrowDefined(amount, mode, reserveAfter, before, txTimestamp)
  {
    var debts :=
      if mode == Stable then
        var debtUntilTx := UserStableDebt(before, txTimestamp);
        before.(principalStableDebt := debtUntilTx + amount,
                stableRateLastUpdated := txTimestamp,
                stableBorrowRate :=
                  UserStableRate(debtUntilTx, before.stableBorrowRate, amount, reserveBefore.stableBorrowRate))
      else
        before.(scaledVariableDebt :=
                  reserveBefore.scaledVariableDebt + RayDiv(amount, reserveAfter.variableBorrowIndex));
    debts.(
      currentStableDebt := UserStableDebt(debts, currentTimestamp),
      currentVariableDebt := UserVariableDebt(reserveAfter, debts, currentTimestamp),
      liquidityRate := reserveAfter.liquidityRate,
      currentATokenBalance := ATokenBalance(reserveAfter, before, currentTimestamp),
      walletBalance := before.walletBalance + amount)
  }

  method CalcUserAfterBorrow(amountBorrowed: int, interestRateMode: RateMode, reserveBefore: ReserveData,
                             reserveAfter: ReserveData, before: UserReserveData, txTimestamp: int,
                               currentTimestamp: int)
    returns (expected: UserReserveData)
    requires UserBorrowDefined(amountBorrowed, interestRateMode, reserveAfter, before, txTimestamp)
    ensures expected == UserAfterBorrow(amountBorrowed, interestRateMode, reserveBefore, reserveAfter, before,
                                                txTimestamp, currentTimestamp)
  {
    hide CompoundedInterest, NormalizedIncome, NormalizedDebt, StableDebtBalance, RayMul, RayDiv;
    expected := before;
    if interestRateMode == Stable {
      var stableDebtUntilTx := UserStableDebt(before, txTimestamp);
      expected := expected.(principalStableDebt := stableDebtUntilTx + amountBorrowed);
      expected := expected.(stableRateLastUpdated := txTimestamp);
      expected := expected.(stableBorrowRate :=
        UserStableRate(stableDebtUntilTx, before.stableBorrowRate, amountBorrowed, reserveBefore.stableBorrowRate));
      expected := expected.(currentStableDebt :=
        StableDebtBalance(expected.principalStableDebt, expected.stableBorrowRate, txTimestamp, currentTimestamp));
      expected := expected.(scaledVariableDebt := before.scaledVariableDebt);
    } else {
      expected := expected.(scaledVariableDebt :=
        reserveBefore.scaledVariableDebt + RayDiv(amountBorrowed, reserveAfter.variableBorrowIndex));
      expected := expected.(principalStableDebt := before.principalStableDebt);
      expected := expected.(stableBorrowRate := before.stableBorrowRate);
      expected := expected.(stableRateLastUpdated := before.stableRateLastUpdated);
      expected := expected.(currentStableDebt := UserStableDebt(before, currentTimestamp));
    }
    expected := expected.(currentVariableDebt :=
      VariableDebtBalance(reserveAfter, expected.scaledVariableDebt, currentTimestamp));
    expected := expected.(liquidityRate := reserveAfter.liquidityRate);
    expected := expected.(usageAsCollateralEnabled := before.usageAsCollateralEnabled);
    expected := expected.(currentATokenBalance := ATokenBalance(reserveAfter, before, currentTimestamp));
    expected := expected.(scaledATokenBalance := before.scaledATokenBalance);
    expected := expected.(walletBalance := before.walletBalance + amountBorrowed);
  }

  // ---------- repay ----------

  /** The amount the user is taken to have repaid, the maximum standing for the debt at the report. */
  function UserRepaid(amount: int, mode: RateMode, reserveBefore: ReserveData, before: UserReserveData,
                      currentTimestamp: int): int
  {
    if Abs(amount) == MAX_UINT_AMOUNT then DebtInMode(mode, reserveBefore, before, currentTimestamp) else amount
  }

  function UserAfterRepay(amount: int, mode: RateMode, reserveBefore: ReserveData, reserveAfter: ReserveData,
                          before: UserReserveData, ownDebt: bool, txTimestamp: int,
                            currentTimestamp: int): UserReserveData
    requires mode != Stable ==> reserveAfter.variableBorrowIndex != 0
  {
    var variableDebt := UserVariableDebt(reserveBefore, before, currentTimestamp);
    var stableDebt := UserStableDebt(before, currentTimestamp);
    var repaid := UserRepaid(amount, mode, reserveBefore, before, currentTimestamp);
    var debts :=
      if mode == Stable then
        before.(currentVariableDebt := variableDebt,
                principalStableDebt := stableDebt - repaid,
                currentStableDebt := stableDebt - repaid,
                stableBorrowRate := if stableDebt == repaid then 0 else before.stableBorrowRate,
                stableRateLastUpdated := if stableDebt == repaid then 0 else txTimestamp)
      else
        var scaled := before.scaledVariableDebt - RayDiv(repaid, reserveAfter.variableBorrowIndex);
        before.(currentStableDebt := before.principalStableDebt,
                principalStableDebt := stableDebt,
                scaledVariableDebt := scaled,
                currentVariableDebt := RayMul(scaled, reserveAfter.variableBorrowIndex));
    debts.(
      liquidityRate := reserveAfter.liquidityRate,
      currentATokenBalance := ATokenBalance(reserveBefore, before, txTimestamp),
      walletBalance := if ownDebt then before.walletBalance - repaid else before.walletBalance)
  }

  method CalcUserAfterRepay(totalRepaid: int, rateMode: RateMode, reserveBefore: ReserveData, reserveAfter: ReserveData,
                            before: UserReserveData, user: nat, onBehalfOf: nat, txTimestamp: int,
                              currentTimestamp: int)
    returns (expected: UserReserveData)
    requires rateMode != Stable ==> reserveAfter.variableBorrowIndex != 0
    ensures expected == UserAfterRepay(totalRepaid, rateMode, reserveBefore, reserveAfter, before,
                                               user == onBehalfOf, txTimestamp, currentTimestamp)
  {
    hide CompoundedInterest, NormalizedIncome, NormalizedDebt, StableDebtBalance, RayMul, RayDiv;
    expected := before;
    var variableDebt := UserVariableDebt(reserveBefore, before, currentTimestamp);
    var stableDebt := UserStableDebt(before, currentTimestamp);
    var repaid := totalRepaid;
    if Abs(repaid) == MAX_UINT_AMOUNT {
      repaid := if rateMode == Stable then stableDebt else variableDebt;
    }
    if rateMode == Stable {
      expected := expected.(scaledVariableDebt := before.scaledVariableDebt);
      expected := expected.(currentVariableDebt := variableDebt);
      expected := expected.(currentStableDebt := stableDebt - repaid);
      expected := expected.(principalStableDebt := expected.currentStableDebt);
      if expected.currentStableDebt == 0 {
        expected := expected.(stableRateLastUpdated := 0);
        expected := expected.(stableBorrowRate := 0);
      } else {
        expected := expected.(stableBorrowRate := before.stableBorrowRate);
        expected := expected.(stableRateLastUpdated := txTimestamp);
      }
    } else {
      expected := expected.(currentStableDebt := before.principalStableDebt);
      expected := expected.(principalStableDebt := stableDebt);
      expected := expected.(stableBorrowRate := before.stableBorrowRate);
      expected := expected.(stableRateLastUpdated := before.stableRateLastUpdated);
      expected := expected.(scaledVariableDebt :=
        before.scaledVariableDebt - RayDiv(repaid, reserveAfter.variableBorrowIndex));
      expected := expected.(currentVariableDebt :=
        RayMul(expected.scaledVariableDebt, reserveAfter.variableBorrowIndex));
    }
    expected := expected.(liquidityRate := reserveAfter.liquidityRate);
    expected := expected.(usageAsCollateralEnabled := before.usageAsCollateralEnabled);
    expected := expected.(currentATokenBalance := ATokenBalance(reserveBefore, before, txTimestamp));
    expected := expected.(scaledATokenBalance := before.scaledATokenBalance);
    if user == onBehalfOf {
      expected := expected.(walletBalance := before.walletBalance - repaid);
    } else {
      expected := expected.(walletBalance := before.walletBalance);
    }
  }

  // ---------- swap of the rate mode ----------

  predicate UserSwapDefined(mode: RateMode, reserveBefore: ReserveData, reserveAfter: ReserveData,
                            before: UserReserveData, txTimestamp: int)
  {
    if mode == Stable then reserveAfter.variableBorrowIndex != 0
    else UserStableDebt(before, txTimestamp) + UserVariableDebt(reserveBefore, before, txTimestamp) != 0
  }

  function UserAfterSwap(mode: RateMode, reserveBefore: ReserveData, reserveAfter: ReserveData, before: UserReserveData,
                         txTimestamp: int): UserReserveData
    requires UserSwapDefined(mode, reserveBefore, reserveAfter, before, txTimestamp)
  {
    var stableDebt := UserStableDebt(before, txTimestamp);
    var variableDebt := UserVariableDebt(reserveBefore, before, txTimestamp);
    var debts :=
      if mode == Stable then
        var scaled := before.scaledVariableDebt + RayDiv(stableDebt, reserveAfter.variableBorrowIndex);
        before.(currentStableDebt := 0,
                principalStableDebt := 0,
                stableBorrowRate := 0,
                stableRateLastUpdated := 0,
                scaledVariableDebt := scaled,
                currentVariableDebt := RayMul(scaled, reserveAfter.variableBorrowIndex))
      else
        before.(principalStableDebt := before.currentStableDebt + variableDebt,
                currentStableDebt := before.currentStableDebt + variableDebt,
                stableBorrowRate :=
                  UserStableRate(stableDebt, before.stableBorrowRate, variableDebt, reserveBefore.stableBorrowRate),
                stableRateLastUpdated := txTimestamp,
                scaledVariableDebt := 0,
                currentVariableDebt := 0);
    debts.(
      currentATokenBalance := ATokenBalance(reserveBefore, before, txTimestamp),
      liquidityRate := reserveAfter.liquidityRate)
  }

  method CalcUserAfterSwapRateMode(reserveBefore: ReserveData, reserveAfter: ReserveData, before: UserReserveData,
                                   rateMode: RateMode, txTimestamp: int)
    returns (expected: UserReserveData)
    requires UserSwapDefined(rateMode, reserveBefore, reserveAfter, before, txTimestamp)
    ensures expected == UserAfterSwap(rateMode, reserveBefore, reserveAfter, before, txTimestamp)
  {
    hide CompoundedInterest, NormalizedIncome, NormalizedDebt, StableDebtBalance, RayMul, RayDiv;
    expected := before;
    var stableDebtBalance := UserStableDebt(before, txTimestamp);
    var variableDebtBalance := UserVariableDebt(reserveBefore, before, txTimestamp);
    expected := expected.(currentATokenBalance := ATokenBalance(reserveBefore, before, txTimestamp));
    if rateMode == Stable {
      expected := expected.(principalStableDebt := 0);
      expected := expected.(currentStableDebt := 0);
      expected := expected.(stableBorrowRate := 0);
      expected := expected.(scaledVariableDebt :=
        before.scaledVariableDebt + RayDiv(stableDebtBalance, reserveAfter.variableBorrowIndex));
      expected := expected.(currentVariableDebt :=
        RayMul(expected.scaledVariableDebt, reserveAfter.variableBorrowIndex));
      expected := expected.(stableRateLastUpdated := 0);
    } else {
      expected := expected.(currentStableDebt := before.currentStableDebt + variableDebtBalance);
      expected := expected.(principalStableDebt := expected.currentStableDebt);
      expected := expected.(stableBorrowRate :=
        UserStableRate(stableDebtBalance, before.stableBorrowRate, variableDebtBalance,
          reserveBefore.stableBorrowRate));
      expected := expected.(stableRateLastUpdated := txTimestamp);
      expected := expected.(scaledVariableDebt := 0);
      expected := expected.(currentVariableDebt := 0);
    }
    expected := expected.(liquidityRate := reserveAfter.liquidityRate);
  }
}
