/** What each pool action does to the reserve record.

    Each action is specified in two parts: a ledger, the record with its amounts and indices moved
    to the transaction time, and the repricing that derives utilization and the three rates from
    it. Each method builds the record field by field and is proved to produce that value. */
module ReserveTransitions {
  import opened RayMath
  import opened Interest
  import opened Records
  import opened Rates
  import opened Balances

  function Abs(a: int): int {
    if a < 0 then -a else a
  }

  // ---------- shared parts ----------

  predicate CanPrice(r: ReserveData) {
    HasUtilization(r.totalStableDebt, r.totalVariableDebt, r.totalLiquidity)
  }

  /** The record with utilization and rates derived from its own totals. */
  function Priced(p: ReserveParams, r: ReserveData): ReserveData
    requires ValidParams(p) && CanPrice(r)
  {
    var u := UtilizationRate(r.totalStableDebt, r.totalVariableDebt, r.totalLiquidity);
    var rates := ExpectedInterestRates(p, r.marketStableRate, u, r.totalStableDebt, r.totalVariableDebt,
                                       r.averageStableBorrowRate);
    r.(utilizationRate := u,
       liquidityRate := rates.liquidity,
       stableBorrowRate := rates.stable,
       variableBorrowRate := rates.variable)
  }

  /** Both indices accrued to the transaction time. */
  function Touched(before: ReserveData, txTimestamp: int): ReserveData {
    before.(liquidityIndex := LiquidityIndex(before, txTimestamp),
            variableBorrowIndex := VariableBorrowIndex(before, txTimestamp),
            lastUpdateTimestamp := txTimestamp)
  }

  function Outstanding(r: ReserveData): int {
    r.availableLiquidity + r.totalStableDebt + r.totalVariableDebt
  }

  /** Total liquidity recomputed from its three parts. */
  function Reconciled(r: ReserveData): ReserveData {
    r.(totalLiquidity := Outstanding(r))
  }

  // ---------- deposit ----------

  function DepositLedger(amount: int, before: ReserveData, txTimestamp: int): ReserveData {
    Touched(before, txTimestamp).(
      totalLiquidity := before.totalLiquidity + amount,
      availableLiquidity := before.availableLiquidity + amount,
      totalStableDebt := AccruedStableDebt(before, txTimestamp),
      totalVariableDebt := AccruedVariableDebt(before, txTimestamp))
  }

  function ReserveAfterDeposit(p: ReserveParams, amount: int, before: ReserveData, txTimestamp: int): ReserveData
    requires ValidParams(p) && CanPrice(DepositLedger(amount, before, txTimestamp))
  {
    Priced(p, DepositLedger(amount, before, txTimestamp))
  }

  method CalcReserveAfterDeposit(p: ReserveParams, amountDeposited: int, before: ReserveData, txTimestamp: int)
    returns (expected: ReserveData)
    requires ValidParams(p) && CanPrice(DepositLedger(amountDeposited, before, txTimestamp))
    ensures expected == ReserveAfterDeposit(p, amountDeposited, before, txTimestamp)
  {
    hide CompoundedInterest, LiquidityIndex, VariableBorrowIndex, NormalizedIncome, NormalizedDebt, StableDebtBalance,
      AverageStableRate, UtilizationRate, ExpectedInterestRates, RayMul, RayDiv;
    expected := before.(lastUpdateTimestamp := txTimestamp);
    expected := expected.(totalLiquidity := before.totalLiquidity + amountDeposited);
    expected := expected.(availableLiquidity := before.availableLiquidity + amountDeposited);
    expected := expected.(averageStableBorrowRate := before.averageStableBorrowRate);
    expected := expected.(liquidityIndex := LiquidityIndex(before, txTimestamp));
    expected := expected.(variableBorrowIndex := VariableBorrowIndex(before, txTimestamp));
    expected := expected.(totalStableDebt :=
      TotalStableDebt(before.principalStableDebt, before.averageStableBorrowRate, before.totalStableDebtLastUpdated,
                      txTimestamp));
    expected := expected.(totalVariableDebt := RayMul(before.scaledVariableDebt, expected.variableBorrowIndex));
    expected := expected.(scaledVariableDebt := before.scaledVariableDebt);
    expected := expected.(principalStableDebt := before.principalStableDebt);
    expected := SetRates(p, before, expected);
  }

  /** The closing part every transition shares: utilization, then the three rates. */
  method SetRates(p: ReserveParams, before: ReserveData, unpriced: ReserveData) returns (expected: ReserveData)
    requires ValidParams(p) && CanPrice(unpriced)
    requires unpriced.marketStableRate == before.marketStableRate
    ensures expected == Priced(p, unpriced)
  {
    expected := unpriced;
    expected := expected.(utilizationRate :=
      UtilizationRate(expected.totalStableDebt, expected.totalVariableDebt, expected.totalLiquidity));
    var rates := CalcExpectedInterestRates(p, before.marketStableRate, expected.utilizationRate,
                                           expected.totalStableDebt, expected.totalVariableDebt,
                                           expected.averageStableBorrowRate);
    expected := expected.(liquidityRate := rates.liquidity);
    expected := expected.(stableBorrowRate := rates.stable);
    expected := expected.(variableBorrowRate := rates.variable);
  }

  // ---------- withdraw ----------

  /** The amount withdrawn, the maximum standing for the whole balance. */
  function WithdrawnAmount(amount: int, before: ReserveData, user: UserReserveData, txTimestamp: int): int {
    if amount == MAX_UINT_AMOUNT then ATokenBalance(before, user, txTimestamp) else amount
  }

  function WithdrawLedger(withdrawn: int, before: ReserveData, txTimestamp: int): ReserveData {
    Reconciled(
      Touched(before, txTimestamp).(
        availableLiquidity := before.availableLiquidity - withdrawn,
        totalStableDebt := AccruedStableDebt(before, txTimestamp),
        totalVariableDebt := AccruedVariableDebt(before, txTimestamp)))
  }

  function ReserveAfterWithdraw(p: ReserveParams, amount: int, before: ReserveData, user: UserReserveData,
                                txTimestamp: int): ReserveData
    requires ValidParams(p)
      && CanPrice(WithdrawLedger(WithdrawnAmount(amount, before, user, txTimestamp), before, txTimestamp))
  {
    Priced(p, WithdrawLedger(WithdrawnAmount(amount, before, user, txTimestamp), before, txTimestamp))
  }

  method CalcReserveAfterWithdraw(p: ReserveParams, amount: int, before: ReserveData, user: UserReserveData,
                                  txTimestamp: int)
    returns (expected: ReserveData)
    requires ValidParams(p)
      && CanPrice(WithdrawLedger(WithdrawnAmount(amount, before, user, txTimestamp), before, txTimestamp))
    ensures expected == ReserveAfterWithdraw(p, amount, before, user, txTimestamp)
  {
    hide CompoundedInterest, LiquidityIndex, VariableBorrowIndex, NormalizedIncome, NormalizedDebt, StableDebtBalance,
      AverageStableRate, UtilizationRate, ExpectedInterestRates, RayMul, RayDiv;
    expected := before.(lastUpdateTimestamp := txTimestamp);
    var amountWithdrawn := amount;
    if amountWithdrawn == MAX_UINT_AMOUNT {
      amountWithdrawn := ATokenBalance(before, user, txTimestamp);
    }
    expected := expected.(availableLiquidity := before.availableLiquidity - amountWithdrawn);
    expected := expected.(principalStableDebt := before.principalStableDebt);
    expected := expected.(scaledVariableDebt := before.scaledVariableDebt);
    expected := expected.(liquidityIndex := LiquidityIndex(before, txTimestamp));
    expected := expected.(variableBorrowIndex := VariableBorrowIndex(before, txTimestamp));
    expected := expected.(totalStableDebt :=
      TotalStableDebt(before.principalStableDebt, before.averageStableBorrowRate, before.totalStableDebtLastUpdated,
                      txTimestamp));
    expected := expected.(totalVariableDebt := RayMul(expected.scaledVariableDebt, expected.variableBorrowIndex));
    expected := expected.(averageStableBorrowRate := before.averageStableBorrowRate);
    expected := expected.(totalLiquidity :=
      before.availableLiquidity - amountWithdrawn + expected.totalVariableDebt + expected.totalStableDebt);
    expected := SetRates(p, before, expected);
  }

  // ---------- borrow ----------

  /** The reserve at the transaction time, before rates are derived. */
  function BorrowLedger(amount: int, mode: RateMode, before: ReserveData, txTimestamp: int): ReserveData
    requires mode != Stable ==> VariableBorrowIndex(before, txTimestamp) != 0
  {
    var touched := Touched(before, txTimestamp).(availableLiquidity := before.availableLiquidity - amount);
    if mode == Stable then
      var debtUntilTx := AccruedStableDebt(before, txTimestamp);
      Reconciled(touched.(
        principalStableDebt := debtUntilTx + amount,
        totalStableDebt := debtUntilTx + amount,
        totalStableDebtLastUpdated := txTimestamp,
        averageStableBorrowRate :=
          AverageStableRate(before.averageStableBorrowRate, debtUntilTx, amount, before.stableBorrowRate),
        totalVariableDebt := AccruedVariableDebt(before, txTimestamp)))
    else
      var scaled := before.scaledVariableDebt + RayDiv(amount, touched.variableBorrowIndex);
      Reconciled(touched.(
        totalStableDebt :=
          StableDebtBalance(before.principalStableDebt, before.averageStableBorrowRate,
                            before.totalStableDebtLastUpdated, txTimestamp),
        scaledVariableDebt := scaled,
        totalVariableDebt := RayMul(scaled, touched.variableBorrowIndex)))
  }

  /** Debts accrued on to the time of the report, with liquidity reconciled; rates are kept. */
  function AccruedTo(r: ReserveData, currentTimestamp: int): ReserveData {
    Reconciled(r.(totalStableDebt := AccruedStableDebt(r, currentTimestamp),
                  totalVariableDebt := VariableDebtBalance(r, r.scaledVariableDebt, currentTimestamp)))
  }

  /** The same with the reported utilization. */
  function Reported(r: ReserveData, currentTimestamp: int): ReserveData
    requires CanPrice(AccruedTo(r, currentTimestamp))
  {
    var a := AccruedTo(r, currentTimestamp);
    a.(utilizationRate := UtilizationRate(a.totalStableDebt, a.totalVariableDebt, a.totalLiquidity))
  }

  predicate BorrowDefined(p: ReserveParams, amount: int, mode: RateMode, before: ReserveData, txTimestamp: int,
                          currentTimestamp: int)
  {
    && ValidParams(p)
    && (mode != Stable ==> VariableBorrowIndex(before, txTimestamp) != 0)
    && CanPrice(BorrowLedger(amount, mode, before, txTimestamp))
    && CanPrice(AccruedTo(Priced(p, BorrowLedger(amount, mode, before, txTimestamp)), currentTimestamp))
  }

  function ReserveAfterBorrow(p: ReserveParams, amount: int, mode: RateMode, before: ReserveData, txTimestamp: int,
                              currentTimestamp: int): ReserveData
    requires BorrowDefined(p, amount, mode, before, txTimestamp, currentTimestamp)
  {
    Reported(Priced(p, BorrowLedger(amount, mode, before, txTimestamp)), currentTimestamp)
  }

  method CalcReserveAfterBorrow(p: ReserveParams, amountBorrowed: int, borrowRateMode: RateMode, before: ReserveData,
                                txTimestamp: int, currentTimestamp: int)
    returns (expected: ReserveData)
    requires BorrowDefined(p, amountBorrowed, borrowRateMode, before, txTimestamp, currentTimestamp)
    ensures expected
      == ReserveAfterBorrow(p, amountBorrowed, borrowRateMode, before, txTimestamp, currentTimestamp)
  {
    hide CompoundedInterest, LiquidityIndex, VariableBorrowIndex, NormalizedIncome, NormalizedDebt, StableDebtBalance,
      AverageStableRate, UtilizationRate, ExpectedInterestRates, RayMul, RayDiv;
    expected := before.(lastUpdateTimestamp := txTimestamp);
    expected := expected.(liquidityIndex := LiquidityIndex(before, txTimestamp));
    expected := expected.(variableBorrowIndex := VariableBorrowIndex(before, txTimestamp));
    expected := expected.(availableLiquidity := before.availableLiquidity - amountBorrowed);
    expected := expected.(lastUpdateTimestamp := txTimestamp);
    if borrowRateMode == Stable {
      expected := expected.(scaledVariableDebt := before.scaledVariableDebt);
      var variableDebtAfterTx := RayMul(expected.scaledVariableDebt, expected.variableBorrowIndex);
      var stableDebtUntilTx :=
        TotalStableDebt(before.principalStableDebt, before.averageStableBorrowRate, before.totalStableDebtLastUpdated,
                        txTimestamp);
      expected := expected.(principalStableDebt := stableDebtUntilTx + amountBorrowed);
      expected := expected.(totalStableDebtLastUpdated := txTimestamp);
      expected := expected.(averageStableBorrowRate :=
        AverageStableRate(before.averageStableBorrowRate, stableDebtUntilTx, amountBorrowed, before.stableBorrowRate));
      var liquidityAfterTx := expected.availableLiquidity + expected.principalStableDebt + variableDebtAfterTx;
      var utilizationAfterTx := UtilizationRate(expected.principalStableDebt, variableDebtAfterTx, liquidityAfterTx);
      var rates := CalcExpectedInterestRates(p, before.marketStableRate, utilizationAfterTx,
                                             expected.principalStableDebt, variableDebtAfterTx,
                                             expected.averageStableBorrowRate);
      expected := expected.(liquidityRate := rates.liquidity);
      expected := expected.(stableBorrowRate := rates.stable);
      expected := expected.(variableBorrowRate := rates.variable);
      expected := expected.(totalStableDebt :=
        TotalStableDebt(expected.principalStableDebt, expected.averageStableBorrowRate, txTimestamp, currentTimestamp));
      expected := expected.(totalVariableDebt :=
        RayMul(before.scaledVariableDebt,
               NormalizedDebt(expected.variableBorrowRate, expected.variableBorrowIndex, txTimestamp,
                 currentTimestamp)));
      expected := expected.(totalLiquidity :=
        expected.availableLiquidity + expected.totalVariableDebt + expected.totalStableDebt);
    } else {
      expected := expected.(principalStableDebt := before.principalStableDebt);
      var stableDebtAfterTx :=
        StableDebtBalance(before.principalStableDebt, before.averageStableBorrowRate,
                          before.totalStableDebtLastUpdated, txTimestamp);
      expected := expected.(totalStableDebt :=
        TotalStableDebt(before.principalStableDebt, before.averageStableBorrowRate, before.totalStableDebtLastUpdated,
                        currentTimestamp));
      expected := expected.(averageStableBorrowRate := before.averageStableBorrowRate);
      expected := expected.(scaledVariableDebt :=
        before.scaledVariableDebt + RayDiv(amountBorrowed, expected.variableBorrowIndex));
      var variableDebtAfterTx := RayMul(expected.scaledVariableDebt, expected.variableBorrowIndex);
      var utilizationAfterTx :=
        UtilizationRate(stableDebtAfterTx, variableDebtAfterTx,
                        expected.availableLiquidity + stableDebtAfterTx + variableDebtAfterTx);
      var rates := CalcExpectedInterestRates(p, before.marketStableRate, utilizationAfterTx, stableDebtAfterTx,
                                             variableDebtAfterTx, expected.averageStableBorrowRate);
      expected := expected.(liquidityRate := rates.liquidity);
      expected := expected.(stableBorrowRate := rates.stable);
      expected := expected.(variableBorrowRate := rates.variable);
      expected := expected.(totalVariableDebt :=
        RayMul(expected.scaledVariableDebt,
               NormalizedDebt(expected.variableBorrowRate, expected.variableBorrowIndex, txTimestamp,
                 currentTimestamp)));
      expected := expected.(totalLiquidity :=
        expected.availableLiquidity + expected.totalStableDebt + expected.totalVariableDebt);
    }
    expected := expected.(utilizationRate :=
      UtilizationRate(expected.totalStableDebt, expected.totalVariableDebt, expected.totalLiquidity));
  }

  // ---------- repay ----------

  /** The user's debt in one rate mode: what repaying everything repays, and what a swap away from that
      mode moves. */
  function DebtInMode(mode: RateMode, reserve: ReserveData, user: UserReserveData, timestamp: int): int {
    if mode == Stable then UserStableDebt(user, timestamp) else UserVariableDebt(reserve, user, timestamp)
  }

  /** The amount the reserve takes as repaid, the maximum standing for the debt at the transaction. */
  function ReserveRepaid(amount: int, mode: RateMode, before: ReserveData, user: UserReserveData,
                         txTimestamp: int): int {
    if Abs(amount) == MAX_UINT_AMOUNT then DebtInMode(mode, before, user, txTimestamp) else amount
  }

  datatype StableSide = StableSide(debt: int, average: int)

  /** The stable debt and its average after a repayment, wiped out when either would be negative. */
  function StableSideAfterRepay(repaid: int, before: ReserveData, rate: int, txTimestamp: int): StableSide {
    var debtUntilTx := AccruedStableDebt(before, txTimestamp);
    var average := AverageStableRate(before.averageStableBorrowRate, debtUntilTx, -repaid, rate);
    if debtUntilTx - repaid < 0 || average < 0 then StableSide(0, 0) else StableSide(debtUntilTx - repaid, average)
  }

  /** The rate is the user's own stable rate, at which a stable repayment leaves the average. */
  function RepayLedger(repaid: int, mode: RateMode, before: ReserveData, rate: int, txTimestamp: int): ReserveData
    requires mode != Stable ==> VariableBorrowIndex(before, txTimestamp) != 0
  {
    var touched := Touched(before, txTimestamp).(availableLiquidity := before.availableLiquidity + repaid);
    if mode == Stable then
      var side := StableSideAfterRepay(repaid, before, rate, txTimestamp);
      Reconciled(touched.(
        principalStableDebt := side.debt,
        totalStableDebt := side.debt,
        totalStableDebtLastUpdated := txTimestamp,
        averageStableBorrowRate := side.average,
        totalVariableDebt := AccruedVariableDebt(before, txTimestamp)))
    else
      var scaled := before.scaledVariableDebt - RayDiv(repaid, touched.variableBorrowIndex);
      Reconciled(touched.(
        scaledVariableDebt := scaled,
        totalVariableDebt := RayMul(scaled, touched.variableBorrowIndex)))
  }

  predicate RepayDefined(p: ReserveParams, amount: int, mode: RateMode, before: ReserveData, user: UserReserveData,
                         txTimestamp: int)
  {
    && ValidParams(p)
    && (mode != Stable ==> VariableBorrowIndex(before, txTimestamp) != 0)
    && CanPrice(RepayLedger(ReserveRepaid(amount, mode, before, user, txTimestamp), mode, before,
      user.stableBorrowRate, txTimestamp))
  }

  function ReserveAfterRepay(p: ReserveParams, amount: int, mode: RateMode, before: ReserveData, user: UserReserveData,
                             txTimestamp: int): ReserveData
    requires RepayDefined(p, amount, mode, before, user, txTimestamp)
  {
    Priced(p, RepayLedger(ReserveRepaid(amount, mode, before, user, txTimestamp), mode, before,
      user.stableBorrowRate, txTimestamp))
  }

  method CalcReserveAfterRepay(p: ReserveParams, amountRepaid: int, borrowRateMode: RateMode, before: ReserveData,
                               user: UserReserveData, txTimestamp: int)
    returns (expected: ReserveData)
    requires RepayDefined(p, amountRepaid, borrowRateMode, before, user, txTimestamp)
    ensures expected == ReserveAfterRepay(p, amountRepaid, borrowRateMode, before, user, txTimestamp)
  {
    hide CompoundedInterest, LiquidityIndex, VariableBorrowIndex, NormalizedIncome, NormalizedDebt, StableDebtBalance,
      AverageStableRate, UtilizationRate, ExpectedInterestRates, RayMul, RayDiv;
    expected := before.(lastUpdateTimestamp := txTimestamp);
    var amount := amountRepaid;
    var userStableDebt := UserStableDebt(user, txTimestamp);
    var userVariableDebt := UserVariableDebt(before, user, txTimestamp);
    if Abs(amount) == MAX_UINT_AMOUNT {
      if borrowRateMode == Stable {
        amount := userStableDebt;
      } else {
        amount := userVariableDebt;
      }
    }
    expected := expected.(liquidityIndex := LiquidityIndex(before, txTimestamp));
    expected := expected.(variableBorrowIndex := VariableBorrowIndex(before, txTimestamp));
    if borrowRateMode == Stable {
      var expectedDebt :=
        TotalStableDebt(before.principalStableDebt, before.averageStableBorrowRate, before.totalStableDebtLastUpdated,
                        txTimestamp);
      expected := expected.(totalStableDebtLastUpdated := txTimestamp);
      expected := expected.(totalStableDebt := expectedDebt - amount);
      expected := expected.(principalStableDebt := expected.totalStableDebt);
      if expected.totalStableDebt < 0 {
        expected := expected.(averageStableBorrowRate := 0);
        expected := expected.(totalStableDebt := 0);
        expected := expected.(principalStableDebt := 0);
      } else {
        expected := expected.(averageStableBorrowRate :=
          AverageStableRate(before.averageStableBorrowRate, expectedDebt, -amount, user.stableBorrowRate));
        if expected.averageStableBorrowRate < 0 {
          expected := expected.(averageStableBorrowRate := 0);
          expected := expected.(totalStableDebt := 0);
          expected := expected.(principalStableDebt := 0);
        }
      }
      expected := expected.(scaledVariableDebt := before.scaledVariableDebt);
      expected := expected.(totalVariableDebt := RayMul(expected.scaledVariableDebt, expected.variableBorrowIndex));
    } else {
      expected := expected.(scaledVariableDebt :=
        before.scaledVariableDebt - RayDiv(amount, expected.variableBorrowIndex));
      expected := expected.(totalVariableDebt := RayMul(expected.scaledVariableDebt, expected.variableBorrowIndex));
      expected := expected.(principalStableDebt := before.principalStableDebt);
      expected := expected.(totalStableDebt := before.totalStableDebt);
      expected := expected.(averageStableBorrowRate := before.averageStableBorrowRate);
    }
    expected := expected.(availableLiquidity := before.availableLiquidity + amount);
    expected := expected.(totalLiquidity :=
      expected.availableLiquidity + expected.totalStableDebt + expected.totalVariableDebt);
    assert expected == RepayLedger(amount, borrowRateMode, before, user.stableBorrowRate, txTimestamp);
    expected := SetRates(p, before, expected);
    expected := expected.(lastUpdateTimestamp := txTimestamp);
  }

  // ---------- swap of the rate mode ----------

  function SwapLedger(moved: int, mode: RateMode, before: ReserveData, rate: int, txTimestamp: int): ReserveData
    requires VariableBorrowIndex(before, txTimestamp) != 0
  {
    var touched := Touched(before, txTimestamp).(totalStableDebtLastUpdated := txTimestamp);
    var index := touched.variableBorrowIndex;
    var totalUntilTx := AccruedStableDebt(before, txTimestamp);
    if mode == Stable then
      var scaled := before.scaledVariableDebt + RayDiv(moved, index);
      Reconciled(touched.(
        scaledVariableDebt := scaled,
        totalVariableDebt := RayMul(scaled, index),
        principalStableDebt := totalUntilTx - moved,
        totalStableDebt := totalUntilTx - moved,
        averageStableBorrowRate :=
          AverageStableRate(before.averageStableBorrowRate, totalUntilTx, -moved, rate)))
    else
      var scaled := before.scaledVariableDebt - RayDiv(moved, index);
      Reconciled(touched.(
        scaledVariableDebt := scaled,
        totalVariableDebt := RayMul(scaled, index),
        principalStableDebt := totalUntilTx + moved,
        totalStableDebt := totalUntilTx + moved,
        averageStableBorrowRate :=
          AverageStableRate(before.averageStableBorrowRate, before.totalStableDebt, moved, before.stableBorrowRate)))
  }

  predicate SwapDefined(p: ReserveParams, mode: RateMode, before: ReserveData, user: UserReserveData,
                        txTimestamp: int) {
    && ValidParams(p)
    && VariableBorrowIndex(before, txTimestamp) != 0
    && CanPrice(SwapLedger(DebtInMode(mode, before, user, txTimestamp), mode, before, user.stableBorrowRate,
      txTimestamp))
  }

  function ReserveAfterSwap(p: ReserveParams, mode: RateMode, before: ReserveData, user: UserReserveData,
                            txTimestamp: int): ReserveData
    requires SwapDefined(p, mode, before, user, txTimestamp)
  {
    Priced(p, SwapLedger(DebtInMode(mode, before, user, txTimestamp), mode, before, user.stableBorrowRate,
      txTimestamp))
  }

  method CalcReserveAfterSwapRateMode(p: ReserveParams, before: ReserveData, user: UserReserveData, rateMode: RateMode,
                                      txTimestamp: int)
    returns (expected: ReserveData)
    requires SwapDefined(p, rateMode, before, user, txTimestamp)
    ensures expected == ReserveAfterSwap(p, rateMode, before, user, txTimestamp)
  {
    hide CompoundedInterest, LiquidityIndex, VariableBorrowIndex, NormalizedIncome, NormalizedDebt, StableDebtBalance,
      AverageStableRate, UtilizationRate, ExpectedInterestRates, RayMul, RayDiv;
    expected := before.(lastUpdateTimestamp := txTimestamp);
    var variableDebt := UserVariableDebt(before, user, txTimestamp);
    var stableDebt := UserStableDebt(user, txTimestamp);
    expected := expected.(liquidityIndex := LiquidityIndex(before, txTimestamp));
    expected := expected.(variableBorrowIndex := VariableBorrowIndex(before, txTimestamp));
    expected := expected.(availableLiquidity := before.availableLiquidity);
    var totalStableDebtUntilTx :=
      TotalStableDebt(before.principalStableDebt, before.averageStableBorrowRate, before.totalStableDebtLastUpdated,
                      txTimestamp);
    expected := expected.(totalStableDebtLastUpdated := txTimestamp);
    if rateMode == Stable {
      expected := expected.(scaledVariableDebt :=
        before.scaledVariableDebt + RayDiv(stableDebt, expected.variableBorrowIndex));
      expected := expected.(totalVariableDebt := RayMul(expected.scaledVariableDebt, expected.variableBorrowIndex));
      expected := expected.(totalStableDebt := totalStableDebtUntilTx - stableDebt);
      expected := expected.(principalStableDebt := expected.totalStableDebt);
      expected := expected.(averageStableBorrowRate :=
        AverageStableRate(before.averageStableBorrowRate, expected.principalStableDebt + stableDebt, -stableDebt,
                          user.stableBorrowRate));
    } else {
      expected := expected.(totalStableDebt := totalStableDebtUntilTx + variableDebt);
      expected := expected.(principalStableDebt := expected.totalStableDebt);
      expected := expected.(scaledVariableDebt :=
        before.scaledVariableDebt - RayDiv(variableDebt, expected.variableBorrowIndex));
      expected := expected.(totalVariableDebt := RayMul(expected.scaledVariableDebt, expected.variableBorrowIndex));
      expected := expected.(averageStableBorrowRate :=
        AverageStableRate(before.averageStableBorrowRate, before.totalStableDebt, variableDebt,
          before.stableBorrowRate));
    }
    expected := expected.(totalLiquidity :=
      before.availableLiquidity + expected.totalStableDebt + expected.totalVariableDebt);
    assert expected == SwapLedger(DebtInMode(rateMode, before, user, txTimestamp), rateMode, before,
      user.stableBorrowRate,
                                  txTimestamp);
    expected := SetRates(p, before, expected);
  }
}
