/** States in which a law of the other modules fails: each satisfies the invariant, and the event meets
    every success condition of its action except the one the law needs. */
module Counterexamples {
  import opened RayMath
  import opened Interest
  import opened Records
  import opened Rates
  import opened Balances
  import opened ReserveTransitions
  import opened UserTransitions
  import opened Market
  import opened Invariants
  import opened UserInvariants
  import opened Conservation
  import opened Reconciliation
  import opened RateMonotonicity
  import opened RoundTrips
  import opened ReadBack

  const NOBODY: UserReserveData := UserReserveData(0, 0, 0, 0, 0, 0, 0, 0, 0, false, 0)

  // ---------- two borrowers ----------

  /** A user who owes 100, a user who owes nothing, and a reserve that records the 100. */
  function TwoUsers(): State {
    var reserve := ReserveData(1_100, 1_000, 0, 100, 0, 100, 0, 0, 0, 0, RAY, RAY, 0, 1, 0, 0);
    State(reserve, [NOBODY.(scaledVariableDebt := 100, walletBalance := 100), NOBODY.(walletBalance := 100)], 1)
  }

  lemma TwoUsersValid()
    ensures Inv(TwoUsers()) && OneLedger(TwoUsers())
  {
    hide CompoundedInterest, RayMul;
    var s := TwoUsers();
    forall t: int | 1 <= t
      ensures 0 <= AccruedStableDebt(s.reserve, t) && 100 <= AccruedVariableDebt(s.reserve, t)
    {
      TotalStableDebtGrows(0, 0, 0, 1, t);
      VariableDebtGrows(s.reserve, t, t);
    }
    assert s.users[1..] == [NOBODY.(walletBalance := 100)];
    assert Total(s.users[1..], ScaledDebtOf) == 0;
  }

  /** A variable borrow by the second user breaks the ledger of that state. */
  lemma SecondBorrowerBreaksLedger(p: ReserveParams)
    requires ValidParams(p)
    ensures
      var e := Event(Borrow(1, 50, Variable), 1, 1);
      Enabled(TwoUsers(), e) && StepDefined(p, TwoUsers(), e) && !OneLedger(Step(p, TwoUsers(), e))
  {
    hide Inv, StepDefined, NextReserve, NextUser, OneLedger, Step;
    TwoUsersValid();
    LedgerStep(p, TwoUsers(), Event(Borrow(1, 50, Variable), 1, 1));
  }

  /** One action of time 1 on a reserve at index one. */
  lemma AtIndexOne(p: ReserveParams, s: State, e: Event)
    requires ValidParams(p) && Inv(s) && Enabled(s, e) && e.tx == e.current == 1
    requires VariableBorrowIndex(s.reserve, 1) == RAY
    ensures StepDefined(p, s, e) && Inv(Step(p, s, e))
    ensures
      var after := NextReserve(p, s, e);
      && after.variableBorrowIndex == VariableBorrowIndex(after, 1) == RAY
      && NormalizedDebt(after.variableBorrowRate, RAY, after.lastUpdateTimestamp, 1) == RAY
  {
    hide CompoundedInterest, RayMul, VariableBorrowIndex, NormalizedDebt, NextReserve, NextUser, Enabled, NotAhead;
    StepKeeps(p, s, e);
    IndicesAfterStep(p, s, e);
    SameReadings(p, s, e);
    StampedNow(p, s, e);
    FreshBorrowIndex(NextReserve(p, s, e), 1);
  }

  /** The second user of that state borrows 50 and is recorded as owing 150. */
  lemma SecondUserBorrows(p: ReserveParams)
    requires ValidParams(p)
    ensures
      var s, e := TwoUsers(), Event(Borrow(1, 50, Variable), 1, 1);
      && Inv(s) && Enabled(s, e) && StepDefined(p, s, e) && Inv(Step(p, s, e))
      && NextReserve(p, s, e).scaledVariableDebt == 150
      && NextUser(p, s, e).scaledVariableDebt == 150 && NextUser(p, s, e).walletBalance == 150
      && var after := NextReserve(p, s, e);
         after.variableBorrowIndex == VariableBorrowIndex(after, 1) == RAY
         == NormalizedDebt(after.variableBorrowRate, RAY, after.lastUpdateTimestamp, 1)
  {
    hide CompoundedInterest, NormalizedDebt, NormalizedIncome, TotalStableDebt, StableDebtBalance, UtilizationRate,
      ExpectedInterestRates, Inv, LiquidityIndex;
    TwoUsersValid();
    CompoundedGrows(0, 1, 1, 1);
    AtIndexOne(p, TwoUsers(), Event(Borrow(1, 50, Variable), 1, 1));
  }

  /** Then the first user repays the 100 it owes, which leaves 50 recorded against the 150. */
  lemma FirstUserRepays(p: ReserveParams, s: State)
    requires ValidParams(p) && Inv(s) && s.now == 1 && |s.users| == 2
    requires s.reserve.scaledVariableDebt == 150 && s.reserve.variableBorrowIndex == RAY
    requires VariableBorrowIndex(s.reserve, 1) == RAY
      == NormalizedDebt(s.reserve.variableBorrowRate, RAY, s.reserve.lastUpdateTimestamp, 1)
    requires s.users[0] == TwoUsers().users[0]
    ensures
      var e := Event(Repay(0, 0, 100, Variable), 1, 1);
      && Enabled(s, e) && StepDefined(p, s, e) && Inv(Step(p, s, e))
      && NextReserve(p, s, e).scaledVariableDebt == 50
      && var after := NextReserve(p, s, e);
         after.variableBorrowIndex == VariableBorrowIndex(after, 1) == RAY
         == NormalizedDebt(after.variableBorrowRate, RAY, after.lastUpdateTimestamp, 1)
  {
    hide CompoundedInterest, NormalizedDebt, NormalizedIncome, TotalStableDebt, StableDebtBalance, UtilizationRate,
      ExpectedInterestRates, Inv, LiquidityIndex, VariableBorrowIndex;
    AtIndexOne(p, s, Event(Repay(0, 0, 100, Variable), 1, 1));
  }

  /** Two users can so reach a state in which the second owes 150, holds 150, and repaying them would
      meet every success condition but the guard and take the reserve's scaled debt to -100. */
  lemma RepayingTheRecordedDebtGoesNegative(p: ReserveParams)
    requires ValidParams(p)
    ensures
      var start, events := TwoUsers(), [Event(Borrow(1, 50, Variable), 1, 1), Event(Repay(0, 0, 100, Variable), 1, 1)];
      && Inv(start)
      && var s := Story(p, start, events);
         && |s.users| == 2 && s.now == 1
         && 150 == UserVariableDebt(s.reserve, s.users[1], 1) == s.users[1].walletBalance
         && VariableBorrowIndex(s.reserve, 1) != 0
         && BurnedScaled(s.reserve, 150, 1) > s.reserve.scaledVariableDebt
         && RepayLedger(150, Variable, s.reserve, s.users[1].stableBorrowRate, 1).scaledVariableDebt == -100
  {
    hide CompoundedInterest, NormalizedDebt, VariableBorrowIndex, LiquidityIndex, TotalStableDebt, StableDebtBalance,
      Inv, Enabled, StepDefined, NextReserve, NextUser, Story;
    var start, e1, e2 := TwoUsers(), Event(Borrow(1, 50, Variable), 1, 1), Event(Repay(0, 0, 100, Variable), 1, 1);
    SecondUserBorrows(p);
    var middle := Step(p, start, e1);
    FirstUserRepays(p, middle);
    assert Attempt(p, start, e1) == middle;
    assert Attempt(p, middle, e2) == Step(p, middle, e2);
    StoryConcat(p, start, [e1], [e2]);
    StoryOfOne(p, start, e1);
    StoryOfOne(p, middle, e2);
    assert [e1] + [e2] == [e1, e2];
  }

  // ---------- an indebted user ----------

  /** Ten per cent a second. */
  const RATE: int := 3_153_600 * RAY

  lemma OneSecond()
    ensures CompoundedInterest(RATE, 2, 1) == RAY + RAY / 10
    ensures CompoundedInterest(RATE, 1, 1) == RAY
  {
    assert PerSecond(RATE) == RAY / 10;
    assert Accumulated(RATE, 1).interest == PerSecond(RATE);
  }

  /** A user who owes 1000 of stable and 100 of variable debt, and a reconciled reserve that records
      both, all at ten per cent a second and last updated at time 1. */
  function Indebted(): State {
    var reserve :=
      ReserveData(11_100, 10_000, 1_000, 100, 1_000, 100, RATE, RATE, RATE, 0, RAY, RAY, 0, 1, 1, 0);
    State(reserve, [UserReserveData(0, 0, 1_000, 100, 1_000, 100, 0, RATE, 1, false, 10_000)], 1)
  }

  lemma IndebtedValid()
    ensures Inv(Indebted())
    ensures
      var r, u := Indebted().reserve, Indebted().users[0];
      && UserStableDebt(u, 1) == AccruedStableDebt(r, 1) == 1_000 && UserVariableDebt(r, u, 1) == 100
      && UserStableDebt(u, 2) == AccruedStableDebt(r, 2) == 1_100 && UserVariableDebt(r, u, 2) == 110
      && VariableBorrowIndex(r, 2) == RAY + RAY / 10 && AccruedVariableDebt(r, 2) == 110
  {
    hide CompoundedInterest;
    var s := Indebted();
    OneSecond();
    NeverAhead(s.reserve);
  }

  /** Totals equal to the principal amounts are never ahead of what accrues from time 1. */
  lemma NeverAhead(r: ReserveData)
    requires ReserveInv(r, 1) && r.totalStableDebt <= r.principalStableDebt
    requires r.totalVariableDebt <= r.scaledVariableDebt
    ensures NotAhead(r, 1)
  {
    hide CompoundedInterest, RayMul;
    forall t: int | 1 <= t
      ensures r.totalStableDebt <= AccruedStableDebt(r, t) && r.totalVariableDebt <= AccruedVariableDebt(r, t)
    {
      TotalStableDebtGrows(r.principalStableDebt, r.averageStableBorrowRate, r.totalStableDebtLastUpdated, t, t);
      VariableDebtGrows(r, t, t);
    }
  }

  /** A deposit of this user records a stable debt of 1000 that its own record reads as 100. */
  lemma DepositForgetsStableDebt(p: ReserveParams)
    requires ValidParams(p)
    ensures
      var s, e := Indebted(), Event(Deposit(0, 1), 1, 1);
      && Inv(s) && Enabled(s, e) && StepDefined(p, s, e)
      && NextUser(p, s, e).currentStableDebt != UserStableDebt(NextUser(p, s, e), 1)
  {
    hide Inv, StepDefined, NextReserve, NextUser;
    IndebtedValid();
    DepositStableDebtReadsBack(p, Indebted(), Event(Deposit(0, 1), 1, 1));
  }

  /** A variable repayment one second later records a stable debt without the interest accrued. */
  lemma RepaymentForgetsStableInterest(p: ReserveParams)
    requires ValidParams(p)
    ensures
      var s, e := Indebted(), Event(Repay(0, 0, 50, Variable), 2, 2);
      && Inv(s) && Enabled(s, e) && StepDefined(p, s, e)
      && NextUser(p, s, e).currentStableDebt != UserStableDebt(NextUser(p, s, e), 2)
  {
    hide Inv, StepDefined, NextReserve, NextUser, BurnedScaled, UserStableDebt, UserVariableDebt, AccruedVariableDebt;
    IndebtedValid();
    BurnGuardNearDebt(Indebted().reserve, 50, 2);
    RepayStableDebtReadsBack(p, Indebted(), Event(Repay(0, 0, 50, Variable), 2, 2));
  }

  /** A swap to stable one second later leaves the user owing 1110 of the 1210 owed before. */
  lemma SwapForgetsStableInterest(p: ReserveParams)
    requires ValidParams(p)
    ensures
      var s, e := Indebted(), Event(SwapRateMode(0, Variable), 2, 2);
      && Inv(s) && Enabled(s, e) && StepDefined(p, s, e)
      && UserStableDebt(s.users[0], 2) + UserVariableDebt(s.reserve, s.users[0], 2) == 1_210
      && UserStableDebt(NextUser(p, s, e), 2) == 1_110 && NextUser(p, s, e).scaledVariableDebt == 0
  {
    hide Inv, NextReserve, BurnedScaled, UserVariableDebt, AccruedVariableDebt, UserStableRate, ATokenBalance,
      CompoundedInterest;
    IndebtedValid();
    BurnGuardNearDebt(Indebted().reserve, 110, 2);
    ReserveStep(p, Indebted(), Event(SwapRateMode(0, Variable), 2, 2));
  }

  /** Repaying all stable debt at time 1 and reading at time 2 meets every success condition but the
      one on its times, and loses at least 100 of cash. */
  lemma LateReportLosesCash(p: ReserveParams)
    requires ValidParams(p)
    ensures
      var s, e := Indebted(), Event(Repay(0, 0, MAX_UINT_AMOUNT, Stable), 1, 2);
      && Inv(s) && e.action.mode != Unset
      && 0 < ReserveRepaid(MAX_UINT_AMOUNT, Stable, s.reserve, s.users[0], 1)
           <= DebtInMode(Stable, s.reserve, s.users[0], 1) <= s.users[0].walletBalance
      && StepDefined(p, s, e)
      && Cash(Step(p, s, e)) <= Cash(s) - 100
  {
    hide Inv, NextReserve, NextUser, UserStableDebt, UserVariableDebt, Cash, RepayLedger, CanPrice;
    IndebtedValid();
    LateReportPrices();
    assert PerSecond(RATE) == RAY / 10;
    RepayAllLosesInterest(p, Indebted(), 0, MAX_UINT_AMOUNT, Stable, 1, 2);
  }

  lemma LateReportPrices()
    ensures CanPrice(RepayLedger(1_000, Stable, Indebted().reserve, RATE, 1))
  {
    hide Inv, RepayLedger, CanPrice, LedgerInv;
    IndebtedValid();
    InvParts(Indebted());
    RepayKeepsLedger(Indebted().reserve, 1, 1_000, RATE, Stable, 1);
    LedgerPrices(RepayLedger(1_000, Stable, Indebted().reserve, RATE, 1), 1);
  }

  lemma LedgerPrices(l: ReserveData, tx: int)
    requires LedgerInv(l, tx)
    ensures CanPrice(l)
  {
  }

  /** A deposit one second later leaves the reserve short of the interest recorded. */
  lemma DepositOpensTheGap(p: ReserveParams)
    requires ValidParams(p)
    ensures
      var s, e := Indebted(), Event(Deposit(0, 1), 2, 2);
      && Inv(s) && Enabled(s, e) && StepDefined(p, s, e)
      && Shortfall(s.reserve) == 0 && Shortfall(NextReserve(p, s, e)) == 110
  {
    hide Inv, StepDefined, NextUser, AccruedStableDebt, AccruedVariableDebt, LiquidityIndex, VariableBorrowIndex,
      UtilizationRate, ExpectedInterestRates;
    IndebtedValid();
    ReserveStep(p, Indebted(), Event(Deposit(0, 1), 2, 2));
  }

  // ---------- a deposit that raises the rates ----------

  /** A curve that climbs to one ray at four fifths. */
  function Climbing(): ReserveParams {
    ReserveParams(RAY / 5 * 4, 0, RAY, RAY, RAY, RAY, 0)
  }

  /** A deposit of one unit into the indebted reserve, a second later, leaves the variable rate strictly
      above what mere accrual would have given: it covers too little of the 110 missing from the
      recorded total. */
  lemma DepositRaisesRates()
    ensures
      var p, s, e := Climbing(), Indebted(), Event(Deposit(0, 1), 2, 2);
      && ValidParams(p) && Inv(s) && Enabled(s, e) && StepDefined(p, s, e)
      && CanPrice(Accrued(s.reserve, 2))
      && NextReserve(p, s, e).variableBorrowRate > IdlePriced(p, s.reserve, 2).variableBorrowRate
  {
    hide Inv, NextUser, AccruedStableDebt, AccruedVariableDebt, LiquidityIndex, VariableBorrowIndex, OverallBorrowRate,
      DepositorRate, UtilizationRate, VariableRate, StableRate;
    IndebtedValid();
    RateAtTwoTotals();
    ReserveStep(Climbing(), Indebted(), Event(Deposit(0, 1), 2, 2));
  }

  lemma RateAtTwoTotals()
    ensures VariableRate(Climbing(), UtilizationRate(1_100, 110, 11_101))
      > VariableRate(Climbing(), UtilizationRate(1_100, 110, 11_210))
  {
    hide RayMul, RayDiv;
    var optimal := RAY / 5 * 4;
    var u, v := RayDiv(1_210, 11_101), RayDiv(1_210, 11_210);
    RayDivNearest(1_210, 11_101);
    RayDivNearest(1_210, 11_210);
    assert 0 <= v && v + 1 <= u <= optimal;
    RayDivGap(u, v, optimal);
    RayMulOne(RayDiv(u, optimal));
    RayMulOne(RayDiv(v, optimal));
  }

  /** One more unit over at most one ray is a larger quotient. */
  lemma RayDivGap(a: int, b: int, d: int)
    requires a >= b + 1 && b >= 0 && 0 < d <= RAY
    ensures RayDiv(a, d) > RayDiv(b, d) >= 0
  {
    hide RayDiv;
    RayDivNearest(a, d);
    RayDivNearest(b, d);
    StepDown(RayDiv(a, d), d);
    if RayDiv(a, d) <= RayDiv(b, d) {
      MulMono(RayDiv(a, d), RayDiv(b, d), d);
    }
  }

  // ---------- removing stable debt at the wrong rate ----------

  /** A user who owes 9 at rate 100 in a reserve that records 10 at an average of 1. */
  function Overpriced(): State {
    var reserve := ReserveData(20, 10, 10, 0, 10, 0, 1, 0, 0, 0, RAY, RAY, 0, 1, 1, 0);
    State(reserve, [NOBODY.(currentStableDebt := 9, principalStableDebt := 9, stableBorrowRate := 100,
                            stableRateLastUpdated := 1)], 1)
  }

  /** Swapping those 9 to variable meets every success condition but the guard, and takes the average
      stable rate to -890. */
  lemma SwapTakesAverageNegative()
    ensures
      var s, moved := Overpriced(), DebtInMode(Stable, Overpriced().reserve, Overpriced().users[0], 1);
      && Inv(s) && moved == 9 && VariableBorrowIndex(s.reserve, 1) != 0
      && !RemovableStableDebt(s.reserve, moved, s.users[0].stableBorrowRate, 1)
      && SwapLedger(moved, Stable, s.reserve, s.users[0].stableBorrowRate, 1).averageStableBorrowRate == -890
  {
    hide CompoundedInterest;
    var s := Overpriced();
    CompoundedGrows(1, 1, 1, 1);
    NeverAhead(s.reserve);
  }

  // ---------- interest the reserve does not record ----------

  /** A user who still owes variable debt in a reserve that no longer records any, as repaying a debt
      that was started from the reserve's total leaves behind. */
  function Unrecorded(): State {
    var reserve := ReserveData(1_100, 1_000, 100, 0, 100, 0, RATE, RATE, RATE, 0, RAY, RAY, 0, 1, 1, 0);
    State(reserve, [UserReserveData(0, 0, 100, 1_000, 100, 1_000, 0, RATE, 1, false, 1)], 1)
  }

  lemma UnrecordedValid()
    ensures Inv(Unrecorded())
    ensures
      var r, u := Unrecorded().reserve, Unrecorded().users[0];
      && UserStableDebt(u, 2) == AccruedStableDebt(r, 2) == 110
      && UserVariableDebt(r, u, 2) == 1_100 && VariableBorrowIndex(r, 2) == RAY
  {
    hide CompoundedInterest;
    OneSecond();
    NeverAhead(Unrecorded().reserve);
  }

  /** One second later that user owes 1210, and a swap to variable records 1110. */
  lemma SwapForgetsUnrecordedInterest(p: ReserveParams)
    requires ValidParams(p)
    ensures
      var s, e := Unrecorded(), Event(SwapRateMode(0, Stable), 2, 2);
      && Inv(s) && Enabled(s, e) && StepDefined(p, s, e)
      && UserVariableDebt(s.reserve, s.users[0], 2) + UserStableDebt(s.users[0], 2) == 1_210
      && NextUser(p, s, e).currentVariableDebt == 1_110 && NextUser(p, s, e).currentStableDebt == 0
  {
    hide Inv, NextReserve, UserStableDebt, UserVariableDebt, AccruedStableDebt, VariableBorrowIndex, ATokenBalance;
    UnrecordedValid();
    ReserveStep(p, Unrecorded(), Event(SwapRateMode(0, Stable), 2, 2));
    IndicesAfterStep(p, Unrecorded(), Event(SwapRateMode(0, Stable), 2, 2));
  }

  /** A deposit one second later records a variable debt 100 above what its own record reads. */
  lemma DepositRecordsUnrecordedInterest(p: ReserveParams)
    requires ValidParams(p)
    ensures
      var s, e := Unrecorded(), Event(Deposit(0, 1), 2, 2);
      && Inv(s) && Enabled(s, e) && StepDefined(p, s, e)
      && NextUser(p, s, e).currentVariableDebt
           == UserVariableDebt(NextReserve(p, s, e), NextUser(p, s, e), 2) + 100
  {
    hide Inv, StepDefined, NextReserve, NextUser, UserStableDebt, UserVariableDebt, AccruedStableDebt,
      VariableBorrowIndex;
    UnrecordedValid();
    RayMulOne(1_000);
    VariableDebtReadsBack(p, Unrecorded(), Event(Deposit(0, 1), 2, 2));
  }

  // ---------- the tolerance ----------

  /** A reserve three units above an index of six rays and a user with a deposit and a wallet. */
  function SixRays(): State {
    var reserve := ReserveData(0, 0, 0, 0, 0, 0, 0, 0, 0, 0, 6 * RAY + 3, RAY, 0, 1, 1, 0);
    State(reserve, [NOBODY.(scaledATokenBalance := 833333333333333333333333333, walletBalance := 4 * RAY + 1)], 1)
  }

  /** The comparison rejects a correct deposit of that wallet. */
  lemma ToleranceFailsBeyondSixRays(p: ReserveParams)
    requires ValidParams(p)
    ensures
      var s, e := SixRays(), Event(Deposit(0, 4 * RAY + 1), 1, 1);
      && Inv(s) && Enabled(s, e) && StepDefined(p, s, e)
      && var after := NextUser(p, s, e);
         !AlmostEqualOrEqual(RayMul(after.scaledATokenBalance, NextReserve(p, s, e).liquidityIndex),
                             after.currentATokenBalance)
  {
    hide CompoundedInterest, NormalizedDebt, TotalStableDebt, VariableBorrowIndex, StableDebtBalance, RayMul, RayDiv,
      NextReserve, AlmostEqualOrEqual, NotAhead;
    var s, e := SixRays(), Event(Deposit(0, 4 * RAY + 1), 1, 1);
    NeverAhead(s.reserve);
    ReserveStep(p, s, e);
    IndicesAfterStep(p, s, e);
    RayDivZero(6 * RAY + 3);
    SixRaysArithmetic();
  }

  lemma SixRaysArithmetic()
    ensures
      var index, amount, scaled := 6 * RAY + 3, 4 * RAY + 1, 833333333333333333333333333;
      !AlmostEqualOrEqual(RayMul(scaled + RayDiv(amount, index), index), RayMul(scaled, index) + amount)
  {
  }
}
