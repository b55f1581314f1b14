/** Two sums over the users that must agree with the reserve: cash and scaled variable debt. */
module Conservation {
  import opened RayMath
  import opened Interest
  import opened Records
  import opened Rates
  import opened Balances
  import opened ReserveTransitions
  import opened UserTransitions
  import opened Market
  import opened Invariants
  import opened UserInvariants

  // ---------- sums over users ----------

  function Total(users: seq<UserReserveData>, f: UserReserveData -> int): int {
    if users == [] then 0 else f(users[0]) + Total(users[1..], f)
  }

  /** Replacing one user moves the sum by the difference of that user's terms. */
  lemma {:induction false} TotalUpdate(users: seq<UserReserveData>, i: nat, u: UserReserveData,
                                       f: UserReserveData -> int)
    requires i < |users|
    ensures Total(users[i := u], f) == Total(users, f) - f(users[i]) + f(u)
  {
    if i == 0 {
      assert users[i := u][1..] == users[1..];
    } else {
      TotalUpdate(users[1..], i - 1, u, f);
      assert users[i := u][1..] == users[1..][i - 1 := u];
    }
  }

  /** No single non-negative term exceeds the sum. */
  lemma {:induction false} TermBelowTotal(users: seq<UserReserveData>, i: nat, f: UserReserveData -> int)
    requires i < |users|
    requires forall k :: 0 <= k < |users| ==> f(users[k]) >= 0
    ensures 0 <= f(users[i]) <= Total(users, f)
  {
    TotalNonNeg(users[1..], f);
    if i > 0 {
      TermBelowTotal(users[1..], i - 1, f);
    }
  }

  lemma {:induction false} TotalNonNeg(users: seq<UserReserveData>, f: UserReserveData -> int)
    requires forall k :: 0 <= k < |users| ==> f(users[k]) >= 0
    ensures Total(users, f) >= 0
  {
    if users != [] {
      TotalNonNeg(users[1..], f);
    }
  }

  const WalletOf: UserReserveData -> int := (u: UserReserveData) => u.walletBalance
  const ScaledDebtOf: UserReserveData -> int := (u: UserReserveData) => u.scaledVariableDebt

  // ---------- cash ----------

  /** What the users' wallets and the reserve hold together. */
  function Cash(s: State): int {
    s.reserve.availableLiquidity + Total(s.users, WalletOf)
  }

  /** What a third party, whose own wallet is not the one recorded, pays in. */
  function PaidIn(s: State, e: Event): int
    requires Enabled(s, e)
  {
    match e.action
    case Repay(payer, user, amount, mode) =>
      if payer == user then 0 else ReserveRepaid(amount, mode, s.reserve, s.users[user], e.tx)
    case _ => 0
  }

  /** The reserve and the user resolve the repaid amount separately; under the success conditions
      they agree. */
  lemma RepaidAgrees(s: State, e: Event)
    requires Enabled(s, e) && e.action.Repay?
    ensures
      var r, u := s.reserve, s.users[e.action.user];
      ReserveRepaid(e.action.amount, e.action.mode, r, u, e.tx)
        == UserRepaid(e.action.amount, e.action.mode, r, u, e.current)
  {
  }

  lemma CashMoves(p: ReserveParams, s: State, e: Event)
    requires ValidParams(p) && Inv(s) && Enabled(s, e) && StepDefined(p, s, e)
    ensures NextReserve(p, s, e).availableLiquidity - s.reserve.availableLiquidity
      == s.users[e.action.user].walletBalance - NextUser(p, s, e).walletBalance + PaidIn(s, e)
  {
    hide RayMul, CompoundedInterest, VariableBorrowIndex, LiquidityIndex, TotalStableDebt, RayDiv, Inv,
      StableDebtBalance, AverageStableRate, ExpectedInterestRates, UtilizationRate, NormalizedDebt,
      NormalizedIncome, BurnedScaled;
    if e.action.Repay? {
      RepaidAgrees(s, e);
    }
  }

  /** A step changes the total cash by exactly what a third party pays in, so every step whose payer
      is the debtor conserves it; the maximum amount is resolved alike on both sides. */
  lemma CashStep(p: ReserveParams, s: State, e: Event)
    requires ValidParams(p) && Inv(s) && Enabled(s, e)
    ensures StepDefined(p, s, e)
    ensures Cash(Step(p, s, e)) == Cash(s) + PaidIn(s, e)
  {
    hide Inv, Enabled, StepDefined, NextReserve, NextUser, PaidIn;
    StepKeeps(p, s, e);
    CashMoves(p, s, e);
    EnabledTimes(s, e);
    TotalUpdate(s.users, e.action.user, NextUser(p, s, e), WalletOf);
  }

  /** What third parties pay in over a story. */
  ghost function StoryPaidIn(p: ReserveParams, s: State, events: seq<Event>): int
    requires ValidParams(p) && Inv(s)
    decreases |events|
  {
    if events == [] then 0
    else
      (if Enabled(s, events[0]) then PaidIn(s, events[0]) else 0)
        + StoryPaidIn(p, Attempt(p, s, events[0]), events[1..])
  }

  lemma AttemptCash(p: ReserveParams, s: State, e: Event)
    requires ValidParams(p) && Inv(s)
    ensures Cash(Attempt(p, s, e)) == Cash(s) + if Enabled(s, e) then PaidIn(s, e) else 0
  {
    hide Inv, Enabled, StepDefined, NextReserve, NextUser, PaidIn, Cash, Step;
    if Enabled(s, e) {
      CashStep(p, s, e);
    }
  }

  lemma {:induction false} StoryCash(p: ReserveParams, s: State, events: seq<Event>)
    requires ValidParams(p) && Inv(s)
    ensures Cash(Story(p, s, events)) == Cash(s) + StoryPaidIn(p, s, events)
    decreases |events|
  {
    hide Inv, Enabled, Attempt, ValidParams, PaidIn, Cash;
    if events != [] {
      AttemptCash(p, s, events[0]);
      StoryCash(p, Attempt(p, s, events[0]), events[1..]);
    }
  }

  /** Cash is conserved over every story in which debtors repay their own debts. */
  lemma {:induction false} CashConserved(p: ReserveParams, s: State, events: seq<Event>)
    requires ValidParams(p) && Inv(s)
    requires forall e :: e in events && e.action.Repay? ==> e.action.payer == e.action.user
    ensures Cash(Story(p, s, events)) == Cash(s)
    decreases |events|
  {
    hide Inv, Enabled, Attempt, ValidParams, Cash;
    if events != [] {
      assert events[0] in events;
      AttemptCash(p, s, events[0]);
      CashConserved(p, Attempt(p, s, events[0]), events[1..]);
    }
  }

  /** Outside the success conditions the two sides may disagree: repaying everything while the report
      is read later changes the cash by exactly what the debt grew in between. */
  lemma RepayAllGap(p: ReserveParams, amount: int, mode: RateMode, r: ReserveData, after: ReserveData,
                    u: UserReserveData, tx: int, current: int)
    requires Abs(amount) == MAX_UINT_AMOUNT
    requires RepayDefined(p, amount, mode, r, u, tx)
    requires after == ReserveAfterRepay(p, amount, mode, r, u, tx)
    ensures mode != Stable ==> after.variableBorrowIndex != 0
    ensures
      after.availableLiquidity + UserAfterRepay(amount, mode, r, after, u, true, tx, current).walletBalance
        == r.availableLiquidity + u.walletBalance + DebtInMode(mode, r, u, tx) - DebtInMode(mode, r, u, current)
  {
    hide RayMul, CompoundedInterest, VariableBorrowIndex, LiquidityIndex, TotalStableDebt, RayDiv, StableDebtBalance,
      AverageStableRate, ExpectedInterestRates, UtilizationRate, NormalizedDebt, NormalizedIncome;
  }

  /** What a debt accrues on in its mode: the principal or the scaled debt, its rate, and nothing for a
      stable debt that was never stamped. */
  function Accruing(mode: RateMode, u: UserReserveData): int {
    if mode != Stable then u.scaledVariableDebt
    else if u.stableRateLastUpdated == 0 then 0
    else u.principalStableDebt
  }

  function ModeRate(mode: RateMode, r: ReserveData, u: UserReserveData): int {
    if mode == Stable then u.stableBorrowRate else r.variableBorrowRate
  }

  /** From one reading to a later one a debt never falls, grows by at least the simple interest in
      whole units, and stays if nothing accrues, no time passes or the rate is below one unit per
      second. */
  lemma DebtReadLater(mode: RateMode, r: ReserveData, u: UserReserveData, now: int, t1: int, t2: int)
    requires ReserveInv(r, now) && UserInv(u, now) && now <= t1 <= t2
    ensures Accruing(mode, u) * (PerSecond(ModeRate(mode, r, u)) * (t2 - t1)) >= 0
    ensures DebtInMode(mode, r, u, t1) + Accruing(mode, u) * (PerSecond(ModeRate(mode, r, u)) * (t2 - t1)) / RAY
      <= DebtInMode(mode, r, u, t2)
    ensures Accruing(mode, u) == 0 || t1 == t2 || ModeRate(mode, r, u) < ONE_YEAR
      ==> DebtInMode(mode, r, u, t1) == DebtInMode(mode, r, u, t2)
  {
    hide PerSecond, StableDebtBalance, VariableDebtBalance;
    SmallRate(ModeRate(mode, r, u));
    if mode == Stable {
      StableDebtGains(u.principalStableDebt, u.stableBorrowRate, u.stableRateLastUpdated, t1, t2);
    } else {
      VariableDebtGains(r, u.scaledVariableDebt, t1, t2);
    }
  }

  /** So repaying everything and reading later never gains cash: it loses at least the simple interest
      on the debt in whole units, and nothing if nothing accrues, no time passes or the rate is below
      one unit per second. */
  lemma RepayAllLosesInterest(p: ReserveParams, s: State, user: nat, amount: int, mode: RateMode, tx: int,
                              current: int)
    requires Inv(s) && user < |s.users| && s.now <= tx <= current && Abs(amount) == MAX_UINT_AMOUNT
    requires StepDefined(p, s, Event(Repay(user, user, amount, mode), tx, current))
    ensures
      var u, rate := s.users[user], ModeRate(mode, s.reserve, s.users[user]);
      var lost := Cash(s) - Cash(Step(p, s, Event(Repay(user, user, amount, mode), tx, current)));
      && lost >= Accruing(mode, u) * (PerSecond(rate) * (current - tx)) / RAY >= 0
      && (Accruing(mode, u) == 0 || tx == current || rate < ONE_YEAR ==> lost == 0)
  {
    hide PerSecond, ReserveInv, NotAhead, UserInv, NextReserve, NextUser, DebtInMode, Accruing, ModeRate;
    var e, u := Event(Repay(user, user, amount, mode), tx, current), s.users[user];
    assert UserInv(u, s.now);
    DebtReadLater(mode, s.reserve, u, s.now, tx, current);
    RepayAllStep(p, s, e);
    TotalUpdate(s.users, user, NextUser(p, s, e), WalletOf);
  }

  lemma RepayAllStep(p: ReserveParams, s: State, e: Event)
    requires StepDefined(p, s, e) && e.action.Repay? && e.action.payer == e.action.user
    requires Abs(e.action.amount) == MAX_UINT_AMOUNT
    ensures
      var r, u := s.reserve, s.users[e.action.user];
      NextReserve(p, s, e).availableLiquidity + NextUser(p, s, e).walletBalance
        == r.availableLiquidity + u.walletBalance
           + DebtInMode(e.action.mode, r, u, e.tx) - DebtInMode(e.action.mode, r, u, e.current)
  {
    hide DebtInMode, ReserveAfterRepay, UserAfterRepay;
    RepayAllGap(p, e.action.amount, e.action.mode, s.reserve, NextReserve(p, s, e), s.users[e.action.user], e.tx,
                e.current);
  }

  // ---------- scaled variable debt ----------

  /** The users' scaled variable debts add up to the reserve's. */
  ghost predicate OneLedger(s: State) {
    Total(s.users, ScaledDebtOf) == s.reserve.scaledVariableDebt
  }

  predicate BorrowsVariable(e: Event) {
    e.action.Borrow? && e.action.mode != Stable
  }

  /** Under one ledger no user owes more scaled debt than the reserve records. */
  lemma LedgerBoundsUsers(s: State, i: nat)
    requires Inv(s) && OneLedger(s) && i < |s.users|
    ensures 0 <= s.users[i].scaledVariableDebt <= s.reserve.scaledVariableDebt
  {
    hide ReserveInv;
    forall k | 0 <= k < |s.users|
      ensures ScaledDebtOf(s.users[k]) >= 0
    {
      assert UserInv(s.users[k], s.now);
    }
    TermBelowTotal(s.users, i, ScaledDebtOf);
  }

  /** User and reserve mint and burn the same scaled debt, except that a variable borrow starts the
      user's balance from the reserve's total. */
  lemma ScaledMoves(p: ReserveParams, s: State, e: Event)
    requires ValidParams(p) && Inv(s) && Enabled(s, e) && StepDefined(p, s, e)
    requires 0 <= s.users[e.action.user].scaledVariableDebt <= s.reserve.scaledVariableDebt
    ensures
      var minted := NextReserve(p, s, e).scaledVariableDebt - s.reserve.scaledVariableDebt;
      var start :=
        if BorrowsVariable(e) then s.reserve.scaledVariableDebt else s.users[e.action.user].scaledVariableDebt;
      NextUser(p, s, e).scaledVariableDebt == start + minted
  {
    hide RayMul, CompoundedInterest, VariableBorrowIndex, LiquidityIndex, TotalStableDebt, RayDiv, StableDebtBalance,
      AverageStableRate, ExpectedInterestRates, UtilizationRate, NormalizedDebt, NormalizedIncome, BurnedScaled;
    if e.action.Repay? {
      RepaidAgrees(s, e);
    } else if e.action.SwapRateMode? && e.action.mode != Stable {
      DebtScalesBack(s.reserve, s.users[e.action.user].scaledVariableDebt, e.tx);
    }
  }

  /** One step keeps the ledger if and only if it is not a variable borrow by a user who holds less
      than the whole scaled debt: the source starts that user from the reserve's total. */
  lemma LedgerStep(p: ReserveParams, s: State, e: Event)
    requires ValidParams(p) && Inv(s) && OneLedger(s) && Enabled(s, e)
    ensures StepDefined(p, s, e)
    ensures OneLedger(Step(p, s, e))
      <==> (BorrowsVariable(e) ==> s.users[e.action.user].scaledVariableDebt == s.reserve.scaledVariableDebt)
  {
    hide Inv, Enabled, StepDefined, NextReserve, NextUser;
    StepKeeps(p, s, e);
    EnabledTimes(s, e);
    LedgerBoundsUsers(s, e.action.user);
    ScaledMoves(p, s, e);
    TotalUpdate(s.users, e.action.user, NextUser(p, s, e), ScaledDebtOf);
  }

  /** Every successful variable borrow of the story is by the holder of the whole scaled debt. */
  ghost predicate WholeHolderBorrows(p: ReserveParams, s: State, events: seq<Event>)
    requires ValidParams(p) && Inv(s)
    decreases |events|
  {
    events != [] ==>
      && (Enabled(s, events[0]) && BorrowsVariable(events[0]) ==>
            s.users[events[0].action.user].scaledVariableDebt == s.reserve.scaledVariableDebt)
      && WholeHolderBorrows(p, Attempt(p, s, events[0]), events[1..])
  }

  lemma AttemptLedger(p: ReserveParams, s: State, e: Event)
    requires ValidParams(p) && Inv(s) && OneLedger(s)
    requires Enabled(s, e) && BorrowsVariable(e) ==>
      s.users[e.action.user].scaledVariableDebt == s.reserve.scaledVariableDebt
    ensures OneLedger(Attempt(p, s, e))
  {
    hide Inv, StepDefined, NextReserve, NextUser, OneLedger, Step;
    if Enabled(s, e) {
      LedgerStep(p, s, e);
    }
  }

  /** The scaled variable debt stays one ledger over every such story. */
  lemma {:induction false} StoryLedger(p: ReserveParams, s: State, events: seq<Event>)
    requires ValidParams(p) && Inv(s) && OneLedger(s)
    requires WholeHolderBorrows(p, s, events)
    ensures OneLedger(Story(p, s, events))
    decreases |events|
  {
    hide Inv, Attempt, ValidParams, OneLedger;
    if events != [] {
      AttemptLedger(p, s, events[0]);
      StoryLedger(p, Attempt(p, s, events[0]), events[1..]);
    }
  }

  /** Under one ledger the reserve's own guard is implied by the user's: no repayment within the
      debt, and no swap to stable, burns more than the reserve records. */
  lemma LedgerImpliesGuard(s: State, i: nat, repaid: int, tx: int)
    requires Inv(s) && OneLedger(s) && i < |s.users| && s.now <= tx
    requires 0 <= repaid <= UserVariableDebt(s.reserve, s.users[i], tx)
    ensures BurnedScaled(s.reserve, repaid, tx) <= s.reserve.scaledVariableDebt
  {
    hide RayMul, RayDiv, CompoundedInterest, VariableBorrowIndex, NormalizedDebt;
    LedgerBoundsUsers(s, i);
    var r, scaled := s.reserve, s.users[i].scaledVariableDebt;
    DebtScalesBack(r, scaled, tx);
    RayDivMono(repaid, VariableBorrowIndex(r, tx), UserVariableDebt(r, s.users[i], tx), VariableBorrowIndex(r, tx));
  }

  // ---------- nobody is stuck ----------

  /** Under one ledger nobody is stuck: at any later time a wallet can be deposited whole, a deposit
      withdrawn whole when the liquidity covers it, the whole liquidity borrowed in either mode, a
      variable or stable debt repaid whole when the wallet covers it, and a variable debt swapped. */
  lemma NobodyIsStuck(s: State, i: nat, t: int)
    requires Inv(s) && OneLedger(s) && i < |s.users| && s.now <= t
    ensures
      var r, u := s.reserve, s.users[i];
      && (u.walletBalance > 0 ==> Enabled(s, Event(Deposit(i, u.walletBalance), t, t)))
      && (0 < ATokenBalance(r, u, t) <= r.availableLiquidity ==>
            Enabled(s, Event(Withdraw(i, MAX_UINT_AMOUNT), t, t)))
      && (r.availableLiquidity > 0 ==>
            && Enabled(s, Event(Borrow(i, r.availableLiquidity, Stable), t, t))
            && Enabled(s, Event(Borrow(i, r.availableLiquidity, Variable), t, t)))
      && (0 < UserStableDebt(u, t) <= u.walletBalance ==>
            Enabled(s, Event(Repay(i, i, MAX_UINT_AMOUNT, Stable), t, t)))
      && (0 < UserVariableDebt(r, u, t) <= u.walletBalance ==>
            Enabled(s, Event(Repay(i, i, MAX_UINT_AMOUNT, Variable), t, t)))
      && (0 < UserVariableDebt(r, u, t) ==> Enabled(s, Event(SwapRateMode(i, Variable), t, t)))
  {
    hide UserStableDebt, UserVariableDebt, ATokenBalance, BurnedScaled, OneLedger, Inv;
    if UserVariableDebt(s.reserve, s.users[i], t) > 0 {
      LedgerImpliesGuard(s, i, UserVariableDebt(s.reserve, s.users[i], t), t);
    }
  }

  // ---------- the reserve's own guards ----------

  /** Without the reserve's own guard its scaled debt can go negative, and the guard is exact: a
      variable repayment or a swap to stable leaves it non-negative if and only if twice the amount in
      rays is below (2 * scaled + 1) times the index. */
  lemma BurnGuardIsExact(amount: int, mode: RateMode, r: ReserveData, rate: int, tx: int)
    requires mode != Stable && VariableBorrowIndex(r, tx) > 0 && amount >= 0
    ensures
      var fits := 2 * (amount * RAY) < (2 * r.scaledVariableDebt + 1) * VariableBorrowIndex(r, tx);
      && (BurnedScaled(r, amount, tx) <= r.scaledVariableDebt <==> fits)
      && (RepayLedger(amount, mode, r, rate, tx).scaledVariableDebt >= 0 <==> fits)
      && (SwapLedger(amount, mode, r, rate, tx).scaledVariableDebt >= 0 <==> fits)
  {
    hide RayDiv, RayMul, VariableBorrowIndex, LiquidityIndex, AverageStableRate, TotalStableDebt;
    var index, scaled := VariableBorrowIndex(r, tx), r.scaledVariableDebt;
    var burned := RayDiv(amount, index);
    RayDivNearest(amount, index);
    assert (2 * scaled + 1) * index == 2 * ((scaled + 1) * index) - index;
    if burned <= scaled {
      MulMono(burned + 1, scaled + 1, index);
    } else {
      MulMono(scaled + 1, burned, index);
    }
  }

  /** In terms of the debt the reserve itself would report: every amount up to that debt passes, and
      every amount above it by at least (index + RAY) / (2 * RAY) fails. */
  lemma BurnGuardNearDebt(r: ReserveData, amount: int, tx: int)
    requires Accruable(r, tx) && r.scaledVariableDebt >= 0 && amount >= 0
    ensures amount <= AccruedVariableDebt(r, tx) ==> BurnedScaled(r, amount, tx) <= r.scaledVariableDebt
    ensures 2 * RAY * (amount - AccruedVariableDebt(r, tx)) >= VariableBorrowIndex(r, tx) + RAY
      ==> BurnedScaled(r, amount, tx) > r.scaledVariableDebt
  {
    hide RayDiv, RayMul, VariableBorrowIndex;
    var index, scaled := VariableBorrowIndex(r, tx), r.scaledVariableDebt;
    IndicesGrow(r, tx);
    if amount <= AccruedVariableDebt(r, tx) {
      ScaledRoundTrip(scaled, index);
      RayDivMono(amount, index, AccruedVariableDebt(r, tx), index);
    } else if 2 * RAY * (amount - AccruedVariableDebt(r, tx)) >= index + RAY {
      RayMulNearest(scaled, index);
      assert (2 * scaled + 1) * index == 2 * (scaled * index) + index;
      BurnGuardIsExact(amount, Variable, r, 0, tx);
    }
  }

  /** The swap to variable does not clamp: it leaves the stable debt and its average non-negative if
      and only if the guard of Enabled holds. */
  lemma SwapGuardIsExact(r: ReserveData, moved: int, rate: int, tx: int)
    requires VariableBorrowIndex(r, tx) != 0
    ensures
      var l := SwapLedger(moved, Stable, r, rate, tx);
      l.principalStableDebt >= 0 && l.averageStableBorrowRate >= 0 <==> RemovableStableDebt(r, moved, rate, tx)
  {
    hide RayDiv, RayMul, VariableBorrowIndex, LiquidityIndex, TotalStableDebt, AverageStableRate;
    var total := AccruedStableDebt(r, tx);
    if moved < total {
      AverageAfterRemoval(r.averageStableBorrowRate, total, moved, rate);
    } else {
      AverageOfNothing(r.averageStableBorrowRate, total, rate);
    }
  }

  // ---------- the debts users read ----------

  /** A scaled amount read at an index. */
  ghost function ReadAt(f: UserReserveData -> int, index: int): UserReserveData -> int {
    (u: UserReserveData) => RayMul(f(u), index)
  }

  /** The sum of balances read at an index, against the sum of scaled balances read at it. */
  lemma {:induction false} ReadingsAddUp(users: seq<UserReserveData>, f: UserReserveData -> int, index: int)
    requires index >= 0
    requires forall k :: 0 <= k < |users| ==> f(users[k]) >= 0
    ensures Total(users, f) >= 0
    ensures
      var read := Total(users, ReadAt(f, index));
      -(|users| * RAY) <= 2 * (read * RAY - Total(users, f) * index) <= |users| * RAY
  {
    hide RayMul;
    if users != [] {
      ReadingsAddUp(users[1..], f, index);
      RayMulNearest(f(users[0]), index);
      var rest := Total(users[1..], f);
      assert (f(users[0]) + rest) * index == f(users[0]) * index + rest * index;
    }
  }

  /** Under one ledger the variable debts the users read add up to the reserve's, up to half a unit
      per user and half a unit for the reserve. */
  lemma DebtsAddUp(s: State, t: int)
    requires Inv(s) && OneLedger(s) && s.now <= t
    ensures
      var read := Total(s.users, ReadAt(ScaledDebtOf, VariableBorrowIndex(s.reserve, t)));
      -(|s.users| + 1) <= 2 * (read - AccruedVariableDebt(s.reserve, t)) <= |s.users| + 1
  {
    hide RayMul, VariableBorrowIndex, LiquidityIndex;
    var index := VariableBorrowIndex(s.reserve, t);
    IndicesGrow(s.reserve, t);
    forall k | 0 <= k < |s.users|
      ensures ScaledDebtOf(s.users[k]) >= 0
    {
      assert UserInv(s.users[k], s.now);
    }
    ReadingsAddUp(s.users, ScaledDebtOf, index);
    RayMulNearest(s.reserve.scaledVariableDebt, index);
  }
}
