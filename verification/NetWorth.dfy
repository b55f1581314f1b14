/** What an action does to a user's net worth: it trades wallet, deposit and debts against each other,
    so their balance may change only by rounding and by the debt its record forgets. */
module NetWorth {
  import opened RayMath
  import opened Interest
  import opened Records
  import opened Rates
  import opened Balances
  import opened ReserveTransitions
  import opened UserTransitions
  import opened Market
  import opened Invariants
  import opened UserInvariants
  import opened Conservation
  import opened ReadBack

  /** Wallet and deposit less both debts, as read at a time. */
  function Worth(r: ReserveData, u: UserReserveData, t: int): int {
    u.walletBalance + ATokenBalance(r, u, t) - UserStableDebt(u, t) - UserVariableDebt(r, u, t)
  }

  /** The same as recorded. */
  function RecordedWorth(u: UserReserveData): int {
    u.walletBalance + u.currentATokenBalance - u.currentStableDebt - u.currentVariableDebt
  }

  /** The debt a step leaves out of the user's record; negative where it records debt nobody took.
      Deposits, withdrawals and stable repayments leave out nothing. A variable borrow starts from the
      reserve's debt instead of the user's, a variable repayment forgets the accrued stable interest,
      and a swap to stable what the recorded stable debt has accrued. */
  function Forgiven(s: State, e: Event): int
    requires e.action.user < |s.users|
  {
    var r, u := s.reserve, s.users[e.action.user];
    match e.action
    case Deposit(_, _) => 0
    case Withdraw(_, _) => 0
    case Borrow(_, _, mode) =>
      if mode == Stable then UnrecordedInterest(r, u, e.tx)
      else UserVariableDebt(r, u, e.tx) - AccruedVariableDebt(r, e.tx)
    case Repay(_, _, _, mode) =>
      if mode == Stable then 0
      else UserStableDebt(u, e.tx) - u.principalStableDebt + UnrecordedInterest(r, u, e.tx)
    case SwapRateMode(_, mode) =>
      if mode == Stable then UnrecordedInterest(r, u, e.tx)
      else UserStableDebt(u, e.tx) - u.currentStableDebt
  }

  /** Variable debt is minted or burned, and rounded. */
  predicate MovesVariableDebt(e: Event) {
    match e.action
    case Deposit(_, _) => false
    case Withdraw(_, _) => false
    case Borrow(_, _, mode) => mode != Stable
    case Repay(_, _, _, mode) => mode != Stable
    case SwapRateMode(_, mode) => mode == Stable
  }

  /** An action on one's own account, read at once, changes the net worth by exactly the debt its record
      leaves out, up to less than index / (2 * RAY) + 1 where variable debt is minted or burned. */
  lemma NetWorthKept(p: ReserveParams, s: State, e: Event)
    requires ValidParams(p) && Inv(s) && Enabled(s, e) && e.tx == e.current
    requires e.action.Repay? ==> e.action.payer == e.action.user
    ensures StepDefined(p, s, e)
    ensures
      var gain := RecordedWorth(NextUser(p, s, e)) - Worth(s.reserve, s.users[e.action.user], e.tx);
      var index := VariableBorrowIndex(s.reserve, e.tx);
      && -(index + 2 * RAY) < 2 * RAY * (gain - Forgiven(s, e)) < index + 2 * RAY
      && (!MovesVariableDebt(e) ==> gain == Forgiven(s, e))
  {
    hide RayMul, RayDiv, CompoundedInterest, VariableBorrowIndex, LiquidityIndex, TotalStableDebt, StableDebtBalance,
      NormalizedIncome, NormalizedDebt, NextReserve, ReserveInv, NotAhead, UserStableRate, RemovableStableDebt,
      StepDefined;
    ReserveStep(p, s, e);
    SameReadings(p, s, e);
    IndicesAfterStep(p, s, e);
    var r, u := s.reserve, s.users[e.action.user];
    var index := VariableBorrowIndex(r, e.tx);
    ReserveFacts(r, s.now);
    IndicesGrow(r, e.tx);
    UserFacts(s, e.action.user);
    match e.action
    case Deposit(_, _) =>
    case Withdraw(_, _) =>
    case Borrow(_, amount, mode) =>
      if mode == Stable {
        var after := NextUser(p, s, e);
        JustUpdated(after.principalStableDebt, after.stableBorrowRate, e.tx);
      } else {
        ScaledAddition(r.scaledVariableDebt, amount, index);
      }
    case Repay(_, _, amount, mode) =>
      if mode != Stable {
        var repaid := ReserveRepaid(amount, mode, r, u, e.tx);
        RepaymentFits(r, u, repaid, s.now, e.tx);
        ScaledSubtraction(u.scaledVariableDebt, repaid, index);
      }
    case SwapRateMode(_, mode) =>
      if mode == Stable {
        ScaledAddition(u.scaledVariableDebt, UserStableDebt(u, e.tx), index);
      }
  }

  lemma ReserveFacts(r: ReserveData, now: int)
    requires ReserveInv(r, now)
    ensures forall t :: now <= t ==> Accruable(r, t)
    ensures r.scaledVariableDebt >= 0
  {
  }

  lemma UserFacts(s: State, i: nat)
    requires Inv(s) && i < |s.users|
    ensures UserInv(s.users[i], s.now)
  {
  }

  /** Nothing is left out when the reserve records variable debt, the user's stable debt was just
      accrued into both fields, and a variable borrower holds the whole scaled debt. */
  lemma NothingForgiven(s: State, e: Event)
    requires Inv(s) && Enabled(s, e)
    requires s.reserve.totalVariableDebt != 0
    requires
      var u := s.users[e.action.user];
      UserStableDebt(u, e.tx) == u.currentStableDebt == u.principalStableDebt
    requires BorrowsVariable(e) ==> s.users[e.action.user].scaledVariableDebt == s.reserve.scaledVariableDebt
    ensures Forgiven(s, e) == 0
  {
    hide RayMul, CompoundedInterest, VariableBorrowIndex, StableDebtBalance, NormalizedDebt, NotAhead, ReserveInv,
      RemovableStableDebt;
    ReserveFacts(s.reserve, s.now);
    WhenInterestIsUnrecorded(s.reserve, s.users[e.action.user], e.tx);
  }
}
