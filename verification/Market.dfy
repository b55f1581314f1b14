/** One reserve and its users, and the step each action of a story takes. An action pairs the
    reserve transition with the transition of the user it is for. */
module Market {
  import opened RayMath
  import opened Records
  import opened Rates
  import opened Balances
  import opened ReserveTransitions
  import opened UserTransitions

  datatype Action =
    | Deposit(user: nat, amount: int)
    | Withdraw(user: nat, amount: int)
    | Borrow(user: nat, amount: int, mode: RateMode)
    | Repay(payer: nat, user: nat, amount: int, mode: RateMode)
    | SwapRateMode(user: nat, mode: RateMode)

  /** An action, the time of its transaction and the time at which the result is read. */
  datatype Event = Event(action: Action, tx: int, current: int)

  datatype State = State(reserve: ReserveData, users: seq<UserReserveData>, now: int)

  /** Every quantity the step computes is a number: nothing is divided by zero. */
  predicate StepDefined(p: ReserveParams, s: State, e: Event) {
    && ValidParams(p)
    && e.action.user < |s.users|
    && var r, u := s.reserve, s.users[e.action.user];
       match e.action
       case Deposit(_, amount) =>
         && CanPrice(DepositLedger(amount, r, e.tx))
         && LiquidityIndex(r, e.tx) != 0
       case Withdraw(_, amount) =>
         && CanPrice(WithdrawLedger(WithdrawnAmount(amount, r, u, e.tx), r, e.tx))
         && LiquidityIndex(r, e.tx) != 0
       case Borrow(_, amount, mode) =>
         && BorrowDefined(p, amount, mode, r, e.tx, e.current)
         && UserBorrowDefined(amount, mode, Touched(r, e.tx), u, e.tx)
       case Repay(_, _, amount, mode) =>
         RepayDefined(p, amount, mode, r, u, e.tx)
       case SwapRateMode(_, mode) =>
         && SwapDefined(p, mode, r, u, e.tx)
         && UserSwapDefined(mode, r, Touched(r, e.tx), u, e.tx)
  }

  function NextReserve(p: ReserveParams, s: State, e: Event): ReserveData
    requires StepDefined(p, s, e)
  {
    var r, u := s.reserve, s.users[e.action.user];
    match e.action
    case Deposit(_, amount) => ReserveAfterDeposit(p, amount, r, e.tx)
    case Withdraw(_, amount) => ReserveAfterWithdraw(p, amount, r, u, e.tx)
    case Borrow(_, amount, mode) => ReserveAfterBorrow(p, amount, mode, r, e.tx, e.current)
    case Repay(_, _, amount, mode) => ReserveAfterRepay(p, amount, mode, r, u, e.tx)
    case SwapRateMode(_, mode) => ReserveAfterSwap(p, mode, r, u, e.tx)
  }

  function NextUser(p: ReserveParams, s: State, e: Event): UserReserveData
    requires StepDefined(p, s, e)
  {
    var r, u := s.reserve, s.users[e.action.user];
    var after := NextReserve(p, s, e);
    match e.action
    case Deposit(_, amount) => UserAfterDeposit(amount, r, after, u, e.tx)
    case Withdraw(_, amount) => UserAfterWithdraw(amount, r, after, u, e.tx)
    case Borrow(_, amount, mode) => UserAfterBorrow(amount, mode, r, after, u, e.tx, e.current)
    case Repay(payer, user, amount, mode) =>
      UserAfterRepay(amount, mode, r, after, u, payer == user, e.tx, e.current)
    case SwapRateMode(_, mode) => UserAfterSwap(mode, r, after, u, e.tx)
  }

  function Step(p: ReserveParams, s: State, e: Event): State
    requires StepDefined(p, s, e)
  {
    State(NextReserve(p, s, e), s.users[e.action.user := NextUser(p, s, e)], e.current)
  }

  /** The scaled variable debt a repayment or a swap to stable burns. */
  function BurnedScaled(r: ReserveData, amount: int, tx: int): int {
    var index := VariableBorrowIndex(r, tx);
    if index == 0 then 0 else RayDiv(amount, index)
  }

  /** Stable debt that can leave the reserve at a rate without taking the total or the average below
      zero. */
  predicate RemovableStableDebt(r: ReserveData, moved: int, rate: int, tx: int) {
    var total := AccruedStableDebt(r, tx);
    && moved <= total
    && (moved < total ==> r.averageStableBorrowRate * total - rate * moved > -(total - moved))
  }

  /** When an action succeeds. Besides the pool's own conditions, which never let a user move more
      than it holds, the last conditions of Repay and SwapRateMode keep the reserve's own debts
      from going negative: the transitions clamp them only in a stable repayment. */
  predicate Enabled(s: State, e: Event) {
    && e.action.user < |s.users|
    && s.now <= e.tx <= e.current
    && var r, u := s.reserve, s.users[e.action.user];
       match e.action
       case Deposit(_, amount) =>
         0 < amount <= u.walletBalance
       case Withdraw(_, amount) =>
         var withdrawn := WithdrawnAmount(amount, r, u, e.tx);
         0 < withdrawn <= ATokenBalance(r, u, e.tx) && withdrawn <= r.availableLiquidity
       case Borrow(_, amount, mode) =>
         mode != Unset && 0 < amount <= r.availableLiquidity
       case Repay(payer, user, amount, mode) =>
         var repaid := ReserveRepaid(amount, mode, r, u, e.tx);
         && mode != Unset
         && (Abs(amount) == MAX_UINT_AMOUNT ==> e.tx == e.current)
         && 0 < repaid <= DebtInMode(mode, r, u, e.tx)
         && (payer == user ==> repaid <= u.walletBalance)
         && (mode == Variable ==> BurnedScaled(r, repaid, e.tx) <= r.scaledVariableDebt)
       case SwapRateMode(_, mode) =>
         var moved := DebtInMode(mode, r, u, e.tx);
         && mode != Unset
         && 0 < moved
         && (mode == Stable ==> RemovableStableDebt(r, moved, u.stableBorrowRate, e.tx))
         && (mode == Variable ==> BurnedScaled(r, moved, e.tx) <= r.scaledVariableDebt)
  }
}
