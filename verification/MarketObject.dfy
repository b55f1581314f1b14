/** The market as a mutable object: each action computes the two expected records with the transition
    methods and stores them, and a story executes actions one after another. */
module MarketObject {
  import opened RayMath
  import opened Interest
  import opened Records
  import opened Rates
  import opened Balances
  import opened ReserveTransitions
  import opened UserTransitions
  import opened Market
  import opened Invariants
  import opened UserInvariants

  class Pool {
    const params: ReserveParams
    var reserve: ReserveData
    var users: seq<UserReserveData>
    var now: int

    function Snapshot(): State
      reads this
    {
      State(reserve, users, now)
    }

    ghost predicate Valid()
      reads this
    {
      ValidParams(params) && Inv(Snapshot())
    }

    constructor (params: ReserveParams, state: State)
      requires ValidParams(params) && Inv(state)
      ensures Valid() && this.params == params && Snapshot() == state
    {
      this.params := params;
      reserve, users, now := state.reserve, state.users, state.now;
    }

    method Deposit(user: nat, amount: int, tx: int, current: int)
      requires Valid() && Enabled(Snapshot(), Event(Action.Deposit(user, amount), tx, current))
      modifies this
      ensures Valid()
      ensures Snapshot() == Attempt(params, old(Snapshot()), Event(Action.Deposit(user, amount), tx, current))
    {
      hide Inv, Enabled, DepositLedger, Priced, UserAfterDeposit, CanPrice;
      StepKeeps(params, Snapshot(), Event(Action.Deposit(user, amount), tx, current));
      EnabledTimes(Snapshot(), Event(Action.Deposit(user, amount), tx, current));
      IndicesAfterStep(params, Snapshot(), Event(Action.Deposit(user, amount), tx, current));
      var reserveAfter := CalcReserveAfterDeposit(params, amount, reserve, tx);
      var userAfter := CalcUserAfterDeposit(amount, reserve, reserveAfter, users[user], tx);
      reserve, users, now := reserveAfter, users[user := userAfter], current;
    }

    method Withdraw(user: nat, amount: int, tx: int, current: int)
      requires Valid() && Enabled(Snapshot(), Event(Action.Withdraw(user, amount), tx, current))
      modifies this
      ensures Valid()
      ensures Snapshot() == Attempt(params, old(Snapshot()), Event(Action.Withdraw(user, amount), tx, current))
    {
      hide Inv, Enabled, WithdrawLedger, Priced, UserAfterWithdraw, CanPrice;
      StepKeeps(params, Snapshot(), Event(Action.Withdraw(user, amount), tx, current));
      EnabledTimes(Snapshot(), Event(Action.Withdraw(user, amount), tx, current));
      IndicesAfterStep(params, Snapshot(), Event(Action.Withdraw(user, amount), tx, current));
      var reserveAfter := CalcReserveAfterWithdraw(params, amount, reserve, users[user], tx);
      var userAfter := CalcUserAfterWithdraw(amount, reserve, reserveAfter, users[user], tx);
      reserve, users, now := reserveAfter, users[user := userAfter], current;
    }

    method Borrow(user: nat, amount: int, mode: RateMode, tx: int, current: int)
      requires Valid() && Enabled(Snapshot(), Event(Action.Borrow(user, amount, mode), tx, current))
      modifies this
      ensures Valid()
      ensures Snapshot() == Attempt(params, old(Snapshot()), Event(Action.Borrow(user, amount, mode), tx, current))
    {
      hide Inv, Enabled, BorrowLedger, Priced, Reported, UserAfterBorrow, CanPrice, BorrowDefined, UserStableDebt;
      StepKeeps(params, Snapshot(), Event(Action.Borrow(user, amount, mode), tx, current));
      EnabledTimes(Snapshot(), Event(Action.Borrow(user, amount, mode), tx, current));
      IndicesAfterStep(params, Snapshot(), Event(Action.Borrow(user, amount, mode), tx, current));
      var reserveAfter := CalcReserveAfterBorrow(params, amount, mode, reserve, tx, current);
      var userAfter := CalcUserAfterBorrow(amount, mode, reserve, reserveAfter, users[user], tx, current);
      reserve, users, now := reserveAfter, users[user := userAfter], current;
    }

    method Repay(payer: nat, user: nat, amount: int, mode: RateMode, tx: int, current: int)
      requires Valid() && Enabled(Snapshot(), Event(Action.Repay(payer, user, amount, mode), tx, current))
      modifies this
      ensures Valid()
      ensures Snapshot() == Attempt(params, old(Snapshot()), Event(Action.Repay(payer, user, amount, mode),
        tx, current))
    {
      hide Inv, Enabled, RepayLedger, Priced, UserAfterRepay, CanPrice;
      StepKeeps(params, Snapshot(), Event(Action.Repay(payer, user, amount, mode), tx, current));
      EnabledTimes(Snapshot(), Event(Action.Repay(payer, user, amount, mode), tx, current));
      IndicesAfterStep(params, Snapshot(), Event(Action.Repay(payer, user, amount, mode), tx, current));
      var reserveAfter := CalcReserveAfterRepay(params, amount, mode, reserve, users[user], tx);
      var userAfter := CalcUserAfterRepay(amount, mode, reserve, reserveAfter, users[user], payer, user, tx, current);
      reserve, users, now := reserveAfter, users[user := userAfter], current;
    }

    method SwapRateMode(user: nat, mode: RateMode, tx: int, current: int)
      requires Valid() && Enabled(Snapshot(), Event(Action.SwapRateMode(user, mode), tx, current))
      modifies this
      ensures Valid()
      ensures Snapshot() == Attempt(params, old(Snapshot()), Event(Action.SwapRateMode(user, mode), tx, current))
    {
      hide Inv, Enabled, SwapLedger, Priced, UserAfterSwap, CanPrice, SwapDefined;
      StepKeeps(params, Snapshot(), Event(Action.SwapRateMode(user, mode), tx, current));
      EnabledTimes(Snapshot(), Event(Action.SwapRateMode(user, mode), tx, current));
      IndicesAfterStep(params, Snapshot(), Event(Action.SwapRateMode(user, mode), tx, current));
      var reserveAfter := CalcReserveAfterSwapRateMode(params, reserve, users[user], mode, tx);
      var userAfter := CalcUserAfterSwapRateMode(reserve, reserveAfter, users[user], mode, tx);
      reserve, users, now := reserveAfter, users[user := userAfter], current;
    }

    /** One action of a story: it is carried out, or it reverts and changes nothing. */
    method ExecuteAction(event: Event) returns (success: bool)
      requires Valid()
      modifies this
      ensures Valid()
      ensures success == Enabled(old(Snapshot()), event)
      ensures Snapshot() == Attempt(params, old(Snapshot()), event)
    {
      hide Inv, Enabled, Step;
      success := Enabled(Snapshot(), event);
      if success {
        match event.action
        case Deposit(user, amount) => Deposit(user, amount, event.tx, event.current);
        case Withdraw(user, amount) => Withdraw(user, amount, event.tx, event.current);
        case Borrow(user, amount, mode) => Borrow(user, amount, mode, event.tx, event.current);
        case Repay(payer, user, amount, mode) => Repay(payer, user, amount, mode, event.tx, event.current);
        case SwapRateMode(user, mode) => SwapRateMode(user, mode, event.tx, event.current);
      }
    }

    /** All the actions of a story in order. */
    method ExecuteStory(events: seq<Event>)
      requires Valid()
      modifies this
      ensures Valid()
      ensures Snapshot() == Story(params, old(Snapshot()), events)
    {
      hide Inv, Enabled, Attempt, ValidParams;
      for i := 0 to |events|
        invariant Valid()
        invariant Story(params, Snapshot(), events[i..]) == Story(params, old(Snapshot()), events)
      {
        var _ := ExecuteAction(events[i]);
        assert events[i..][1..] == events[i + 1..];
      }
    }
  }
}
