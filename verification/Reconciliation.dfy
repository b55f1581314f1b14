/** How the recorded total liquidity relates to its three parts. */
module Reconciliation {
  import opened RayMath
  import opened Interest
  import opened Records
  import opened Rates
  import opened Balances
  import opened ReserveTransitions
  import opened UserTransitions
  import opened Market
  import opened Invariants
  import opened UserInvariants

  /** What the recorded total liquidity is short of available liquidity plus both debts. */
  function Shortfall(r: ReserveData): int {
    Outstanding(r) - r.totalLiquidity
  }

  function Debts(r: ReserveData): int {
    r.totalStableDebt + r.totalVariableDebt
  }

  /** Every withdrawal, borrow, repayment and swap reconciles the reserve, whatever state preceded
      it; a deposit adds to the shortfall exactly the interest recorded since. */
  lemma ShortfallStep(p: ReserveParams, s: State, e: Event)
    requires StepDefined(p, s, e)
    ensures Shortfall(NextReserve(p, s, e))
      == if e.action.Deposit? then Shortfall(s.reserve) + Debts(NextReserve(p, s, e)) - Debts(s.reserve) else 0
  {
    hide RayMul, CompoundedInterest, VariableBorrowIndex, LiquidityIndex, TotalStableDebt, RayDiv, StableDebtBalance,
      AverageStableRate, ExpectedInterestRates, UtilizationRate, NormalizedDebt, NormalizedIncome, ReserveRepaid,
      UserVariableDebt, UserStableDebt, WithdrawnAmount;
  }

  /** A deposit into a reconciled reserve leaves it reconciled if and only if no interest was
      recorded since, and never makes the total exceed its parts. */
  lemma DepositReconciles(p: ReserveParams, r: ReserveData, amount: int, now: int, tx: int)
    requires ValidParams(p) && ReserveInv(r, now) && NotAhead(r, now) && 0 < now <= tx && 0 < amount
    requires Shortfall(r) == 0
    ensures CanPrice(DepositLedger(amount, r, tx))
    ensures
      var after := ReserveAfterDeposit(p, amount, r, tx);
      && Shortfall(after) >= 0
      && (Shortfall(after) == 0 <==>
            AccruedStableDebt(r, tx) == r.totalStableDebt && AccruedVariableDebt(r, tx) == r.totalVariableDebt)
  {
    hide RayMul, CompoundedInterest, VariableBorrowIndex, LiquidityIndex, TotalStableDebt, ExpectedInterestRates,
      UtilizationRate;
    DepositKeepsLedger(r, now, amount, tx);
  }

  // ---------- stories ----------

  lemma {:induction false} StoryConcat(p: ReserveParams, s: State, first: seq<Event>, second: seq<Event>)
    requires ValidParams(p) && Inv(s)
    ensures Story(p, s, first + second) == Story(p, Story(p, s, first), second)
    decreases |first|
  {
    hide Inv, Attempt, ValidParams;
    if first == [] {
      assert first + second == second;
    } else {
      assert (first + second)[1..] == first[1..] + second;
      StoryConcat(p, Attempt(p, s, first[0]), first[1..], second);
    }
  }

  lemma AttemptShortfall(p: ReserveParams, s: State, e: Event)
    requires ValidParams(p) && Inv(s)
    ensures
      var r, r' := s.reserve, Attempt(p, s, e).reserve;
      Shortfall(r') == if Enabled(s, e) && !e.action.Deposit? then 0 else Shortfall(r) + Debts(r') - Debts(r)
  {
    hide Inv, Enabled, StepDefined, NextReserve, NextUser, Shortfall, Debts;
    if Enabled(s, e) {
      StepKeeps(p, s, e);
      ShortfallStep(p, s, e);
    }
  }

  /** Over a run of deposits the shortfall grows by exactly the interest recorded. */
  lemma {:induction false} DepositsShortfall(p: ReserveParams, s: State, deposits: seq<Event>)
    requires ValidParams(p) && Inv(s)
    requires forall e :: e in deposits ==> e.action.Deposit?
    ensures
      var r, r' := s.reserve, Story(p, s, deposits).reserve;
      Shortfall(r') == Shortfall(r) + Debts(r') - Debts(r)
    decreases |deposits|
  {
    hide Inv, Attempt, ValidParams, Shortfall, Debts, Enabled;
    if deposits != [] {
      assert deposits[0] in deposits;
      AttemptShortfall(p, s, deposits[0]);
      DepositsShortfall(p, Attempt(p, s, deposits[0]), deposits[1..]);
    }
  }

  /** Only deposits open the gap: after any story, a successful action other than a deposit, and any
      further deposits, the shortfall is exactly the interest recorded since that action. */
  lemma OnlyDepositsOpenTheGap(p: ReserveParams, s: State, before: seq<Event>, e: Event, deposits: seq<Event>)
    requires ValidParams(p) && Inv(s)
    requires Enabled(Story(p, s, before), e) && !e.action.Deposit?
    requires forall d :: d in deposits ==> d.action.Deposit?
    ensures
      var settled := Story(p, s, before + [e]);
      var end := Story(p, s, before + [e] + deposits);
      && Shortfall(settled.reserve) == 0
      && Shortfall(end.reserve) == Debts(end.reserve) - Debts(settled.reserve) >= 0
  {
    hide Inv, Attempt, ValidParams, Debts, Enabled, Story;
    var middle := Story(p, s, before);
    StoryConcat(p, s, before, [e]);
    StoryConcat(p, s, before + [e], deposits);
    StoryOfOne(p, middle, e);
    AttemptShortfall(p, middle, e);
    DepositsShortfall(p, Attempt(p, middle, e), deposits);
    ShortfallNonNeg(Story(p, s, before + [e] + deposits));
  }

  lemma StoryOfOne(p: ReserveParams, s: State, e: Event)
    requires ValidParams(p) && Inv(s)
    ensures Story(p, s, [e]) == Attempt(p, s, e)
  {
    hide Inv, Attempt, ValidParams;
    assert [e][1..] == [];
    assert Story(p, Attempt(p, s, e), []) == Attempt(p, s, e);
  }

  lemma ShortfallNonNeg(s: State)
    requires Inv(s)
    ensures Shortfall(s.reserve) >= 0
  {
  }
}
