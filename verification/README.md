# A verified model of the lending-reserve reference calculations

`test-suites/test-aave/helpers/utils/calculations.ts` states, off chain and in exact integers, what
every pool action does to one reserve and to the user it is for. This project models those
calculations over the fixed-point arithmetic of `math.ts`, chains them into stories as the scenario
engine does, and proves what they promise: the accrual laws, the rate curve, the two ledgers that
must agree, and what every story keeps. `linkBytecode`, the string patcher of
`helpers/contracts-helpers.ts`, is a second, separate component.

## How it is laid out

| file | what it holds |
|---|---|
| `RayMath.dfy` | truncating division, ray, wad and percentage arithmetic, rounding and round-trip laws |
| `Interest.dfy` | linear and compounded interest, the splitting law and the bound against true compounding |
| `Rates.dfy` | utilization, the kinked curve, the overall rate and what depositors are promised |
| `Records.dfy` | the reserve record, the user record and the reserve's parameters |
| `Balances.dfy` | indices, token balances, debts and stable-rate averages |
| `ReserveTransitions.dfy`, `UserTransitions.dfy` | per action a specification function and a method that fills in the record step by step and is proved to return it |
| `Market.dfy` | states, events, the step of an event and its success conditions |
| `Invariants.dfy`, `UserInvariants.dfy` | what every step keeps; stories |
| `MarketObject.dfy` | the market as a mutable object that executes stories |
| `Conservation.dfy` | cash and the scaled variable debt, summed over users; the reserve's own guards |
| `Reconciliation.dfy` | total liquidity against its three parts |
| `RateMonotonicity.dfy` | which way each action moves the borrow rates, their floors and ceilings |
| `Effects.dfy` | the whole effect of an action on both records: cash, minted and burned amounts, weighted averages, what stays, and a borrow read later |
| `Solvency.dfy` | deposits against debts between two actions, from both sides |
| `RoundTrips.dfy`, `ReadBack.dfy`, `NetWorth.dfy` | what one call undoes or preserves, the tolerance of the test comparison, recorded balances against read ones, a user's net worth |
| `Counterexamples.dfy` | states in which a law fails outside its condition |
| `LinkBytecode.dfy` | library linking |

## Modelling decisions

- Numbers are unbounded integers. The scenario runs keep no decimals and round towards zero
  (`test-suites/test-aave/scenario.spec.ts:23`), so every division is `TruncDiv`. A division by zero,
  which gives a non-number in the source, is excluded by preconditions that say exactly when a
  transition divides (`CanPrice`, `BorrowDefined`, `RepayDefined`, `SwapDefined`); `StepKeeps` proves
  that no successful action ever meets one.
- A record is a value. The object a transition creates and fills in is local to it and never shared,
  so its field assignments are assignments to a local record. It starts from the record before the
  action, and three fields that the source leaves unset are filled so that steps chain: the market
  rate is copied, `lastUpdateTimestamp` is the transaction time, and `totalStableDebtLastUpdated` is
  the transaction time whenever stable debt is minted or burned.
- The parameters of the reserve are passed in instead of being looked up by symbol. `ValidParams` is
  what the market configurations satisfy: an optimal utilization strictly between zero and one ray,
  non-negative slopes and base rate, and a reserve factor of at most 10000.
- Compounded interest is used as a sum accumulated second by second, which `WrittenFormAgrees` proves
  equal to the three-term form of the source on every input, negative times included.
- `Enabled` is when an action of a story succeeds; otherwise `Attempt` leaves the state alone, as a
  reverted transaction does. It holds the pool's own conditions (positive amounts, not more than is
  held, owed or available) and three conditions the calculations need and do not check. A variable
  repayment or a swap to stable must not burn more scaled debt than the reserve records
  (`BurnGuardIsExact`, `BurnGuardNearDebt`); a swap to variable must leave the stable debt and its
  average non-negative (`SwapGuardIsExact`); and a repayment of everything is read in the second it
  happens (`RepayAllGap`, `RepayAllLosesInterest`).
- Where the calculations surprise, they are modelled as they are. A deposit does not accrue debt into
  the total liquidity (`DepositReconciles`), and it overwrites the user's stable principal
  (`DepositStableDebtReadsBack`). A variable borrow starts the user from the reserve's scaled total
  (`LedgerStep`), so a user can owe debt that the reserve no longer records, and then reads interest
  the reserve's index does not accrue (`WhenInterestIsUnrecorded`). A variable repayment exchanges the
  current stable debt and its principal (`RepayStableDebtReadsBack`) and keeps the un-accrued stable
  total. A swap to stable starts from the recorded stable debt (`SwapToStablePreservesDebt`) and
  averages with the un-accrued total. For each of these that breaks a law, the lemma named gives the
  exact condition or the exact difference, and `Counterexamples.dfy` a state in which it matters.

## Model

| member | source | states |
|---|---|---|
| RayMath.TruncDivBrackets | test-suites/test-aave/scenario.spec.ts:23 | division brackets its dividend from the side of zero, for either sign of the dividend |
| RayMath.RayMulNearest | test-suites/test-aave/helpers/utils/math.ts:55-57 | the ray product is the nearest integer, ties up |
| RayMath.RayDivNearest | test-suites/test-aave/helpers/utils/math.ts:59-67 | the ray quotient is the nearest integer, ties up, for even and odd divisors alike |
| RayMath.PercentMulNearest | test-suites/test-aave/helpers/utils/math.ts:83-88 | the percentage share is the nearest integer, ties up |
| RayMath.RayDivMono | test-suites/test-aave/helpers/utils/math.ts:59-67 | the quotient grows with the dividend and shrinks as the divisor grows, across parities |
| RayMath.ScaledRoundTrip | test-suites/test-aave/helpers/utils/math.ts:55-67 | a scaled balance read at any index of at least one ray and scaled back is unchanged |
| RayMath.AmountRoundTrip | test-suites/test-aave/helpers/utils/math.ts:55-67 | the other way round the loss is at most (index + RAY) / (2 RAY) |
| Interest.WrittenFormAgrees | test-suites/test-aave/helpers/utils/calculations.ts:1199-1229 | the written three-term form equals, on every input, interest accumulated second by second: both divisions are exact |
| Interest.CompoundedIsBinomial | test-suites/test-aave/helpers/utils/calculations.ts:1199-1229 | the accrual factor is the binomial expansion to degree three over Pascal's triangle, with only the two powers rounded |
| Interest.CompoundedGrows | test-suites/test-aave/helpers/utils/calculations.ts:1199-1229 | the factor is at least one ray and never falls as time passes |
| Interest.CompoundingSplit | test-suites/test-aave/helpers/utils/calculations.ts:1199-1229 | splitting a period into n and m seconds loses at most n m (n+m) / 4 base units |
| Interest.NeverOvercharges | test-suites/test-aave/helpers/utils/calculations.ts:1199-1229 | the three-term form exceeds true per-second compounding by at most its own rounding |
| Interest.CompoundedGains | test-suites/test-aave/helpers/utils/calculations.ts:1199-1229 | every further second adds at least one second's simple interest, and a rate below one unit per second never accrues |
| Interest.CompoundedSpeeds | test-suites/test-aave/helpers/utils/calculations.ts:1199-1229 | interest earns interest: from any moment on the factor grows by at least the simple interest on what it has reached, up to a stated lag |
| Interest.LinearEarns | test-suites/test-aave/helpers/utils/calculations.ts:1184-1197 | linear accrual earns exactly the whole units of the yearly rate over the elapsed time |
| Interest.RoundedPowers | test-suites/test-aave/helpers/utils/calculations.ts:1214-1216 | the two powers of the rate per second are the nearest integers |
| Interest.LinearBelowCompounded | test-suites/test-aave/helpers/utils/calculations.ts:1184-1229 | linear accrual exceeds compounded accrual at the same rate by less than one unit per second |
| Interest.LinearSplit | test-suites/test-aave/helpers/utils/calculations.ts:1184-1197 | two linear accruals multiply to at least the one-shot accrual less one unit |
| Rates.CalcExpectedInterestRates | test-suites/test-aave/helpers/utils/calculations.ts:1231-1292 | the step-by-step rates are the two curves and the depositors' rate |
| Rates.CurveAnchors | test-suites/test-aave/helpers/utils/calculations.ts:1246-1279 | the curve is the start at zero, start + slope1 at the optimal point, start + slope1 + slope2 at one ray |
| Rates.RateAnchors | test-suites/test-aave/helpers/utils/calculations.ts:1246-1279 | parameter by parameter, the variable and the stable rate at no, optimal and full utilization |
| Rates.RatesOnKinkedLines | test-suites/test-aave/helpers/utils/calculations.ts:1246-1279 | between the anchors both rates follow their two lines, from both sides up to rounding |
| Rates.CurveMono | test-suites/test-aave/helpers/utils/calculations.ts:1246-1279 | the curve never falls as utilization grows, across the kink |
| Rates.CurveWithinFloorAndCeiling | test-suites/test-aave/helpers/utils/calculations.ts:1246-1279 | up to full utilization each borrow rate stays between its floor and its ceiling |
| Rates.UtilizationAtMostOne | test-suites/test-aave/helpers/utils/calculations.ts:1315-1327 | debt within the liquidity uses at most one ray of it |
| Rates.UtilizationMono | test-suites/test-aave/helpers/utils/calculations.ts:1315-1327 | utilization rises with the debt and falls with the idle liquidity |
| Rates.OverallIsWeightedAverage | test-suites/test-aave/helpers/utils/calculations.ts:1294-1313 | the overall rate is the debt-weighted average to within 1/2 + 10^18 / debt, both ways |
| Rates.DepositorsGetWhatBorrowersPay | test-suites/test-aave/helpers/utils/calculations.ts:1281-1327 | the depositors' rate on all liquidity is what borrowers pay less the reserve factor, to within the stated rounding, both ways |
| Balances.IndicesGrow | test-suites/test-aave/helpers/utils/calculations.ts:1329-1413 | neither index nor the normalized income ever falls below its starting index |
| Balances.IndicesEarn | test-suites/test-aave/helpers/utils/calculations.ts:1385-1413 | both indices rise by their accrual factors to the nearest unit, and the index of a side nobody uses stays |
| Balances.DepositEarns | test-suites/test-aave/helpers/utils/calculations.ts:1096-1106 | a deposit earns at least the linear interest on its scaled balance in whole units |
| Balances.IncomeIsNewIndex | test-suites/test-aave/helpers/utils/calculations.ts:1329-1349 | the income depositors read equals the new liquidity index although the two test different fields |
| Balances.DebtIsNewIndex | test-suites/test-aave/helpers/utils/calculations.ts:1351-1413 | the normalized debt equals the new borrow index whenever variable debt is recorded |
| Balances.DebtScalesBack | test-suites/test-aave/helpers/utils/calculations.ts:1144-1159 | a borrower's balance divided by the new index is exactly the scaled balance, unless the reserve records no variable debt while the borrower holds some |
| Balances.WhenInterestIsUnrecorded | test-suites/test-aave/helpers/utils/calculations.ts:1351-1413 | what a borrower reads beyond the reserve's index is nothing if the reserve records variable debt, the borrower holds none, no time has passed or the rate is below one unit per second, and otherwise at least the simple interest in whole units |
| Balances.AverageBetween | test-suites/test-aave/helpers/utils/calculations.ts:1108-1124 | adding stable debt keeps the average between the old average and the new rate |
| Balances.AverageAfterRemoval | test-suites/test-aave/helpers/utils/calculations.ts:1108-1124 | removing stable debt leaves a non-negative average if and only if the weighted remainder is above minus the remaining debt |
| Balances.TouchingMidway | test-suites/test-aave/helpers/utils/calculations.ts:1385-1398 | accruing in two parts loses depositors less than index / RAY + linear / (2 RAY) + 1 |
| ReserveTransitions.CalcReserveAfterDeposit | test-suites/test-aave/helpers/utils/calculations.ts:158-216 | the reserve record after a deposit |
| ReserveTransitions.CalcReserveAfterWithdraw | test-suites/test-aave/helpers/utils/calculations.ts:218-287 | the reserve record after a withdrawal, the maximum included |
| ReserveTransitions.CalcReserveAfterBorrow | test-suites/test-aave/helpers/utils/calculations.ts:289-463 | the reserve record after a borrow in either mode, rates at the transaction and debts at the report |
| ReserveTransitions.CalcReserveAfterRepay | test-suites/test-aave/helpers/utils/calculations.ts:465-597 | the reserve record after a repayment in either mode, with both clamps |
| ReserveTransitions.CalcReserveAfterSwapRateMode | test-suites/test-aave/helpers/utils/calculations.ts:776-886 | the reserve record after a swap in either direction |
| UserTransitions.CalcUserAfterDeposit | test-suites/test-aave/helpers/utils/calculations.ts:21-88 | the user record after a deposit |
| UserTransitions.CalcUserAfterWithdraw | test-suites/test-aave/helpers/utils/calculations.ts:90-156 | the user record after a withdrawal |
| UserTransitions.CalcUserAfterBorrow | test-suites/test-aave/helpers/utils/calculations.ts:599-678 | the user record after a borrow |
| UserTransitions.CalcUserAfterRepay | test-suites/test-aave/helpers/utils/calculations.ts:680-761 | the user record after a repayment, on the user's own behalf or not |
| UserTransitions.CalcUserAfterSwapRateMode | test-suites/test-aave/helpers/utils/calculations.ts:888-952 | the user record after a swap |
| Invariants.PricedKeeps | test-suites/test-aave/helpers/utils/calculations.ts:198-213 | deriving utilization and rates from a sound ledger gives a sound reserve record |
| Invariants.ReportKeeps | test-suites/test-aave/helpers/utils/calculations.ts:367-391 | reporting a borrow at a later time keeps the reserve sound, and an unused report still pays nothing |
| Invariants.IndicesAfterStep | test-suites/test-aave/helpers/utils/calculations.ts:1385-1413 | every successful action leaves exactly the accrued indices, never below the old ones |
| UserInvariants.StepKeeps | test-suites/test-aave/helpers/actions.ts:136-637 | every successful action divides by no zero and keeps the invariant of the reserve and of every user |
| UserInvariants.StorySafety | test-suites/test-aave/helpers/scenario-engine.ts:34-39 | through every story indices never fall, and rates, debts, the average, balances and wallets stay non-negative |
| UserInvariants.Story | test-suites/test-aave/helpers/scenario-engine.ts:34-39 | the actions of a story in order, each carried out or reverted, keeping the invariant |
| UserInvariants.WithdrawalFits | test-suites/test-aave/helpers/utils/calculations.ts:1085-1106 | withdrawing at most the balance burns at most the scaled balance, and exactly all of it for the whole balance |
| MarketObject.Pool.ExecuteAction | test-suites/test-aave/helpers/actions.ts:136-637 | an action pairs the two transitions of the same state, or reverts |
| MarketObject.Pool.ExecuteStory | test-suites/test-aave/helpers/scenario-engine.ts:34-39 | the loop over a story's actions ends in the state of that story |
| Conservation.CashStep | test-suites/test-aave/helpers/utils/calculations.ts:566-568 | wallets plus available liquidity change only by what a third party pays in |
| Conservation.StoryCash | test-suites/test-aave/helpers/scenario-engine.ts:34-39 | over every story cash changes by exactly what third parties paid in |
| Conservation.CashConserved | test-suites/test-aave/helpers/utils/calculations.ts:753-758 | over every story in which debtors repay their own debts cash is conserved, maximum amounts included |
| Conservation.RepayAllGap | test-suites/test-aave/helpers/utils/calculations.ts:706-709 | repaying everything and reading later changes cash by exactly the debt at the transaction less the debt at the report |
| Conservation.RepayAllLosesInterest | test-suites/test-aave/helpers/utils/calculations.ts:706-709 | so it never gains cash, loses at least the simple interest on the debt over the gap in whole units, and nothing if nothing accrues, no time passes or the rate is below one unit per second |
| Conservation.LedgerStep | test-suites/test-aave/helpers/utils/calculations.ts:638-641 | a step keeps the users' scaled debts adding up to the reserve's if and only if it is not a variable borrow by someone holding less than the whole |
| Conservation.StoryLedger | test-suites/test-aave/helpers/utils/calculations.ts:818-847 | the scaled debts stay one ledger over every story whose variable borrows are by the whole holder |
| Conservation.LedgerImpliesGuard | test-suites/test-aave/helpers/utils/calculations.ts:552-554 | under one ledger no repayment within the debt burns more than the reserve records |
| Conservation.NobodyIsStuck | test-suites/test-aave/helpers/actions.ts:136-637 | under one ledger every wallet can be deposited whole, every covered deposit withdrawn whole, all liquidity borrowed, every affordable debt repaid whole and every variable debt swapped |
| Conservation.BurnGuardIsExact | test-suites/test-aave/helpers/utils/calculations.ts:552-554 | a variable repayment or a swap to stable of an amount keeps the reserve's scaled debt non-negative if and only if twice the amount in rays is below (2 scaled + 1) times the index |
| Conservation.BurnGuardNearDebt | test-suites/test-aave/helpers/utils/calculations.ts:552-554 | every amount up to the debt the reserve reports passes, and every amount above it by (index + RAY) / (2 RAY) fails |
| Conservation.SwapGuardIsExact | test-suites/test-aave/helpers/utils/calculations.ts:828-837 | a swap to variable leaves stable debt and average non-negative if and only if it moves at most the accrued total and, if less, leaves the weighted remainder above minus the remaining total |
| Conservation.DebtsAddUp | test-suites/test-aave/helpers/utils/calculations.ts:1430-1435 | the variable debts users read add up to the reserve's to within half a unit per user plus one half |
| Reconciliation.ShortfallStep | test-suites/test-aave/helpers/utils/calculations.ts:570-572 | every action but a deposit reconciles the total liquidity from any state; a deposit adds the interest recorded since |
| Reconciliation.DepositReconciles | test-suites/test-aave/helpers/utils/calculations.ts:167-193 | a deposit into a reconciled reserve leaves it reconciled if and only if no interest accrued |
| Reconciliation.OnlyDepositsOpenTheGap | test-suites/test-aave/helpers/utils/calculations.ts:167-193 | over every story the shortfall is the interest recorded by the deposits since the last other action |
| RateMonotonicity.RatesMove | test-suites/test-aave/helpers/utils/calculations.ts:158-597 | repayments never raise the borrow rates above mere accrual, withdrawals and borrows never lower them, in both modes and over any time; a deposit lowers them if it covers the interest missing from the recorded total and raises them if that interest covers it |
| RateMonotonicity.RatesStayWithin | test-suites/test-aave/helpers/utils/calculations.ts:1246-1279 | every action leaves both borrow rates at or above their floors; every withdrawal, borrow, repayment and swap, and every deposit that leaves the debts covered, at or below their ceilings |
| RateMonotonicity.RecordedRates | test-suites/test-aave/helpers/utils/calculations.ts:198-213 | every action records the utilization of its own debts to the nearest unit and both borrow rates on their lines at it |
| RateMonotonicity.VariableRepaySettles | test-suites/test-aave/helpers/utils/calculations.ts:560-563 | a variable repayment keeps the recorded stable total, and leaves a settled reserve if and only if that total was already accrued |
| RateMonotonicity.StepSettles | test-suites/test-aave/helpers/utils/calculations.ts:158-597 | an action read at once leaves totals, liquidity and rates all those of its second; a deposit or a variable repayment does so from a reserve that has them |
| RateMonotonicity.SameSecondStory | test-suites/test-aave/helpers/utils/calculations.ts:158-597 | within one second, from a reserve with the totals and rates of that second, a story of deposits and repayments never raises the recorded rates, one of withdrawals and borrows never lowers them |
| Effects.CashEffect | test-suites/test-aave/helpers/utils/calculations.ts:158-886 | reserve and wallet move by exactly the amount paid, the maximum resolved, and a third party pays from elsewhere |
| Effects.ReserveFrame | test-suites/test-aave/helpers/utils/calculations.ts:158-886 | what an action does not touch stays: market rate, stable principal, average and stamp, and the stable debt at every time, and the scaled debt |
| Effects.UserFrame | test-suites/test-aave/helpers/utils/calculations.ts:21-952 | the same for the user, and the record shows the new deposit rate |
| Effects.ScaledDebtEffect | test-suites/test-aave/helpers/utils/calculations.ts:158-886 | the reserve mints or burns the nearest quotient of the variable debt moved by its new borrow index |
| Effects.UserScaledEffect | test-suites/test-aave/helpers/utils/calculations.ts:599-928 | so does the user, a variable borrower from the reserve's total, and a swap to stable leaves none |
| Effects.DepositEffect | test-suites/test-aave/helpers/utils/calculations.ts:21-156 | deposits and withdrawals mint and burn at the new liquidity index, and enable or disable collateral exactly when the recorded balance was nothing or the whole is withdrawn |
| Effects.StableDebtEffect | test-suites/test-aave/helpers/utils/calculations.ts:510-886 | the accrued stable debt moves by exactly what is minted, at the weighted average truncated, unless the clamp fires, with its exact condition |
| Effects.UserStableEffect | test-suites/test-aave/helpers/utils/calculations.ts:599-952 | the user's principal, stamp and stable rate, the rate weighted by what was owed and what moved |
| Effects.ReadingTimes | test-suites/test-aave/helpers/utils/calculations.ts:21-761 | which time every recorded balance is accrued to |
| Effects.BorrowReadLater | test-suites/test-aave/helpers/utils/calculations.ts:367-463 | a borrow read later is the same borrow read at once and read again, in both records |
| Solvency.DepositorsArePaidByBorrowers | test-suites/test-aave/helpers/utils/calculations.ts:1184-1398 | between two actions the deposits of all users, backed by the liquidity at the start, grow by at most what the debts grow less the reserve factor, up to a stated rounding, and stay backed by what is available and owed |
| Solvency.DepositsEarn | test-suites/test-aave/helpers/utils/calculations.ts:1096-1106 | all deposits together grow by at least the promised rate on them, whatever backs them |
| Solvency.DepositorsReceiveWhatBorrowersPay | test-suites/test-aave/helpers/utils/calculations.ts:1184-1398 | deposits that make up the liquidity grow by at least the simple interest both debts owe less the reserve factor, up to a stated rounding |
| Solvency.PaidUntilNextAction | test-suites/test-aave/helpers/utils/calculations.ts:158-597 | any action read at once leaves such a reserve, so this holds from it to the next one |
| RoundTrips.WithdrawAll | test-suites/test-aave/helpers/utils/calculations.ts:101-151 | withdrawing the maximum leaves exactly nothing, and collateral use off exactly when a balance was recorded |
| RoundTrips.RepayAllVariable | test-suites/test-aave/helpers/utils/calculations.ts:706-740 | repaying the maximum in variable mode leaves no variable debt |
| RoundTrips.SwapPreservesDebt | test-suites/test-aave/helpers/utils/calculations.ts:898-928 | swapping to variable preserves what is owed, less the interest the reserve does not record, to less than index / (2 RAY) + 1, one unit up to two rays |
| RoundTrips.ToleranceIsSound | test-suites/test-aave/helpers/actions.ts:66-77 | after a deposit or withdrawal the tracked and the read balance differ by less than index / (2 RAY) + 1, so pass the comparison up to an index of six rays |
| RoundTrips.StableBorrowEffect | test-suites/test-aave/helpers/utils/calculations.ts:326-340 | a stable borrow adds the loan to the accrued debts of reserve and user, each at an average between the old average and the loan's rate |
| RoundTrips.StableBorrowUndone | test-suites/test-aave/helpers/utils/calculations.ts:510-544 | repaying it in the same second restores cash, wallet and the user's debt exactly, and the total unless the clamp fires; for a borrower without stable debt or with debt at the reserve's rate it lowers the average by a rounding, and the clamp has an exact condition |
| NetWorth.NetWorthKept | test-suites/test-aave/helpers/utils/calculations.ts:21-952 | an action on one's own account, read at once, changes wallet plus deposit less debts by exactly the debt the record leaves out, up to less than index / (2 RAY) + 1 where variable debt is minted or burned |
| NetWorth.NothingForgiven | test-suites/test-aave/helpers/utils/calculations.ts:21-952 | nothing is left out if the reserve records variable debt, the user's stable debt is accrued in both fields, and a variable borrower holds the whole scaled debt |
| ReadBack.VariableDebtReadsBack | test-suites/test-aave/helpers/utils/calculations.ts:657-671 | the variable debt a step records is what the new records read, except that deposits, withdrawals and stable repayments record exactly the unrecorded interest on top; the deposit balance of the other actions reads back |
| ReadBack.StableDebtReadsBack | test-suites/test-aave/helpers/utils/calculations.ts:911-946 | withdrawals, borrows, stable repayments and swaps record the stable debt the new record reads |
| ReadBack.DepositStableDebtReadsBack | test-suites/test-aave/helpers/utils/calculations.ts:74-85 | a deposit's record does so if and only if the variable debt equals the stable principal |
| ReadBack.RepayStableDebtReadsBack | test-suites/test-aave/helpers/utils/calculations.ts:728-732 | a variable repayment's record does so if and only if no stable interest had accrued |
| ReadBack.SwapToStablePreservesDebt | test-suites/test-aave/helpers/utils/calculations.ts:932-946 | a swap to stable keeps what is owed if and only if the recorded stable debt was already accrued |
| Counterexamples.SecondBorrowerBreaksLedger | test-suites/test-aave/helpers/utils/calculations.ts:638-641 | a variable borrow by a second user breaks the ledger of a valid state |
| Counterexamples.RepayingTheRecordedDebtGoesNegative | test-suites/test-aave/helpers/utils/calculations.ts:552-554 | two successful actions lead to a user whose recorded and affordable debt of 150 would take the reserve to -100 |
| Counterexamples.SwapTakesAverageNegative | test-suites/test-aave/helpers/utils/calculations.ts:828-837 | swapping 9 at rate 100 out of 10 at an average of 1 takes the average to -890 |
| Counterexamples.LateReportLosesCash | test-suites/test-aave/helpers/utils/calculations.ts:706-709 | repaying all and reading one second later loses at least 100 of cash |
| Counterexamples.SwapForgetsUnrecordedInterest | test-suites/test-aave/helpers/utils/calculations.ts:898-928 | a user who owes 1210 is recorded as owing 1110 after a swap to variable |
| Counterexamples.DepositRecordsUnrecordedInterest | test-suites/test-aave/helpers/utils/calculations.ts:74-85 | a deposit records a variable debt 100 above what its record reads |
| Counterexamples.DepositForgetsStableDebt | test-suites/test-aave/helpers/utils/calculations.ts:74-85 | a deposit records a stable debt its own record does not read |
| Counterexamples.RepaymentForgetsStableInterest | test-suites/test-aave/helpers/utils/calculations.ts:728-732 | a variable repayment does so too |
| Counterexamples.SwapForgetsStableInterest | test-suites/test-aave/helpers/utils/calculations.ts:932-946 | a swap to stable leaves 1110 of the 1210 a user owes |
| Counterexamples.DepositOpensTheGap | test-suites/test-aave/helpers/utils/calculations.ts:167-193 | a deposit into a reconciled reserve leaves it 110 short |
| Counterexamples.DepositRaisesRates | test-suites/test-aave/helpers/utils/calculations.ts:167-213 | a deposit of one unit raises the variable rate strictly above mere accrual |
| Counterexamples.ToleranceFailsBeyondSixRays | test-suites/test-aave/helpers/actions.ts:66-77 | three units above an index of six rays the comparison rejects a correct deposit |
| LinkBytecode.Link | helpers/contracts-helpers.ts:121-142 | the three loops make the patches of all supplied libraries in order |
| LinkBytecode.LinkedAt | helpers/contracts-helpers.ts:121-142 | the length is kept, and each character is the covering placement's digit or the original |
| LinkBytecode.Placed | helpers/contracts-helpers.ts:124-131 | a placement is made if and only if its library is supplied and some file mentions its fixup |
| LinkBytecode.LinkOrderIndependent | helpers/contracts-helpers.ts:121-142 | the linked code does not depend on the order of files, libraries and fixups |

## Left out

- The stable-rate rebalance (`calculations.ts:954-1083` and its average at 1126-1142): it mixes ray-scaled and unscaled amounts, so no intended law is decided by the code.
- `calcExpectedUserDataAfterSetUseAsCollateral`: it copies one flag.
- The fields `address`, `symbol`, `decimals` and `aTokenAddress`, the user's `variableBorrowIndex`, which the reader of the contracts never sets, and the lookup of a reserve's configuration by symbol.
- Solvency.DepositorsArePaidByBorrowers: starts from a reserve whose totals and rates are those of its last update and whose deposits are backed by its liquidity; that deposits start out backed is not derived from the history of the market.
- In-place update and aliasing of the record objects: records are values here.
- The test comparison's walk over the keys of a record and its skipped keys: only the comparison of two numbers is modelled.
- Non-numbers: where the source would divide by zero and carry on with an infinite or undefined value, the transition is not defined here.
- Everything on chain: contract calls, minting and approval, delegation, allowances, gas; an action's success is `Enabled`, not the contracts' own checks such as health factors.
- Amounts given as strings, and their conversion to units: amounts are integers, with the largest 256-bit integer standing for everything.
- A repayment by someone else moves the payer's own wallet, which is not one of the records an action reads; it appears as what a third party pays in.
- The AMM copies of the same calculations, deployment, verification and network helpers, market tables, the contracts and the frontend.
