/** Between two actions the deposits of all users grow by at most what the reserve's debts grow, less
    the reserve factor, and by at least the simple interest the borrowers owe, less the same factor, both
    up to a stated rounding: depositors are paid by borrowers, by nobody else, and in full. */
module Solvency {
  import opened RayMath
  import opened Interest
  import opened Records
  import opened Rates
  import opened Balances
  import opened ReserveTransitions
  import opened UserTransitions
  import opened Market
  import opened Invariants
  import opened UserInvariants
  import opened Conservation
  import opened RateMonotonicity
  import opened ReadBack

  const ScaledDepositOf: UserReserveData -> int := (u: UserReserveData) => u.scaledATokenBalance

  /** What all users read as their deposits. */
  ghost function Deposits(s: State, t: int): int {
    Total(s.users, (u: UserReserveData) => ATokenBalance(s.reserve, u, t))
  }

  /** What the reserve reports as its debts. */
  function AccruedDebts(r: ReserveData, t: int): int {
    AccruedStableDebt(r, t) + AccruedVariableDebt(r, t)
  }

  // ---------- deposits from above ----------

  lemma {:induction false} TotalSame(users: seq<UserReserveData>, f: UserReserveData -> int, g: UserReserveData -> int)
    requires forall u :: f(u) == g(u)
    ensures Total(users, f) == Total(users, g)
  {
    if users != [] {
      TotalSame(users[1..], f, g);
    }
  }

  lemma DepositSum(ss: int, m: int, n: int, km: int, lk: int, users: nat, d0: int, d1: int, l: int)
    requires ss >= 0 && RAY * (n - m) <= km + HALF_RAY * ss && km <= RAY * lk && RAY * ss <= m <= l * RAY
    requires 2 * (d1 * RAY) <= 2 * n + users * RAY && 2 * m - users * RAY <= 2 * (d0 * RAY)
    ensures RAY * (d1 - d0) <= lk + l + users * RAY
  {
  }

  lemma DepositsReadings(s: State, t: int)
    requires Inv(s) && s.reserve.lastUpdateTimestamp <= t
    ensures
      var ss, income := Total(s.users, ScaledDepositOf), NormalizedIncome(s.reserve, t);
      && ss >= 0 && income >= s.reserve.liquidityIndex
      && 2 * (ss * income) - |s.users| * RAY <= 2 * (Deposits(s, t) * RAY) <= 2 * (ss * income) + |s.users| * RAY
  {
    hide RayMul, NormalizedIncome, CompoundedInterest, VariableBorrowIndex, LiquidityIndex;
    var income := NormalizedIncome(s.reserve, t);
    IndicesGrow(s.reserve, t);
    forall k | 0 <= k < |s.users|
      ensures ScaledDepositOf(s.users[k]) >= 0
    {
      assert UserInv(s.users[k], s.now);
    }
    ReadingsAddUp(s.users, ScaledDepositOf, income);
    TotalSame(s.users, (u: UserReserveData) => ATokenBalance(s.reserve, u, t), ReadAt(ScaledDepositOf, income));
  }

  /** The income after k units of linear interest per ray. */
  lemma IncomeAfter(r: ReserveData, t: int)
    requires Accruable(r, t)
    ensures
      var k := LinearInterest(r.liquidityRate, t, r.lastUpdateTimestamp) - RAY;
      && 0 <= k && k * ONE_YEAR <= r.liquidityRate * (t - r.lastUpdateTimestamp)
      && NormalizedIncome(r, t) * RAY <= (RAY + k) * r.liquidityIndex + HALF_RAY
    ensures t == r.lastUpdateTimestamp ==> NormalizedIncome(r, t) == r.liquidityIndex
  {
    hide RayMul, TruncDiv;
    var n := t - r.lastUpdateTimestamp;
    LinearAtLeastRay(r.liquidityRate, t, r.lastUpdateTimestamp);
    MulNonNeg(r.liquidityRate, n);
    TruncDivBrackets(r.liquidityRate * n, ONE_YEAR);
    RayMulNearest(LinearInterest(r.liquidityRate, t, r.lastUpdateTimestamp), r.liquidityIndex);
    RayMulOne(r.liquidityIndex);
  }

  /** Deposits backed by the liquidity grow by at most the promised rate on that liquidity. */
  lemma DepositsGrowth(s: State, t: int)
    requires Inv(s) && s.now <= t
    requires Deposits(s, s.reserve.lastUpdateTimestamp) <= s.reserve.totalLiquidity
    ensures
      var r, users := s.reserve, |s.users|;
      ONE_YEAR * RAY * (Deposits(s, t) - Deposits(s, r.lastUpdateTimestamp))
        <= (r.totalLiquidity + users) * (r.liquidityRate * (t - r.lastUpdateTimestamp))
           + ONE_YEAR * (r.totalLiquidity + users + users * RAY)
  {
    hide RayMul, NormalizedIncome, LinearInterest, TruncDiv, Deposits, NotAhead, Total;
    var r, t0 := s.reserve, s.reserve.lastUpdateTimestamp;
    DepositsReadings(s, t0);
    DepositsReadings(s, t);
    IncomeAfter(r, t0);
    IncomeAfter(r, t);
    var k := LinearInterest(r.liquidityRate, t, t0) - RAY;
    var d0, d1, l := Deposits(s, t0), Deposits(s, t), r.totalLiquidity + |s.users|;
    var ss, i, ni := Total(s.users, ScaledDepositOf), r.liquidityIndex, NormalizedIncome(r, t);
    Distribute(i, RAY, k, 0, 0);
    MulMono(RAY * (ni - i), k * i + HALF_RAY, ss);
    ScaledDifference(ss, ni, i);
    Distribute(ss, k * i, HALF_RAY, 0, 0);
    Swap(ss, k, i);
    MulMono(ss * i, l * RAY, k);
    Swap(k, l, RAY);
    MulMono(RAY, i, ss);
    DepositSum(ss, ss * i, ss * ni, k * (ss * i), l * k, |s.users|, d0, d1, l);
    DepositPerYear(d1 - d0, l, k, r.liquidityRate * (t - t0), l + |s.users| * RAY);
  }

  lemma DepositPerYear(growth: int, l: int, k: int, rn: int, rest: int)
    requires l >= 0 && k * ONE_YEAR <= rn && RAY * growth <= l * k + rest
    ensures ONE_YEAR * RAY * growth <= l * rn + ONE_YEAR * rest
  {
    MulMono(ONE_YEAR * k, rn, l);
    Swap(l, ONE_YEAR, k);
  }

  // ---------- deposits from below ----------

  lemma GrowthTimes(ss: int, i: int, ni: int, k: int)
    requires ss >= 0 && RAY * (ni - i) >= k * i - HALF_RAY
    ensures RAY * (ss * ni - ss * i) >= k * (ss * i) - HALF_RAY * ss
  {
    MulMono(k * i - HALF_RAY, RAY * (ni - i), ss);
    ScaledDifference(ss, ni, i);
    LessHalf(ss, k, i);
  }

  lemma FloorTimes(k: int, d0: int, users: int, m: int)
    requires k >= 0 && RAY * d0 - HALF_RAY * users <= m
    ensures k * m >= RAY * (k * d0) - HALF_RAY * (k * users)
  {
    MulMono(RAY * d0 - HALF_RAY * users, m, k);
    Distribute(k, RAY * d0, -(HALF_RAY * users), 0, 0);
    Swap(k, RAY, d0);
    Swap(k, HALF_RAY, users);
  }

  lemma DepositSumBelow(ss: int, m: int, n: int, km: int, dk: int, uk: int, users: nat, d0: int, d1: int)
    requires ss >= 0 && uk >= 0 && RAY * (n - m) >= km - HALF_RAY * ss && km >= RAY * dk - HALF_RAY * uk
    requires RAY * ss <= m && 2 * m <= 2 * (d0 * RAY) + users * RAY
    requires 2 * (d1 * RAY) >= 2 * n - users * RAY && 2 * (d0 * RAY) <= 2 * m + users * RAY
    ensures RAY * (d1 - d0) >= dk - uk - (d0 + users) - users * RAY
  {
  }

  lemma IncomeAtLeast(r: ReserveData, t: int)
    requires Accruable(r, t)
    ensures
      var k := LinearInterest(r.liquidityRate, t, r.lastUpdateTimestamp) - RAY;
      && 0 <= k && r.liquidityRate * (t - r.lastUpdateTimestamp) <= k * ONE_YEAR + ONE_YEAR
      && k * ONE_YEAR <= r.liquidityRate * (t - r.lastUpdateTimestamp)
      && NormalizedIncome(r, t) * RAY >= (RAY + k) * r.liquidityIndex - HALF_RAY
  {
    hide LinearInterest, NormalizedIncome, VariableBorrowIndex, LiquidityIndex, CompoundedInterest;
    LinearEarns(r.liquidityRate, t, r.lastUpdateTimestamp);
    IndicesEarn(r, t);
  }

  /** What all deposits earn is at least the promised rate on them, whatever backs them. */
  lemma DepositsEarn(s: State, t: int)
    requires Inv(s) && s.now <= t
    ensures
      var r, users, n := s.reserve, |s.users|, t - s.reserve.lastUpdateTimestamp;
      var d0 := Deposits(s, r.lastUpdateTimestamp);
      ONE_YEAR * RAY * (Deposits(s, t) - d0)
        >= d0 * (r.liquidityRate * n) - users * (r.liquidityRate * n) - ONE_YEAR * (2 * d0 + 2 * users + users * RAY)
  {
    hide RayMul, NormalizedIncome, LinearInterest, TruncDiv, Deposits, NotAhead, Total;
    var r, t0 := s.reserve, s.reserve.lastUpdateTimestamp;
    DepositsReadings(s, t0);
    DepositsReadings(s, t);
    IncomeAfter(r, t0);
    IncomeAtLeast(r, t);
    var k := LinearInterest(r.liquidityRate, t, t0) - RAY;
    var d0, d1 := Deposits(s, t0), Deposits(s, t);
    var ss, i, ni := Total(s.users, ScaledDepositOf), r.liquidityIndex, NormalizedIncome(r, t);
    Distribute(i, RAY, k, 0, 0);
    GrowthTimes(ss, i, ni, k);
    FloorTimes(k, d0, |s.users|, ss * i);
    MulMono(RAY, i, ss);
    MulNonNeg(|s.users|, k);
    DepositSumBelow(ss, ss * i, ss * ni, k * (ss * i), k * d0, k * |s.users|, |s.users|, d0, d1);
    DepositsNonNeg(s);
    EarnedPerYear(d1 - d0, d0, |s.users|, k, r.liquidityRate * (t - t0));
  }

  lemma ReadingsNonNeg(users: seq<UserReserveData>, r: ReserveData, t: int)
    requires forall k :: 0 <= k < |users| ==> ATokenBalance(r, users[k], t) >= 0
    ensures Total(users, (u: UserReserveData) => ATokenBalance(r, u, t)) >= 0
  {
    TotalNonNeg(users, (u: UserReserveData) => ATokenBalance(r, u, t));
  }

  lemma DepositsNonNeg(s: State)
    requires Inv(s)
    ensures Deposits(s, s.reserve.lastUpdateTimestamp) >= 0
  {
    hide ATokenBalance, UserVariableDebt, NotAhead, Total;
    forall k | 0 <= k < |s.users|
      ensures ATokenBalance(s.reserve, s.users[k], s.reserve.lastUpdateTimestamp) >= 0
    {
      assert UserInv(s.users[k], s.now);
      BalanceNonNeg(s.reserve, s.users[k], s.reserve.lastUpdateTimestamp);
    }
    ReadingsNonNeg(s.users, s.reserve, s.reserve.lastUpdateTimestamp);
  }

  lemma EarnedPerYear(growth: int, d0: int, users: nat, k: int, rn: int)
    requires d0 >= 0 && k * ONE_YEAR <= rn <= k * ONE_YEAR + ONE_YEAR
    requires RAY * growth >= k * d0 - k * users - (d0 + users) - users * RAY
    ensures ONE_YEAR * RAY * growth >= d0 * rn - users * rn - ONE_YEAR * (2 * d0 + 2 * users + users * RAY)
  {
    MulMono(rn, k * ONE_YEAR + ONE_YEAR, d0);
    MulMono(k * ONE_YEAR, rn, users);
    Distribute(d0, k * ONE_YEAR, ONE_YEAR, 0, 0);
    Swap(d0, k, ONE_YEAR);
    Swap(users, k, ONE_YEAR);
    assert k * (d0 * ONE_YEAR) == ONE_YEAR * (k * d0) && k * (users * ONE_YEAR) == ONE_YEAR * (k * users);
  }

  // ---------- debts from below ----------

  /** The rate per second in whole units against the yearly rate. */
  lemma PerSecondBelow(rate: int, base: int, n: nat)
    requires rate >= 0 && base >= 0
    ensures PerSecond(rate) >= 0
    ensures ONE_YEAR * (PerSecond(rate) * n) <= rate * n
    ensures base * (rate * n) - ONE_YEAR * (base * n) <= ONE_YEAR * (base * (PerSecond(rate) * n))
  {
    hide PerSecond;
    assert PerSecond(rate) >= 0 && PerSecond(rate) * ONE_YEAR <= rate <= PerSecond(rate) * ONE_YEAR + ONE_YEAR by {
      PerSecondBrackets(rate);
    }
    var x := PerSecond(rate);
    MulMono(x * ONE_YEAR, rate, n);
    MulMono(rate, x * ONE_YEAR + ONE_YEAR, n);
    assert (x * ONE_YEAR) * n == ONE_YEAR * (x * n);
    assert (x * ONE_YEAR + ONE_YEAR) * n == ONE_YEAR * (x * n) + ONE_YEAR * n;
    MulMono(rate * n, ONE_YEAR * (x * n) + ONE_YEAR * n, base);
    Distribute(base, ONE_YEAR * (x * n), ONE_YEAR * n, 0, 0);
    Swap(base, ONE_YEAR, x * n);
    Swap(base, ONE_YEAR, n);
  }

  lemma PerSecondBrackets(rate: int)
    requires rate >= 0
    ensures PerSecond(rate) >= 0 && PerSecond(rate) * ONE_YEAR <= rate <= PerSecond(rate) * ONE_YEAR + ONE_YEAR
  {
    TruncDivBrackets(rate, ONE_YEAR);
  }

  /** A scaled debt at index i and, later, at an index vi of at least i times RAY + k. */
  lemma VariableArithmetic(scaled: int, i: int, vi: int, k: int, v0: int, v1: int)
    requires 0 <= scaled <= v0 && k >= 0
    requires v0 * RAY <= scaled * i + HALF_RAY
    requires scaled * vi + HALF_RAY < (v1 + 1) * RAY && (RAY + k) * i <= vi * RAY + HALF_RAY
    ensures RAY * (v1 - v0) >= v0 * k - k - v0 - RAY
  {
    var m := scaled * i;
    Distribute(i, RAY, k, 0, 0);
    MulMono(k * i - HALF_RAY, RAY * (vi - i), scaled);
    ScaledDifference(scaled, vi, i);
    LessHalf(scaled, k, i);
    MulMono(RAY * v0 - HALF_RAY, m, k);
    LessHalf(k, RAY, v0);
    assert k * v0 == v0 * k;
    VariableSum(scaled, m, scaled * vi, k * m, v0 * k, k, v0, v1);
  }

  lemma ScaledDifference(a: int, b: int, c: int)
    ensures a * (RAY * (b - c)) == RAY * (a * b - a * c)
  {
    Swap(a, RAY, b - c);
    Distribute(a, b, -c, 0, 0);
  }

  lemma LessHalf(a: int, b: int, c: int)
    ensures a * (b * c - HALF_RAY) == b * (a * c) - HALF_RAY * a
  {
    Distribute(a, b * c, -HALF_RAY, 0, 0);
    Swap(a, b, c);
  }

  lemma VariableSum(scaled: int, m: int, n: int, km: int, vk: int, k: int, v0: int, v1: int)
    requires 0 <= scaled <= v0 && k >= 0
    requires v0 * RAY <= m + HALF_RAY && n + HALF_RAY < (v1 + 1) * RAY
    requires RAY * (n - m) >= km - HALF_RAY * scaled && km >= RAY * vk - HALF_RAY * k
    ensures RAY * (v1 - v0) >= vk - k - v0 - RAY
  {
  }

  /** A variable debt recorded at the reserve's index grows by at least its rate, less one unit per
      second of the rate's own rounding and a unit or two. */
  lemma VariableGrowth(r: ReserveData, t: int)
    requires Accruable(r, t) && r.scaledVariableDebt >= 0
    requires r.totalVariableDebt == RayMul(r.scaledVariableDebt, r.variableBorrowIndex)
    ensures
      var v0, n := r.totalVariableDebt, t - r.lastUpdateTimestamp;
      ONE_YEAR * RAY * (AccruedVariableDebt(r, t) - v0)
        >= v0 * (r.variableBorrowRate * n) - ONE_YEAR * (v0 * n) - r.variableBorrowRate * n - ONE_YEAR * (v0 + RAY)
  {
    hide RayMul, CompoundedInterest, PerSecond;
    var v0, t0, rate := r.totalVariableDebt, r.lastUpdateTimestamp, r.variableBorrowRate;
    var n, index := t - t0, r.variableBorrowIndex;
    RayMulGrows(index, r.scaledVariableDebt);
    PerSecondBelow(rate, v0, n);
    MulNonNeg(rate, n);
    MulNonNeg(v0, n);
    if v0 == 0 {
      RayMulZero(index);
    } else {
      var k, factor := PerSecond(rate) * n, CompoundedInterest(rate, t, t0);
      MulNonNeg(PerSecond(rate), n);
      CompoundedGrows(rate, t0, t0, t);
      CompoundedGains(rate, t0, t0, t);
      RayMulNearest(factor, index);
      MulMono(RAY + k, factor, index);
      RayMulNearest(r.scaledVariableDebt, index);
      RayMulNearest(r.scaledVariableDebt, RayMul(factor, index));
      VariableArithmetic(r.scaledVariableDebt, index, RayMul(factor, index), k, v0, AccruedVariableDebt(r, t));
      GrowthPerYear(AccruedVariableDebt(r, t) - v0, v0, k, rate * n, n);
    }
  }

  lemma GrowthPerYear(growth: int, base: int, k: int, rn: int, n: int)
    requires RAY * growth >= base * k - k - base - RAY
    requires ONE_YEAR * k <= rn && base * rn - ONE_YEAR * (base * n) <= ONE_YEAR * (base * k)
    ensures ONE_YEAR * RAY * growth >= base * rn - ONE_YEAR * (base * n) - rn - ONE_YEAR * (base + RAY)
  {
  }

  /** The lag of the reserve's stable debt over n seconds: none when it was stamped at its last update. */
  ghost function StableLag(r: ReserveData, t: int): int
    requires r.totalStableDebtLastUpdated <= r.lastUpdateTimestamp
  {
    r.principalStableDebt * ((t - r.lastUpdateTimestamp)
      * CompoundingLag(r.averageStableBorrowRate, r.lastUpdateTimestamp - r.totalStableDebtLastUpdated))
  }

  lemma StableArithmetic(principal: int, c0: int, c1: int, x: int, n: int, lag: int, s0: int, s1: int)
    requires principal >= 0 && x * n >= 0
    requires s0 * RAY <= principal * c0 + HALF_RAY && principal * c1 + HALF_RAY < (s1 + 1) * RAY
    requires 2 * RAY * (c1 - c0) >= n * (2 * (x * c0) - lag)
    ensures 2 * RAY * (RAY * (s1 - s0)) >= 2 * RAY * (s0 * (x * n) - x * n - RAY) - principal * (n * lag)
  {
    var k, m := x * n, principal * c0;
    MulMono(n * (2 * (x * c0) - lag), 2 * RAY * (c1 - c0), principal);
    assert principal * (2 * RAY * (c1 - c0)) == 2 * RAY * (principal * c1 - m);
    assert principal * (n * (2 * (x * c0) - lag)) == 2 * (k * m) - principal * (n * lag);
    MulMono(s0 * RAY - HALF_RAY, m, k);
    assert k * (s0 * RAY - HALF_RAY) == RAY * (s0 * k) - HALF_RAY * k;
    StableSum(m, principal * c1, k * m, s0 * k, k, s0, s1, principal * (n * lag));
  }

  lemma StableSum(m: int, m1: int, km: int, sk: int, k: int, s0: int, s1: int, lag: int)
    requires k >= 0 && s0 * RAY <= m + HALF_RAY && m1 + HALF_RAY < (s1 + 1) * RAY
    requires 2 * RAY * (m1 - m) >= 2 * km - lag && km >= RAY * sk - HALF_RAY * k
    ensures 2 * RAY * (RAY * (s1 - s0)) >= 2 * RAY * (sk - k - RAY) - lag
  {
  }

  /** The reserve's stable debt grows by at least its average rate, less the same and the lag. */
  lemma StableGrowth(r: ReserveData, t: int)
    requires r.totalStableDebtLastUpdated <= r.lastUpdateTimestamp <= t
    requires r.principalStableDebt >= 0 && r.averageStableBorrowRate >= 0
    ensures
      var t0, rate := r.lastUpdateTimestamp, r.averageStableBorrowRate;
      var s0, n := AccruedStableDebt(r, t0), t - t0;
      2 * RAY * (ONE_YEAR * RAY * (AccruedStableDebt(r, t) - s0))
        >= 2 * RAY * (s0 * (rate * n) - ONE_YEAR * (s0 * n) - rate * n - ONE_YEAR * RAY) - ONE_YEAR * StableLag(r, t)
  {
    hide RayMul, CompoundedInterest, PerSecond, CompoundingLag;
    var ts, t0, rate := r.totalStableDebtLastUpdated, r.lastUpdateTimestamp, r.averageStableBorrowRate;
    var n, p, x := t - t0, r.principalStableDebt, PerSecond(rate);
    var c0, c1 := CompoundedInterest(rate, t0, ts), CompoundedInterest(rate, t, ts);
    TotalStableDebtGrows(p, rate, ts, t0, t);
    var s0, s1 := AccruedStableDebt(r, t0), AccruedStableDebt(r, t);
    CompoundedGrows(rate, ts, t0, t);
    CompoundedSpeeds(rate, ts, t0, t);
    PerSecondBelow(rate, s0, n);
    MulNonNeg(x, n);
    RayMulNearest(c0, p);
    RayMulNearest(c1, p);
    StableArithmetic(p, c0, c1, x, n, CompoundingLag(rate, t0 - ts), s0, s1);
    StablePerYear(s1 - s0, s0, x * n, rate * n, n, StableLag(r, t));
  }

  lemma StablePerYear(growth: int, base: int, k: int, rn: int, n: int, lag: int)
    requires 2 * RAY * (RAY * growth) >= 2 * RAY * (base * k - k - RAY) - lag
    requires ONE_YEAR * k <= rn && base * rn - ONE_YEAR * (base * n) <= ONE_YEAR * (base * k)
    ensures 2 * RAY * (ONE_YEAR * RAY * growth)
      >= 2 * RAY * (base * rn - ONE_YEAR * (base * n) - rn - ONE_YEAR * RAY) - ONE_YEAR * lag
  {
  }

  // ---------- both sides ----------

  /** The rounding of the two sides, in units of 1 / (2 * RAY * RAY * ONE_YEAR): a unit or two per user
      and for the debts, the reserve's size over a ray, and over the n seconds what the promise
      itself and the rates per second round away. */
  ghost function GrowthRounding(r: ReserveData, users: nat, t: int): int
    requires r.totalStableDebtLastUpdated <= r.lastUpdateTimestamp
  {
    var n := t - r.lastUpdateTimestamp;
    2 * RAY * DepositRounding(r, users, n) + (2 * RAY * DebtRounding(r, n) + ONE_YEAR * StableLag(r, t))
      + n * PromiseRounding(r)
  }

  ghost function DepositRounding(r: ReserveData, users: nat, n: int): int {
    users * (r.liquidityRate * n) + ONE_YEAR * (r.totalLiquidity + users + users * RAY)
  }

  ghost function DebtRounding(r: ReserveData, n: int): int {
    ONE_YEAR * ((r.totalStableDebt + r.totalVariableDebt) * n)
      + (r.variableBorrowRate + r.averageStableBorrowRate) * n + ONE_YEAR * (r.totalVariableDebt + 2 * RAY)
  }

  ghost function PromiseRounding(r: ReserveData): int {
    var overall :=
      OverallBorrowRate(r.totalStableDebt, r.totalVariableDebt, r.variableBorrowRate, r.averageStableBorrowRate);
    RAY * (r.totalStableDebt + r.totalVariableDebt + 2 * (RAY / WAD_RAY_RATIO)) + 2 * (RAY * r.totalLiquidity)
      + overall * r.totalLiquidity
  }

  /** What borrowers owe per year and ray of rate. */
  function Paid(r: ReserveData): int {
    r.totalVariableDebt * r.variableBorrowRate + r.totalStableDebt * r.averageStableBorrowRate
  }

  /** The promise of a settled reserve's own rates. */
  lemma SettledPromise(p: ReserveParams, r: ReserveData, now: int)
    requires ValidParams(p) && ReserveInv(r, now) && Settled(p, r, r.lastUpdateTimestamp)
    ensures -(PERCENTAGE_FACTOR * PromiseRounding(r))
      <= 2 * RAY * (PERCENTAGE_FACTOR * (r.liquidityRate * r.totalLiquidity)
                    - Paid(r) * (PERCENTAGE_FACTOR - p.reserveFactor))
      <= PERCENTAGE_FACTOR * PromiseRounding(r)
  {
    hide UtilizationRate, OverallBorrowRate, VariableRate, StableRate, DepositorRate, AccruedStableDebt,
      AccruedVariableDebt, RayMul;
    var overall :=
      OverallBorrowRate(r.totalStableDebt, r.totalVariableDebt, r.variableBorrowRate, r.averageStableBorrowRate);
    OverallNonNeg(r.totalStableDebt, r.totalVariableDebt, r.variableBorrowRate, r.averageStableBorrowRate);
    if r.totalStableDebt + r.totalVariableDebt > 0 {
      DepositorsGetWhatBorrowersPay(p, r.marketStableRate, r.availableLiquidity, r.totalStableDebt,
                                    r.totalVariableDebt, r.averageStableBorrowRate);
    } else {
      NoDebtNoUtilization(r.totalLiquidity);
      ZeroUtilizationPaysNothing(p, overall);
      MulNonNeg(overall, r.totalLiquidity);
    }
  }

  lemma NoDebtNoUtilization(liquidity: int)
    ensures UtilizationRate(0, 0, liquidity) == 0
  {
  }

  lemma BothSides(bps: int, growth: int, debts: int, promised: int, paid: int, slack: int, missing: int, promise: int)
    requires 0 <= bps <= PERCENTAGE_FACTOR && missing >= 0
    requires growth <= promised + slack
    requires 2 * RAY * debts >= 2 * RAY * paid - missing
    requires 2 * RAY * (PERCENTAGE_FACTOR * promised - bps * paid) <= PERCENTAGE_FACTOR * promise
    ensures 2 * RAY * (PERCENTAGE_FACTOR * growth - bps * debts)
      <= PERCENTAGE_FACTOR * (2 * RAY * slack + missing + promise)
  {
    MulMono(2 * RAY * paid - missing, 2 * RAY * debts, bps);
    MulMono(bps, PERCENTAGE_FACTOR, missing);
    assert bps * (2 * RAY * paid - missing) == 2 * RAY * (bps * paid) - bps * missing;
    assert bps * (2 * RAY * debts) == 2 * RAY * (bps * debts);
  }

  lemma DebtsGrowth(p: ReserveParams, r: ReserveData, now: int, t: int)
    requires ValidParams(p) && ReserveInv(r, now) && Settled(p, r, r.lastUpdateTimestamp) && now <= t
    requires r.totalStableDebtLastUpdated <= r.lastUpdateTimestamp
    ensures
      var n, debt := t - r.lastUpdateTimestamp, r.totalStableDebt + r.totalVariableDebt;
      && AccruedDebts(r, t) >= debt
      && 2 * RAY * DebtRounding(r, n) + ONE_YEAR * StableLag(r, t) >= 0
      && 2 * RAY * (ONE_YEAR * RAY * (AccruedDebts(r, t) - debt))
           >= 2 * RAY * (Paid(r) * n) - (2 * RAY * DebtRounding(r, n) + ONE_YEAR * StableLag(r, t))
  {
    hide RayMul, VariableBorrowIndex, TotalStableDebt, Priced, StableLag, CanPrice, ValidParams;
    var t0, n := r.lastUpdateTimestamp, t - r.lastUpdateTimestamp;
    FreshBorrowIndex(r, t0);
    VariableGrowth(r, t);
    StableGrowth(r, t);
    VariableDebtGrows(r, t0, t);
    TotalStableDebtGrows(r.principalStableDebt, r.averageStableBorrowRate, r.totalStableDebtLastUpdated, t0, t);
    StableLagNonNeg(r, t);
    var v0, s0, rv, rs := r.totalVariableDebt, r.totalStableDebt, r.variableBorrowRate, r.averageStableBorrowRate;
    MulNonNeg(v0 + s0, n);
    MulNonNeg(rv + rs, n);
    PaidParts(n, v0, s0, rv, rs);
    DebtsSum(n, v0, s0, rv, rs, AccruedVariableDebt(r, t) - v0, AccruedStableDebt(r, t) - s0, StableLag(r, t));
  }

  lemma StableLagNonNeg(r: ReserveData, t: int)
    requires r.totalStableDebtLastUpdated <= r.lastUpdateTimestamp <= t
    requires r.principalStableDebt >= 0 && r.averageStableBorrowRate >= 0
    ensures StableLag(r, t) >= 0
    ensures r.totalStableDebtLastUpdated == r.lastUpdateTimestamp ==> StableLag(r, t) == 0
  {
    hide PerSecond, Cubed, Squared;
    var rate, m := r.averageStableBorrowRate, r.lastUpdateTimestamp - r.totalStableDebtLastUpdated;
    RoundedPowers(rate);
    MulNonNeg(PerSecond(rate), Cubed(rate));
    MulNonNeg(Choose(m, 3), PerSecond(rate) * Cubed(rate));
    MulNonNeg(t - r.lastUpdateTimestamp, CompoundingLag(rate, m));
    MulNonNeg(r.principalStableDebt, (t - r.lastUpdateTimestamp) * CompoundingLag(rate, m));
  }

  lemma PaidParts(n: int, v0: int, s0: int, rv: int, rs: int)
    ensures (v0 + s0) * n == v0 * n + s0 * n && (rv + rs) * n == rv * n + rs * n
    ensures (v0 * rv + s0 * rs) * n == v0 * (rv * n) + s0 * (rs * n)
  {
    Distribute(n, v0, s0, 0, 0);
    Distribute(n, rv, rs, 0, 0);
    Distribute(n, v0 * rv, s0 * rs, 0, 0);
    Swap(v0, rv, n);
    Swap(s0, rs, n);
  }

  lemma DebtsSum(n: int, v0: int, s0: int, rv: int, rs: int, dv: int, ds: int, lag: int)
    requires ONE_YEAR * RAY * dv >= v0 * (rv * n) - ONE_YEAR * (v0 * n) - rv * n - ONE_YEAR * (v0 + RAY)
    requires 2 * RAY * (ONE_YEAR * RAY * ds)
      >= 2 * RAY * (s0 * (rs * n) - ONE_YEAR * (s0 * n) - rs * n - ONE_YEAR * RAY) - ONE_YEAR * lag
    ensures 2 * RAY * (ONE_YEAR * RAY * (dv + ds))
      >= 2 * RAY * (v0 * (rv * n) + s0 * (rs * n))
         - (2 * RAY * (ONE_YEAR * (v0 * n + s0 * n) + (rv * n + rs * n) + ONE_YEAR * (v0 + 2 * RAY)) + ONE_YEAR * lag)
  {
  }

  /** Depositors are paid by borrowers: from a settled reserve whose deposits are backed by its
      liquidity, over any time without an action, the deposits of all users grow by at most what the
      debts grow, less the reserve factor, up to the rounding. So the deposits stay backed by what is
      available and owed, up to the same rounding. */
  lemma DepositorsArePaidByBorrowers(p: ReserveParams, s: State, t: int)
    requires ValidParams(p) && Inv(s) && s.now <= t && Settled(p, s.reserve, s.reserve.lastUpdateTimestamp)
    requires s.reserve.totalStableDebtLastUpdated <= s.reserve.lastUpdateTimestamp
    requires Deposits(s, s.reserve.lastUpdateTimestamp) <= s.reserve.totalLiquidity
    ensures
      var r, t0 := s.reserve, s.reserve.lastUpdateTimestamp;
      var deposits := Deposits(s, t) - Deposits(s, t0);
      var debts := AccruedDebts(r, t) - AccruedDebts(r, t0);
      2 * RAY * (ONE_YEAR * RAY * (PERCENTAGE_FACTOR * deposits - (PERCENTAGE_FACTOR - p.reserveFactor) * debts))
        <= PERCENTAGE_FACTOR * GrowthRounding(r, |s.users|, t)
    ensures
      var r := s.reserve;
      2 * RAY * (ONE_YEAR * RAY * (Deposits(s, t) - (r.availableLiquidity + AccruedDebts(r, t))))
        <= GrowthRounding(r, |s.users|, t)
  {
    hide Inv, Deposits, AccruedDebts, DepositRounding, DebtRounding, PromiseRounding, StableLag, Priced, CanPrice, Paid,
      ValidParams;
    var r, t0, n := s.reserve, s.reserve.lastUpdateTimestamp, t - s.reserve.lastUpdateTimestamp;
    SettledTotals(p, r);
    InvParts(s);
    ShareOfPayments(p);
    PromisedGrowth(s, t);
    DebtsGrowth(p, r, s.now, t);
    SettledPromise(p, r, s.now);
    var l, bps := r.totalLiquidity, PERCENTAGE_FACTOR - p.reserveFactor;
    PromiseOverTime(n, r.liquidityRate, l, Paid(r), bps, PromiseRounding(r));
    var deposits, debts := Deposits(s, t) - Deposits(s, t0), AccruedDebts(r, t) - AccruedDebts(r, t0);
    BothSides(bps, ONE_YEAR * RAY * deposits, ONE_YEAR * RAY * debts, l * (r.liquidityRate * n), Paid(r) * n,
              DepositRounding(r, |s.users|, n), 2 * RAY * DebtRounding(r, n) + ONE_YEAR * StableLag(r, t),
              n * PromiseRounding(r));
    Refactor(bps, deposits, debts);
    ShareOfGrowth(bps, deposits, debts, GrowthRounding(r, |s.users|, t));
  }

  /** Borrowers' payments reach the depositors: deposits that make up the liquidity grow by at least the
      simple interest both debts owe, less the reserve factor, up to the rounding. */
  lemma DepositorsReceiveWhatBorrowersPay(p: ReserveParams, s: State, t: int)
    requires ValidParams(p) && Inv(s) && s.now <= t && Settled(p, s.reserve, s.reserve.lastUpdateTimestamp)
    requires Deposits(s, s.reserve.lastUpdateTimestamp) >= s.reserve.totalLiquidity
    ensures
      var r, t0, n := s.reserve, s.reserve.lastUpdateTimestamp, t - s.reserve.lastUpdateTimestamp;
      var deposits := Deposits(s, t) - Deposits(s, t0);
      2 * RAY * (PERCENTAGE_FACTOR * (ONE_YEAR * RAY * deposits)
                 - (PERCENTAGE_FACTOR - p.reserveFactor) * (Paid(r) * n))
        >= -(PERCENTAGE_FACTOR * ReceiptRounding(r, |s.users|, Deposits(s, t0), n))
  {
    hide Inv, Deposits, PromiseRounding, Priced, CanPrice, Paid, ValidParams;
    var r, t0, n := s.reserve, s.reserve.lastUpdateTimestamp, t - s.reserve.lastUpdateTimestamp;
    TimeAndRate(s, t);
    DepositsEarn(s, t);
    SettledPromise(p, r, s.now);
    var l, bps, rn := r.totalLiquidity, PERCENTAGE_FACTOR - p.reserveFactor, r.liquidityRate * n;
    var d0 := Deposits(s, t0);
    MulMono(l, d0, rn);
    PromiseBelow(n, r.liquidityRate, l, Paid(r), bps, PromiseRounding(r));
  }

  lemma TimeAndRate(s: State, t: int)
    requires Inv(s) && s.now <= t
    ensures ReserveInv(s.reserve, s.now)
    ensures t >= s.reserve.lastUpdateTimestamp
    ensures s.reserve.liquidityRate * (t - s.reserve.lastUpdateTimestamp) >= 0
  {
    hide NotAhead;
    MulNonNeg(s.reserve.liquidityRate, t - s.reserve.lastUpdateTimestamp);
  }

  /** The rounding of what depositors receive. */
  ghost function ReceiptRounding(r: ReserveData, users: nat, deposits: int, n: int): int {
    2 * RAY * (users * (r.liquidityRate * n) + ONE_YEAR * (2 * deposits + 2 * users + users * RAY))
      + n * PromiseRounding(r)
  }

  lemma PromiseBelow(n: nat, rate: int, l: int, paid: int, bps: int, promise: int)
    requires 2 * RAY * (PERCENTAGE_FACTOR * (rate * l) - paid * bps) >= -(PERCENTAGE_FACTOR * promise)
    ensures 2 * RAY * (PERCENTAGE_FACTOR * (l * (rate * n)) - bps * (paid * n)) >= -(PERCENTAGE_FACTOR * (n * promise))
  {
    PromiseOverTime(n, rate, -l, -paid, bps, promise);
    assert rate * -l == -(rate * l) && -paid * bps == -(paid * bps);
    assert -l * (rate * n) == -(l * (rate * n));
    assert bps * (-paid * n) == -(bps * (paid * n));
  }

  lemma ShareOfPayments(p: ReserveParams)
    requires ValidParams(p)
    ensures 0 <= PERCENTAGE_FACTOR - p.reserveFactor <= PERCENTAGE_FACTOR
  {
  }

  lemma PromisedGrowth(s: State, t: int)
    requires Inv(s) && s.now <= t
    requires Deposits(s, s.reserve.lastUpdateTimestamp) <= s.reserve.totalLiquidity
    ensures
      var r, n := s.reserve, t - s.reserve.lastUpdateTimestamp;
      && n >= 0
      && ONE_YEAR * RAY * (Deposits(s, t) - Deposits(s, r.lastUpdateTimestamp))
           <= r.totalLiquidity * (r.liquidityRate * n) + DepositRounding(r, |s.users|, n)
  {
    hide Deposits, NotAhead;
    DepositsGrowth(s, t);
    var r, n := s.reserve, t - s.reserve.lastUpdateTimestamp;
    Distribute(r.liquidityRate * n, r.totalLiquidity, |s.users|, 0, 0);
  }

  lemma Refactor(bps: int, deposits: int, debts: int)
    ensures PERCENTAGE_FACTOR * (ONE_YEAR * RAY * deposits) - bps * (ONE_YEAR * RAY * debts)
      == ONE_YEAR * RAY * (PERCENTAGE_FACTOR * deposits - bps * debts)
  {
    Swap(bps, ONE_YEAR * RAY, debts);
  }

  lemma ShareOfGrowth(bps: int, deposits: int, debts: int, rounding: int)
    requires 0 <= bps <= PERCENTAGE_FACTOR && debts >= 0
    requires 2 * RAY * (ONE_YEAR * RAY * (PERCENTAGE_FACTOR * deposits - bps * debts)) <= PERCENTAGE_FACTOR * rounding
    ensures 2 * RAY * (ONE_YEAR * RAY * (deposits - debts)) <= rounding
  {
    MulMono(bps, PERCENTAGE_FACTOR, debts);
  }

  lemma PromiseOverTime(n: nat, rate: int, l: int, paid: int, bps: int, promise: int)
    requires 2 * RAY * (PERCENTAGE_FACTOR * (rate * l) - paid * bps) <= PERCENTAGE_FACTOR * promise
    ensures 2 * RAY * (PERCENTAGE_FACTOR * (l * (rate * n)) - bps * (paid * n)) <= PERCENTAGE_FACTOR * (n * promise)
  {
    MulMono(2 * RAY * (PERCENTAGE_FACTOR * (rate * l) - paid * bps), PERCENTAGE_FACTOR * promise, n);
    Swap(n, rate, l);
    Swap(l, rate, n);
    Swap(n, paid, bps);
    Swap(bps, paid, n);
    Swap(n, PERCENTAGE_FACTOR, promise);
    Swap(n, PERCENTAGE_FACTOR, rate * l);
    Swap(n, 2 * RAY, PERCENTAGE_FACTOR * (rate * l) - paid * bps);
    Distribute(n, PERCENTAGE_FACTOR * (rate * l), -(paid * bps), 0, 0);
  }

  lemma SettledTotals(p: ReserveParams, r: ReserveData)
    requires ValidParams(p) && Settled(p, r, r.lastUpdateTimestamp)
    ensures r.totalStableDebt + r.totalVariableDebt == AccruedDebts(r, r.lastUpdateTimestamp)
    ensures r.totalLiquidity == r.availableLiquidity + r.totalStableDebt + r.totalVariableDebt
  {
    hide TotalStableDebt, AccruedVariableDebt, Priced, CanPrice;
  }

  lemma StampsInOrder(p: ReserveParams, s: State, e: Event)
    requires ValidParams(p) && Inv(s) && Enabled(s, e) && StepDefined(p, s, e)
    ensures NextReserve(p, s, e).totalStableDebtLastUpdated <= NextReserve(p, s, e).lastUpdateTimestamp == e.tx
  {
    hide RayMul, CompoundedInterest, VariableBorrowIndex, LiquidityIndex, TotalStableDebt, RayDiv, AverageStableRate,
      ExpectedInterestRates, UtilizationRate, StableDebtBalance, UserVariableDebt, UserStableDebt, BurnedScaled,
      ReserveRepaid, WithdrawnAmount, NotAhead, UserInv;
  }

  /** Any action read at once leaves such a reserve, so until the next one depositors are paid by
      borrowers; a deposit or a variable repayment must start from one. */
  lemma PaidUntilNextAction(p: ReserveParams, s: State, e: Event, t: int)
    requires ValidParams(p) && Inv(s) && Enabled(s, e) && e.tx == e.current <= t
    requires e.action.Deposit? || (e.action.Repay? && e.action.mode != Stable) ==> Settled(p, s.reserve, e.tx)
    ensures StepDefined(p, s, e)
    ensures NextReserve(p, s, e).totalStableDebtLastUpdated <= NextReserve(p, s, e).lastUpdateTimestamp
    ensures
      var s', after := Step(p, s, e), NextReserve(p, s, e);
      Deposits(s', e.tx) <= after.totalLiquidity ==>
        2 * RAY * (ONE_YEAR * RAY * (Deposits(s', t) - (after.availableLiquidity + AccruedDebts(after, t))))
          <= GrowthRounding(after, |s.users|, t)
  {
    hide Inv, Enabled, StepDefined, NextReserve, NextUser, Settled, Deposits, AccruedDebts, GrowthRounding;
    StepKeeps(p, s, e);
    StepSettles(p, s, e);
    StampsInOrder(p, s, e);
    EnabledTimes(s, e);
    if Deposits(Step(p, s, e), e.tx) <= NextReserve(p, s, e).totalLiquidity {
      DepositorsArePaidByBorrowers(p, Step(p, s, e), t);
    }
  }
}
