/** Interest accrual: the linear form used for depositors and the three-term binomial form used
    for borrowers. Rates are per year in ray, timestamps in seconds. */
module Interest {
  import opened RayMath

  function LinearInterest(rate: int, currentTimestamp: int, lastUpdateTimestamp: int): int {
    TruncDiv(rate * (currentTimestamp - lastUpdateTimestamp), ONE_YEAR) + RAY
  }

  /** Compounded interest as the calculations write it. */
  function WrittenCompoundedInterest(rate: int, currentTimestamp: int, lastUpdateTimestamp: int): int {
    var timeDifference := currentTimestamp - lastUpdateTimestamp;
    if timeDifference == 0 then RAY
    else
      var expMinusOne := timeDifference - 1;
      var expMinusTwo := if timeDifference > 2 then timeDifference - 2 else 0;
      var ratePerSecond := TruncDiv(rate, ONE_YEAR);
      var basePowerTwo := RayMul(ratePerSecond, ratePerSecond);
      var basePowerThree := RayMul(basePowerTwo, ratePerSecond);
      var secondTerm := TruncDiv(timeDifference * expMinusOne * basePowerTwo, 2);
      var thirdTerm := TruncDiv(timeDifference * expMinusOne * expMinusTwo * basePowerThree, 6);
      RAY + ratePerSecond * timeDifference + secondTerm + thirdTerm
  }

  // ---------- second by second ----------

  /** Per-second rate and its two rounded ray powers. */
  function PerSecond(rate: int): int {
    TruncDiv(rate, ONE_YEAR)
  }

  function Squared(rate: int): int {
    RayMul(PerSecond(rate), PerSecond(rate))
  }

  function Cubed(rate: int): int {
    RayMul(Squared(rate), PerSecond(rate))
  }

  /** Interest on one ray, what the next second adds to it, and by how much that grows per second. */
  datatype Accumulation = Accumulation(interest: int, speed: int, acceleration: int)

  /** After n seconds. */
  function Accumulated(rate: int, n: nat): Accumulation {
    if n == 0 then Accumulation(0, PerSecond(rate), Squared(rate))
    else
      var a := Accumulated(rate, n - 1);
      Accumulation(a.interest + a.speed, a.speed + a.acceleration, a.acceleration + Cubed(rate))
  }

  /** For a time n seconds earlier, where the third power never enters. */
  function Rewound(rate: int, n: nat): Accumulation {
    if n == 0 then Accumulation(0, PerSecond(rate), Squared(rate))
    else
      var a := Rewound(rate, n - 1);
      var speed := a.speed - a.acceleration;
      Accumulation(a.interest - speed, speed, a.acceleration)
  }

  /** Compounded interest accumulated second by second. `WrittenFormAgrees` proves it equal to the
      written form on every input; the rest of the model uses this one. */
  function CompoundedInterest(rate: int, currentTimestamp: int, lastUpdateTimestamp: int): int {
    if lastUpdateTimestamp <= currentTimestamp then
      RAY + Accumulated(rate, currentTimestamp - lastUpdateTimestamp).interest
    else
      RAY + Rewound(rate, lastUpdateTimestamp - currentTimestamp).interest
  }

  // ---------- binomial reference form ----------

  /** Pascal's triangle. */
  ghost function Choose(n: nat, k: nat): nat {
    if k == 0 then 1
    else if n == 0 then 0
    else Choose(n - 1, k - 1) + Choose(n - 1, k)
  }

  ghost function Pow(b: int, n: nat): int {
    if n == 0 then 1 else b * Pow(b, n - 1)
  }

  lemma {:induction false} ChooseOne(n: nat)
    ensures Choose(n, 1) == n
  {
    if n > 0 {
      ChooseOne(n - 1);
    }
  }

  lemma {:induction false} ChooseTwo(n: nat)
    ensures 2 * Choose(n, 2) == n * (n - 1)
  {
    if n > 0 {
      var m := n - 1;
      ChooseOne(m);
      ChooseTwo(m);
      assert 2 * m + m * (m - 1) == (m + 1) * m;
    }
  }

  lemma {:induction false} ChooseThree(n: nat)
    ensures 6 * Choose(n, 3) == n * (n - 1) * (n - 2)
  {
    if n > 0 {
      var m := n - 1;
      ChooseTwo(m);
      ChooseThree(m);
      CubicStep(m);
    }
  }

  lemma CubicStep(m: int)
    ensures 3 * (m * (m - 1)) + m * (m - 1) * (m - 2) == (m + 1) * m * (m - 1)
  {
    var a := m * (m - 1);
    Distribute(a, m, -2, 3, 0);
    Swap(m + 1, m, m - 1);
    Swap(m, m + 1, m - 1);
  }

  /** Vandermonde's identity in degree two. */
  lemma {:induction false} ChooseTwoSum(n: nat, m: nat)
    ensures Choose(n + m, 2) == Choose(n, 2) + n * m + Choose(m, 2)
  {
    if m > 0 {
      ChooseTwoSum(n, m - 1);
      ChooseOne(n + m - 1);
      ChooseOne(m - 1);
      assert n * (m - 1) + n == n * m;
    }
  }

  /** Vandermonde's identity in degree three. */
  lemma {:induction false} ChooseThreeSum(n: nat, m: nat)
    ensures Choose(n + m, 3) == Choose(n, 3) + Choose(n, 2) * m + n * Choose(m, 2) + Choose(m, 3)
  {
    if m > 0 {
      var k := m - 1;
      ChooseThreeSum(n, k);
      ChooseTwoSum(n, k);
      ChooseOne(k);
      var c, d := Choose(n, 2), Choose(k, 2);
      assert Choose(n + m, 3) == Choose(n + k, 2) + Choose(n + k, 3);
      assert Choose(m, 2) == k + d;
      assert Choose(m, 3) == d + Choose(k, 3);
      ThreeSumStep(n, k, c, d);
    }
  }

  lemma ThreeSumStep(n: int, k: int, c: int, d: int)
    ensures (c + n * k + d) + (c * k + n * d) == c * (k + 1) + n * (k + d) + d
  {
  }

  /** The binomial expansion of (1 + x)^n up to degree three, over given powers of x. */
  ghost function Binomial(n: nat, x: int, p2: int, p3: int): int {
    RAY + n * x + Choose(n, 2) * p2 + Choose(n, 3) * p3
  }

  /** After n seconds the three accumulated quantities are binomial sums. */
  lemma {:induction false} AccumulatedClosed(rate: int, n: nat)
    ensures
      var a, x, p2, p3 := Accumulated(rate, n), PerSecond(rate), Squared(rate), Cubed(rate);
      && a.interest == n * x + Choose(n, 2) * p2 + Choose(n, 3) * p3
      && a.speed == x + n * p2 + Choose(n, 2) * p3
      && a.acceleration == p2 + n * p3
  {
    hide PerSecond, Squared, Cubed;
    if n > 0 {
      var m, x, p2, p3 := n - 1, PerSecond(rate), Squared(rate), Cubed(rate);
      AccumulatedClosed(rate, m);
      ChooseOne(m);
      assert Choose(n, 2) == m + Choose(m, 2);
      assert Choose(n, 3) == Choose(m, 2) + Choose(m, 3);
      TermsStep(m, x, p2, p3, Choose(m, 2), Choose(m, 3));
      TermsStep(m, p2, p3, 0, Choose(m, 2), 0);
      StepDown(m, p3);
    }
  }

  /** Moving each binomial coefficient up by the one below it. */
  lemma TermsStep(m: int, x: int, p2: int, p3: int, c2: int, c3: int)
    ensures (m * x + c2 * p2 + c3 * p3) + (x + m * p2 + c2 * p3) == (m + 1) * x + (m + c2) * p2 + (c2 + c3) * p3
  {
    Distribute(x, m, 1, 0, 0);
    Distribute(p2, m, c2, 0, 0);
    Distribute(p3, c2, c3, 0, 0);
  }

  /** The accrual factor is the binomial expansion up to degree three, with only the two powers
      rounded. */
  lemma CompoundedIsBinomial(rate: int, t: int, t0: int)
    requires rate >= 0 && t0 <= t
    ensures PerSecond(rate) >= 0 && Squared(rate) >= 0 && Cubed(rate) >= 0
    ensures CompoundedInterest(rate, t, t0) == Binomial(t - t0, PerSecond(rate), Squared(rate), Cubed(rate))
  {
    RayMulNearest(PerSecond(rate), PerSecond(rate));
    RayMulNearest(Squared(rate), PerSecond(rate));
    AccumulatedClosed(rate, t - t0);
  }

  /** On every input, negative rates and elapsed times included, the form the calculations write is
      the one accumulated second by second: the halving and the division by six are exact. */
  lemma WrittenFormAgrees(rate: int, t: int, t0: int)
    ensures WrittenCompoundedInterest(rate, t, t0) == CompoundedInterest(rate, t, t0)
  {
    hide RayMul;
    if t0 <= t {
      WrittenTerms(rate, t - t0);
    } else {
      WrittenBackwards(rate, t0 - t);
    }
  }

  lemma WrittenTerms(rate: int, n: nat)
    ensures n > 0 ==>
      PerSecond(rate) * n + TruncDiv(n * (n - 1) * Squared(rate), 2)
        + TruncDiv(n * (n - 1) * (if n > 2 then n - 2 else 0) * Cubed(rate), 6)
        == Accumulated(rate, n).interest
  {
    hide PerSecond, Squared, Cubed;
    if n > 0 {
      AccumulatedClosed(rate, n);
      SecondTermExact(n, Squared(rate));
      ThirdTermExact(n, Cubed(rate));
    }
  }

  lemma {:induction false} RewoundClosed(rate: int, n: nat)
    ensures
      var a, x, p2 := Rewound(rate, n), PerSecond(rate), Squared(rate);
      && a.acceleration == p2
      && a.speed == x - n * p2
      && 2 * a.interest == n * (n + 1) * p2 - 2 * (n * x)
  {
    hide PerSecond, Squared;
    if n > 0 {
      RewoundClosed(rate, n - 1);
      RewindStep(n - 1, PerSecond(rate), Squared(rate));
    }
  }

  lemma RewindStep(m: int, x: int, p2: int)
    ensures (m + 1) * p2 == m * p2 + p2 && (m + 1) * x == m * x + x
    ensures (m + 1) * (m + 2) * p2 == m * (m + 1) * p2 + 2 * ((m + 1) * p2)
  {
    StepDown(m, p2);
    StepDown(m, x);
    assert (m + 1) * (m + 2) == m * (m + 1) + (m + 1) + (m + 1);
    Distribute(p2, m * (m + 1), m + 1, m + 1, 0);
  }

  lemma WrittenBackwards(rate: int, n: nat)
    requires n > 0
    ensures
      var elapsed := 0 - n;
      PerSecond(rate) * elapsed + TruncDiv(elapsed * (elapsed - 1) * Squared(rate), 2)
        + TruncDiv(elapsed * (elapsed - 1) * 0 * Cubed(rate), 6)
      == Rewound(rate, n).interest
  {
    hide PerSecond, Squared, Cubed;
    RewoundClosed(rate, n);
    var elapsed := 0 - n;
    assert elapsed * (elapsed - 1) == n * (n + 1);
    HalfExact(Rewound(rate, n).interest + n * PerSecond(rate));
  }

  lemma SecondTermExact(n: nat, p2: int)
    ensures TruncDiv(n * (n - 1) * p2, 2) == Choose(n, 2) * p2
  {
    ChooseTwo(n);
    MultipleOfProduct(2, n * (n - 1), Choose(n, 2), p2);
    HalfExact(Choose(n, 2) * p2);
  }

  lemma ThirdTermExact(n: nat, p3: int)
    requires n > 0
    ensures TruncDiv(n * (n - 1) * (if n > 2 then n - 2 else 0) * p3, 6) == Choose(n, 3) * p3
  {
    ChooseThree(n);
    var c := Choose(n, 3);
    if n > 2 {
      MultipleOfProduct(6, n * (n - 1) * (n - 2), c, p3);
      SixthExact(c * p3);
    } else {
      assert n == 1 || n == 2;
      assert c == 0;
    }
  }

  lemma MultipleOfProduct(k: int, a: int, c: int, p: int)
    requires a == k * c
    ensures a * p == k * (c * p)
  {
    Swap(p, k, c);
  }

  lemma HalfExact(a: int)
    ensures TruncDiv(2 * a, 2) == a
  {
  }

  lemma SixthExact(a: int)
    ensures TruncDiv(6 * a, 6) == a
  {
  }

  // ---------- growth ----------

  lemma LinearAtLeastRay(rate: int, t: int, t0: int)
    requires rate >= 0 && t0 <= t
    ensures LinearInterest(rate, t, t0) >= RAY
    ensures rate == 0 || t == t0 ==> LinearInterest(rate, t, t0) == RAY
  {
    MulNonNeg(rate, t - t0);
  }

  /** Linear accrual earns the yearly rate over the elapsed time, in whole units. */
  lemma LinearEarns(rate: int, t: int, t0: int)
    requires rate >= 0 && t0 <= t
    ensures
      var earned := LinearInterest(rate, t, t0) - RAY;
      0 <= earned && earned * ONE_YEAR <= rate * (t - t0) < (earned + 1) * ONE_YEAR
  {
    MulNonNeg(rate, t - t0);
    TruncDivBrackets(rate * (t - t0), ONE_YEAR);
  }

  lemma {:induction false} ChooseMono(n: nat, m: nat, k: nat)
    requires n <= m
    ensures Choose(n, k) <= Choose(m, k)
    decreases m
  {
    if n < m && k > 0 {
      ChooseMono(n, m - 1, k);
    }
  }

  /** The accrual factor is at least one ray and never falls as time passes. */
  lemma CompoundedGrows(rate: int, t0: int, t1: int, t2: int)
    requires rate >= 0 && t0 <= t1 <= t2
    ensures RAY <= CompoundedInterest(rate, t1, t0) <= CompoundedInterest(rate, t2, t0)
    ensures rate == 0 || t1 == t0 ==> CompoundedInterest(rate, t1, t0) == RAY
  {
    hide CompoundedInterest, PerSecond, Squared, Cubed;
    CompoundedIsBinomial(rate, t1, t0);
    CompoundedIsBinomial(rate, t2, t0);
    BinomialGrows(t1 - t0, t2 - t0, PerSecond(rate), Squared(rate), Cubed(rate));
    if rate == 0 {
      ZeroRate();
    }
  }

  /** Every further second adds at least the simple interest of one second, and a rate below one unit
      per second never accrues. */
  lemma CompoundedGains(rate: int, t0: int, t1: int, t2: int)
    requires rate >= 0 && t0 <= t1 <= t2
    ensures CompoundedInterest(rate, t1, t0) + PerSecond(rate) * (t2 - t1) <= CompoundedInterest(rate, t2, t0)
    ensures PerSecond(rate) == 0 ==> CompoundedInterest(rate, t2, t0) == RAY
  {
    hide CompoundedInterest, PerSecond, Squared, Cubed, Binomial;
    CompoundedIsBinomial(rate, t1, t0);
    CompoundedIsBinomial(rate, t2, t0);
    BinomialGrows(t1 - t0, t2 - t0, PerSecond(rate), Squared(rate), Cubed(rate));
    if PerSecond(rate) == 0 {
      NothingPerSecond(rate, t2 - t0);
    }
  }

  lemma NothingPerSecond(rate: int, n: nat)
    requires PerSecond(rate) == 0
    ensures Binomial(n, PerSecond(rate), Squared(rate), Cubed(rate)) == RAY
  {
    hide PerSecond;
    assert Squared(rate) == 0 && Cubed(rate) == 0;
  }

  lemma ZeroRate()
    ensures PerSecond(0) == 0 && Squared(0) == 0 && Cubed(0) == 0
  {
  }

  lemma BinomialGrows(n: nat, m: nat, x: int, p2: int, p3: int)
    requires n <= m && x >= 0 && p2 >= 0 && p3 >= 0
    ensures RAY <= Binomial(n, x, p2, p3) <= Binomial(n, x, p2, p3) + x * (m - n) <= Binomial(m, x, p2, p3)
    ensures n == 0 ==> Binomial(n, x, p2, p3) == RAY
  {
    ChooseMono(n, m, 2);
    ChooseMono(n, m, 3);
    MulNonNeg(x, m - n);
    assert m * x == n * x + x * (m - n);
    MulMono(Choose(n, 2), Choose(m, 2), p2);
    MulMono(Choose(n, 3), Choose(m, 3), p3);
    MulNonNeg(n, x);
    MulNonNeg(Choose(n, 2), p2);
    MulNonNeg(Choose(n, 3), p3);
  }

  // ---------- splitting a compounding period ----------

  lemma CrossTerm(n: nat, x: nat, m2: nat, p2: nat, higher: nat)
    ensures (n * x) * (m2 * p2 + higher) >= (n * m2) * (p2 * x)
  {
    MulMono(m2 * p2, m2 * p2 + higher, n * x);
    Regroup(n, x, m2, p2);
  }

  /** The product of the two parts, each written as the unit plus its interest. */
  lemma SplitInterest(n: nat, m: nat, x: nat, p2: nat, p3: nat, n2: nat, n3: nat, m2: nat, m3: nat)
    ensures (n * x + (n2 * p2 + n3 * p3)) * (m * x + (m2 * p2 + m3 * p3))
      >= n * m * (x * x) + (n * m2 + m * n2) * (p2 * x)
  {
    var u, v := n2 * p2 + n3 * p3, m2 * p2 + m3 * p3;
    SplitFour(n * x, u, m * x, v);
    Regroup(n, x, m, x);
    CrossTerm(n, x, m2, p2, m3 * p3);
    CrossTerm(m, x, n2, p2, n3 * p3);
    MulNonNeg(u, v);
    Distribute(p2 * x, n * m2, m * n2, 0, 0);
  }

  lemma SplitFour(a: int, b: int, c: int, d: int)
    ensures (a + b) * (c + d) == a * c + a * d + c * b + b * d
  {
  }

  /** Rounding each power to the nearest ray costs at most half a unit per coefficient. */
  lemma SplitRounding(w: nat, x: int, p2: int, p3: int, nm: nat, c: nat)
    requires 2 * (w * p2) <= 2 * (x * x) + w
    requires 2 * (w * p3) <= 2 * (p2 * x) + w
    ensures 2 * (w * (nm * p2 + c * p3)) <= 2 * (nm * (x * x) + c * (p2 * x)) + w * (nm + c)
  {
    ScaleBound(nm, w * p2, x * x, w);
    ScaleBound(c, w * p3, p2 * x, w);
    Distribute(w, nm * p2, c * p3, 0, 0);
    Swap(w, nm, p2);
    Swap(w, c, p3);
    Distribute(w, nm, c, 0, 0);
  }

  lemma SplitSlack(n: nat, m: nat, n2: nat, m2: nat)
    requires 2 * n2 == n * (n - 1) && 2 * m2 == m * (m - 1)
    ensures 2 * (n * m + (n * m2 + m * n2)) == n * m * (n + m)
  {
    assert n * (2 * m2) + m * (2 * n2) == n * (m * (m - 1)) + m * (n * (n - 1));
  }

  /** The polynomial heart of the splitting law, for any unit w, rate x and rounded powers p2, p3. */
  lemma SplitProduct(w: nat, x: nat, p2: nat, p3: nat, n: nat, m: nat, n2: nat, n3: nat, m2: nat, m3: nat)
    requires 2 * (w * p2) <= 2 * (x * x) + w
    requires 2 * (w * p3) <= 2 * (p2 * x) + w
    requires 2 * n2 == n * (n - 1) && 2 * m2 == m * (m - 1)
    ensures
      var a, b := n * x + (n2 * p2 + n3 * p3), m * x + (m2 * p2 + m3 * p3);
      var h := w + a + b + (n * m * p2 + (n * m2 + m * n2) * p3);
      4 * ((w + a) * (w + b)) >= w * (4 * h - n * m * (n + m))
  {
    var a, b := n * x + (n2 * p2 + n3 * p3), m * x + (m2 * p2 + m3 * p3);
    var nm, c := n * m, n * m2 + m * n2;
    var cross := nm * p2 + c * p3;
    SplitInterest(n, m, x, p2, p3, n2, n3, m2, m3);
    SplitRounding(w, x, p2, p3, nm, c);
    SplitSlack(n, m, n2, m2);
    SplitCombine(w, a, b, cross, nm * (x * x) + c * (p2 * x), nm + c);
  }

  lemma SplitWhole(n: int, m: int, x: int, p2: int, p3: int, n2: int, n3: int, m2: int, m3: int)
    ensures (n + m) * x + (n2 + n * m + m2) * p2 + (n3 + n2 * m + n * m2 + m3) * p3
      == (n * x + (n2 * p2 + n3 * p3)) + (m * x + (m2 * p2 + m3 * p3))
        + (n * m * p2 + (n * m2 + m * n2) * p3)
  {
    var nm, u, v := n * m, n2 * m, n * m2;
    assert (n3 + u + v + m3) * p3 == n3 * p3 + u * p3 + v * p3 + m3 * p3;
    assert (v + u) * p3 == v * p3 + u * p3;
  }

  lemma SplitCombine(w: int, a: int, b: int, cross: int, exact: int, slack: int)
    requires a * b >= exact
    requires 2 * (w * cross) <= 2 * exact + w * slack
    ensures 4 * ((w + a) * (w + b)) >= w * (4 * (w + a + b + cross) - 2 * slack)
  {
    assert (w + a) * (w + b) == w * (w + a + b) + a * b;
    assert w * (4 * (w + a + b + cross) - 2 * slack)
      == 4 * (w * (w + a + b)) + 4 * (w * cross) - 2 * (w * slack);
  }

  lemma BinomialSplit(n: nat, m: nat, x: nat, p2: nat, p3: nat)
    requires 2 * (RAY * p2) <= 2 * (x * x) + RAY
    requires 2 * (RAY * p3) <= 2 * (p2 * x) + RAY
    ensures 4 * (Binomial(n, x, p2, p3) * Binomial(m, x, p2, p3))
      >= RAY * (4 * Binomial(n + m, x, p2, p3) - n * m * (n + m))
  {
    var n2, n3, m2, m3 := Choose(n, 2), Choose(n, 3), Choose(m, 2), Choose(m, 3);
    ChooseTwo(n);
    ChooseTwo(m);
    ChooseTwoSum(n, m);
    ChooseThreeSum(n, m);
    SplitProduct(RAY, x, p2, p3, n, m, n2, n3, m2, m3);
    SplitWhole(n, m, x, p2, p3, n2, n3, m2, m3);
  }

  /** The two powers of the rate per second are the nearest integers. */
  lemma RoundedPowers(rate: int)
    requires rate >= 0
    ensures PerSecond(rate) >= 0 && Squared(rate) >= 0 && Cubed(rate) >= 0
    ensures -RAY <= 2 * (RAY * Squared(rate)) - 2 * (PerSecond(rate) * PerSecond(rate)) <= RAY
    ensures -RAY <= 2 * (RAY * Cubed(rate)) - 2 * (Squared(rate) * PerSecond(rate)) <= RAY
  {
    TruncDivBrackets(rate, ONE_YEAR);
    RayMulNearest(PerSecond(rate), PerSecond(rate));
    RayMulNearest(Squared(rate), PerSecond(rate));
  }

  /** Splitting a period at t1 never loses more than n*m*(n+m)/4 base units of a ray, where n and m
      are the lengths of the two parts. */
  lemma CompoundingSplit(rate: int, t0: int, t1: int, t2: int)
    requires rate >= 0 && t0 <= t1 <= t2
    ensures
      var n, m := t1 - t0, t2 - t1;
      4 * (CompoundedInterest(rate, t1, t0) * CompoundedInterest(rate, t2, t1))
        >= RAY * (4 * CompoundedInterest(rate, t2, t0) - n * m * (n + m))
  {
    hide CompoundedInterest, Binomial, PerSecond, Squared, Cubed;
    CompoundedIsBinomial(rate, t1, t0);
    CompoundedIsBinomial(rate, t2, t1);
    CompoundedIsBinomial(rate, t2, t0);
    RoundedPowers(rate);
    BinomialSplit(t1 - t0, t2 - t1, PerSecond(rate), Squared(rate), Cubed(rate));
  }

  // ---------- how fast interest grows ----------

  /** Twice RAY times what a second's growth after m seconds falls short of the simple interest on the
      accumulated factor: rounding, and the fourth-order term the three-term form leaves out. */
  ghost function CompoundingLag(rate: int, m: nat): int {
    RAY * (m + Choose(m, 2)) + 2 * (Choose(m, 3) * (PerSecond(rate) * Cubed(rate)))
  }

  /** Over n further seconds the binomial form grows by at least n times its speed. */
  lemma BinomialSpeed(m: nat, n: nat, x: nat, p2: nat, p3: nat)
    ensures Binomial(m + n, x, p2, p3) - Binomial(m, x, p2, p3) >= n * (x + m * p2 + Choose(m, 2) * p3)
  {
    hide Choose;
    var d2, d3 := Choose(n, 2), Choose(n, 3);
    ChooseTwoSum(m, n);
    ChooseThreeSum(m, n);
    MulNonNeg(d2, p2);
    MulNonNeg(m, d2);
    MulNonNeg(m * d2 + d3, p3);
    SpeedExpand(m, n, x, p2, p3, Choose(m, 2), Choose(m, 3), d2, m * d2 + d3);
  }

  lemma SpeedExpand(m: int, n: int, x: int, p2: int, p3: int, c2: int, c3: int, d2: int, d3: int)
    ensures (m + n) * x + (c2 + m * n + d2) * p2 + (c3 + c2 * n + d3) * p3
      == (m * x + c2 * p2 + c3 * p3) + n * (x + m * p2 + c2 * p3) + (d2 * p2 + d3 * p3)
  {
    Distribute(x, m, n, 0, 0);
    Distribute(p2, c2, m * n, d2, 0);
    Distribute(p3, c3, c2 * n, d3, 0);
    Distribute(n, x, m * p2, c2 * p3, 0);
    Swap(p2, m, n);
    Swap(p3, c2, n);
    Swap(n, m, p2);
    Swap(n, c2, p3);
  }

  /** The speed is at least the simple interest on the accumulated factor, up to the lag. */
  lemma SpeedAgainstInterest(m: nat, x: nat, p2: nat, p3: nat, c2: nat, c3: nat)
    requires 2 * (x * x) <= 2 * (RAY * p2) + RAY && 2 * (p2 * x) <= 2 * (RAY * p3) + RAY
    ensures 2 * (x * (RAY + (m * x + c2 * p2 + c3 * p3)))
      <= 2 * RAY * (x + m * p2 + c2 * p3) + (RAY * (m + c2) + 2 * (c3 * (x * p3)))
  {
    MulMono(2 * (x * x), 2 * (RAY * p2) + RAY, m);
    MulMono(2 * (p2 * x), 2 * (RAY * p3) + RAY, c2);
    Distribute(x, RAY, m * x, c2 * p2, c3 * p3);
    assert x * (RAY + (m * x + c2 * p2 + c3 * p3)) == x * RAY + x * (m * x) + x * (c2 * p2) + x * (c3 * p3);
    Swap(x, m, x);
    Swap(x, c2, p2);
    Swap(x, c3, p3);
    assert m * (2 * (RAY * p2) + RAY) == 2 * (RAY * (m * p2)) + RAY * m;
    assert c2 * (2 * (RAY * p3) + RAY) == 2 * (RAY * (c2 * p3)) + RAY * c2;
    assert m * (2 * (x * x)) == 2 * (m * (x * x)) && c2 * (2 * (p2 * x)) == 2 * (c2 * (x * p2));
  }

  /** Interest on interest: from t1 on, compounding earns at least the simple interest on what it has
      reached, up to the lag of the time already passed. */
  lemma CompoundedSpeeds(rate: int, t0: int, t1: int, t2: int)
    requires rate >= 0 && t0 <= t1 <= t2
    ensures 2 * RAY * (CompoundedInterest(rate, t2, t0) - CompoundedInterest(rate, t1, t0))
      >= (t2 - t1) * (2 * (PerSecond(rate) * CompoundedInterest(rate, t1, t0)) - CompoundingLag(rate, t1 - t0))
  {
    hide CompoundedInterest, PerSecond, Squared, Cubed, RayMul, Choose;
    var m, n, x, p2, p3 := t1 - t0, t2 - t1, PerSecond(rate), Squared(rate), Cubed(rate);
    CompoundedIsBinomial(rate, t1, t0);
    CompoundedIsBinomial(rate, t2, t0);
    RoundedPowers(rate);
    BinomialSpeed(m, n, x, p2, p3);
    SpeedAgainstInterest(m, x, p2, p3, Choose(m, 2), Choose(m, 3));
    SpeedCombine(n, x + m * p2 + Choose(m, 2) * p3, x * Binomial(m, x, p2, p3), CompoundingLag(rate, m),
                 CompoundedInterest(rate, t2, t0) - CompoundedInterest(rate, t1, t0));
  }

  lemma SpeedCombine(n: nat, speed: int, interest: int, lag: int, grown: int)
    requires 2 * interest <= 2 * RAY * speed + lag && grown >= n * speed
    ensures 2 * RAY * grown >= n * (2 * interest - lag)
  {
    MulMono(2 * interest - lag, 2 * RAY * speed, n);
    Swap(n, 2 * RAY, speed);
  }

  // ---------- the binomial form against true per-second compounding ----------

  ghost function FourTerms(w: int, x: int, n: int, c2: int, c3: int): int {
    w * w * w + n * (x * (w * w)) + c2 * (x * x * w) + c3 * (x * x * x)
  }

  /** The first four binomial terms never exceed the power they truncate. */
  lemma {:induction false} FourTermsBelowPower(w: int, x: int, n: nat)
    requires w >= 0 && x >= 0
    ensures Pow(w, n) >= 0
    ensures Pow(w, n) * FourTerms(w, x, n, Choose(n, 2), Choose(n, 3)) <= w * w * w * Pow(w + x, n)
  {
    if n > 0 {
      var m := n - 1;
      FourTermsBelowPower(w, x, m);
      ChooseOne(m);
      var c2, c3 := Choose(m, 2), Choose(m, 3);
      FourTermsStep(w, x, m, c2, c3);
      MulNonNeg(w, Pow(w, m));
      FourTermsRaise(w, w + x, w * w * w, Pow(w, m), Pow(w + x, m), FourTerms(w, x, m, c2, c3),
                     FourTerms(w, x, n, m + c2, c2 + c3));
    }
  }

  lemma FourTermsRaise(w: int, y: int, w3: int, p: int, q: int, before: int, after: int)
    requires y >= 0 && p >= 0
    requires p * before <= w3 * q
    requires w * after <= y * before
    ensures (w * p) * after <= w3 * (y * q)
  {
    Swap(w, p, after);
    MulMono(w * after, y * before, p);
    Swap(p, y, before);
    MulMono(p * before, w3 * q, y);
    Swap(y, w3, q);
  }

  lemma FourTermsStep(w: int, x: int, m: nat, c2: nat, c3: nat)
    requires w >= 0 && x >= 0
    ensures w * FourTerms(w, x, m + 1, m + c2, c2 + c3) <= (w + x) * FourTerms(w, x, m, c2, c3)
  {
    var w3, xw2, x2w, x3 := w * w * w, x * (w * w), x * x * w, x * x * x;
    MulNonNeg(x, x);
    MulNonNeg(x * x, x);
    MulNonNeg(x, x3);
    MulNonNeg(c3, x * x3);
    assert w * xw2 == x * w3 && w * x2w == x * xw2 && w * x3 == x * x2w;
    FourTermsExpand(w, x, w3, xw2, x2w, x3, m, c2, c3);
  }

  /** A factor moved into a combination of four terms. */
  lemma IntoFour(k: int, a: int, m: int, b: int, c2: int, c: int, c3: int, d: int)
    ensures k * (a + m * b + c2 * c + c3 * d) == k * a + m * (k * b) + c2 * (k * c) + c3 * (k * d)
  {
    Distribute(k, a, m * b, c2 * c, c3 * d);
    Swap(k, m, b);
    Swap(k, c2, c);
    Swap(k, c3, d);
  }

  lemma FourTermsExpand(w: int, x: int, w3: int, xw2: int, x2w: int, x3: int, m: int, c2: int, c3: int)
    requires w * xw2 == x * w3 && w * x2w == x * xw2 && w * x3 == x * x2w
    ensures (w + x) * (w3 + m * xw2 + c2 * x2w + c3 * x3)
      - w * (w3 + (m + 1) * xw2 + (m + c2) * x2w + (c2 + c3) * x3) == c3 * (x * x3)
  {
    IntoFour(w, w3, m + 1, xw2, m + c2, x2w, c2 + c3, x3);
    IntoFour(w, w3, m, xw2, c2, x2w, c3, x3);
    IntoFour(x, w3, m, xw2, c2, x2w, c3, x3);
    Distribute(w3 + m * xw2 + c2 * x2w + c3 * x3, w, x, 0, 0);
    Distribute(x * w3, m, 1, 0, 0);
    Distribute(x * xw2, m, c2, 0, 0);
    Distribute(x * x2w, c2, c3, 0, 0);
  }

  lemma SquareRounding(w: int, x: int, p2: int)
    requires w > 0 && x >= 0
    requires 2 * (w * p2) <= 2 * (x * x) + w
    ensures 2 * (w * w * p2) <= 2 * (x * x * w) + w * w
    ensures x * (2 * (w * p2)) <= 2 * (x * x * x) + w * x
  {
    MulMono(2 * (w * p2), 2 * (x * x) + w, w);
    MulMono(2 * (w * p2), 2 * (x * x) + w, x);
    assert w * (2 * (w * p2)) == 2 * (w * w * p2);
  }

  lemma CubeRounding(w: int, x: int, p2: int, p3: int)
    requires w > 0 && x >= 0
    requires 2 * (w * p2) <= 2 * (x * x) + w
    requires 2 * (w * p3) <= 2 * (p2 * x) + w
    ensures 2 * (w * w * p3) <= 2 * (x * x * x) + w * (w + x)
  {
    SquareRounding(w, x, p2);
    ScaleBound(w, w * p3, p2 * x, w);
    Swap(w, w, p3);
    Swap(w, p2, x);
    Swap(x, w, p2);
    Distribute(w, w, x, 0, 0);
  }

  /** The accrual factor against its unrounded powers, scaled by the square of the unit. */
  lemma RoundedPowersBelow(w: int, x: int, p2: int, p3: int, n: nat, c2: nat, c3: nat)
    requires w > 0 && x >= 0
    requires 2 * (w * p2) <= 2 * (x * x) + w
    requires 2 * (w * p3) <= 2 * (p2 * x) + w
    ensures 2 * (w * w * (w + n * x + c2 * p2 + c3 * p3))
      <= 2 * FourTerms(w, x, n, c2, c3) + (c2 * (w * w) + c3 * (w * (w + x)))
  {
    SquareRounding(w, x, p2);
    CubeRounding(w, x, p2, p3);
    var ww, xx, xxx := w * w, x * x * w, x * x * x;
    IntoFour(ww, w, n, x, c2, p2, c3, p3);
    Swap(ww, x, 1);
    ScaleBound(c2, ww * p2, xx, ww);
    ScaleBound(c3, ww * p3, xxx, w * (w + x));
  }

  lemma ScaleBound(c: nat, a: int, b: int, slack: int)
    requires 2 * a <= 2 * b + slack
    ensures 2 * (c * a) <= 2 * (c * b) + c * slack
  {
    MulMono(2 * a, 2 * b + slack, c);
    Distribute(c, a, a, 0, 0);
    Distribute(c, b, b, slack, 0);
  }

  lemma CancelPositive(c: int, a: int, b: int)
    requires c > 0 && c * a <= c * b
    ensures a <= b
  {
    if a > b {
      MulMono(b + 1, a, c);
    }
  }

  lemma OverchargeBound(w: int, ww: int, f: int, slack: int, power: int, terms: int, q: int)
    requires w > 0 && q >= 0 && ww == w * w
    requires 2 * (ww * f) <= 2 * terms + w * slack
    requires (w * q) * terms <= (w * w * w) * power
    ensures 2 * ((w * q) * f) <= 2 * (w * power) + q * slack
  {
    var wq := w * q;
    MulNonNeg(w, q);
    ScaleBound(wq, ww * f, terms, w * slack);
    Swap(wq, ww, f);
    Regroup(w, q, w, slack);
    Swap(slack, q, 1);
    MulAssociates(w, w, power);
    Distribute(ww, w * power, w * power, q * slack, 0);
    Distribute(ww, wq * f, wq * f, 0, 0);
    CancelPositive(ww, 2 * (wq * f), 2 * (w * power) + q * slack);
  }

  lemma MulAssociates(a: int, b: int, c: int)
    ensures (a * b * b) * c == (a * b) * (b * c)
  {
  }

  lemma PowStep(w: int, n: nat)
    requires n > 0
    ensures Pow(w, n) == w * Pow(w, n - 1)
  {
  }

  lemma Overcharge(w: int, x: int, p2: int, p3: int, n: nat, c2: nat, c3: nat, power: int, q: int)
    requires w > 0 && x >= 0 && q >= 0
    requires 2 * (w * p2) <= 2 * (x * x) + w
    requires 2 * (w * p3) <= 2 * (p2 * x) + w
    requires (w * q) * FourTerms(w, x, n, c2, c3) <= (w * w * w) * power
    ensures 2 * ((w * q) * (w + n * x + c2 * p2 + c3 * p3)) <= 2 * (w * power) + q * (w * c2 + c3 * (w + x))
  {
    hide FourTerms;
    RoundedPowersBelow(w, x, p2, p3, n, c2, c3);
    Swap(c3, w, w + x);
    Swap(c2, w, w);
    Distribute(w, w * c2, c3 * (w + x), 0, 0);
    OverchargeBound(w, w * w, w + n * x + c2 * p2 + c3 * p3, w * c2 + c3 * (w + x), power, FourTerms(w, x, n, c2,
        c3), q);
  }

  /** The three-term form never overcharges true per-second compounding (RAY + x)^n by more than its
      own rounding, C(n,2)/2 + C(n,3) * (RAY + x) / (2 * RAY); both sides are multiplied out. */
  lemma NeverOvercharges(rate: int, t0: int, t: int)
    requires rate >= 0 && t0 < t
    ensures
      var n, x := t - t0, PerSecond(rate);
      2 * (Pow(RAY, n) * CompoundedInterest(rate, t, t0))
        <= 2 * (RAY * Pow(RAY + x, n)) + Pow(RAY, n - 1) * (RAY * Choose(n, 2) + Choose(n, 3) * (RAY + x))
  {
    hide CompoundedInterest, PerSecond, Squared, Cubed, FourTerms, Pow, Choose;
    var n, x := t - t0, PerSecond(rate);
    CompoundedIsBinomial(rate, t, t0);
    RoundedPowers(rate);
    PowStep(RAY, n);
    FourTermsBelowPower(RAY, x, n);
    FourTermsBelowPower(RAY, x, n - 1);
    Overcharge(RAY, x, Squared(rate), Cubed(rate), n, Choose(n, 2), Choose(n, 3), Pow(RAY + x, n), Pow(RAY, n - 1));
  }

  // ---------- linear against compounded ----------

  lemma TruncDivFloor(a: int, b: int, q: int)
    requires a >= 0 && b > 0 && a < (q + 1) * b
    ensures TruncDiv(a, b) <= q
  {
    TruncDivBrackets(a, b);
    QuotientOrder(TruncDiv(a, b), q, b, a, a);
  }

  lemma LinearInterestBelow(rate: int, n: nat)
    requires rate >= 0 && n > 0
    ensures TruncDiv(rate * n, ONE_YEAR) <= n * PerSecond(rate) + n - 1
  {
    var x := PerSecond(rate);
    MulNonNeg(rate, n);
    MulMono(rate + 1, (x + 1) * ONE_YEAR, n);
    assert (x + 1) * ONE_YEAR * n == (n * x + n) * ONE_YEAR;
    TruncDivFloor(rate * n, ONE_YEAR, n * x + n - 1);
  }

  /** Depositors' linear accrual exceeds the borrowers' compounded accrual at the same rate by less
      than one base unit per elapsed second. */
  lemma LinearBelowCompounded(rate: int, t0: int, t: int)
    requires rate >= 0 && t0 < t
    ensures LinearInterest(rate, t, t0) <= CompoundedInterest(rate, t, t0) + (t - t0) - 1
  {
    hide CompoundedInterest, TruncDiv, PerSecond, Squared, Cubed;
    CompoundedIsBinomial(rate, t, t0);
    MulNonNeg(Choose(t - t0, 2), Squared(rate));
    MulNonNeg(Choose(t - t0, 3), Cubed(rate));
    LinearInterestBelow(rate, t - t0);
  }

  /** Two linear accruals multiply to at least the one-shot accrual, up to one base unit. */
  lemma LinearSplit(rate: int, t0: int, t1: int, t2: int)
    requires rate >= 0 && t0 <= t1 <= t2
    ensures LinearInterest(rate, t1, t0) * LinearInterest(rate, t2, t1)
      >= RAY * (LinearInterest(rate, t2, t0) - 1)
  {
    var a, b := rate * (t1 - t0), rate * (t2 - t1);
    MulNonNeg(rate, t1 - t0);
    MulNonNeg(rate, t2 - t1);
    assert rate * (t2 - t0) == a + b;
    var p, q := TruncDiv(a, ONE_YEAR), TruncDiv(b, ONE_YEAR);
    TruncDivFloor(a + b, ONE_YEAR, p + q + 1);
    MulNonNeg(p, q);
    assert (p + RAY) * (q + RAY) == p * q + RAY * (p + q) + RAY * RAY;
  }
}
