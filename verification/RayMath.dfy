/** Ray, wad and percentage fixed-point arithmetic over unbounded integers.

    The scenario runs configure the big-number library to keep no decimals and to round
    towards zero, so every division below truncates. */
module RayMath {
  const RAY: int := 1_000_000_000_000_000_000_000_000_000
  const HALF_RAY: int := 500_000_000_000_000_000_000_000_000
  const WAD_RAY_RATIO: int := 1_000_000_000
  const PERCENTAGE_FACTOR: int := 10_000
  const HALF_PERCENTAGE: int := 5_000
  const ONE_YEAR: int := 31_536_000
  const MAX_UINT_AMOUNT: int :=
    115792089237316195423570985008687907853269984665640564039457584007913129639935

  /** Division rounding towards zero, whatever the signs of the operands. */
  function TruncDiv(a: int, b: int): int
    requires b != 0
  {
    if a >= 0 then
      if b > 0 then a / b else -(a / -b)
    else
      if b > 0 then -((-a) / b) else (-a) / -b
  }

  function RayMul(a: int, b: int): int {
    TruncDiv(HALF_RAY + a * b, RAY)
  }

  function RayDiv(a: int, b: int): int
    requires b != 0
  {
    TruncDiv(TruncDiv(b, 2) + a * RAY, b)
  }

  function WadToRay(a: int): int {
    a * WAD_RAY_RATIO
  }

  /** Share of an amount in basis points, rounded half up. */
  function PercentMul(a: int, bps: int): int {
    TruncDiv(HALF_PERCENTAGE + a * bps, PERCENTAGE_FACTOR)
  }

  // ---------- products and quotients of integers ----------

  lemma MulMono(a: int, b: int, c: int)
    requires a <= b && c >= 0
    ensures a * c <= b * c
    ensures c * a <= c * b
  {
  }

  lemma MulNonNeg(a: int, b: int)
    requires a >= 0 && b >= 0
    ensures a * b >= 0
  {
  }

  lemma Swap(a: int, b: int, c: int)
    ensures a * (b * c) == b * (a * c)
    ensures (a * b) * c == b * (a * c)
  {
  }

  lemma Regroup(a: int, b: int, c: int, d: int)
    ensures (a * b) * (c * d) == (a * c) * (d * b)
  {
  }

  lemma Distribute(k: int, a: int, b: int, c: int, d: int)
    ensures k * (a + b + c + d) == k * a + k * b + k * c + k * d
  {
  }

  /** Two integers whose b-wide intervals meet in order are in order. */
  lemma QuotientOrder(q: int, s: int, b: int, x: int, y: int)
    requires b > 0
    requires q * b <= x <= y < (s + 1) * b
    ensures q <= s
  {
    if q >= s + 1 {
      MulMono(s + 1, q, b);
    }
  }

  // ---------- rounding ----------

  /** Truncation brackets the dividend from the side of zero. */
  lemma TruncDivBrackets(a: int, b: int)
    requires b > 0
    ensures a >= 0 ==> TruncDiv(a, b) >= 0 && TruncDiv(a, b) * b <= a < (TruncDiv(a, b) + 1) * b
    ensures a <= 0 ==> TruncDiv(a, b) <= 0 && (TruncDiv(a, b) - 1) * b < a <= TruncDiv(a, b) * b
  {
    QuotientBrackets(if a >= 0 then a else -a, b);
  }

  lemma QuotientBrackets(a: nat, b: int)
    requires b > 0
    ensures a / b >= 0 && a / b * b <= a < a / b * b + b
  {
    assert a == a / b * b + a % b;
  }

  /** The percentage share rounds half up. */
  lemma PercentMulNearest(a: int, bps: int)
    requires a >= 0 && bps >= 0
    ensures PercentMul(a, bps) >= 0
    ensures PercentMul(a, bps) * PERCENTAGE_FACTOR <= a * bps + HALF_PERCENTAGE
      < (PercentMul(a, bps) + 1) * PERCENTAGE_FACTOR
  {
    MulNonNeg(a, bps);
    TruncDivBrackets(HALF_PERCENTAGE + a * bps, PERCENTAGE_FACTOR);
  }

  // ---------- ray product ----------

  /** The ray product rounds half up. */
  lemma RayMulNearest(a: int, b: int)
    requires a >= 0 && b >= 0
    ensures a * b >= 0 && RayMul(a, b) >= 0
    ensures RayMul(a, b) * RAY <= a * b + HALF_RAY < (RayMul(a, b) + 1) * RAY
  {
    MulNonNeg(a, b);
    TruncDivBrackets(HALF_RAY + a * b, RAY);
  }

  lemma RayMulOne(a: int)
    requires a >= 0
    ensures RayMul(RAY, a) == a == RayMul(a, RAY)
  {
  }

  lemma RayMulMono(a: int, a': int, b: int, b': int)
    requires 0 <= a <= a' && 0 <= b <= b'
    ensures RayMul(a, b) <= RayMul(a', b')
  {
    RayMulNearest(a, b);
    RayMulNearest(a', b');
    MulMono(a, a', b);
    MulMono(b, b', a');
  }

  /** Multiplying by a factor of at least one ray never shrinks a balance. */
  lemma RayMulGrows(factor: int, a: int)
    requires factor >= RAY && a >= 0
    ensures RayMul(factor, a) >= a
    ensures RayMul(a, factor) >= a
  {
    RayMulOne(a);
    RayMulMono(RAY, factor, a, a);
    RayMulMono(a, a, RAY, factor);
  }

  /** Raising the factor by k raises the product by at least the whole units of a * k. */
  lemma RayMulGains(a: int, factor: int, k: int)
    requires a >= 0 && factor >= 0 && k >= 0
    ensures a * k >= 0
    ensures RayMul(a, factor) + a * k / RAY <= RayMul(a, factor + k)
  {
    hide RayMul;
    MulNonNeg(a, k);
    RayMulNearest(a, factor);
    RayMulNearest(a, factor + k);
    QuotientBrackets(a * k, RAY);
    Distribute(a, factor, k, 0, 0);
  }

  /** Raising the factor of an index of at least one ray raises the product at least as much. */
  lemma RayMulFactorGains(factor: int, k: int, index: int)
    requires factor >= 0 && k >= 0 && index >= RAY
    ensures RayMul(factor, index) + k <= RayMul(factor + k, index)
  {
    hide RayMul;
    RayMulNearest(factor, index);
    RayMulNearest(factor + k, index);
    MulMono(RAY, index, k);
    Distribute(index, factor, k, 0, 0);
    var p, r, q, s := factor * index, k * index, RayMul(factor, index), RayMul(factor + k, index);
    assert (factor + k) * index == p + r;
    Whole(p, r, k, q, s);
  }

  lemma Whole(p: int, r: int, k: int, q: int, s: int)
    requires q * RAY <= p + HALF_RAY && p + r + HALF_RAY < (s + 1) * RAY && RAY * k <= r
    ensures q + k <= s
  {
  }

  // ---------- ray quotient ----------

  /** The ray quotient rounds half up, whether the divisor is even or odd. */
  lemma RayDivNearest(a: int, b: int)
    requires a >= 0 && b > 0
    ensures RayDiv(a, b) >= 0
    ensures 2 * (RayDiv(a, b) * b) <= 2 * (a * RAY) + b < 2 * ((RayDiv(a, b) + 1) * b)
  {
    TruncDivBrackets(b, 2);
    TruncDivBrackets(TruncDiv(b, 2) + a * RAY, b);
    StepDown(RayDiv(a, b), b);
  }

  /** The quotient of a number by itself is exactly one ray. */
  lemma RayDivSelf(b: int)
    requires b > 0
    ensures RayDiv(b, b) == RAY
  {
    hide RayDiv;
    var r := RayDiv(b, b);
    RayDivNearest(b, b);
    QuotientOrder(2 * RAY, 2 * r + 1, b, 2 * RAY * b, 2 * (b * RAY) + b);
    QuotientOrder(2 * r, 2 * RAY + 1, b, 2 * r * b, 2 * (b * RAY) + b);
  }

  lemma RayDivZero(b: int)
    requires b > 0
    ensures RayDiv(0, b) == 0
  {
    var r := RayDiv(0, b);
    RayDivNearest(0, b);
    if r >= 1 {
      MulMono(1, r, b);
    }
  }

  lemma HalfUpOrder(q: int, l: int, n: int, q': int, l': int, n': int)
    requires l > 0 && l' > 0 && n * l' <= n' * l
    requires 2 * (q * l) <= 2 * n + l
    requires 2 * n' + l' < 2 * ((q' + 1) * l')
    ensures q <= q'
  {
    assert (2 * q - 1) * l == 2 * (q * l) - l;
    assert (2 * q' + 1) * l' == 2 * ((q' + 1) * l') - l';
    CrossOrder(2 * q - 1, l, 2 * n, 2 * q' + 1, l', 2 * n');
  }

  lemma CrossOrder(k: int, l: int, n: int, k': int, l': int, n': int)
    requires l > 0 && l' > 0 && n * l' <= n' * l
    requires k * l <= n && n' < k' * l'
    ensures k < k'
  {
    MulMono(k * l, n, l');
    MulMono(n' + 1, k' * l', l);
    var m := l * l';
    assert k * l * l' == k * m && k' * l' * l == k' * m;
    assert k * m < k' * m;
    if k' <= k {
      MulMono(k', k, m);
      assert false;
    }
  }

  /** The quotient grows with the dividend and shrinks as the divisor grows. */
  lemma RayDivMono(a: int, b: int, a': int, b': int)
    requires 0 <= a <= a' && 0 < b' <= b
    ensures RayDiv(a, b) <= RayDiv(a', b')
  {
    hide RayDiv;
    RayDivNearest(a, b);
    RayDivNearest(a', b');
    MulMono(a * RAY, a' * RAY, b');
    MulMono(b', b, a' * RAY);
    HalfUpOrder(RayDiv(a, b), b, a * RAY, RayDiv(a', b'), b', a' * RAY);
  }

  // ---------- round trips ----------

  /** Scaling is a left-exact round trip: a scaled balance read at an index of at least one ray
      and divided by that index again is unchanged. */
  lemma ScaledRoundTrip(s: int, i: int)
    requires s >= 0 && i >= RAY
    ensures RayDiv(RayMul(s, i), i) == s
  {
    hide RayDiv, RayMul;
    var m := RayMul(s, i);
    RayMulNearest(s, i);
    RayDivNearest(m, i);
    RayMulOne(s);
    RoundTripArithmetic(s, i, m, RayDiv(m, i));
  }

  lemma RoundTripArithmetic(s: int, i: int, m: int, q: int)
    requires i >= RAY && (i == RAY ==> m == s)
    requires m * RAY <= s * i + HALF_RAY < (m + 1) * RAY
    requires 2 * (q * i) <= 2 * (m * RAY) + i < 2 * ((q + 1) * i)
    ensures q == s
  {
    StepDown(q, i);
    StepDown(s, i);
    SameInterval(q, s, i, 2 * (m * RAY) + i);
  }

  lemma StepDown(q: int, i: int)
    ensures (q + 1) * i == q * i + i
  {
  }

  /** Two multiples whose doubled intervals share a point are the same. */
  lemma SameInterval(q: int, s: int, i: int, x: int)
    requires i > 0
    requires 2 * (q * i) <= x < 2 * (q * i) + 2 * i && 2 * (s * i) <= x < 2 * (s * i) + 2 * i
    ensures q == s
  {
    StepDown(q, i);
    StepDown(s, i);
    if q < s {
      MulMono(q + 1, s, i);
    } else if s < q {
      MulMono(s + 1, q, i);
    }
  }

  /** The other way round the loss is bounded by half a step of each rounding. */
  lemma AmountRoundTrip(a: int, i: int)
    requires a >= 0 && i > 0
    ensures -(i + RAY) <= 2 * RAY * (RayMul(RayDiv(a, i), i) - a) <= i + RAY
  {
    hide RayDiv, RayMul;
    var d := RayDiv(a, i);
    RayDivNearest(a, i);
    RayMulNearest(d, i);
    StepDown(d, i);
  }

  /** Adding a scaled amount: the balance read after scaling an amount in differs from the balance
      read before plus that amount by less than index / (2 * RAY) + 1. */
  lemma ScaledAddition(s: int, a: int, i: int)
    requires s >= 0 && a >= 0 && i > 0
    ensures -(i + 2 * RAY) < 2 * RAY * (RayMul(s + RayDiv(a, i), i) - (RayMul(s, i) + a)) < i + 2 * RAY
  {
    hide RayDiv, RayMul;
    var d := RayDiv(a, i);
    RayDivNearest(a, i);
    RayMulNearest(s, i);
    ReadingOfSum(s, d, i);
    StepDown(d, i);
    MovedBalance(s * i, d * i, a, i, RayMul(s, i), RayMul(s + d, i));
  }

  lemma ReadingOfSum(s: int, d: int, i: int)
    requires s >= 0 && d >= 0 && i >= 0
    ensures RayMul(s + d, i) * RAY <= s * i + d * i + HALF_RAY < (RayMul(s + d, i) + 1) * RAY
  {
    hide RayMul;
    RayMulNearest(s + d, i);
    Distribute(i, s, d, 0, 0);
  }

  /** The linear part of moving a scaled amount: an exact product x, a moved product y within half a
      divisor of the amount, and the two rounded readings. */
  lemma MovedBalance(x: int, y: int, a: int, i: int, read: int, moved: int)
    requires 2 * y <= 2 * (a * RAY) + i < 2 * y + 2 * i
    requires read * RAY <= x + HALF_RAY < (read + 1) * RAY
    requires moved * RAY <= x + y + HALF_RAY < (moved + 1) * RAY
    ensures -(i + 2 * RAY) < 2 * RAY * (moved - (read + a)) < i + 2 * RAY
  {
  }

  /** Removing a scaled amount: the same bound on the other side. */
  lemma ScaledSubtraction(s: int, a: int, i: int)
    requires a >= 0 && i > 0 && RayDiv(a, i) <= s
    ensures -(i + 2 * RAY) < 2 * RAY * (RayMul(s - RayDiv(a, i), i) - (RayMul(s, i) - a)) < i + 2 * RAY
  {
    hide RayDiv, RayMul;
    var d := RayDiv(a, i);
    RayDivNearest(a, i);
    RayMulNearest(s - d, i);
    ReadingOfSum(s - d, d, i);
    StepDown(d, i);
    MovedBalance((s - d) * i, d * i, a, i, RayMul(s - d, i), RayMul(s, i));
  }
}
