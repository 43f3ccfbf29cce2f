/**
 Fee arithmetic. The source computes with JS numbers and `Math.round`; here a configured factor is a
 ratio of naturals and rounding is half-up, which is what `Math.round` does on non-negative numbers.
 */
module GasFees {
  import opened Arithmetic
  import opened StoredTransactions

  datatype Ratio = Ratio(num: nat, den: nat)

  type Factor = r: Ratio | r.den > 0 witness Ratio(1, 1)

  /** `Math.round(x * f)` */
  function RoundedProduct(x: nat, f: Factor): nat {
    (2 * (x * f.num) + f.den) / (2 * f.den)
  }

  function AtMost(x: nat, bound: nat): nat {
    if x > bound then bound else x
  }

  function RaisedTo(x: nat, floor: nat): nat {
    if x < floor then floor else x
  }

  /** The pair `_resolveNewGasPrice` returns. */
  function ResolvedFees(f: Factor, cap: nat, prev: Fees, minPriority: nat, minMax: nat): Fees {
    var max := AtMost(RaisedTo(RoundedProduct(prev.max, f), minMax), cap);
    Fees(max, AtMost(RaisedTo(RoundedProduct(prev.priority, f), minPriority), max))
  }

  /** Its third result. */
  predicate MaxGasPriceReached(f: Factor, cap: nat, prev: Fees, minMax: nat) {
    RaisedTo(RoundedProduct(prev.max, f), minMax) > cap
  }

  /** The validity rule of EIP-1559 with the relay's own cap on top. */
  predicate ValidFees(fees: Fees, cap: nat) {
    fees.priority <= fees.max <= cap
  }

  // ---------- Rounding ----------

  /** Rounding half-up characterised: the result is the one integer within half of the exact product. */
  lemma RoundedProductIsNearest(x: nat, f: Factor, r: nat)
    ensures r == RoundedProduct(x, f) <==> IsNearest(x, f, r)
  {
    var n, d, q := 2 * (x * f.num) + f.den, 2 * f.den, RoundedProduct(x, f);
    Euclid(n, d);
    Double(f.den, q);
    if 2 * (f.den * r) <= n < 2 * (f.den * r) + d {
      Double(f.den, r);
      CancelFactor(d, r, q + 1);
      CancelFactor(d, q, r + 1);
    }
  }

  /** `r` is `x * f` rounded half-up: `2 * x * f` is from `2 * r - 1` up to, but not, `2 * r + 1`. */
  predicate IsNearest(x: nat, f: Factor, r: nat) {
    2 * (f.den * r) <= 2 * (x * f.num) + f.den < 2 * (f.den * r) + 2 * f.den
  }

  lemma NearestIsRounded(x: nat, f: Factor)
    ensures forall r: nat :: IsNearest(x, f, r) <==> r == RoundedProduct(x, f)
  {
    forall r: nat
      ensures IsNearest(x, f, r) <==> r == RoundedProduct(x, f)
    {
      RoundedProductIsNearest(x, f, r);
    }
  }

  lemma Euclid(n: nat, d: nat)
    requires d > 0
    ensures d * (n / d) <= n < d * (n / d) + d
  {
    assert n == d * (n / d) + n % d;
  }

  lemma Double(d: nat, x: int)
    ensures 2 * d * x == 2 * (d * x)
    ensures 2 * d * (x + 1) == 2 * (d * x) + 2 * d
    ensures d * (x + 1) == d * x + d
  {
  }

  lemma Difference(x: nat, a: nat, b: nat)
    requires b <= a
    ensures x * (a - b) == x * a - x * b
    ensures x * b == b * x
  {
  }

  lemma RoundingGrowth(x: nat, f: Factor)
    requires f.num >= f.den
    ensures RoundedProduct(x, f) >= x
    ensures RoundedProduct(x, f) > x <==> 2 * (x * (f.num - f.den)) >= f.den
  {
    var r := RoundedProduct(x, f);
    RoundedProductIsNearest(x, f, r);
    Difference(x, f.num, f.den);
    GrowthFromBounds(x, f.den, r, x * (f.num - f.den));
  }

  lemma GrowthFromBounds(x: nat, d: nat, r: nat, excess: nat)
    requires d > 0 && 2 * (d * r) <= 2 * (d * x + excess) + d < 2 * (d * r) + 2 * d
    ensures r >= x
    ensures r > x <==> 2 * excess >= d
  {
    Double(d, x);
    Double(d, r);
    CancelFactor(d, x, r + 1);
    if 2 * excess >= d {
      CancelFactor(d, x + 1, r + 1);
    } else {
      CancelFactor(d, r, x + 1);
    }
  }

  // ---------- One boost ----------

  /** Whatever the inputs, the new pair is valid and honours both network minimums as far as the cap allows. */
  lemma ResolvedFeesAreValid(f: Factor, cap: nat, prev: Fees, minPriority: nat, minMax: nat)
    ensures var resolved := ResolvedFees(f, cap, prev, minPriority, minMax);
      && ValidFees(resolved, cap)
      && (minMax <= resolved.max || resolved.max == cap)
      && (minPriority <= resolved.priority || resolved.priority == resolved.max)
      && (MaxGasPriceReached(f, cap, prev, minMax) ==> resolved.max == cap)
  {
  }

  /**
   Both new fees exactly: the nearest integer to the old one times the factor, raised to the minimum, and cut at the
   cap for the maximum fee and at the new maximum for the priority fee.
   */
  lemma ResolvedFeesExactly(f: Factor, cap: nat, prev: Fees, minPriority: nat, minMax: nat, max: nat, priority: nat)
    requires IsNearest(prev.max, f, max) && IsNearest(prev.priority, f, priority)
    ensures var resolved := ResolvedFees(f, cap, prev, minPriority, minMax);
      && IsRaisedAndCut(max, minMax, cap, resolved.max)
      && IsRaisedAndCut(priority, minPriority, resolved.max, resolved.priority)
      && (MaxGasPriceReached(f, cap, prev, minMax) <==> max > cap || minMax > cap)
  {
    RoundedProductIsNearest(prev.max, f, max);
    RoundedProductIsNearest(prev.priority, f, priority);
  }

  /** `fee` is the greater of `rounded` and `minimum`, or `limit` where that is exceeded. */
  predicate IsRaisedAndCut(rounded: nat, minimum: nat, limit: nat, fee: nat) {
    && fee <= limit
    && (fee < limit ==> rounded <= fee && minimum <= fee && (fee == rounded || fee == minimum))
    && (fee == limit ==> limit <= rounded || limit <= minimum)
  }

  /** A retry factor of at least one never lowers a valid pair. */
  lemma ResolvedFeesNeverDrop(f: Factor, cap: nat, prev: Fees, minPriority: nat, minMax: nat)
    requires f.num >= f.den && ValidFees(prev, cap)
    ensures ResolvedFees(f, cap, prev, minPriority, minMax).AtLeast(prev)
  {
    RoundingGrowth(prev.max, f);
    RoundingGrowth(prev.priority, f);
  }

  /** Exactly when one boost raises the maximum fee. */
  lemma BoostRaisesMaxFee(f: Factor, cap: nat, prev: Fees, minPriority: nat, minMax: nat)
    requires f.num >= f.den && ValidFees(prev, cap)
    ensures ResolvedFees(f, cap, prev, minPriority, minMax).max > prev.max
            <==> prev.max < cap && (minMax > prev.max || 2 * (prev.max * (f.num - f.den)) >= f.den)
  {
    RoundingGrowth(prev.max, f);
  }

  /** Exactly when one boost raises the priority fee: there is room below the new maximum, and something raises it. */
  lemma BoostRaisesPriorityFee(f: Factor, cap: nat, prev: Fees, minPriority: nat, minMax: nat)
    requires f.num >= f.den && ValidFees(prev, cap)
    ensures ResolvedFees(f, cap, prev, minPriority, minMax).priority > prev.priority <==>
      && (minPriority > prev.priority || 2 * (prev.priority * (f.num - f.den)) >= f.den)
      && (prev.priority < prev.max
          || (prev.max < cap && (minMax > prev.max || 2 * (prev.max * (f.num - f.den)) >= f.den)))
  {
    RoundingGrowth(prev.priority, f);
    BoostRaisesMaxFee(f, cap, prev, minPriority, minMax);
    ResolvedFeesNeverDrop(f, cap, prev, minPriority, minMax);
  }

  // ---------- Repeated boosts ----------

  function Boosted(f: Factor, cap: nat, prev: Fees, minPriority: nat, minMax: nat, times: nat): Fees {
    if times == 0 then prev
    else ResolvedFees(f, cap, Boosted(f, cap, prev, minPriority, minMax, times - 1), minPriority, minMax)
  }

  /** Under fixed network minimums, successive boosts give a non-decreasing sequence of valid pairs. */
  lemma {:induction false} BoostsAreMonotone(
    f: Factor, cap: nat, prev: Fees, minPriority: nat, minMax: nat, i: nat, j: nat)
    requires f.num >= f.den && ValidFees(prev, cap) && i <= j
    ensures ValidFees(Boosted(f, cap, prev, minPriority, minMax, j), cap)
    ensures Boosted(f, cap, prev, minPriority, minMax, j).AtLeast(Boosted(f, cap, prev, minPriority, minMax, i))
    decreases j
  {
    if j > 0 {
      BoostsAreMonotone(f, cap, prev, minPriority, minMax, if i < j then i else j - 1, j - 1);
      var last := Boosted(f, cap, prev, minPriority, minMax, j - 1);
      ResolvedFeesAreValid(f, cap, last, minPriority, minMax);
      ResolvedFeesNeverDrop(f, cap, last, minPriority, minMax);
    }
  }

  /** If the factor can move a fee, it can move every higher one. */
  lemma HigherFeesMoveToo(f: Factor, cap: nat, low: Fees, high: Fees, minPriority: nat, minMax: nat)
    requires f.num >= f.den && ValidFees(high, cap) && low.max <= high.max
    requires 2 * (low.max * (f.num - f.den)) >= f.den
    ensures var max := ResolvedFees(f, cap, high, minPriority, minMax).max;
      high.max <= max <= cap && (max == cap || max >= high.max + 1)
  {
    ProductsAreOrdered(low.max, high.max, f.num - f.den);
    BoostRaisesMaxFee(f, cap, high, minPriority, minMax);
    ResolvedFeesNeverDrop(f, cap, high, minPriority, minMax);
  }

  /** A fee large enough for the factor to move it reaches the cap within cap - prev.max boosts. */
  lemma {:induction false} BoostsReachTheCap(
    f: Factor, cap: nat, prev: Fees, minPriority: nat, minMax: nat, times: nat)
    requires f.num >= f.den && ValidFees(prev, cap)
    requires 2 * (prev.max * (f.num - f.den)) >= f.den
    ensures var max := Boosted(f, cap, prev, minPriority, minMax, times).max;
      && (max == cap || max >= prev.max + times)
      && (times >= cap - prev.max ==> max == cap)
  {
    if times > 0 {
      BoostsReachTheCap(f, cap, prev, minPriority, minMax, times - 1);
      BoostsAreMonotone(f, cap, prev, minPriority, minMax, 0, times - 1);
      HigherFeesMoveToo(f, cap, prev, Boosted(f, cap, prev, minPriority, minMax, times - 1), minPriority, minMax);
    }
  }

  /** A fee too small for the factor, with no network minimum above it, is never raised by any number of boosts. */
  lemma {:induction false} SmallFeesNeverMove(
    f: Factor, cap: nat, prev: Fees, minPriority: nat, minMax: nat, times: nat)
    requires f.num >= f.den && ValidFees(prev, cap)
    requires 2 * (prev.max * (f.num - f.den)) < f.den && minMax <= prev.max
    ensures Boosted(f, cap, prev, minPriority, minMax, times).max == prev.max
  {
    if times > 0 {
      SmallFeesNeverMove(f, cap, prev, minPriority, minMax, times - 1);
      BoostsAreMonotone(f, cap, prev, minPriority, minMax, 0, times - 1);
      var last := Boosted(f, cap, prev, minPriority, minMax, times - 1);
      BoostRaisesMaxFee(f, cap, last, minPriority, minMax);
      ResolvedFeesNeverDrop(f, cap, last, minPriority, minMax);
    }
  }

  // ---------- How fast boosts reach the cap ----------

  /** Twice what the factor adds to a fee, less the denominator: not negative exactly when the factor moves the fee. */
  function Excess(f: Factor, x: nat): int
    requires f.num >= f.den
  {
    2 * (x * (f.num - f.den)) - f.den
  }

  /** The excess of a rounded product is at least the excess of the fee, times the factor. */
  lemma ExcessGrows(f: Factor, x: nat)
    requires f.num >= f.den
    ensures f.den * Excess(f, RoundedProduct(x, f)) >= f.num * Excess(f, x)
  {
    var r := RoundedProduct(x, f);
    RoundedProductIsNearest(x, f, r);
    ProductsAreOrdered(2 * (x * f.num) - f.den + 1, 2 * (f.den * r), f.num - f.den);
    ExcessAlgebra(x, r, f.num, f.den);
  }

  lemma ExcessAlgebra(x: nat, r: nat, num: nat, den: nat)
    requires num >= den && (2 * (x * num) - den + 1) * (num - den) <= 2 * (den * r) * (num - den)
    ensures den * (2 * (r * (num - den)) - den) >= num * (2 * (x * (num - den)) - den)
  {
    var d := num - den;
    assert den * (2 * (r * d) - den) == 2 * (den * r) * d - den * den;
    assert num * (2 * (x * d) - den) == 2 * (x * num) * d - num * den;
    assert (2 * (x * num) - den + 1) * d == 2 * (x * num) * d - den * d + d;
    assert num * den == d * den + den * den;
  }

  lemma ExcessIsMonotone(f: Factor, x: nat, y: nat)
    requires f.num >= f.den && x <= y
    ensures Excess(f, x) <= Excess(f, y)
  {
    ProductsAreOrdered(x, y, f.num - f.den);
  }

  /** Until it reaches the cap, the maximum fee grows geometrically: its excess is multiplied by the factor. */
  lemma {:induction false} BoostsGrowGeometrically(
    f: Factor, cap: nat, prev: Fees, minPriority: nat, minMax: nat, times: nat)
    requires f.num >= f.den && ValidFees(prev, cap)
    ensures var max := Boosted(f, cap, prev, minPriority, minMax, times).max;
      max == cap || Power(f.den, times) * Excess(f, max) >= Power(f.num, times) * Excess(f, prev.max)
  {
    if times > 0 {
      var last := Boosted(f, cap, prev, minPriority, minMax, times - 1);
      BoostsGrowGeometrically(f, cap, prev, minPriority, minMax, times - 1);
      BoostsAreMonotone(f, cap, prev, minPriority, minMax, times - 1, times);
      var max := Boosted(f, cap, prev, minPriority, minMax, times).max;
      if max < cap {
        var rounded := RoundedProduct(last.max, f);
        ExcessIsMonotone(f, rounded, max);
        ExcessGrows(f, last.max);
        GrowthStep(Power(f.den, times - 1), Power(f.num, times - 1), f.den, f.num,
                   Excess(f, prev.max), Excess(f, last.max), Excess(f, rounded), Excess(f, max));
      }
    }
  }

  lemma GrowthStep(dens: nat, nums: nat, den: nat, num: nat, first: int, last: int, rounded: int, max: int)
    requires dens * last >= nums * first && den * rounded >= num * last && rounded <= max
    ensures den * dens * max >= num * nums * first
  {
    ProductsAreOrdered(rounded, max, den);
    ProductsAreOrdered(num * last, den * max, dens);
    ProductsAreOrdered(nums * first, dens * last, num);
    assert dens * (den * max) == den * dens * max;
    assert dens * (num * last) == num * (dens * last);
    assert num * (nums * first) == num * nums * first;
  }

  /**
   The logarithmic bound: after `times` boosts the fee is at the cap, if the factor to that power takes the excess of
   the first fee beyond the excess of the cap.
   */
  lemma BoostsReachTheCapGeometrically(f: Factor, cap: nat, prev: Fees, minPriority: nat, minMax: nat, times: nat)
    requires f.num >= f.den && ValidFees(prev, cap)
    requires Power(f.num, times) * Excess(f, prev.max) > Power(f.den, times) * Excess(f, cap)
    ensures Boosted(f, cap, prev, minPriority, minMax, times).max == cap
  {
    BoostsGrowGeometrically(f, cap, prev, minPriority, minMax, times);
    BoostsAreMonotone(f, cap, prev, minPriority, minMax, times, times);
    var max := Boosted(f, cap, prev, minPriority, minMax, times).max;
    ExcessIsMonotone(f, max, cap);
    ProductsAreOrdered(Excess(f, max), Excess(f, cap), Power(f.den, times));
  }
}
