/**
 The fees a client computes (`calculateGasFees` of `RelayClient.ts`) against those a server accepts
 (`_refreshGasFees` and `validateGasFees` of `RelayServer.ts`), both reading the same network fees.
 */
module FeeAgreement {
  import opened Arithmetic
  import opened Wrappers
  import opened StoredTransactions
  import opened GasFees

  datatype Network = Network(base: nat, priority: nat)

  /** `markup` is `(gasPriceFactorPercent + 100) / 100`. */
  datatype ClientConfig = ClientConfig(markup: Factor, minPriority: Option<nat>)

  datatype ServerConfig = ServerConfig(factor: Factor, defaultPriority: nat, cap: nat)

  datatype FeeError =
    | PriorityTooLow | MaxTooLow | MaxTooHigh | MaxBelowPriority
    | NetworkPriorityAboveCap | NetworkBaseAboveCap

  /** `Math.floor(x * f)` */
  function FlooredProduct(x: nat, f: Factor): nat {
    x * f.num / f.den
  }

  /** `r` is `x * f` rounded down. */
  predicate IsFloor(x: nat, f: Factor, r: nat) {
    f.den * r <= x * f.num < f.den * r + f.den
  }

  lemma FloorIsUnique(x: nat, f: Factor)
    ensures forall r: nat :: IsFloor(x, f, r) <==> r == FlooredProduct(x, f)
  {
    var q := FlooredProduct(x, f);
    Euclid(x * f.num, f.den);
    forall r: nat
      ensures IsFloor(x, f, r) <==> r == q
    {
      if IsFloor(x, f, r) {
        Double(f.den, r);
        Double(f.den, q);
        CancelFactor(f.den, r, q + 1);
        CancelFactor(f.den, q, r + 1);
      }
    }
  }

  function ClientPriority(c: ClientConfig, n: Network): nat {
    RaisedTo(RoundedProduct(n.priority, c.markup), if c.minPriority.Some? then c.minPriority.value else 0)
  }

  function ClientFees(c: ClientConfig, n: Network): Fees {
    var priority := ClientPriority(c, n);
    var max := RoundedProduct(n.base + priority, c.markup);
    Fees(if max == 0 then priority else max, priority)
  }

  /** The lowest priority fee the server accepts. */
  function ServerMinPriority(s: ServerConfig, n: Network): nat {
    var floored := FlooredProduct(n.priority, s.factor);
    if floored == 0 then s.defaultPriority else floored
  }

  /** Why the server refuses a pair of fees, if it does. */
  function Refusal(s: ServerConfig, minPriority: nat, minMax: nat, fees: Fees): Option<FeeError> {
    if minPriority > fees.priority then Some(PriorityTooLow)
    else if minMax > fees.max then Some(MaxTooLow)
    else if s.cap < fees.max then Some(MaxTooHigh)
    else if fees.max < fees.priority then Some(MaxBelowPriority)
    else None
  }

  /** A mark-up never brings the maximum below the base fee or the priority fee. */
  lemma MarkupCoversNetwork(c: ClientConfig, n: Network)
    requires c.markup.num >= c.markup.den
    ensures ClientFees(c, n).priority <= ClientFees(c, n).max && n.base <= ClientFees(c, n).max
  {
    RoundingGrowth(n.base + ClientPriority(c, n), c.markup);
  }

  /** The client's fees are accepted exactly if its priority fee is high enough and its maximum within the cap. */
  lemma AcceptedIff(c: ClientConfig, s: ServerConfig, n: Network)
    requires c.markup.num >= c.markup.den
    ensures Refusal(s, ServerMinPriority(s, n), n.base, ClientFees(c, n)) == None <==>
      ServerMinPriority(s, n) <= ClientPriority(c, n) && ClientFees(c, n).max <= s.cap
  {
    MarkupCoversNetwork(c, n);
  }

  ghost predicate PriorityAlwaysSuffices(c: ClientConfig, s: ServerConfig) {
    forall n: Network :: ServerMinPriority(s, n) <= ClientPriority(c, n)
  }

  predicate IsCompatible(c: ClientConfig, s: ServerConfig) {
    && s.factor.num * c.markup.den <= c.markup.num * s.factor.den
    && s.defaultPriority <= if c.minPriority.Some? then c.minPriority.value else 0
  }

  /**
   For every state of the network the client's priority fee suffices, exactly if the server's factor is at most the
   client's mark-up and the server's default at most the client's minimum. This holds across the two roundings.
   */
  lemma AgreementForAllNetworks(c: ClientConfig, s: ServerConfig)
    ensures PriorityAlwaysSuffices(c, s) <==> IsCompatible(c, s)
  {
    if IsCompatible(c, s) {
      forall n: Network
        ensures ServerMinPriority(s, n) <= ClientPriority(c, n)
      {
        FloorBelowRound(n.priority, s.factor, c.markup);
      }
    } else if s.factor.num * c.markup.den > c.markup.num * s.factor.den {
      LargeFeesExposeFactor(c, s);
    } else {
      var idle := Network(0, 0);
      assert FlooredProduct(0, s.factor) == 0 && RoundedProduct(0, c.markup) == 0 by {
        NothingRounded(s.factor, c.markup);
      }
      assert ServerMinPriority(s, idle) > ClientPriority(c, idle);
    }
  }

  lemma NothingRounded(f: Factor, g: Factor)
    ensures FlooredProduct(0, f) == 0 && RoundedProduct(0, g) == 0
  {
    RoundedProductIsNearest(0, g, 0);
  }

  lemma FloorBelowRound(x: nat, f: Factor, g: Factor)
    requires f.num * g.den <= g.num * f.den
    ensures FlooredProduct(x, f) <= RoundedProduct(x, g)
  {
    var a, r := FlooredProduct(x, f), RoundedProduct(x, g);
    Euclid(x * f.num, f.den);
    RoundedProductIsNearest(x, g, r);
    // f.den * a <= x * f.num, so f.den * (g.den * a) <= f.den * (x * g.num)
    ProductsAreOrdered(f.den * a, x * f.num, g.den);
    ProductsAreOrdered(f.num * g.den, g.num * f.den, x);
    Rearranged(x, a, f, g);
    if r < a {
      CancelWeak(f.den, g.den * a, x * g.num);
      Double(g.den, r);
      ProductsAreOrdered(r + 1, a, g.den);
    }
  }

  lemma CancelWeak(d: nat, x: int, y: int)
    requires d > 0 && d * x <= d * y
    ensures x <= y
  {
    assert d * (y + 1) == d * y + d;
    CancelFactor(d, x, y + 1);
  }

  lemma Rearranged(x: nat, a: nat, f: Factor, g: Factor)
    ensures f.den * a * g.den == f.den * (g.den * a)
    ensures x * f.num * g.den == f.num * g.den * x
    ensures g.num * f.den * x == f.den * (x * g.num)
  {
  }

  /** At fees that are a multiple of both denominators nothing is rounded, and the larger factor shows. */
  lemma LargeFeesExposeFactor(c: ClientConfig, s: ServerConfig)
    requires s.factor.num * c.markup.den > c.markup.num * s.factor.den
    ensures !PriorityAlwaysSuffices(c, s)
  {
    var f, g := s.factor, c.markup;
    var m := if c.minPriority.Some? then c.minPriority.value else 0;
    var k := m + 1;
    var x := f.den * g.den * k;
    var high, low := f.num * g.den * k, g.num * f.den * k;
    Multiples(f, g, k);
    ExactMultiple(f.den, g.den * k, f.num);
    RoundedProductIsNearest(x, g, low);
    HigherProduct(f.num * g.den, g.num * f.den, k);
    var n := Network(0, x);
    assert ServerMinPriority(s, n) > ClientPriority(c, n);
  }

  lemma Multiples(f: Factor, g: Factor, k: nat)
    ensures f.den * g.den * k == f.den * (g.den * k)
    ensures f.num * g.den * k == g.den * k * f.num
    ensures f.den * g.den * k * g.num == g.den * (g.num * f.den * k)
  {
    var a, b, p, q := f.num, f.den, g.num, g.den;
    assert b * q * k * p == q * (b * k * p);
    assert p * b * k == b * k * p;
  }

  lemma ExactMultiple(d: nat, q: nat, n: nat)
    requires d > 0
    ensures d * q * n / d == q * n
  {
    assert d * q * n == d * (q * n);
    DivisionIsExact(d, q * n);
  }

  lemma DivisionIsExact(d: nat, m: nat)
    requires d > 0
    ensures d * m / d == m
  {
    var r := d * m / d;
    Euclid(d * m, d);
    NextMultiple(d, r);
    NextMultiple(d, m);
    CancelFactor(d, r, m + 1);
    CancelFactor(d, m, r + 1);
  }

  lemma NextMultiple(d: nat, x: nat)
    ensures d * (x + 1) == d * x + d
  {
  }

  lemma HigherProduct(a: nat, b: nat, k: nat)
    requires a > b && k > 0
    ensures a * k > b * k && a * k >= k
  {
  }

  // ---------- The code ----------

  method CalculateGasFees(c: ClientConfig, n: Network) returns (fees: Fees)
    ensures fees == ClientFees(c, n)
    ensures c.markup.num >= c.markup.den ==> fees.priority <= fees.max && n.base <= fees.max
    ensures forall marked: nat :: IsNearest(n.priority, c.markup, marked) ==>
      fees.priority == if c.minPriority.Some? && c.minPriority.value > marked then c.minPriority.value else marked
    ensures var needed := n.base + fees.priority;
      forall marked: nat :: IsNearest(needed, c.markup, marked) ==>
        fees.max == if marked == 0 then fees.priority else marked
  {
    var priorityFee := RoundedProduct(n.priority, c.markup);
    if c.minPriority.Some? && priorityFee < c.minPriority.value {
      priorityFee := c.minPriority.value;
    }
    var maxFee := RoundedProduct(n.base + priorityFee, c.markup);
    if maxFee == 0 {
      maxFee := priorityFee;
    }
    fees := Fees(maxFee, priorityFee);
    NearestIsRounded(n.priority, c.markup);
    NearestIsRounded(n.base + priorityFee, c.markup);
    if c.markup.num >= c.markup.den {
      MarkupCoversNetwork(c, n);
    }
  }

  class RelayServer {
    const config: ServerConfig
    var minMaxFee: nat
    var minMaxPriorityFee: nat

    constructor (config: ServerConfig)
      ensures this.config == config && minMaxFee == 0 && minMaxPriorityFee == 0
    {
      this.config, minMaxFee, minMaxPriorityFee := config, 0, 0;
    }

    /** Both fields are set even when the fees turn out to be above the cap. */
    method RefreshGasFees(n: Network) returns (error: Option<FeeError>)
      modifies this
      ensures minMaxFee == n.base && minMaxPriorityFee == ServerMinPriority(config, n)
      ensures error == if minMaxPriorityFee > config.cap then Some(NetworkPriorityAboveCap)
                       else if n.base > config.cap then Some(NetworkBaseAboveCap) else None
      ensures forall floor: nat :: IsFloor(n.priority, config.factor, floor) ==>
        minMaxPriorityFee == if floor == 0 then config.defaultPriority else floor
    {
      FloorIsUnique(n.priority, config.factor);
      minMaxFee := n.base;
      minMaxPriorityFee := FlooredProduct(n.priority, config.factor);
      if minMaxPriorityFee == 0 && config.defaultPriority > 0 {
        minMaxPriorityFee := config.defaultPriority;
      }
      if minMaxPriorityFee > config.cap {
        return Some(NetworkPriorityAboveCap);
      }
      if minMaxFee > config.cap {
        return Some(NetworkBaseAboveCap);
      }
      return None;
    }

    method ValidateGasFees(fees: Fees) returns (error: Option<FeeError>)
      ensures error == Refusal(config, minMaxPriorityFee, minMaxFee, fees)
      ensures error == None <==>
        minMaxPriorityFee <= fees.priority && minMaxFee <= fees.max && ValidFees(fees, config.cap)
      ensures error == Some(PriorityTooLow) <==> fees.priority < minMaxPriorityFee
      ensures error == Some(MaxTooLow) <==> fees.priority >= minMaxPriorityFee && fees.max < minMaxFee
      ensures error == Some(MaxTooHigh) <==>
        fees.priority >= minMaxPriorityFee && fees.max >= minMaxFee && fees.max > config.cap
      ensures error == Some(MaxBelowPriority) <==>
        minMaxPriorityFee <= fees.priority && minMaxFee <= fees.max <= config.cap && fees.max < fees.priority
    {
      if minMaxPriorityFee > fees.priority {
        return Some(PriorityTooLow);
      }
      if minMaxFee > fees.max {
        return Some(MaxTooLow);
      }
      if config.cap < fees.max {
        return Some(MaxTooHigh);
      }
      if fees.max < fees.priority {
        return Some(MaxBelowPriority);
      }
      return None;
    }
  }
}
