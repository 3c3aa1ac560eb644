/**
 Vector metrics, the composite distance and the scaling of interface parameters.
 Composites are computed in 64 bits; the topology table stores them in 32.
 */
module Metric {
  import opened Words

  const METRIC_MAX: uint64 := 0xffff_ffff_ffff_ffff
  const MAX_METRIC: uint32 := 0xffff_ffff
  const CLASSIC_SCALER := 256
  const BANDWIDTH_SCALER := 10_000_000

  datatype Metrics = Metrics(delay: uint64, bandwidth: uint64,
                             mtu0: uint8, mtu1: uint8, mtu2: uint8,
                             hopCount: uint8, reliability: uint8, load: uint8,
                             tag: uint8, flags: uint8)

  /** What the allocator returns: all bytes zero. */
  const NO_METRICS := Metrics(0, 0, 0, 0, 0, 0, 0, 0, 0, 0)

  datatype KValues = KValues(k1: uint8, k2: uint8, k3: uint8, k4: uint8, k5: uint8)

  const DEFAULT_K := KValues(1, 0, 1, 0, 0)

  /** The configured bandwidth and delay of an interface. */
  datatype Link = Link(bandwidth: uint32, delay: uint32)

  const DEFAULT_LINK := Link(100_000, 10)

  /** C division. A zero divisor traps in C; the value given here is never relied on. */
  function Quot(a: nat, b: nat): (q: nat)
    ensures q <= a
  {
    if b == 0 then 0 else QuotBound(a, b); a / b
  }

  lemma QuotBound(a: nat, b: nat)
    requires b > 0
    ensures 0 <= a / b <= a
  {
    var q := a / b;
    assert a == b * q + a % b;
    if q > a {
      Grows(1, b, q);
      assert false;
    }
  }

  function Times(a: nat, b: nat): (p: nat) {
    a * b
  }

  // ----- scaling -----

  function BandwidthToScaled(bandwidth: uint64): uint32 {
    if bandwidth == METRIC_MAX then
      0xffff_ffff
    else
      var scaled := Quot(CLASSIC_SCALER * BANDWIDTH_SCALER, bandwidth);
      if scaled == 0 then 1 else scaled
  }

  function DelayToScaled(delay: uint64): uint32 {
    Wrap32((if delay == 0 then 1 else delay) * CLASSIC_SCALER)
  }

  function ScaledToDelay(scaled: uint32): uint32 {
    var delay := scaled / CLASSIC_SCALER;
    if delay == 0 then 1 else delay
  }

  /** Scaling a delay down and back is lossless exactly on the 24-bit non-zero delays. */
  lemma DelayScalingRoundTrip(delay: uint64)
    ensures ScaledToDelay(DelayToScaled(delay)) == delay <==> 1 <= delay < 0x100_0000
  {
    var d := if delay == 0 then 1 else delay;
    assert d * 256 == (d / 0x100_0000) * 0x1_0000_0000 + (d % 0x100_0000) * 256;
    assert Wrap32(d * 256) == (d % 0x100_0000) * 256;
  }

  // ----- the composite -----

  /** The multiplier that K4, K5 and the reliability contribute; 1 when neither K is set. */
  function Factor(k: KValues, reliability: uint8): nat {
    if k.k4 != 0 && k.k5 == 0 then k.k4
    else if k.k4 == 0 && k.k5 != 0 then Quot(k.k5, reliability)
    else if k.k4 != 0 && k.k5 != 0 then Quot(k.k5, reliability) + k.k4
    else 1
  }

  /** The composite in the daemon's order of 64-bit operations, each of which wraps. */
  function CalculateMetrics(k: KValues, m: Metrics): uint64 {
    if m.delay == METRIC_MAX then
      METRIC_MAX
    else
      Accumulate(k, Times(k.k1, m.bandwidth), Times(k.k2, m.bandwidth), Times(k.k3, m.delay),
                 256 - m.load, Factor(k, m.reliability))
  }

  function Accumulate(k: KValues, bandwidth: nat, shared: nat, delay: nat, idle: nat, factor: nat): uint64 {
    var c1 := if k.k1 != 0 then Wrap64(bandwidth) else 0;
    var c2 := if k.k2 != 0 then Wrap64(c1 + Quot(Wrap64(shared), idle)) else c1;
    var c3 := if k.k3 != 0 then Wrap64(c2 + Wrap64(delay)) else c2;
    if k.k4 != 0 || k.k5 != 0 then Wrap64(Times(c3, factor)) else c3
  }

  /** The same formula over unbounded integers: the sum before the K4/K5 factor. */
  function IdealSum(k: KValues, m: Metrics): nat {
    Times(k.k1, m.bandwidth) + Quot(Times(k.k2, m.bandwidth), 256 - m.load) + Times(k.k3, m.delay)
  }

  function Ideal(k: KValues, m: Metrics): nat {
    Times(IdealSum(k, m), Factor(k, m.reliability))
  }

  /** When the unbounded formula and its largest partial product fit 64 bits, nothing wraps. */
  lemma CompositeWithoutWrap(k: KValues, m: Metrics)
    requires m.delay != METRIC_MAX
    requires Times(k.k2, m.bandwidth) <= METRIC_MAX
    requires IdealSum(k, m) <= METRIC_MAX && Ideal(k, m) <= METRIC_MAX
    ensures CalculateMetrics(k, m) == Ideal(k, m)
  {
    Unscaled(m.bandwidth);
    Unscaled(m.delay);
    AccumulateWithoutWrap(k, Times(k.k1, m.bandwidth), Times(k.k2, m.bandwidth), Times(k.k3, m.delay),
                          256 - m.load, Factor(k, m.reliability));
  }

  lemma Unscaled(a: nat)
    ensures Times(0, a) == 0 && Times(a, 1) == a
  {
  }

  lemma AccumulateWithoutWrap(k: KValues, bandwidth: nat, shared: nat, delay: nat, idle: nat, factor: nat)
    requires shared <= METRIC_MAX
    requires (k.k1 == 0 ==> bandwidth == 0) && (k.k2 == 0 ==> shared == 0) && (k.k3 == 0 ==> delay == 0)
    requires k.k4 == 0 && k.k5 == 0 ==> factor == 1
    requires idle > 0
    requires bandwidth + Quot(shared, idle) + delay <= METRIC_MAX
    requires Times(bandwidth + Quot(shared, idle) + delay, factor) <= METRIC_MAX
    ensures Accumulate(k, bandwidth, shared, delay, idle, factor)
         == Times(bandwidth + Quot(shared, idle) + delay, factor)
  {
    var share := Quot(shared, idle);
    assert Wrap64(bandwidth) == bandwidth && Wrap64(shared) == shared && Wrap64(delay) == delay by {
      Fits(bandwidth);
      Fits(shared);
      Fits(delay);
    }
    Fits(bandwidth + share);
    var sum := bandwidth + share + delay;
    Fits(sum);
    Fits(Times(sum, factor));
    Unscaled(sum);
  }

  lemma Fits(a: nat)
    requires a <= METRIC_MAX
    ensures Wrap64(a) == a
  {
  }

  ghost predicate Narrow(m: Metrics) {
    m.bandwidth < 0x1_0000_0000 && m.delay < 0x1_0000_0000
  }

  ghost predicate Wide48(m: Metrics) {
    m.bandwidth < 0x1_0000_0000_0000 && m.delay < 0x1_0000_0000_0000
  }

  /** Where the composite is known to be exact: classic 32-bit components under any K values,
      and 48-bit wide components when K4 and K5 are unset. */
  ghost predicate Exact(k: KValues, m: Metrics) {
    || Narrow(m)
    || (Wide48(m) && k.k4 == 0 && k.k5 == 0)
  }

  lemma IdealSumBound(k: KValues, m: Metrics, bound: nat)
    requires m.bandwidth < bound && m.delay < bound
    ensures Times(k.k2, m.bandwidth) <= 255 * bound
    ensures IdealSum(k, m) <= 765 * bound
  {
    TimesBound(k.k1, m.bandwidth, 255, bound);
    TimesBound(k.k2, m.bandwidth, 255, bound);
    TimesBound(k.k3, m.delay, 255, bound);
  }

  lemma TimesBound(a: nat, b: nat, c: nat, d: nat)
    requires a <= c && b <= d
    ensures Times(a, b) <= Times(c, d)
  {
    Grows(b, d, a);
    Grows(a, c, d);
  }

  lemma Grows(a: nat, b: nat, k: nat)
    requires a <= b
    ensures k * a <= k * b
  {
  }

  /** On exact metrics the 64-bit computation is the integer formula. */
  lemma CompositeExact(k: KValues, m: Metrics)
    requires Exact(k, m)
    ensures CalculateMetrics(k, m) == Ideal(k, m) <= METRIC_MAX
  {
    if Narrow(m) {
      IdealSumBound(k, m, 0x1_0000_0000);
      TimesBound(IdealSum(k, m), Factor(k, m.reliability), 765 * 0x1_0000_0000, 510);
    } else {
      IdealSumBound(k, m, 0x1_0000_0000_0000);
      Unscaled(IdealSum(k, m));
    }
    CompositeWithoutWrap(k, m);
  }

  /** On exact metrics more scaled bandwidth or more delay never gives a smaller composite. */
  lemma CompositeMonotone(k: KValues, m: Metrics, bandwidth: uint64, delay: uint64)
    requires m.bandwidth <= bandwidth && m.delay <= delay
    requires Exact(k, m.(bandwidth := bandwidth, delay := delay))
    ensures CalculateMetrics(k, m) <= CalculateMetrics(k, m.(bandwidth := bandwidth, delay := delay))
  {
    var w := m.(bandwidth := bandwidth, delay := delay);
    CompositeExact(k, m);
    CompositeExact(k, w);
    TimesBound(k.k1, m.bandwidth, k.k1, bandwidth);
    TimesBound(k.k2, m.bandwidth, k.k2, bandwidth);
    TimesBound(k.k3, m.delay, k.k3, delay);
    QuotGrows(Times(k.k2, m.bandwidth), Times(k.k2, bandwidth), 256 - m.load);
    TimesBound(IdealSum(k, m), Factor(k, m.reliability), IdealSum(k, w), Factor(k, m.reliability));
  }

  lemma QuotGrows(a: nat, b: nat, d: nat)
    requires a <= b && d > 0
    ensures Quot(a, d) <= Quot(b, d)
  {
    var p, q := a / d, b / d;
    assert a == d * p + a % d && b == d * q + b % d;
    if q + 1 <= p {
      Grows(q + 1, p, d);
      assert false;
    }
  }

  // ----- what the topology table keeps -----

  /** Distances are stored in 32 bits: the composite is truncated. */
  function Stored(k: KValues, m: Metrics): uint32 {
    Wrap32(CalculateMetrics(k, m))
  }

  /** On exact metrics the stored distance is the integer formula exactly when that formula fits. */
  lemma StoredExactly(k: KValues, m: Metrics)
    requires Exact(k, m)
    ensures Stored(k, m) == Ideal(k, m) <==> Ideal(k, m) <= MAX_METRIC
  {
    CompositeExact(k, m);
  }

  /** A neighbour's metrics plus the cost of the link to it. */
  function TotalMetric(link: Link, m: Metrics): Metrics {
    var delay := Wrap64(m.delay + DelayToScaled(link.delay));
    var bandwidth := BandwidthToScaled(link.bandwidth);
    m.(delay := delay, bandwidth := if m.bandwidth > bandwidth then bandwidth else m.bandwidth)
  }

  /** A faster interface never scales to a larger component, and no configured one scales to zero. */
  lemma FasterScalesSmaller(a: uint64, b: uint64)
    requires 0 < a <= b < METRIC_MAX
    ensures 1 <= BandwidthToScaled(b) <= BandwidthToScaled(a)
  {
    var n := CLASSIC_SCALER * BANDWIDTH_SCALER;
    QuotShrinks(n, a, b);
    QuotBound(n, a);
    QuotBound(n, b);
  }

  /** A configured bandwidth scales to the 256 * 10^7-th part, rounded down but never to zero. */
  lemma BandwidthScaled(bandwidth: uint64)
    requires 0 < bandwidth < METRIC_MAX
    ensures var scaled := BandwidthToScaled(bandwidth);
            if bandwidth <= 2_560_000_000 then scaled * bandwidth <= 2_560_000_000 < (scaled + 1) * bandwidth
            else scaled == 1
  {
    var n := CLASSIC_SCALER * BANDWIDTH_SCALER;
    var q := n / bandwidth;
    QuotBound(n, bandwidth);
    assert n == q * bandwidth + n % bandwidth && (q + 1) * bandwidth == q * bandwidth + bandwidth;
    if q == 0 {
      assert q * bandwidth == 0;
    } else {
      Grows(1, q, bandwidth);
      assert bandwidth * q == q * bandwidth;
    }
  }

  lemma QuotShrinks(n: nat, a: nat, b: nat)
    requires 0 < a <= b
    ensures Quot(n, b) <= Quot(n, a)
  {
    var p, q := n / a, n / b;
    assert n == a * p + n % a && n == b * q + n % b;
    Grows(a, b, q);
    assert q * a == a * q && q * b == b * q && a * (p + 1) == a * p + a;
    if p < q {
      Grows(p + 1, q, a);
      assert false;
    }
  }

  /** Under the default K values, adding a link makes a route no nearer exactly if the link's scaled bandwidth
      and delay together are at least the scaled bandwidth the neighbour reported: of two scaled bandwidths the
      daemon keeps the smaller one. */
  lemma TotalNoNearerExactly(link: Link, m: Metrics)
    requires Wide48(m)
    ensures CalculateMetrics(DEFAULT_K, m) <= CalculateMetrics(DEFAULT_K, TotalMetric(link, m))
            <==> m.bandwidth <= BandwidthToScaled(link.bandwidth) + DelayToScaled(link.delay)
  {
    var t := TotalMetric(link, m);
    Fits(m.delay + DelayToScaled(link.delay));
    DefaultComposite(m);
    DefaultComposite(t);
  }

  /** Under the default K values the composite is the sum of the two components. */
  lemma DefaultComposite(m: Metrics)
    requires m.bandwidth + m.delay < METRIC_MAX
    ensures CalculateMetrics(DEFAULT_K, m) == m.bandwidth + m.delay
  {
    assert Times(1, m.bandwidth) == m.bandwidth && Times(0, m.bandwidth) == 0 && Times(1, m.delay) == m.delay;
    assert IdealSum(DEFAULT_K, m) == m.bandwidth + m.delay;
    Unscaled(m.bandwidth + m.delay);
    CompositeWithoutWrap(DEFAULT_K, m);
  }

  // ----- the infinite delay -----

  /** The same metrics with the delay a filtered or withdrawn route is given. */
  function Poisoned(m: Metrics): Metrics {
    m.(delay := MAX_METRIC)
  }

  /** The infinite delay and the 32-bit store make a poisoned route one nearer than its scaled bandwidth. */
  lemma PoisonedStored(m: Metrics)
    requires Narrow(m)
    ensures Stored(DEFAULT_K, Poisoned(m)) == if m.bandwidth == 0 then MAX_METRIC else m.bandwidth - 1
  {
    DefaultComposite(Poisoned(m));
  }

  /** So poisoning brings a route nearer exactly if it has a bandwidth component and was within reach, although the
      composite itself never gets smaller. */
  lemma PoisonedNearerExactly(m: Metrics)
    requires Narrow(m)
    ensures CalculateMetrics(DEFAULT_K, m) <= CalculateMetrics(DEFAULT_K, Poisoned(m))
    ensures Stored(DEFAULT_K, Poisoned(m)) < Stored(DEFAULT_K, m)
            <==> 0 < m.bandwidth && m.bandwidth + m.delay <= MAX_METRIC
  {
    PoisonedStored(m);
    DefaultComposite(m);
    DefaultComposite(Poisoned(m));
  }

  /** For example, a route with a delay of 256 looks nearer once it is poisoned. */
  lemma PoisonedRouteLooksNear()
    ensures var good := NO_METRICS.(bandwidth := 256, delay := 256);
            && CalculateMetrics(DEFAULT_K, good) < CalculateMetrics(DEFAULT_K, Poisoned(good))
            && Stored(DEFAULT_K, Poisoned(good)) < Stored(DEFAULT_K, good)
            && Stored(DEFAULT_K, Poisoned(good)) != MAX_METRIC
  {
    var good := NO_METRICS.(bandwidth := 256, delay := 256);
    PoisonedNearerExactly(good);
    PoisonedStored(good);
    DefaultComposite(good);
    DefaultComposite(Poisoned(good));
  }

  /** Over a link, which is how the topology table prices it, a poisoned route looks infinitely far exactly if
      bandwidth component and link delay cancel out in 32 bits. */
  lemma PoisonedFarExactly(link: Link, m: Metrics)
    requires Narrow(m)
    ensures Stored(DEFAULT_K, TotalMetric(link, Poisoned(m))) == MAX_METRIC
            <==> Wrap32(TotalMetric(link, m).bandwidth + DelayToScaled(link.delay)) == 0
  {
    var t, d := TotalMetric(link, Poisoned(m)), DelayToScaled(link.delay);
    Fits(MAX_METRIC + d);
    DefaultComposite(t);
    CutBelow(t.bandwidth + d);
    assert t.bandwidth + t.delay == t.bandwidth + d + MAX_METRIC;
  }

  lemma CutBelow(a: nat)
    ensures Wrap32(a + MAX_METRIC) == MAX_METRIC <==> Wrap32(a) == 0
  {
  }

  /** Over an interface with the default bandwidth and delay it never does. */
  lemma PoisonedNeverFarByDefault(m: Metrics)
    requires Narrow(m)
    ensures Stored(DEFAULT_K, TotalMetric(DEFAULT_LINK, Poisoned(m))) != MAX_METRIC
  {
    assert BandwidthToScaled(DEFAULT_LINK.bandwidth) == 25600 && DelayToScaled(DEFAULT_LINK.delay) == 2560;
    PoisonedFarExactly(DEFAULT_LINK, m);
  }

  /** Equality of the fields a neighbour's advertisement is compared by; tag and flags are not among them. */
  predicate MetricsSame(a: Metrics, b: Metrics) {
    a.(tag := b.tag, flags := b.flags) == b
  }

  /** Tag and flags are the two fields that may differ. */
  lemma MetricsSameFields(a: Metrics, b: Metrics)
    ensures MetricsSame(a, b) <==>
            && a.delay == b.delay && a.bandwidth == b.bandwidth && a.hopCount == b.hopCount
            && a.reliability == b.reliability && a.load == b.load
            && a.mtu0 == b.mtu0 && a.mtu1 == b.mtu1 && a.mtu2 == b.mtu2
  {
  }

  // ----- what a link adds -----

  /** A link adds its delay and bounds the bandwidth component; every other field arrives as reported. */
  lemma TotalAdds(link: Link, m: Metrics)
    ensures var t, scaled := TotalMetric(link, m), BandwidthToScaled(link.bandwidth);
            && t == m.(delay := t.delay, bandwidth := t.bandwidth)
            && (m.delay + DelayToScaled(link.delay) <= METRIC_MAX ==> t.delay == m.delay + DelayToScaled(link.delay))
            && t.bandwidth <= m.bandwidth && t.bandwidth <= scaled && t.bandwidth in {m.bandwidth, scaled}
  {
    if m.delay + DelayToScaled(link.delay) <= METRIC_MAX {
      Fits(m.delay + DelayToScaled(link.delay));
    }
  }

  lemma WrapTwice(a: nat, b: nat, c: nat)
    ensures Wrap64(Wrap64(a + b) + c) == Wrap64(a + b + c)
  {
  }

  /** A path costs the same in whatever order its links are added, wrap-around included. */
  lemma TotalOrderIrrelevant(a: Link, b: Link, m: Metrics)
    ensures TotalMetric(a, TotalMetric(b, m)) == TotalMetric(b, TotalMetric(a, m))
  {
    var x, y := DelayToScaled(a.delay), DelayToScaled(b.delay);
    WrapTwice(m.delay, x, y);
    WrapTwice(m.delay, y, x);
    assert m.delay + x + y == m.delay + y + x;
  }

  // ----- the K values -----

  /** With K4 and K5 unset the composite is the weighted sum of the three terms. */
  lemma WeightedSum(k: KValues, m: Metrics)
    requires Narrow(m) && k.k4 == 0 && k.k5 == 0
    ensures CalculateMetrics(k, m) == k.k1 * m.bandwidth + k.k2 * m.bandwidth / (256 - m.load) + k.k3 * m.delay
  {
    CompositeExact(k, m);
    Unscaled(IdealSum(k, m));
  }

  /** With K4 or K5 set and a reliability that is not zero, the composite is the one without them times the sum of
      K4 and the quotient of K5 and the reliability. */
  lemma ReliabilityScales(k: KValues, m: Metrics)
    requires Narrow(m) && m.reliability > 0 && (k.k4 != 0 || k.k5 != 0)
    ensures CalculateMetrics(k, m)
         == CalculateMetrics(k.(k4 := 0, k5 := 0), m) * (k.k4 + k.k5 / m.reliability)
  {
    var plain := k.(k4 := 0, k5 := 0);
    CompositeExact(k, m);
    CompositeExact(plain, m);
    Unscaled(IdealSum(k, m));
    if k.k5 == 0 {
      assert k.k5 / m.reliability == 0;
    }
  }
}
