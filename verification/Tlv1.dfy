/**
 The classic TLV. Its decoder checks for the next hop but does not move past it, so every section after it
 is read four bytes early; what holds of the literal code is the cursor contract.
 */
module Tlv1 {
  import opened Words
  import opened Metric
  import opened Wire
  import opened Tlv2

  const NEXTHOP_SIZE := 4
  const METRIC1_SIZE := 16
  const EXTDATA1_SIZE := 20
  const INT_MIN1 := 25
  const EXT_MIN1 := 45
  const MOST_CLASSIC := 49

  // ----- encoding -----

  function TlvType1(kind: uint16): uint16 {
    if kind == IPV4_INT || kind == IPV4_EXT then kind
    else if kind == KIND_INT then IPV4_INT
    else if kind == KIND_EXT then IPV4_EXT
    else 0
  }

  predicate Encodable1(r: TlvRoute) {
    RouteOk(r) && TlvType1(r.kind) != 0 && r.dest.prefixlen <= 32
  }

  function MetricBytes1(m: Metrics): (s: Bytes)
    ensures |s| == METRIC1_SIZE
  {
    Be(4, DelayToScaled(m.delay)) + Be(4, m.bandwidth)
    + [m.mtu2, m.mtu1, m.mtu0, m.hopCount, m.reliability, m.load, m.tag, m.flags]
  }

  function ExternalBytes1(x: Extdata): (s: Bytes)
    ensures |s| == EXTDATA1_SIZE
  {
    Be(4, x.orig) + Be(4, x.asn) + Be(4, x.tag) + Be(4, x.metric) + Be(2, x.reserved) + [x.protocol, x.flags]
  }

  function BodyBytes1(r: TlvRoute): Bytes
    requires Encodable1(r)
  {
    Be(4, r.nexthop) + (if TlvType1(r.kind) == IPV4_EXT then ExternalBytes1(r.ext) else [])
    + MetricBytes1(r.metric) + AddrBytes(r.dest)
  }

  function Encoded1(r: TlvRoute): (s: Bytes)
    requires Encodable1(r)
    ensures |s| == HDR + |BodyBytes1(r)|
  {
    Be(2, TlvType1(r.kind)) + Be(2, HDR + |BodyBytes1(r)|) + BodyBytes1(r)
  }

  // ----- decoding -----

  function MetricDecode1(s: Bytes): Parsed<Metrics> {
    if |s| < METRIC1_SIZE then Fail
    else
      var delay, bandwidth := ScaledToDelay(Num4(s[..4])), Num4(s[4..8]);
      Parsed(Metrics(delay, bandwidth, s[10], s[9], s[8], s[11], s[12], s[13], s[14], s[15]), s[METRIC1_SIZE..])
  }

  function ExternalDecode1(s: Bytes): Parsed<Extdata> {
    if |s| < EXTDATA1_SIZE then Fail
    else Parsed(Extdata(Num4(s[..4]), Num4(s[4..8]), Num4(s[8..12]), Num4(s[12..16]), Num2(s[16..18]), s[18], s[19]),
                s[EXTDATA1_SIZE..])
  }

  function Exterior1(tlvType: uint16, s: Bytes): Parsed<Extdata> {
    if tlvType == IPV4_EXT then ExternalDecode1(s) else Parsed(NO_EXTDATA, s)
  }

  /** The metric and the destination, which close both kinds of TLV. */
  function Closing1(s: Bytes): Parsed<(Metrics, Dest4)> {
    match MetricDecode1(s)
    case Fail => Fail
    case Parsed(m, s1) =>
      match AddrDecode(s1)
      case Fail => Fail
      case Parsed(d, rest) => Parsed((m, d), rest)
  }

  /** The sections of a TLV, and the number of bytes the decoder has accounted for: four more than it read. */
  function SectionsDecode1(tlvType: uint16, s: Bytes): Option<(TlvRoute, nat)> {
    if |s| < NEXTHOP_SIZE then None
    else
      match Exterior1(tlvType, s)
      case Fail => None
      case Parsed(x, s1) =>
        match Closing1(s1)
        case Fail => None
        case Parsed((m, d), rest) =>
          Some((TlvRoute(if tlvType == IPV4_EXT then IPV4_EXT else IPV4_INT, 0, m, x, d),
                HDR + NEXTHOP_SIZE + |s| - |rest|))
  }

  function Minimum1(tlvType: uint16): nat {
    if tlvType == IPV4_EXT then EXT_MIN1 else INT_MIN1
  }

  function Decode1(b: Bytes): (d: Decoded)
    ensures d.used <= |b| && (b != [] ==> d.used > 0)
    ensures d.used == |b| || HDR <= d.used == Num2(b[2..4])
    ensures d.route.Some? ==> |b| >= HDR && d.used == Num2(b[2..4])
  {
    if |b| < HDR then Decoded(None, |b|)
    else
      var tlvType, length := Num2(b[..2]), Num2(b[2..4]);
      if tlvType != IPV4_INT && tlvType != IPV4_EXT then
        Decoded(None, if HDR <= length <= |b| then length else |b|)
      else if length < Minimum1(tlvType) || length > |b| then Decoded(None, |b|)
      else
        match SectionsDecode1(tlvType, b[HDR..length])
        case None => Decoded(None, |b|)
        case Some((r, bytes)) => if bytes > length then Decoded(None, |b|) else Decoded(Some(r), length)
  }

  // ----- what the skipped next hop does -----

  /** The four bytes before the metric: the next hop, or the end of the exterior section. */
  function BeforeMetric(r: TlvRoute): (s: Bytes)
    ensures |s| == 4
  {
    if TlvType1(r.kind) == IPV4_EXT then Be(2, r.ext.reserved) + [r.ext.protocol, r.ext.flags] else Be(4, r.nexthop)
  }

  /** The metric and what follows it, with the four bytes before it. */
  function Early(r: TlvRoute): Bytes
    requires Encodable1(r)
  {
    BeforeMetric(r) + MetricBytes1(r.metric) + AddrBytes(r.dest)
  }

  /** The metric as the decoder finds it, four bytes early. */
  function MisreadMetric(r: TlvRoute): Metrics {
    var bw := Be(4, r.metric.bandwidth);
    Metrics(ScaledToDelay(Num4(BeforeMetric(r))), DelayToScaled(r.metric.delay), bw[2], bw[1], bw[0], bw[3],
            r.metric.mtu2, r.metric.mtu1, r.metric.mtu0, r.metric.hopCount)
  }

  /** The four bytes the decoder looks for an address in. */
  function BeforeAddr(r: TlvRoute): (s: Bytes)
    ensures |s| == 4
  {
    [r.metric.load, r.metric.tag, r.metric.flags, r.dest.prefixlen]
  }

  /** The reliability is taken for the prefix length, and what follows it for the address. */
  function MisreadDest(r: TlvRoute): Dest4 {
    var n := AddrLen(r.metric.reliability);
    Dest4(r.metric.reliability,
          if n <= 4 then BeforeAddr(r)[..n] + Zeros(4 - n) else [])
  }

  /** The exterior section is taken from the next hop on, so each of its fields is read as the next one. */
  function MisreadExt(r: TlvRoute): Extdata {
    var metric := Be(4, r.ext.metric);
    Extdata(r.nexthop, r.ext.orig, r.ext.asn, r.ext.tag, Num2(metric[..2]), metric[2], metric[3])
  }

  /** The route the decoder returns. */
  function Misread(r: TlvRoute): TlvRoute {
    if TlvType1(r.kind) == IPV4_EXT then TlvRoute(IPV4_EXT, 0, MisreadMetric(r), MisreadExt(r), MisreadDest(r))
    else TlvRoute(IPV4_INT, 0, MisreadMetric(r), NO_EXTDATA, MisreadDest(r))
  }

  /** Does the misplaced destination make sense, and fit? */
  predicate Survives(r: TlvRoute) {
    r.metric.reliability <= 32 && AddrLen(r.metric.reliability) <= AddrLen(r.dest.prefixlen)
  }

  /** The nine bytes from the MTU to the prefix length. */
  function Middle(r: TlvRoute): (s: Bytes)
    ensures |s| == 9
  {
    [r.metric.mtu2, r.metric.mtu1, r.metric.mtu0, r.metric.hopCount, r.metric.reliability, r.metric.load,
     r.metric.tag, r.metric.flags, r.dest.prefixlen]
  }

  lemma ClosingLayout(r: TlvRoute)
    requires Encodable1(r)
    ensures var a := r.dest.addr[..AddrLen(r.dest.prefixlen)];
            Early(r) == BeforeMetric(r) + Be(4, DelayToScaled(r.metric.delay)) + Be(4, r.metric.bandwidth)
                        + Middle(r) + a
  {
  }

  lemma SlicesOfFive(w: Bytes, x: Bytes, y: Bytes, z: Bytes, a: Bytes)
    requires |w| == |x| == |y| == 4 && |z| == 9
    ensures var s := w + x + y + z + a;
            s[..4] == w && s[4..8] == x && s[8..12] == y && s[12..21] == z && s[21..] == a
  {
  }

  /** The destination as it is found four bytes early. */
  lemma DestMisread(r: TlvRoute, t: Bytes)
    requires Encodable1(r) && |t| == 5 + AddrLen(r.dest.prefixlen) && t[..5] == Middle(r)[4..]
    ensures AddrDecode(t).Parsed? <==> r.metric.reliability <= 32
    ensures r.metric.reliability <= 32 ==>
              && AddrDecode(t).value == MisreadDest(r)
              && |t| - |AddrDecode(t).rest| == 1 + AddrLen(r.metric.reliability)
  {
    assert t[0] == t[..5][0] == r.metric.reliability;
    assert t[1..5] == t[..5][1..] == BeforeAddr(r);
    if r.metric.reliability <= 32 {
      var n := AddrLen(r.metric.reliability);
      assert n <= 4;
      assert forall i :: 0 <= i < n ==> t[1..1 + n][i] == t[1..5][i];
      assert t[1..1 + n] == t[1..5][..n];
    }
  }

  lemma VectorMisread(r: TlvRoute, s: Bytes)
    requires |s| >= METRIC1_SIZE && s[..4] == BeforeMetric(r) && s[4..8] == Be(4, DelayToScaled(r.metric.delay))
    requires s[8..12] == Be(4, r.metric.bandwidth) && s[12..16] == Middle(r)[..4]
    ensures MetricDecode1(s) == Parsed(MisreadMetric(r), s[METRIC1_SIZE..])
  {
    Num4Be(DelayToScaled(r.metric.delay));
    assert s[8] == s[8..12][0] && s[9] == s[8..12][1] && s[10] == s[8..12][2] && s[11] == s[8..12][3];
    assert s[12] == s[12..16][0] && s[13] == s[12..16][1] && s[14] == s[12..16][2] && s[15] == s[12..16][3];
  }

  /** The metric and the destination, read four bytes early. */
  lemma ClosingMisread(r: TlvRoute, s: Bytes)
    requires Encodable1(r) && s == Early(r)
    ensures Closing1(s).Parsed? <==> r.metric.reliability <= 32
    ensures r.metric.reliability <= 32 ==>
              && Closing1(s).value == (MisreadMetric(r), MisreadDest(r))
              && |s| - |Closing1(s).rest| == METRIC1_SIZE + 1 + AddrLen(r.metric.reliability)
  {
    var a := r.dest.addr[..AddrLen(r.dest.prefixlen)];
    ClosingLayout(r);
    SlicesOfFive(BeforeMetric(r), Be(4, DelayToScaled(r.metric.delay)), Be(4, r.metric.bandwidth), Middle(r), a);
    assert s[12..16] == s[12..21][..4] && s[16..][..5] == s[12..21][4..];
    VectorMisread(r, s);
    DestMisread(r, s[METRIC1_SIZE..]);
  }

  /** The sections of a TLV the encoder has built, the exterior one, if any, four bytes early too. */
  lemma SectionsMisread(r: TlvRoute)
    requires Encodable1(r)
    ensures var p := SectionsDecode1(TlvType1(r.kind), BodyBytes1(r));
            && (p.Some? <==> r.metric.reliability <= 32)
            && (p.Some? ==> p.value == (Misread(r), Minimum1(TlvType1(r.kind)) + AddrLen(r.metric.reliability)))
  {
    var s, s1 := BodyBytes1(r), Early(r);
    EarlyLayout(r);
    ClosingMisread(r, s1);
    SectionsByClosing(TlvType1(r.kind), s, s1);
    if TlvType1(r.kind) == IPV4_EXT {
      ExteriorMisread(r, s);
    }
    assert |s| - |s1| == if TlvType1(r.kind) == IPV4_EXT then EXTDATA1_SIZE else 0;
  }

  lemma ExteriorMisread(r: TlvRoute, s: Bytes)
    requires Encodable1(r) && TlvType1(r.kind) == IPV4_EXT && s == BodyBytes1(r)
    ensures ExternalDecode1(s) == Parsed(MisreadExt(r), s[EXTDATA1_SIZE..])
  {
    var x, metric := r.ext, Be(4, r.ext.metric);
    ExteriorSlices(x, Be(4, r.nexthop), MetricBytes1(r.metric) + AddrBytes(r.dest));
    assert s == Be(4, r.nexthop) + ExternalBytes1(x) + (MetricBytes1(r.metric) + AddrBytes(r.dest));
    assert s[16..18] == s[16..20][..2] == metric[..2];
    assert s[18] == s[16..20][2] && s[19] == s[16..20][3];
    Num4Be(r.nexthop);
    Num4Be(x.orig);
    Num4Be(x.asn);
    Num4Be(x.tag);
  }

  lemma ExteriorSlices(x: Extdata, h: Bytes, rest: Bytes)
    requires |h| == 4
    ensures var s := h + ExternalBytes1(x) + rest;
            && s[..4] == h && s[4..8] == Be(4, x.orig) && s[8..12] == Be(4, x.asn) && s[12..16] == Be(4, x.tag)
            && s[16..20] == Be(4, x.metric)
  {
  }

  /** The sections are the exterior one, if the type asks for it, and the closing ones. */
  lemma SectionsByClosing(tlvType: uint16, s: Bytes, s1: Bytes)
    requires |s| >= NEXTHOP_SIZE && (tlvType == IPV4_EXT ==> |s| >= EXTDATA1_SIZE)
    requires s1 == if tlvType == IPV4_EXT then s[EXTDATA1_SIZE..] else s
    ensures var p, c := SectionsDecode1(tlvType, s), Closing1(s1);
            && (p.Some? <==> c.Parsed?)
            && (p.Some? ==> p.value == (TlvRoute(if tlvType == IPV4_EXT then IPV4_EXT else IPV4_INT, 0, c.value.0,
                                                 Exterior1(tlvType, s).value, c.value.1),
                                        HDR + NEXTHOP_SIZE + |s| - |c.rest|))
  {
  }

  /** Where the decoder looks for the metric. */
  lemma EarlyLayout(r: TlvRoute)
    requires Encodable1(r)
    ensures var s := BodyBytes1(r);
            Early(r) == if TlvType1(r.kind) == IPV4_EXT then s[EXTDATA1_SIZE..] else s
  {
  }

  /** The decoder on a TLV the encoder has built, for every route it accepts: it returns a route exactly if the
      reliability passes for a prefix length that needs no more address bytes than the real one, it then
      returns the misread route, and otherwise it gives up the rest of the packet. */
  lemma ClassicMisreads(r: TlvRoute, rest: Bytes)
    requires Encodable1(r)
    ensures var b := Encoded1(r) + rest; var d := Decode1(b);
            && (d.route.Some? <==> Survives(r))
            && (d.route.None? ==> d.used == |b|)
            && (d.route.Some? ==> d.route.value == Misread(r) && d.used == |Encoded1(r)|)
  {
    var t, b := Encoded1(r), Encoded1(r) + rest;
    BodyLength1(r);
    Header1Reads(r, b);
    assert b[HDR..|t|] == BodyBytes1(r);
    SectionsMisread(r);
  }

  /** With the reliability every interface has by default no classic TLV is ever accepted. */
  lemma DefaultReliabilityRejected(r: TlvRoute, rest: Bytes)
    requires Encodable1(r) && r.metric.reliability == 255
    ensures Decode1(Encoded1(r) + rest) == Decoded(None, |Encoded1(r) + rest|)
  {
    ClassicMisreads(r, rest);
  }

  /** Delay and bandwidth of a route arrive exactly if the TLV is accepted, the delay is the one that the next
      hop, or the end of the exterior section, spells, and the bandwidth equals the scaled delay. */
  lemma VectorArrivesExactly(r: TlvRoute, rest: Bytes)
    requires Encodable1(r)
    ensures var d := Decode1(Encoded1(r) + rest).route;
            d.Some? && d.value.metric.delay == r.metric.delay && d.value.metric.bandwidth == r.metric.bandwidth
            <==> && Survives(r) && r.metric.delay == ScaledToDelay(Num4(BeforeMetric(r)))
                 && r.metric.bandwidth == DelayToScaled(r.metric.delay)
  {
    ClassicMisreads(r, rest);
  }

  /** The destination arrives exactly if the reliability equals the prefix length and the address repeats the bytes
      before it. */
  lemma DestArrivesExactly(r: TlvRoute, rest: Bytes)
    requires Encodable1(r)
    ensures var d, n := Decode1(Encoded1(r) + rest).route, AddrLen(r.dest.prefixlen);
            d.Some? && d.value.dest == Clean(r.dest)
            <==> r.metric.reliability == r.dest.prefixlen && r.dest.addr[..n] == BeforeAddr(r)[..n]
  {
    ClassicMisreads(r, rest);
    MisreadClean(r);
  }

  lemma MisreadClean(r: TlvRoute)
    requires Encodable1(r)
    ensures var n := AddrLen(r.dest.prefixlen);
            Survives(r) && MisreadDest(r) == Clean(r.dest)
            <==> r.metric.reliability == r.dest.prefixlen && r.dest.addr[..n] == BeforeAddr(r)[..n]
  {
    var n := AddrLen(r.dest.prefixlen);
    PaddedEqual(BeforeAddr(r)[..n], r.dest.addr[..n], Zeros(4 - n));
  }

  lemma PaddedEqual(a: Bytes, b: Bytes, pad: Bytes)
    requires |a| == |b|
    ensures a + pad == b + pad <==> a == b
  {
    assert (a + pad)[..|a|] == a && (b + pad)[..|a|] == b;
  }

  /** Routes the daemon has decoded or created itself carry no next hop; of the internal ones only a delay of one
      with a scaled bandwidth of 256 arrives. */
  lemma WithoutNextHop(r: TlvRoute, rest: Bytes)
    requires Encodable1(r) && TlvType1(r.kind) == IPV4_INT && r.nexthop == 0
    ensures var d := Decode1(Encoded1(r) + rest).route;
            d.Some? && d.value.metric.delay == r.metric.delay && d.value.metric.bandwidth == r.metric.bandwidth
            <==> Survives(r) && r.metric.delay == 1 && r.metric.bandwidth == 256
  {
    VectorArrivesExactly(r, rest);
    Num4Be(0);
    LeastDelay();
  }

  lemma LeastDelay()
    ensures ScaledToDelay(0) == 1 && DelayToScaled(1) == 256
  {
  }

  lemma BodyLength1(r: TlvRoute)
    requires Encodable1(r)
    ensures Minimum1(TlvType1(r.kind)) <= |Encoded1(r)| <= Minimum1(TlvType1(r.kind)) + 4
  {
  }

  lemma Header1Reads(r: TlvRoute, b: Bytes)
    requires Encodable1(r) && |b| >= |Encoded1(r)| && b[..|Encoded1(r)|] == Encoded1(r)
    ensures |b| >= HDR && Num2(b[..2]) == TlvType1(r.kind) && Num2(b[2..4]) == |Encoded1(r)|
  {
    var t := Encoded1(r);
    BodyLength1(r);
    assert b[..2] == t[..2] == Be(2, TlvType1(r.kind)) && b[2..4] == t[2..4] == Be(2, |t|);
    Num2Be(TlvType1(r.kind));
    Num2Be(|t|);
  }

  // ----- both encodings of a route -----

  predicate EncodableBoth(r: TlvRoute) {
    Encodable1(r) && Encodable(r)
  }

  /** What the encoder of a mixed interface appends. */
  function EncodedBoth(rid: uint32, r: TlvRoute): Bytes
    requires EncodableBoth(r)
  {
    Encoded1(r) + Encoded(rid, r)
  }

  /** The wide decoder steps over a classic TLV. */
  lemma WideSkipsClassic(r: TlvRoute, rest: Bytes)
    requires Encodable1(r)
    ensures Decode(Encoded1(r) + rest) == Decoded(None, |Encoded1(r)|)
  {
    var b := Encoded1(r) + rest;
    Header1Reads(r, b);
    BodyLength1(r);
  }

  /** The classic decoder steps over a wide one. */
  lemma ClassicSkipsWide(rid: uint32, r: TlvRoute, rest: Bytes)
    requires Encodable(r)
    ensures Decode1(Encoded(rid, r) + rest) == Decoded(None, |Encoded(rid, r)|)
  {
    var b := Encoded(rid, r) + rest;
    HeaderReads(rid, r, b);
    BodyLength(rid, r);
  }

  /** On the output of a mixed interface a wide peer's second call returns the route. */
  lemma BothDecodes(rid: uint32, r: TlvRoute, rest: Bytes)
    requires EncodableBoth(r)
    ensures var b := EncodedBoth(rid, r) + rest; var first := Decode(b);
            && first == Decoded(None, |Encoded1(r)|)
            && Decode(b[first.used..]) == Decoded(Some(Normalised(rid, r)), |Encoded(rid, r)|)
  {
    var b := EncodedBoth(rid, r) + rest;
    assert b == Encoded1(r) + (Encoded(rid, r) + rest);
    WideSkipsClassic(r, Encoded(rid, r) + rest);
    assert b[|Encoded1(r)|..] == Encoded(rid, r) + rest;
    RoundTrip(rid, r, rest);
  }
}
