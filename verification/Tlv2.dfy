/**
 The wide TLV: what the encoder writes for a route and what the decoder reads from the rest of a packet,
 over plain bytes. `Codec` and `Encoder` prove that the stream functions compute these.
 */
module Tlv2 {
  import opened Words
  import opened Metric
  import opened Wire

  const IPV4_INT: uint16 := 0x102
  const IPV4_EXT: uint16 := 0x103
  const MP_INT: uint16 := 0x602
  const MP_EXT: uint16 := 0x603
  const KIND_INT: uint16 := 1
  const KIND_EXT: uint16 := 2

  const AF_IPV4 := 1
  const HEADER_EXT := 8
  const METRIC_SIZE := 24
  const EXTDATA_SIZE := 16
  const INT_MIN := 37
  const EXT_MIN := 53
  /** The longest encoding: an external route with all four address bytes. */
  const MOST_WIDE := 57
  const INACCESSIBLE: uint64 := 0xffff_ffff_ffff
  const TWO48: nat := 0x1_0000_0000_0000

  /** An IPv4 prefix; the address bytes in network order. */
  datatype Dest4 = Dest4(prefixlen: uint8, addr: Bytes)

  datatype Extdata = Extdata(orig: uint32, asn: uint32, tag: uint32, metric: uint32,
                             reserved: uint16, protocol: uint8, flags: uint8)

  const NO_EXTDATA := Extdata(0, 0, 0, 0, 0, 0, 0)

  /** The part of a route descriptor that travels. */
  datatype TlvRoute = TlvRoute(kind: uint16, nexthop: uint32, metric: Metrics, ext: Extdata, dest: Dest4)

  predicate RouteOk(r: TlvRoute) {
    |r.dest.addr| == 4
  }

  // ----- encoding -----

  function TlvType(kind: uint16): uint16 {
    if kind == MP_EXT || kind == IPV4_EXT || kind == KIND_EXT then MP_EXT
    else if kind == MP_INT || kind == IPV4_INT || kind == KIND_INT then MP_INT
    else 0
  }

  /** How many address bytes a prefix length needs. */
  function AddrLen(prefixlen: uint8): nat {
    if prefixlen == 0 then 0 else (prefixlen - 1) / 8 + 1
  }

  /** A component on the wire: the 32-bit infinity becomes the 48-bit one. */
  function Widened(v: uint64): uint64 {
    if v == MAX_METRIC then INACCESSIBLE else v
  }

  function MetricBytes(m: Metrics): (s: Bytes)
    ensures |s| == METRIC_SIZE
  {
    [0, m.tag, m.reliability, m.load, m.mtu2, m.mtu1, m.mtu0, m.hopCount]
    + Be(6, Widened(m.delay)) + Be(6, Widened(m.bandwidth)) + Be(2, 0) + Be(2, m.flags)
  }

  function ExternalBytes(rid: uint32, x: Extdata): (s: Bytes)
    ensures |s| == EXTDATA_SIZE
  {
    Be(4, if x.orig != 0 then x.orig else rid) + Be(4, x.asn) + Be(4, x.metric) + Be(2, x.reserved)
    + [x.protocol, x.flags]
  }

  function AddrBytes(d: Dest4): Bytes
    requires |d.addr| == 4 && d.prefixlen <= 32
  {
    [d.prefixlen] + d.addr[..AddrLen(d.prefixlen)]
  }

  /** A route the outbound filter rejects is sent as unreachable. */
  function Offered(r: TlvRoute, filtered: bool): TlvRoute {
    if filtered then r.(metric := r.metric.(delay := MAX_METRIC)) else r
  }

  predicate Encodable(r: TlvRoute) {
    RouteOk(r) && TlvType(r.kind) != 0 && r.dest.prefixlen <= 32
  }

  function BodyBytes(rid: uint32, r: TlvRoute): Bytes
    requires Encodable(r)
  {
    Be(2, AF_IPV4) + Be(2, 0) + Be(4, rid) + MetricBytes(r.metric)
    + (if TlvType(r.kind) == MP_EXT then ExternalBytes(rid, r.ext) else [])
    + AddrBytes(r.dest)
  }

  function Encoded(rid: uint32, r: TlvRoute): (s: Bytes)
    requires Encodable(r)
    ensures |s| == HDR + |BodyBytes(rid, r)|
  {
    Be(2, TlvType(r.kind)) + Be(2, HDR + |BodyBytes(rid, r)|) + BodyBytes(rid, r)
  }

  // ----- decoding -----

  datatype Parsed<T> = Fail | Parsed(value: T, rest: Bytes)

  function Narrowed(v: nat): uint64
    requires v < TWO48
  {
    if v == INACCESSIBLE then MAX_METRIC else v
  }

  function Num6(s: Bytes): (v: nat)
    requires |s| == 6
    ensures v < TWO48
  {
    NumBound(s);
    Widths();
    Num(s)
  }

  function MetricOf(s: Bytes): Metrics
    requires |s| >= METRIC_SIZE
  {
    Metrics(Narrowed(Num6(s[8..14])), Narrowed(Num6(s[14..20])), s[6], s[5], s[4], s[7], s[2], s[3], s[1],
            Num2(s[22..24]) % 0x100)
  }

  /** The metric section, with any extended attributes skipped. */
  function MetricDecode(s: Bytes): Parsed<Metrics> {
    if |s| < METRIC_SIZE then Fail
    else
      var attr := 2 * s[0] as int;
      if |s| - METRIC_SIZE < attr then Fail else Parsed(MetricOf(s), s[METRIC_SIZE + attr..])
  }

  function ExternalDecode(s: Bytes): Parsed<Extdata> {
    if |s| < EXTDATA_SIZE then Fail
    else Parsed(Extdata(Num4(s[..4]), Num4(s[4..8]), 0, Num4(s[8..12]), Num2(s[12..14]), s[14], s[15]),
                s[EXTDATA_SIZE..])
  }

  function AddrDecode(s: Bytes): (p: Parsed<Dest4>)
    ensures p.Parsed? ==> |p.value.addr| == 4
  {
    if |s| < 1 || s[0] > 32 then Fail
    else
      var n := AddrLen(s[0]);
      if |s| - 1 < n then Fail
      else Parsed(Dest4(s[0], s[1..1 + n] + Zeros(4 - n)), s[1 + n..])
  }

  function Zeros(n: nat): (s: Bytes)
    ensures |s| == n
  {
    seq(n, _ => 0)
  }

  /** The metric, exterior and destination sections of a TLV of the given type and originator. */
  function SectionsDecode(tlvType: uint16, rid: uint32, s: Bytes): Option<TlvRoute> {
    match MetricDecode(s)
    case Fail => None
    case Parsed(m, s1) =>
      if tlvType == MP_EXT then
        match ExternalDecode(s1)
        case Fail => None
        case Parsed(x, s2) =>
          match AddrDecode(s2) {
            case Fail => None
            case Parsed(d, _) => Some(TlvRoute(IPV4_EXT, 0, m, x, d))
          }
      else
        match AddrDecode(s1)
        case Fail => None
        case Parsed(d, _) => Some(TlvRoute(IPV4_INT, 0, m, NO_EXTDATA.(orig := rid), d))
  }

  /** The route, if any, and how many bytes of the packet the decoder has moved past. */
  datatype Decoded = Decoded(route: Option<TlvRoute>, used: nat)

  function Minimum(tlvType: uint16): nat {
    if tlvType == MP_EXT then EXT_MIN else INT_MIN
  }

  /** What is inside a TLV of one of the two known types: nothing for another address family or topology. */
  function Inside(tlvType: uint16, t: Bytes): Option<Option<TlvRoute>>
    requires |t| >= HDR + HEADER_EXT
  {
    if Num2(t[4..6]) != AF_IPV4 || Num2(t[6..8]) != 0 then None
    else Some(SectionsDecode(tlvType, Num4(t[8..12]), t[12..]))
  }

  /** The decoder on the unread bytes of a packet. */
  function Decode(b: Bytes): (d: Decoded)
    ensures d.used <= |b| && (b != [] ==> d.used > 0)
    ensures d.used == |b| || HDR <= d.used == Num2(b[2..4])
    ensures d.route.Some? ==> |b| >= HDR && d.used == Num2(b[2..4])
  {
    if |b| < HDR then Decoded(None, |b|)
    else
      var tlvType, length := Num2(b[..2]), Num2(b[2..4]);
      if tlvType != MP_INT && tlvType != MP_EXT then
        Decoded(None, if HDR <= length <= |b| then length else |b|)
      else if length < Minimum(tlvType) || length > |b| then Decoded(None, |b|)
      else
        match Inside(tlvType, b[..length])
        case None => Decoded(None, length)
        case Some(None) => Decoded(None, |b|)
        case Some(Some(r)) => Decoded(Some(r), length)
  }

  // ----- the decoder inverts the encoder -----

  /** A component after a round trip: cut to 48 bits, with the infinities exchanged. */
  function Carried(v: uint64): uint64 {
    Narrowed(Widened(v) % TWO48)
  }

  function Clean(d: Dest4): Dest4
    requires |d.addr| == 4 && d.prefixlen <= 32
  {
    d.(addr := d.addr[..AddrLen(d.prefixlen)] + Zeros(4 - AddrLen(d.prefixlen)))
  }

  /** What is left of a route after a round trip. */
  function Normalised(rid: uint32, r: TlvRoute): TlvRoute
    requires Encodable(r)
  {
    var m := r.metric.(delay := Carried(r.metric.delay), bandwidth := Carried(r.metric.bandwidth));
    if TlvType(r.kind) == MP_EXT then
      TlvRoute(IPV4_EXT, 0, m, r.ext.(orig := if r.ext.orig != 0 then r.ext.orig else rid, tag := 0), Clean(r.dest))
    else
      TlvRoute(IPV4_INT, 0, m, NO_EXTDATA.(orig := rid), Clean(r.dest))
  }

  lemma Num2Be(v: uint16)
    ensures Num2(Be(2, v)) == v
  {
    Widths();
    FieldHolds(2, v);
  }

  lemma Num4Be(v: uint32)
    ensures Num4(Be(4, v)) == v
  {
    Widths();
    FieldHolds(4, v);
  }

  lemma Num6Be(v: uint64)
    ensures Num6(Be(6, v)) == v % TWO48
  {
    Widths();
    NumBe(6, v);
  }

  lemma MetricRoundTrip(m: Metrics, rest: Bytes)
    ensures MetricDecode(MetricBytes(m) + rest)
         == Parsed(m.(delay := Carried(m.delay), bandwidth := Carried(m.bandwidth)), rest)
  {
    var s := MetricBytes(m) + rest;
    assert s[8..14] == Be(6, Widened(m.delay)) && s[14..20] == Be(6, Widened(m.bandwidth));
    assert s[22..24] == Be(2, m.flags);
    Num6Be(Widened(m.delay));
    Num6Be(Widened(m.bandwidth));
    Num2Be(m.flags);
    assert s[METRIC_SIZE..] == rest;
  }

  lemma ExternalRoundTrip(rid: uint32, x: Extdata, rest: Bytes)
    ensures ExternalDecode(ExternalBytes(rid, x) + rest)
         == Parsed(x.(orig := if x.orig != 0 then x.orig else rid, tag := 0), rest)
  {
    var s, orig := ExternalBytes(rid, x) + rest, if x.orig != 0 then x.orig else rid;
    assert s[..4] == Be(4, orig) && s[4..8] == Be(4, x.asn) && s[8..12] == Be(4, x.metric);
    assert s[12..14] == Be(2, x.reserved);
    Num4Be(orig);
    Num4Be(x.asn);
    Num4Be(x.metric);
    Num2Be(x.reserved);
    assert s[EXTDATA_SIZE..] == rest;
  }

  lemma AddrRoundTrip(d: Dest4, rest: Bytes)
    requires |d.addr| == 4 && d.prefixlen <= 32
    ensures AddrDecode(AddrBytes(d) + rest) == Parsed(Clean(d), rest)
  {
    var s, n := AddrBytes(d) + rest, AddrLen(d.prefixlen);
    assert s[1..1 + n] == d.addr[..n] && s[1 + n..] == rest;
  }

  lemma SectionsRoundTrip(rid: uint32, r: TlvRoute, s: Bytes)
    requires Encodable(r)
    requires s == MetricBytes(r.metric)
                  + ((if TlvType(r.kind) == MP_EXT then ExternalBytes(rid, r.ext) else []) + AddrBytes(r.dest))
    ensures SectionsDecode(TlvType(r.kind), rid, s) == Some(Normalised(rid, r))
  {
    var a := AddrBytes(r.dest);
    AddrRoundTrip(r.dest, []);
    assert a + [] == a && [] + a == a;
    if TlvType(r.kind) == MP_EXT {
      MetricRoundTrip(r.metric, ExternalBytes(rid, r.ext) + a);
      ExternalRoundTrip(rid, r.ext, a);
    } else {
      MetricRoundTrip(r.metric, a);
    }
  }

  /** The fixed fields at the front of an encoding, and what follows them. */
  lemma BodyFields(rid: uint32, r: TlvRoute)
    requires Encodable(r)
    ensures var body := BodyBytes(rid, r);
            && body[..2] == Be(2, AF_IPV4) && body[2..4] == Be(2, 0) && body[4..8] == Be(4, rid)
            && body[HEADER_EXT..] == MetricBytes(r.metric)
                                     + ((if TlvType(r.kind) == MP_EXT then ExternalBytes(rid, r.ext) else [])
                                        + AddrBytes(r.dest))
  {
  }

  lemma BodyLength(rid: uint32, r: TlvRoute)
    requires Encodable(r)
    ensures Minimum(TlvType(r.kind)) <= HDR + |BodyBytes(rid, r)| <= Minimum(TlvType(r.kind)) + 4
  {
  }

  /** The header of an encoding, as the decoder reads it off the packet. */
  lemma HeaderReads(rid: uint32, r: TlvRoute, b: Bytes)
    requires Encodable(r) && |b| >= |Encoded(rid, r)| && b[..|Encoded(rid, r)|] == Encoded(rid, r)
    ensures |b| >= HDR && Num2(b[..2]) == TlvType(r.kind) && Num2(b[2..4]) == |Encoded(rid, r)|
  {
    var t := Encoded(rid, r);
    BodyLength(rid, r);
    assert b[..2] == t[..2] == Be(2, TlvType(r.kind)) && b[2..4] == t[2..4] == Be(2, |t|);
    Num2Be(TlvType(r.kind));
    Num2Be(|t|);
  }

  lemma InsideReads(rid: uint32, r: TlvRoute)
    requires Encodable(r)
    ensures Inside(TlvType(r.kind), Encoded(rid, r)) == Some(Some(Normalised(rid, r)))
  {
    var t, body := Encoded(rid, r), BodyBytes(rid, r);
    BodyFields(rid, r);
    assert t[HDR..] == body;
    assert t[4..6] == body[..2] && t[6..8] == body[2..4] && t[8..12] == body[4..8] && t[12..] == body[HEADER_EXT..];
    Num2Be(AF_IPV4);
    Num2Be(0);
    Num4Be(rid);
    SectionsRoundTrip(rid, r, t[12..]);
  }

  /** For every route the encoder accepts, and whatever follows it in the packet, the decoder moves past
      exactly the encoded bytes and returns the route up to the normalisations. */
  lemma RoundTrip(rid: uint32, r: TlvRoute, rest: Bytes)
    requires Encodable(r)
    ensures Decode(Encoded(rid, r) + rest) == Decoded(Some(Normalised(rid, r)), |Encoded(rid, r)|)
  {
    var t, b := Encoded(rid, r), Encoded(rid, r) + rest;
    BodyLength(rid, r);
    HeaderReads(rid, r, b);
    assert b[..|t|] == t;
    InsideReads(rid, r);
  }

  // ----- extended attributes -----

  /** A metric section with `n` words of attributes. */
  function WithAttributes(m: Metrics, n: uint8, block: Bytes): Bytes {
    [n] + MetricBytes(m)[1..] + block
  }

  /** However many words of attributes follow the metric, and whatever they are, the metric is read as without them,
      and what comes after them is read next. */
  lemma AttributesSkipped(m: Metrics, n: uint8, block: Bytes, rest: Bytes)
    requires |block| == 2 * n
    ensures MetricDecode(WithAttributes(m, n, block) + rest)
         == Parsed(m.(delay := Carried(m.delay), bandwidth := Carried(m.bandwidth)), rest)
  {
    var s, t := WithAttributes(m, n, block) + rest, MetricBytes(m) + (block + rest);
    assert s[1..] == t[1..];
    MetricRoundTrip(m, block + rest);
    MetricOfTail(s, t);
    assert s[METRIC_SIZE + 2 * n..] == rest;
  }

  /** The metric is read from the bytes behind the attribute count. */
  lemma MetricOfTail(s: Bytes, t: Bytes)
    requires |s| >= METRIC_SIZE && |t| >= METRIC_SIZE && s[1..] == t[1..]
    ensures MetricOf(s) == MetricOf(t)
  {
    assert forall i :: 1 <= i < METRIC_SIZE ==> s[i] == s[1..][i - 1] && t[i] == t[1..][i - 1];
    assert s[8..14] == t[8..14] && s[14..20] == t[14..20] && s[22..24] == t[22..24];
  }

  /** The sections behind the metric. */
  function Closing(rid: uint32, r: TlvRoute): Bytes
    requires Encodable(r)
  {
    (if TlvType(r.kind) == MP_EXT then ExternalBytes(rid, r.ext) else []) + AddrBytes(r.dest)
  }

  /** A wide TLV for the route, with attributes as another router may send them. */
  function EncodedWith(rid: uint32, r: TlvRoute, n: uint8, block: Bytes): Bytes
    requires Encodable(r) && |block| == 2 * n
  {
    var sections := WithAttributes(r.metric, n, block) + Closing(rid, r);
    Be(2, TlvType(r.kind)) + Be(2, HDR + HEADER_EXT + |sections|)
    + (Be(2, AF_IPV4) + Be(2, 0) + Be(4, rid) + sections)
  }

  /** Attributes change nothing about the route that is read. */
  lemma AttributesIgnored(rid: uint32, r: TlvRoute, n: uint8, block: Bytes, rest: Bytes)
    requires Encodable(r) && |block| == 2 * n
    ensures var t := EncodedWith(rid, r, n, block);
            Decode(t + rest) == Decoded(Some(Normalised(rid, r)), |t|)
  {
    var t, b := EncodedWith(rid, r, n, block), EncodedWith(rid, r, n, block) + rest;
    var sections := WithAttributes(r.metric, n, block) + Closing(rid, r);
    WithFields(rid, r, n, block);
    assert b[..2] == t[..2] && b[2..4] == t[2..4] && b[..|t|] == t;
    Num2Be(TlvType(r.kind));
    Num2Be(|t|);
    Num2Be(AF_IPV4);
    Num2Be(0);
    Num4Be(rid);
    SectionsWith(rid, r, n, block);
  }

  lemma WithFields(rid: uint32, r: TlvRoute, n: uint8, block: Bytes)
    requires Encodable(r) && |block| == 2 * n
    ensures var t, sections := EncodedWith(rid, r, n, block), WithAttributes(r.metric, n, block) + Closing(rid, r);
            && Minimum(TlvType(r.kind)) <= |t| == HDR + HEADER_EXT + |sections| < 0x1_0000
            && t[..2] == Be(2, TlvType(r.kind)) && t[2..4] == Be(2, |t|)
            && t[4..6] == Be(2, AF_IPV4) && t[6..8] == Be(2, 0) && t[8..12] == Be(4, rid) && t[12..] == sections
  {
  }

  lemma SectionsWith(rid: uint32, r: TlvRoute, n: uint8, block: Bytes)
    requires Encodable(r) && |block| == 2 * n
    ensures SectionsDecode(TlvType(r.kind), rid, WithAttributes(r.metric, n, block) + Closing(rid, r))
         == Some(Normalised(rid, r))
  {
    var a := AddrBytes(r.dest);
    AddrRoundTrip(r.dest, []);
    assert a + [] == a && [] + a == a;
    AttributesSkipped(r.metric, n, block, Closing(rid, r));
    if TlvType(r.kind) == MP_EXT {
      ExternalRoundTrip(rid, r.ext, a);
    }
  }

  /** A route that the outbound filter rejects arrives with the infinite delay, and is otherwise what would have
      arrived. */
  lemma FilteredArrives(rid: uint32, r: TlvRoute, rest: Bytes)
    requires Encodable(r)
    ensures var plain := Normalised(rid, r);
            Decode(Encoded(rid, Offered(r, true)) + rest).route
            == Some(plain.(metric := plain.metric.(delay := MAX_METRIC)))
    ensures Offered(r, false) == r
  {
    RoundTrip(rid, Offered(r, true), rest);
  }

  lemma CarriedExactly(v: uint64)
    ensures Carried(v) == v <==> v < INACCESSIBLE
  {
  }

  /** A route survives the round trip unchanged exactly if it was built by a decoder from a TLV whose
      components are below the 48-bit infinity: this is what can be sent without loss. */
  lemma LosslessExactly(rid: uint32, r: TlvRoute)
    requires Encodable(r)
    ensures Normalised(rid, r) == r <==>
            && r.nexthop == 0 && r.metric.delay < INACCESSIBLE && r.metric.bandwidth < INACCESSIBLE
            && r.dest.addr[AddrLen(r.dest.prefixlen)..] == Zeros(4 - AddrLen(r.dest.prefixlen))
            && (if TlvType(r.kind) == MP_EXT then r.kind == IPV4_EXT && (r.ext.orig != 0 || rid == 0) && r.ext.tag == 0
                else r.kind == IPV4_INT && r.ext == NO_EXTDATA.(orig := rid))
  {
    CarriedExactly(r.metric.delay);
    CarriedExactly(r.metric.bandwidth);
    var n := AddrLen(r.dest.prefixlen);
    assert r.dest.addr == r.dest.addr[..n] + r.dest.addr[n..];
    assert Clean(r.dest).addr[n..] == Zeros(4 - n);
  }

  /** A second round trip through the same router loses nothing more. */
  lemma NormalisedOnce(rid: uint32, r: TlvRoute)
    requires Encodable(r)
    ensures Encodable(Normalised(rid, r)) && Normalised(rid, Normalised(rid, r)) == Normalised(rid, r)
  {
    LosslessExactly(rid, Normalised(rid, r));
    var n := AddrLen(r.dest.prefixlen);
    assert Clean(r.dest).addr[n..] == Zeros(4 - n);
  }
}
