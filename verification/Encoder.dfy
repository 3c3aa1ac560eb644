/**
 The TLV encoders on the cursor stream: sections are appended, the length is patched in afterwards, and a
 route that cannot be encoded leaves no trace.
 */
module Encoder {
  import opened Words
  import opened Metric
  import opened Wire
  import S = Stream
  import opened Tlv2
  import opened Tlv1

  /** The bytes an address takes, if the prefix length is one. */
  function AddrSize(d: Dest4): nat {
    if d.prefixlen <= 32 then 1 + AddrLen(d.prefixlen) else 0
  }

  /** The room the encoders write to for a route: for an encodable one, exactly the size of its encoding. */
  function Sections2Size(r: TlvRoute): nat {
    METRIC_SIZE + (if TlvType(r.kind) == MP_EXT then EXTDATA_SIZE else 0) + AddrSize(r.dest)
  }

  function Needed2(r: TlvRoute): nat {
    if TlvType(r.kind) == 0 then 0 else HDR + HEADER_EXT + Sections2Size(r)
  }

  function Sections1Size(r: TlvRoute): nat {
    METRIC1_SIZE + (if TlvType1(r.kind) == IPV4_EXT then EXTDATA1_SIZE else 0) + AddrSize(r.dest)
  }

  function Needed1(r: TlvRoute): nat {
    if TlvType1(r.kind) == 0 then 0 else HDR + NEXTHOP_SIZE + Sections1Size(r)
  }

  lemma NeededIsLength(rid: uint32, r: TlvRoute)
    ensures Encodable(r) ==> Needed2(r) == |Encoded(rid, r)|
    ensures Encodable1(r) ==> Needed1(r) == |Encoded1(r)|
  {
  }

  /** `value >> 8 * n`. */
  function Shifted(value: nat, n: nat): nat {
    if n == 0 then value else Shifted(value, n - 1) / 0x100
  }

  /** `eigrp_tlv2_put48`. */
  method Put48(pkt: S.Stream, value: uint64)
    requires pkt.Valid() && pkt.Room() >= 6
    modifies pkt`endp, pkt.data
    ensures pkt.Valid() && pkt.Written() == old(pkt.Written()) + Be(6, value)
  {
    var k := 0;
    while k < 6
      invariant 0 <= k <= 6 && pkt.Valid() && pkt.endp == old(pkt.endp) + k
      invariant pkt.Written() == old(pkt.Written()) + Be(k, Shifted(value, 6 - k))
    {
      pkt.PutC(Shifted(value, 5 - k) % 0x100);
      k := k + 1;
    }
  }

  /** `eigrp_tlv2_metric_encode`. */
  method MetricEncode2(pkt: S.Stream, m: Metrics)
    requires pkt.Valid() && pkt.Room() >= METRIC_SIZE
    modifies pkt`endp, pkt.data
    ensures pkt.Valid() && pkt.Written() == old(pkt.Written()) + MetricBytes(m)
  {
    ghost var was := pkt.Written();
    PutOctets(pkt, 0, m.tag, m.reliability, m.load);
    PutOctets(pkt, m.mtu2, m.mtu1, m.mtu0, m.hopCount);
    ghost var octets := [0, m.tag, m.reliability, m.load, m.mtu2, m.mtu1, m.mtu0, m.hopCount];
    assert pkt.Written() == was + octets;
    ComponentsEncode(pkt, m);
    Assoc(was, octets, ComponentBytes(m));
    assert octets + ComponentBytes(m) == MetricBytes(m);
  }

  function ComponentBytes(m: Metrics): Bytes {
    Be(6, Widened(m.delay)) + Be(6, Widened(m.bandwidth)) + Be(2, 0) + Be(2, m.flags)
  }

  method ComponentsEncode(pkt: S.Stream, m: Metrics)
    requires pkt.Valid() && pkt.Room() >= 16
    modifies pkt`endp, pkt.data
    ensures pkt.Valid() && pkt.Written() == old(pkt.Written()) + ComponentBytes(m)
  {
    ghost var was := pkt.Written();
    var d := if m.delay == MAX_METRIC then INACCESSIBLE else m.delay;
    var b := if m.bandwidth == MAX_METRIC then INACCESSIBLE else m.bandwidth;
    Put48(pkt, d);
    Put48(pkt, b);
    Assoc(was, Be(6, d), Be(6, b));
    pkt.PutW(0);
    Assoc(was, Be(6, d) + Be(6, b), Be(2, 0));
    pkt.PutW(m.flags);
    Assoc(was, Be(6, d) + Be(6, b) + Be(2, 0), Be(2, m.flags));
  }

  method PutOctets(pkt: S.Stream, a: uint8, b: uint8, c: uint8, d: uint8)
    requires pkt.Valid() && pkt.Room() >= 4
    modifies pkt`endp, pkt.data
    ensures pkt.Valid() && pkt.Written() == old(pkt.Written()) + [a, b, c, d]
  {
    pkt.PutC(a);
    pkt.PutC(b);
    pkt.PutC(c);
    pkt.PutC(d);
  }

  /** `eigrp_tlv2_external_encode`. */
  method ExternalEncode2(pkt: S.Stream, rid: uint32, x: Extdata)
    requires pkt.Valid() && pkt.Room() >= EXTDATA_SIZE
    modifies pkt`endp, pkt.data
    ensures pkt.Valid() && pkt.Written() == old(pkt.Written()) + ExternalBytes(rid, x)
  {
    ghost var was := pkt.Written();
    var orig := if x.orig != 0 then x.orig else rid;
    pkt.PutL(orig);
    pkt.PutL(x.asn);
    Assoc(was, Be(4, orig), Be(4, x.asn));
    pkt.PutL(x.metric);
    Assoc(was, Be(4, orig) + Be(4, x.asn), Be(4, x.metric));
    pkt.PutW(x.reserved);
    Assoc(was, Be(4, orig) + Be(4, x.asn) + Be(4, x.metric), Be(2, x.reserved));
    ghost var front := Be(4, orig) + Be(4, x.asn) + Be(4, x.metric) + Be(2, x.reserved);
    PutPair(pkt, x.protocol, x.flags);
    Assoc(was, front, [x.protocol, x.flags]);
  }

  method PutPair(pkt: S.Stream, a: uint8, b: uint8)
    requires pkt.Valid() && pkt.Room() >= 2
    modifies pkt`endp, pkt.data
    ensures pkt.Valid() && pkt.Written() == old(pkt.Written()) + [a, b]
  {
    pkt.PutC(a);
    pkt.PutC(b);
  }

  /** `eigrp_tlv2_addr_encode`, and the same code for the classic TLV. */
  method AddrEncode(pkt: S.Stream, d: Dest4) returns (encoded: nat)
    requires pkt.Valid() && pkt.Room() >= AddrSize(d) && |d.addr| == 4
    modifies pkt`endp, pkt.data
    ensures pkt.Valid()
    ensures if d.prefixlen > 32 then encoded == 0 && pkt.Written() == old(pkt.Written())
            else encoded == |AddrBytes(d)| > 0 && pkt.Written() == old(pkt.Written()) + AddrBytes(d)
  {
    if d.prefixlen > 32 {
      return 0;
    }
    ghost var was := pkt.Written();
    var n := AddrLen(d.prefixlen);
    pkt.PutC(d.prefixlen);
    for i := 0 to n
      invariant pkt.Valid() && pkt.endp == |was| + 1 + i && pkt.Written() == was + ([d.prefixlen] + d.addr[..i])
    {
      pkt.PutC(d.addr[i]);
    }
    encoded := 1 + n;
  }

  /** Patching the length of a finished TLV touches its two length bytes and nothing else. */
  method PatchLength(pkt: S.Stream, start: nat) returns (length: nat)
    requires pkt.Valid() && pkt.getp <= start && start + HDR <= pkt.endp < start + 0x1_0000
    modifies pkt`endp, pkt.data
    ensures pkt.Valid() && length == old(pkt.endp) - start && pkt.endp == old(pkt.endp)
    ensures var w := old(pkt.Written());
            pkt.Written() == w[..start + 2] + Be(2, length) + w[start + HDR..]
  {
    ghost var w := pkt.Written();
    var tlvEnd := pkt.endp;
    length := tlvEnd - start;
    pkt.SetEndp(start + 2);
    pkt.PutW(length);
    assert pkt.data[..start + HDR] == w[..start + 2] + Be(2, length);
    assert pkt.data[start + HDR..][..tlvEnd - start - HDR] == w[start + HDR..];
    assert pkt.data[..tlvEnd] == pkt.data[..start + HDR] + w[start + HDR..];
    pkt.SetEndp(tlvEnd);
  }

  /** The header with its length still open, and the extension of a wide TLV. */
  method HeaderEncode2(pkt: S.Stream, tlvType: uint16, rid: uint32)
    requires pkt.Valid() && pkt.Room() >= HDR + HEADER_EXT
    modifies pkt`endp, pkt.data
    ensures pkt.Valid() && pkt.Written() == old(pkt.Written()) + Header2(tlvType, rid)
  {
    ghost var was := pkt.Written();
    pkt.PutW(tlvType);
    pkt.PutW(0);
    Assoc(was, Be(2, tlvType), Be(2, 0));
    pkt.PutW(AF_IPV4);
    Assoc(was, Be(2, tlvType) + Be(2, 0), Be(2, AF_IPV4));
    pkt.PutW(0);
    Assoc(was, Be(2, tlvType) + Be(2, 0) + Be(2, AF_IPV4), Be(2, 0));
    pkt.PutL(rid);
    Assoc(was, Be(2, tlvType) + Be(2, 0) + Be(2, AF_IPV4) + Be(2, 0), Be(4, rid));
  }

  function Header2(tlvType: uint16, rid: uint32): (s: Bytes)
    ensures |s| == HDR + HEADER_EXT
  {
    Be(2, tlvType) + Be(2, 0) + Be(2, AF_IPV4) + Be(2, 0) + Be(4, rid)
  }

  /** The sections of a wide TLV after its header. */
  function Sections2Bytes(rid: uint32, r: TlvRoute): Bytes
    requires Encodable(r)
  {
    MetricBytes(r.metric) + (if TlvType(r.kind) == MP_EXT then ExternalBytes(rid, r.ext) else []) + AddrBytes(r.dest)
  }

  method SectionsEncode2(pkt: S.Stream, rid: uint32, r: TlvRoute) returns (encoded: nat)
    requires pkt.Valid() && pkt.Room() >= Sections2Size(r) && RouteOk(r) && TlvType(r.kind) != 0
    modifies pkt`endp, pkt.data
    ensures pkt.Valid() && old(pkt.endp) <= pkt.endp && pkt.Written()[..old(pkt.endp)] == old(pkt.Written())
    ensures encoded == 0 <==> r.dest.prefixlen > 32
    ensures encoded > 0 ==> pkt.Written() == old(pkt.Written()) + Sections2Bytes(rid, r)
  {
    ghost var was := pkt.Written();
    var ext := TlvType(r.kind) == MP_EXT;
    ghost var x := if ext then ExternalBytes(rid, r.ext) else [];
    MetricEncode2(pkt, r.metric);
    if ext {
      ExternalEncode2(pkt, rid, r.ext);
    }
    assert pkt.Written() == was + MetricBytes(r.metric) + x;
    Assoc(was, MetricBytes(r.metric), x);
    encoded := AddrEncode(pkt, r.dest);
    if encoded > 0 {
      Assoc(was, MetricBytes(r.metric) + x, AddrBytes(r.dest));
    }
  }

  /** With the length patched in, header and sections are the encoding. */
  lemma PatchedIsEncoded(rid: uint32, r: TlvRoute, w: Bytes, was: Bytes)
    requires Encodable(r) && w == was + Header2(TlvType(r.kind), rid) + Sections2Bytes(rid, r)
    ensures |w| - |was| == |Encoded(rid, r)| <= MOST_WIDE
    ensures w[..|was| + 2] + Be(2, |w| - |was|) + w[|was| + HDR..] == was + Encoded(rid, r)
  {
    var h, s := Header2(TlvType(r.kind), rid), Sections2Bytes(rid, r);
    BodyLength(rid, r);
    HeaderTail(rid, r);
    Patched(was, h, s, Be(2, |w| - |was|));
  }

  /** Replacing two bytes of a header behind `was` leaves the rest of the stream. */
  lemma Patched(was: Bytes, h: Bytes, s: Bytes, length: Bytes)
    requires |h| >= HDR
    ensures var w := was + h + s;
            w[..|was| + 2] + length + w[|was| + HDR..] == was + (h[..2] + length + (h[HDR..] + s))
  {
    var w := was + h + s;
    assert w[..|was| + 2] == was + h[..2];
    assert w[|was| + HDR..] == h[HDR..] + s;
    Assoc(was, h[..2], length);
    Assoc(was, h[..2] + length, h[HDR..] + s);
  }

  lemma HeaderTail(rid: uint32, r: TlvRoute)
    requires Encodable(r)
    ensures Header2(TlvType(r.kind), rid)[HDR..] + Sections2Bytes(rid, r) == BodyBytes(rid, r)
    ensures Header2(TlvType(r.kind), rid)[..2] == Be(2, TlvType(r.kind))
  {
    var x := if TlvType(r.kind) == MP_EXT then ExternalBytes(rid, r.ext) else [];
    var e := Be(2, AF_IPV4) + Be(2, 0) + Be(4, rid);
    assert Header2(TlvType(r.kind), rid)[HDR..] == e;
    Assoc(e, MetricBytes(r.metric), x);
    Assoc(e, MetricBytes(r.metric) + x, AddrBytes(r.dest));
  }

  lemma PrefixKept(all: Bytes, mid: Bytes, was: Bytes)
    requires |was| <= |mid| <= |all| && all[..|mid|] == mid && mid[..|was|] == was
    ensures all[..|was|] == was
  {
    assert all[..|mid|][..|was|] == all[..|was|];
  }

  /** Giving up: what was appended since `start` is dropped. */
  method Rollback(pkt: S.Stream, start: nat)
    requires pkt.Valid() && pkt.getp <= start <= pkt.endp
    modifies pkt`endp
    ensures pkt.Valid() && pkt.Written() == old(pkt.Written())[..start]
  {
    pkt.SetEndp(start);
  }

  /** A route of known type: its encoding, or nothing. */
  method EncodeKnown2(pkt: S.Stream, rid: uint32, r: TlvRoute) returns (length: nat)
    requires pkt.Valid() && pkt.Room() >= Needed2(r) && RouteOk(r) && TlvType(r.kind) != 0
    modifies pkt`endp, pkt.data
    ensures pkt.Valid()
    ensures if r.dest.prefixlen <= 32 then
              length == |Encoded(rid, r)| && pkt.Written() == old(pkt.Written()) + Encoded(rid, r)
            else length == 0 && pkt.Written() == old(pkt.Written())
  {
    ghost var was := pkt.Written();
    var start := pkt.endp;
    HeaderEncode2(pkt, TlvType(r.kind), rid);
    ghost var mid := pkt.Written();
    var encoded := SectionsEncode2(pkt, rid, r);
    if encoded == 0 {
      PrefixKept(pkt.Written(), mid, was);
      Rollback(pkt, start);
      return 0;
    }
    PatchedIsEncoded(rid, r, pkt.Written(), was);
    length := PatchLength(pkt, start);
  }

  /** `eigrp_tlv2_encoder`, given room for what it writes: it appends the encoding of the route, whose
      length field is the number of bytes appended and returned, or leaves what was written as it was. A
      filtered route is made unreachable for good. */
  method Encoder2(pkt: S.Stream, rid: uint32, r: TlvRoute, filtered: bool) returns (length: nat, r': TlvRoute)
    requires pkt.Valid() && pkt.Room() >= Needed2(r) && RouteOk(r)
    modifies pkt`endp, pkt.data
    ensures pkt.Valid() && r' == Offered(r, filtered)
    ensures if Encodable(r) then length == |Encoded(rid, r')| && pkt.Written() == old(pkt.Written()) + Encoded(rid, r')
            else length == 0 && pkt.Written() == old(pkt.Written())
  {
    r' := if filtered then r.(metric := r.metric.(delay := MAX_METRIC)) else r;
    if TlvType(r'.kind) == 0 {
      return 0, r';
    }
    length := EncodeKnown2(pkt, rid, r');
  }

  // ----- the classic TLV -----

  /** `eigrp_tlv1_metric_encode`: the delay scaled down, the bandwidth cut to 32 bits. */
  method MetricEncode1(pkt: S.Stream, m: Metrics)
    requires pkt.Valid() && pkt.Room() >= METRIC1_SIZE
    modifies pkt`endp, pkt.data
    ensures pkt.Valid() && pkt.Written() == old(pkt.Written()) + MetricBytes1(m)
  {
    ghost var was := pkt.Written();
    pkt.PutL(DelayToScaled(m.delay));
    Cut32(m.bandwidth);
    pkt.PutL(m.bandwidth % 0x1_0000_0000);
    ghost var a := Be(4, DelayToScaled(m.delay));
    Assoc(was, a, Be(4, m.bandwidth));
    PutOctets(pkt, m.mtu2, m.mtu1, m.mtu0, m.hopCount);
    PutOctets(pkt, m.reliability, m.load, m.tag, m.flags);
    ghost var octets := [m.mtu2, m.mtu1, m.mtu0, m.hopCount, m.reliability, m.load, m.tag, m.flags];
    assert pkt.Written() == was + (a + Be(4, m.bandwidth)) + octets;
    Assoc(was, a + Be(4, m.bandwidth), octets);
  }

  /** Writing the low 32 bits is writing the low four bytes. */
  lemma Cut32(v: uint64)
    ensures Be(4, v % 0x1_0000_0000) == Be(4, v)
  {
    var low := v % 0x1_0000_0000;
    var q := v / 0x1_0000_0000;
    CutStep(v, low, q, 0x100_0000);
    CutStep(v / 0x100, low / 0x100, q, 0x1_0000);
    CutStep(v / 0x100 / 0x100, low / 0x100 / 0x100, q, 0x100);
    CutStep(v / 0x100 / 0x100 / 0x100, low / 0x100 / 0x100 / 0x100, q, 1);
    assert Be(1, v / 0x100 / 0x100 / 0x100) == Be(1, low / 0x100 / 0x100 / 0x100);
    assert Be(2, v / 0x100 / 0x100) == Be(2, low / 0x100 / 0x100);
    assert Be(3, v / 0x100) == Be(3, low / 0x100);
  }

  lemma CutStep(v: nat, low: nat, q: nat, m: nat)
    requires v == 0x100 * m * q + low
    ensures v % 0x100 == low % 0x100 && v / 0x100 == m * q + low / 0x100
  {
    assert v == 0x100 * (m * q + low / 0x100) + low % 0x100;
    DivModUnique(v, 0x100, m * q + low / 0x100, low % 0x100);
  }

  /** `eigrp_tlv1_external_encode`. */
  method ExternalEncode1(pkt: S.Stream, x: Extdata)
    requires pkt.Valid() && pkt.Room() >= EXTDATA1_SIZE
    modifies pkt`endp, pkt.data
    ensures pkt.Valid() && pkt.Written() == old(pkt.Written()) + ExternalBytes1(x)
  {
    ghost var was := pkt.Written();
    pkt.PutL(x.orig);
    pkt.PutL(x.asn);
    Assoc(was, Be(4, x.orig), Be(4, x.asn));
    pkt.PutL(x.tag);
    Assoc(was, Be(4, x.orig) + Be(4, x.asn), Be(4, x.tag));
    pkt.PutL(x.metric);
    Assoc(was, Be(4, x.orig) + Be(4, x.asn) + Be(4, x.tag), Be(4, x.metric));
    pkt.PutW(x.reserved);
    Assoc(was, Be(4, x.orig) + Be(4, x.asn) + Be(4, x.tag) + Be(4, x.metric), Be(2, x.reserved));
    ghost var front := Be(4, x.orig) + Be(4, x.asn) + Be(4, x.tag) + Be(4, x.metric) + Be(2, x.reserved);
    PutPair(pkt, x.protocol, x.flags);
    Assoc(was, front, [x.protocol, x.flags]);
  }

  function Header1(tlvType: uint16, nexthop: uint32): (s: Bytes)
    ensures |s| == HDR + NEXTHOP_SIZE
  {
    Be(2, tlvType) + Be(2, 0) + Be(4, nexthop)
  }

  method HeaderEncode1(pkt: S.Stream, tlvType: uint16, nexthop: uint32)
    requires pkt.Valid() && pkt.Room() >= HDR + NEXTHOP_SIZE
    modifies pkt`endp, pkt.data
    ensures pkt.Valid() && pkt.Written() == old(pkt.Written()) + Header1(tlvType, nexthop)
  {
    ghost var was := pkt.Written();
    pkt.PutW(tlvType);
    pkt.PutW(0);
    Assoc(was, Be(2, tlvType), Be(2, 0));
    pkt.PutL(nexthop);
    Assoc(was, Be(2, tlvType) + Be(2, 0), Be(4, nexthop));
  }

  function Sections1Bytes(r: TlvRoute): Bytes
    requires Encodable1(r)
  {
    (if TlvType1(r.kind) == IPV4_EXT then ExternalBytes1(r.ext) else []) + MetricBytes1(r.metric) + AddrBytes(r.dest)
  }

  method SectionsEncode1(pkt: S.Stream, r: TlvRoute) returns (encoded: nat)
    requires pkt.Valid() && pkt.Room() >= Sections1Size(r) && RouteOk(r) && TlvType1(r.kind) != 0
    modifies pkt`endp, pkt.data
    ensures pkt.Valid() && old(pkt.endp) <= pkt.endp && pkt.Written()[..old(pkt.endp)] == old(pkt.Written())
    ensures encoded == 0 <==> r.dest.prefixlen > 32
    ensures encoded > 0 ==> pkt.Written() == old(pkt.Written()) + Sections1Bytes(r)
  {
    ghost var was := pkt.Written();
    var ext := TlvType1(r.kind) == IPV4_EXT;
    ghost var x := if ext then ExternalBytes1(r.ext) else [];
    if ext {
      ExternalEncode1(pkt, r.ext);
    }
    assert pkt.Written() == was + x;
    MetricEncode1(pkt, r.metric);
    Assoc(was, x, MetricBytes1(r.metric));
    encoded := AddrEncode(pkt, r.dest);
    if encoded > 0 {
      Assoc(was, x + MetricBytes1(r.metric), AddrBytes(r.dest));
    }
  }

  lemma PatchedIsEncoded1(r: TlvRoute, w: Bytes, was: Bytes)
    requires Encodable1(r) && w == was + Header1(TlvType1(r.kind), r.nexthop) + Sections1Bytes(r)
    ensures |w| - |was| == |Encoded1(r)| <= MOST_CLASSIC
    ensures w[..|was| + 2] + Be(2, |w| - |was|) + w[|was| + HDR..] == was + Encoded1(r)
  {
    var h, s := Header1(TlvType1(r.kind), r.nexthop), Sections1Bytes(r);
    BodyLength1(r);
    HeaderTail1(r);
    Patched(was, h, s, Be(2, |w| - |was|));
  }

  lemma HeaderTail1(r: TlvRoute)
    requires Encodable1(r)
    ensures Header1(TlvType1(r.kind), r.nexthop)[HDR..] + Sections1Bytes(r) == BodyBytes1(r)
    ensures Header1(TlvType1(r.kind), r.nexthop)[..2] == Be(2, TlvType1(r.kind))
  {
    var x := if TlvType1(r.kind) == IPV4_EXT then ExternalBytes1(r.ext) else [];
    assert Header1(TlvType1(r.kind), r.nexthop)[HDR..] == Be(4, r.nexthop);
    Assoc(Be(4, r.nexthop), x, MetricBytes1(r.metric));
    Assoc(Be(4, r.nexthop), x + MetricBytes1(r.metric), AddrBytes(r.dest));
  }

  method EncodeKnown1(pkt: S.Stream, r: TlvRoute) returns (length: nat)
    requires pkt.Valid() && pkt.Room() >= Needed1(r) && RouteOk(r) && TlvType1(r.kind) != 0
    modifies pkt`endp, pkt.data
    ensures pkt.Valid()
    ensures if r.dest.prefixlen <= 32 then length == |Encoded1(r)| && pkt.Written() == old(pkt.Written()) + Encoded1(r)
            else length == 0 && pkt.Written() == old(pkt.Written())
  {
    ghost var was := pkt.Written();
    var start := pkt.endp;
    HeaderEncode1(pkt, TlvType1(r.kind), r.nexthop);
    ghost var mid := pkt.Written();
    var encoded := SectionsEncode1(pkt, r);
    if encoded == 0 {
      PrefixKept(pkt.Written(), mid, was);
      Rollback(pkt, start);
      return 0;
    }
    PatchedIsEncoded1(r, pkt.Written(), was);
    length := PatchLength(pkt, start);
  }

  /** `eigrp_tlv1_encoder`, given room for what it writes. */
  method Encoder1(pkt: S.Stream, r: TlvRoute, filtered: bool) returns (length: nat, r': TlvRoute)
    requires pkt.Valid() && pkt.Room() >= Needed1(r) && RouteOk(r)
    modifies pkt`endp, pkt.data
    ensures pkt.Valid() && r' == Offered(r, filtered)
    ensures if Encodable1(r) then length == |Encoded1(r')| && pkt.Written() == old(pkt.Written()) + Encoded1(r')
            else length == 0 && pkt.Written() == old(pkt.Written())
  {
    r' := if filtered then r.(metric := r.metric.(delay := MAX_METRIC)) else r;
    if TlvType1(r'.kind) == 0 {
      return 0, r';
    }
    length := EncodeKnown1(pkt, r');
  }

  // ----- mixed interfaces -----

  /** `eigrp_packet_encoder_both`: both encodings or neither. */
  method EncoderBoth(pkt: S.Stream, rid: uint32, r: TlvRoute, filtered: bool) returns (length: nat, r': TlvRoute)
    requires pkt.Valid() && pkt.Room() >= Needed1(r) + Needed2(r) && RouteOk(r)
    modifies pkt`endp, pkt.data
    ensures pkt.Valid() && r' == Offered(r, filtered)
    ensures if EncodableBoth(r) then
              length == |EncodedBoth(rid, r')| && pkt.Written() == old(pkt.Written()) + EncodedBoth(rid, r')
            else length == 0 && pkt.Written() == old(pkt.Written())
  {
    ghost var was := pkt.Written();
    var start := pkt.endp;
    var len1, r1 := Encoder1(pkt, r, filtered);
    BoundBoth(rid, r1);
    NeededIsLength(rid, r1);
    var len2;
    len2, r' := Encoder2(pkt, rid, r1, filtered);
    if len1 == 0 || len2 == 0 {
      assert pkt.Written()[..start] == was;
      Rollback(pkt, start);
      return 0, r';
    }
    Assoc(was, Encoded1(r'), Encoded(rid, r'));
    length := len1 + len2;
  }

  lemma BoundBoth(rid: uint32, r: TlvRoute)
    ensures Encodable1(r) ==> 0 < |Encoded1(r)| <= MOST_CLASSIC
    ensures Encodable(r) ==> 0 < |Encoded(rid, r)| <= MOST_WIDE
  {
    if Encodable1(r) {
      BodyLength1(r);
    }
    if Encodable(r) {
      BodyLength(rid, r);
    }
  }
}
