/** The classic TLV decoder on the cursor stream. */
module Codec1 {
  import opened Words
  import opened Metric
  import S = Stream
  import opened Tlv2
  import opened Wire
  import opened Tlv1
  import opened Codec

  /** `eigrp_tlv1_metric_decode`. */
  method MetricRead1(pkt: S.Stream) returns (m: Option<Metrics>)
    requires pkt.Valid()
    modifies pkt`getp
    ensures pkt.Valid() && m.Some? == MetricDecode1(old(pkt.Unread())).Parsed?
    ensures m.Some? ==> MetricDecode1(old(pkt.Unread())) == Parsed(m.value, pkt.Unread())
  {
    ghost var s, g := pkt.Unread(), pkt.getp;
    if pkt.endp - pkt.getp < METRIC1_SIZE {
      return None;
    }
    Sub(pkt.data[..], g, pkt.endp, 0, 4);
    Sub(pkt.data[..], g, pkt.endp, 4, 8);
    var scaled := pkt.GetL();
    var bandwidth := pkt.GetL();
    var mtu2 := pkt.GetC();
    var mtu1 := pkt.GetC();
    var mtu0 := pkt.GetC();
    var hopCount := pkt.GetC();
    var reliability := pkt.GetC();
    var load := pkt.GetC();
    var tag := pkt.GetC();
    var flags := pkt.GetC();
    assert pkt.Unread() == s[METRIC1_SIZE..];
    m := Some(Metrics(ScaledToDelay(scaled), bandwidth, mtu0, mtu1, mtu2, hopCount, reliability, load, tag, flags));
  }

  /** Four numbers in a row. */
  method GetL4(pkt: S.Stream) returns (a: uint32, b: uint32, c: uint32, d: uint32)
    requires pkt.getp + 16 <= pkt.endp <= pkt.data.Length
    modifies pkt`getp
    ensures pkt.getp == old(pkt.getp) + 16
    ensures var s := old(pkt.Unread());
            && a == Num4(s[..4]) && b == Num4(s[4..8]) && c == Num4(s[8..12]) && d == Num4(s[12..16])
  {
    ghost var g := pkt.getp;
    Sub(pkt.data[..], g, pkt.endp, 0, 4);
    Sub(pkt.data[..], g, pkt.endp, 4, 8);
    Sub(pkt.data[..], g, pkt.endp, 8, 12);
    Sub(pkt.data[..], g, pkt.endp, 12, 16);
    a := pkt.GetL();
    b := pkt.GetL();
    c := pkt.GetL();
    d := pkt.GetL();
  }

  /** `eigrp_tlv1_external_decode`. */
  method ExternalRead1(pkt: S.Stream) returns (x: Option<Extdata>)
    requires pkt.Valid()
    modifies pkt`getp
    ensures pkt.Valid() && x.Some? == ExternalDecode1(old(pkt.Unread())).Parsed?
    ensures x.Some? ==> ExternalDecode1(old(pkt.Unread())) == Parsed(x.value, pkt.Unread())
  {
    ghost var s, g := pkt.Unread(), pkt.getp;
    if pkt.endp - pkt.getp < EXTDATA1_SIZE {
      return None;
    }
    Sub(pkt.data[..], g, pkt.endp, 16, 18);
    var orig, asn, tag, metric := GetL4(pkt);
    var reserved := pkt.GetW();
    var protocol := pkt.GetC();
    var flags := pkt.GetC();
    assert pkt.Unread() == s[EXTDATA1_SIZE..];
    x := Some(Extdata(orig, asn, tag, metric, reserved, protocol, flags));
  }

  method ExteriorRead1(pkt: S.Stream, tlvType: uint16) returns (x: Option<Extdata>)
    requires pkt.Valid()
    modifies pkt`getp
    ensures pkt.Valid() && x.Some? == Exterior1(tlvType, old(pkt.Unread())).Parsed?
    ensures x.Some? ==> Exterior1(tlvType, old(pkt.Unread())) == Parsed(x.value, pkt.Unread())
  {
    if tlvType == IPV4_EXT {
      x := ExternalRead1(pkt);
    } else {
      x := Some(NO_EXTDATA);
    }
  }

  /** `eigrp_tlv1_nexthop_decode`: the next hop is checked for, reported as read, and not read. */
  method NextHopDecode(pkt: S.Stream) returns (bytes: nat)
    requires pkt.Valid()
    ensures bytes == if |pkt.Unread()| < NEXTHOP_SIZE then 0 else NEXTHOP_SIZE
  {
    bytes := if pkt.endp - pkt.getp < NEXTHOP_SIZE then 0 else NEXTHOP_SIZE;
  }

  method ClosingRead1(pkt: S.Stream) returns (md: Option<(Metrics, Dest4)>)
    requires pkt.Valid()
    modifies pkt`getp
    ensures pkt.Valid() && md.Some? == Closing1(old(pkt.Unread())).Parsed?
    ensures md.Some? ==> Closing1(old(pkt.Unread())) == Parsed(md.value, pkt.Unread())
  {
    var m := MetricRead1(pkt);
    if m.None? {
      return None;
    }
    var d := AddrDecode4(pkt);
    if d.None? {
      return None;
    }
    md := Some((m.value, d.value));
  }

  /** The sections of a classic TLV; `bytes` is the decoder's own count. */
  method Sections1(pkt: S.Stream, tlvType: uint16) returns (route: Option<TlvRoute>, bytes: nat)
    requires pkt.Valid()
    modifies pkt`getp
    ensures pkt.Valid()
    ensures SectionsDecode1(tlvType, old(pkt.Unread())) == if route.Some? then Some((route.value, bytes)) else None
  {
    route := None;
    ghost var n := |pkt.Unread()|;
    var hop := NextHopDecode(pkt);
    bytes := HDR + hop;
    if bytes != HDR + NEXTHOP_SIZE {
      return;
    }
    var start := pkt.getp;
    var x := ExteriorRead1(pkt, tlvType);
    if x.None? {
      return;
    }
    var md := ClosingRead1(pkt);
    if md.None? {
      return;
    }
    assert n - |pkt.Unread()| == pkt.getp - start;
    bytes := bytes + (pkt.getp - start);
    route := Some(TlvRoute(if tlvType == IPV4_EXT then IPV4_EXT else IPV4_INT, 0, md.value.0, x.value, md.value.1));
  }

  /** A TLV of known type and credible length. */
  method DecodeKnown1(pkt: S.Stream, tlvType: uint16, start: nat, length: nat) returns (route: Option<TlvRoute>)
    requires pkt.Valid() && pkt.getp == start + HDR && HDR <= length <= pkt.endp - start
    modifies pkt`getp, pkt`endp
    ensures pkt.Valid() && pkt.endp == old(pkt.endp)
    ensures var r := SectionsDecode1(tlvType, pkt.data[start + HDR..start + length]);
            && route == (if r.Some? && r.value.1 <= length then Some(r.value.0) else None)
            && pkt.getp == if route.Some? then start + length else pkt.endp
  {
    var tlvEnd, packetEnd := start + length, pkt.endp;
    pkt.SetEndp(tlvEnd);
    var bytes;
    route, bytes := Sections1(pkt, tlvType);
    if route.Some? && bytes > length {
      route := None;
    }
    pkt.SetEndp(packetEnd);
    pkt.SetGetp(if route.Some? then tlvEnd else packetEnd);
  }

  /** `eigrp_tlv1_decoder`: the end of the stream is restored on every path, and the read position is moved
      to the end of the TLV, or of the packet if the TLV is malformed. */
  method Decoder1(pkt: S.Stream) returns (route: Option<TlvRoute>)
    requires pkt.Valid()
    modifies pkt`getp, pkt`endp
    ensures pkt.Valid() && pkt.endp == old(pkt.endp)
    ensures var d := Decode1(old(pkt.Unread()));
            route == d.route && pkt.getp == old(pkt.getp) + d.used
  {
    var start, remaining := pkt.getp, pkt.endp - pkt.getp;
    if remaining < HDR {
      pkt.SetGetp(pkt.endp);
      return None;
    }
    var tlvType, length := ReadHeader(pkt);
    if tlvType != IPV4_INT && tlvType != IPV4_EXT {
      SkipOrAbort(pkt, start, length);
      return None;
    }
    if length < Minimum1(tlvType) || length > remaining {
      pkt.SetGetp(pkt.endp);
      return None;
    }
    Sub(pkt.data[..], start, pkt.endp, HDR, length);
    route := DecodeKnown1(pkt, tlvType, start, length);
  }
}
