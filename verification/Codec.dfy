/**
 The wide TLV decoder on the cursor stream. While a TLV is decoded the stream ends where the TLV ends, so
 every read below is a read inside the declared TLV.
 */
module Codec {
  import opened Words
  import opened Metric
  import opened Wire
  import S = Stream
  import opened Tlv2

  // ----- sections of the wide TLV, read -----

  /** `eigrp_tlv2_get48`. */
  method Get48(pkt: S.Stream) returns (value: nat)
    requires pkt.getp + 6 <= pkt.endp <= pkt.data.Length
    modifies pkt`getp
    ensures pkt.getp == old(pkt.getp) + 6
    ensures value == Num6(pkt.data[old(pkt.getp)..pkt.getp])
  {
    ghost var g := pkt.getp;
    value := 0;
    for i := 0 to 6
      invariant pkt.getp == g + i && value == Num(pkt.data[g..g + i])
    {
      var c := pkt.GetC();
      assert pkt.data[g..g + i + 1][..i] == pkt.data[g..g + i];
      value := value * 0x100 + c as int;
    }
  }

  lemma Sub(s: Bytes, g: nat, e: nat, a: nat, b: nat)
    requires g <= e <= |s| && a <= b <= e - g
    ensures s[g..e][a..b] == s[g + a..g + b]
  {
    assert forall i :: 0 <= i < b - a ==> s[g..e][a..b][i] == s[g + a..g + b][i];
  }

  /** The two 48-bit components and the flags, which close the fixed part of the metric section. */
  method Components(pkt: S.Stream) returns (delay: uint64, bandwidth: uint64, flags: uint8)
    requires pkt.getp + 16 <= pkt.endp <= pkt.data.Length
    modifies pkt`getp
    ensures pkt.getp == old(pkt.getp) + 16
    ensures var s := pkt.data[old(pkt.getp)..pkt.getp];
            && delay == Narrowed(Num6(s[..6])) && bandwidth == Narrowed(Num6(s[6..12]))
            && flags == Num2(s[14..16]) % 0x100
  {
    ghost var g := pkt.getp;
    Sub(pkt.data[..], g, g + 16, 0, 6);
    Sub(pkt.data[..], g, g + 16, 6, 12);
    Sub(pkt.data[..], g, g + 16, 14, 16);
    var d := Get48(pkt);
    var b := Get48(pkt);
    var reserved := pkt.GetW();
    var f := pkt.GetW();
    delay := if d == INACCESSIBLE then MAX_METRIC else d;
    bandwidth := if b == INACCESSIBLE then MAX_METRIC else b;
    flags := f % 0x100;
  }

  /** The fixed part of the metric section. */
  method MetricFixed(pkt: S.Stream) returns (attrWords: uint8, m: Metrics)
    requires pkt.getp + METRIC_SIZE <= pkt.endp <= pkt.data.Length
    modifies pkt`getp
    ensures pkt.getp == old(pkt.getp) + METRIC_SIZE
    ensures attrWords == old(pkt.Unread())[0] && m == MetricOf(old(pkt.Unread()))
  {
    ghost var s, g := pkt.Unread(), pkt.getp;
    Sub(pkt.data[..], g, pkt.endp, 8, 24);
    Sub(s, 8, 24, 0, 6);
    Sub(s, 8, 24, 6, 12);
    Sub(s, 8, 24, 14, 16);
    attrWords := pkt.GetC();
    var tag := pkt.GetC();
    var reliability := pkt.GetC();
    var load := pkt.GetC();
    var mtu2 := pkt.GetC();
    var mtu1 := pkt.GetC();
    var mtu0 := pkt.GetC();
    var hopCount := pkt.GetC();
    var delay, bandwidth, flags := Components(pkt);
    m := Metrics(delay, bandwidth, mtu0, mtu1, mtu2, hopCount, reliability, load, tag, flags);
  }

  /** `eigrp_tlv2_metric_decode`. */
  method MetricDecode2(pkt: S.Stream) returns (m: Option<Metrics>)
    requires pkt.Valid()
    modifies pkt`getp
    ensures pkt.Valid() && m.Some? == Tlv2.MetricDecode(old(pkt.Unread())).Parsed?
    ensures m.Some? ==> Tlv2.MetricDecode(old(pkt.Unread())) == Parsed(m.value, pkt.Unread())
  {
    ghost var s, g := pkt.Unread(), pkt.getp;
    if pkt.endp - pkt.getp < METRIC_SIZE {
      return None;
    }
    var attrWords, fixed := MetricFixed(pkt);
    var attrLen := attrWords as int * 2;
    if pkt.endp - pkt.getp < attrLen {
      return None;
    }
    for i := 0 to attrLen
      invariant pkt.getp == g + METRIC_SIZE + i
    {
      var _ := pkt.GetC();
    }
    assert pkt.Unread() == s[METRIC_SIZE + attrLen..];
    m := Some(fixed);
  }

  /** `eigrp_tlv2_external_decode`. */
  method ExternalDecode2(pkt: S.Stream) returns (x: Option<Extdata>)
    requires pkt.Valid()
    modifies pkt`getp
    ensures pkt.Valid() && x.Some? == Tlv2.ExternalDecode(old(pkt.Unread())).Parsed?
    ensures x.Some? ==> Tlv2.ExternalDecode(old(pkt.Unread())) == Parsed(x.value, pkt.Unread())
  {
    ghost var s, g := pkt.Unread(), pkt.getp;
    if pkt.endp - pkt.getp < EXTDATA_SIZE {
      return None;
    }
    var orig := pkt.GetL();
    var asn := pkt.GetL();
    var metric := pkt.GetL();
    var reserved := pkt.GetW();
    var protocol := pkt.GetC();
    var flags := pkt.GetC();
    assert s[..4] == pkt.data[g..g + 4] && s[4..8] == pkt.data[g + 4..g + 8] && s[8..12] == pkt.data[g + 8..g + 12];
    assert s[12..14] == pkt.data[g + 12..g + 14];
    assert pkt.Unread() == s[EXTDATA_SIZE..];
    x := Some(Extdata(orig, asn, 0, metric, reserved, protocol, flags));
  }

  /** `eigrp_tlv2_addr_decode`, and the same code for the classic TLV. */
  method AddrDecode4(pkt: S.Stream) returns (d: Option<Dest4>)
    requires pkt.Valid()
    modifies pkt`getp
    ensures pkt.Valid() && d.Some? == Tlv2.AddrDecode(old(pkt.Unread())).Parsed?
    ensures d.Some? ==> Tlv2.AddrDecode(old(pkt.Unread())) == Parsed(d.value, pkt.Unread())
  {
    ghost var s, g := pkt.Unread(), pkt.getp;
    if pkt.endp - pkt.getp < 1 {
      return None;
    }
    var prefixlen := pkt.GetC();
    if prefixlen > 32 {
      return None;
    }
    var n := AddrLen(prefixlen);
    if pkt.endp - pkt.getp < n {
      return None;
    }
    var addr: Bytes := [0, 0, 0, 0];
    for i := 0 to n
      invariant pkt.getp == g + 1 + i && addr == pkt.data[g + 1..g + 1 + i] + Zeros(4 - i)
    {
      var c := pkt.GetC();
      addr := addr[i := c];
    }
    assert s[1..1 + n] == pkt.data[g + 1..g + 1 + n];
    assert pkt.Unread() == s[1 + n..];
    d := Some(Dest4(prefixlen, addr));
  }

  method Sections2(pkt: S.Stream, tlvType: uint16, rid: uint32) returns (route: Option<TlvRoute>)
    requires pkt.Valid()
    modifies pkt`getp
    ensures pkt.Valid() && route == SectionsDecode(tlvType, rid, old(pkt.Unread()))
  {
    var m := MetricDecode2(pkt);
    if m.None? {
      return None;
    }
    var x := NO_EXTDATA.(orig := rid);
    if tlvType == MP_EXT {
      var ext := ExternalDecode2(pkt);
      if ext.None? {
        return None;
      }
      x := ext.value;
    }
    var d := AddrDecode4(pkt);
    if d.None? {
      return None;
    }
    return Some(TlvRoute(if tlvType == MP_EXT then IPV4_EXT else IPV4_INT, 0, m.value, x, d.value));
  }

  /** The header of a TLV that the decoder is not going to read: skipped if its length is credible, and the
      rest of the packet given up otherwise. */
  method SkipOrAbort(pkt: S.Stream, start: nat, length: uint16)
    requires pkt.getp <= pkt.endp <= pkt.data.Length && start + HDR == pkt.getp
    modifies pkt`getp
    ensures pkt.getp == if HDR <= length <= pkt.endp - start then start + length else pkt.endp
  {
    if HDR <= length <= pkt.endp - start {
      pkt.SetGetp(start + length);
    } else {
      pkt.SetGetp(pkt.endp);
    }
  }

  /** The type and the length of the next TLV. */
  method ReadHeader(pkt: S.Stream) returns (tlvType: uint16, length: uint16)
    requires pkt.getp + HDR <= pkt.endp <= pkt.data.Length
    modifies pkt`getp
    ensures pkt.getp == old(pkt.getp) + HDR
    ensures tlvType == Num2(old(pkt.Unread())[..2]) && length == Num2(old(pkt.Unread())[2..4])
  {
    Sub(pkt.data[..], pkt.getp, pkt.endp, 0, 2);
    Sub(pkt.data[..], pkt.getp, pkt.endp, 2, 4);
    tlvType := pkt.GetW();
    length := pkt.GetW();
  }

  /** The part of the wide decoder that runs with the stream shrunk to the TLV. */
  method DecodeInside2(pkt: S.Stream, tlvType: uint16, ghost start: nat) returns (known: bool, route: Option<TlvRoute>)
    requires pkt.Valid() && pkt.getp == start + HDR && start + HDR + HEADER_EXT <= pkt.endp
    modifies pkt`getp
    ensures pkt.Valid()
    ensures Inside(tlvType, pkt.data[start..pkt.endp]) == if known then Some(route) else None
  {
    ghost var t := pkt.data[start..pkt.endp];
    Sub(pkt.data[..], start, pkt.endp, 4, 6);
    Sub(pkt.data[..], start, pkt.endp, 6, 8);
    Sub(pkt.data[..], start, pkt.endp, 8, 12);
    var afi := pkt.GetW();
    var tid := pkt.GetW();
    var rid := pkt.GetL();
    known, route := afi == AF_IPV4 && tid == 0, None;
    if known {
      assert pkt.Unread() == t[12..];
      route := Sections2(pkt, tlvType, rid);
    }
  }

  /** A TLV of known type and credible length: the stream is shrunk to it, read, and restored. */
  method DecodeKnown2(pkt: S.Stream, tlvType: uint16, start: nat, length: nat) returns (route: Option<TlvRoute>)
    requires pkt.Valid() && pkt.getp == start + HDR && HDR + HEADER_EXT <= length <= pkt.endp - start
    modifies pkt`getp, pkt`endp
    ensures pkt.Valid() && pkt.endp == old(pkt.endp)
    ensures var inside := Inside(tlvType, pkt.data[start..start + length]);
            && route == (if inside.Some? then inside.value else None)
            && pkt.getp == if inside == Some(None) then pkt.endp else start + length
  {
    var tlvEnd, packetEnd := start + length, pkt.endp;
    ghost var t := pkt.data[start..tlvEnd];
    pkt.SetEndp(tlvEnd);
    var known;
    known, route := DecodeInside2(pkt, tlvType, start);
    ghost var inside := if known then Some(route) else None;
    assert Inside(tlvType, t) == inside;
    pkt.SetEndp(packetEnd);
    if !known {
      pkt.SetGetp(tlvEnd);
      route := None;
    } else {
      pkt.SetGetp(if route.Some? then tlvEnd else packetEnd);
    }
    assert pkt.data[start..start + length] == t;
    assert Inside(tlvType, pkt.data[start..start + length]) == inside;
  }

  /** `eigrp_tlv2_decoder`: the end of the stream is restored on every path, and the read position is moved
      to the end of the TLV, or of the packet if the TLV is malformed. */
  method Decoder2(pkt: S.Stream) returns (route: Option<TlvRoute>)
    requires pkt.Valid()
    modifies pkt`getp, pkt`endp
    ensures pkt.Valid() && pkt.endp == old(pkt.endp)
    ensures var d := Tlv2.Decode(old(pkt.Unread()));
            route == d.route && pkt.getp == old(pkt.getp) + d.used
  {
    var start, remaining := pkt.getp, pkt.endp - pkt.getp;
    if remaining < HDR {
      pkt.SetGetp(pkt.endp);
      return None;
    }
    var tlvType, length := ReadHeader(pkt);
    if tlvType != MP_INT && tlvType != MP_EXT {
      SkipOrAbort(pkt, start, length);
      return None;
    }
    if length < Minimum(tlvType) || length > remaining {
      pkt.SetGetp(pkt.endp);
      return None;
    }
    Sub(pkt.data[..], start, pkt.endp, 0, length);
    route := DecodeKnown2(pkt, tlvType, start, length);
  }
}
