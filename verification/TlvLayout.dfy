/**
 Where the fields of the two TLVs are, in numbers: the layout of what the encoders write, and which bytes the decoders
 accept as a route, whoever wrote them.
 */
module TlvLayout {
  import opened Words
  import opened Metric
  import opened Wire
  import opened Tlv1
  import opened Tlv2

  /** A prefix length needs the least number of bytes that holds it. */
  lemma AddrLenLeast(prefixlen: uint8)
    ensures var n := AddrLen(prefixlen); prefixlen <= 8 * n && (n > 0 ==> 8 * (n - 1) < prefixlen)
  {
  }

  lemma Behind(t: Bytes, k: nat, i: nat, j: nat)
    requires k + i <= k + j <= |t|
    ensures t[k + i..k + j] == t[k..][i..j]
  {
  }

  // ----- wide -----

  /** The 32-bit infinity travels as the 48-bit one. */
  function Sent(v: uint64): uint64 {
    if v == 0xffff_ffff then 0xffff_ffff_ffff else v
  }

  lemma MetricLayout(m: Metrics)
    ensures var s := MetricBytes(m);
            && s[..8] == [0, m.tag, m.reliability, m.load, m.mtu2, m.mtu1, m.mtu0, m.hopCount]
            && s[8..14] == Be(6, Sent(m.delay)) && s[14..20] == Be(6, Sent(m.bandwidth))
            && s[20..22] == [0, 0] && s[22..24] == Be(2, m.flags)
  {
    assert Be(1, 0) == [0];
  }

  lemma ExternalLayout(rid: uint32, x: Extdata)
    ensures var s := ExternalBytes(rid, x);
            && s[..4] == Be(4, if x.orig != 0 then x.orig else rid) && s[4..8] == Be(4, x.asn)
            && s[8..12] == Be(4, x.metric) && s[12..14] == Be(2, x.reserved) && s[14..16] == [x.protocol, x.flags]
  {
  }

  /** The sections of a wide encoding: header, address family, topology and originator in the first twelve bytes, the
      metric in the next 24, then the exterior section of an external route, then the destination. */
  lemma WideLayout(rid: uint32, r: TlvRoute)
    requires Encodable(r)
    ensures var t := Encoded(rid, r); var external := TlvType(r.kind) == 0x603;
            var at := if external then 52 else 36;
            && |t| == at + 1 + AddrLen(r.dest.prefixlen)
            && t[..4] == Be(2, if external then 0x603 else 0x602) + Be(2, |t|)
            && t[4..8] == [0, 1, 0, 0] && t[8..12] == Be(4, rid)
            && t[12..36] == MetricBytes(r.metric)
            && (external ==> t[36..52] == ExternalBytes(rid, r.ext))
            && t[at..] == [r.dest.prefixlen] + r.dest.addr[..AddrLen(r.dest.prefixlen)]
  {
    var t, body := Encoded(rid, r), BodyBytes(rid, r);
    var m, c := MetricBytes(r.metric), Closing(rid, r);
    BodyFields(rid, r);
    assert Be(1, 0) == [0] && Be(2, 1) == [0, 1] && Be(2, 0) == [0, 0];
    assert t[HDR..] == body && t[4..6] == body[..2] && t[6..8] == body[2..4] && t[8..12] == body[4..8];
    assert t[4..8] == t[4..6] + t[6..8];
    assert t[12..] == body[8..] == m + c;
    assert (m + c)[..24] == m && (m + c)[24..] == c;
    assert t[12..36] == t[12..][..24] && t[36..] == t[12..][24..];
    if TlvType(r.kind) == 0x603 {
      assert c[..16] == ExternalBytes(rid, r.ext) && c[16..] == AddrBytes(r.dest);
      assert t[36..52] == t[36..][..16] && t[52..] == t[36..][16..];
    }
  }

  /** The destination begins at `at`, its prefix length is one, and its address fits before `end`. */
  predicate AddressFits(b: Bytes, at: nat, end: nat) {
    at < end <= |b| && b[at] <= 32 && at + 1 + AddrLen(b[at]) <= end
  }

  /** Where the destination of a wide TLV is: behind the attributes, and behind the exterior section if there is one. */
  function WideAt(b: Bytes): nat
    requires |b| > 12
  {
    36 + 2 * b[12] as int + if FieldAt(b, 0) == 0x603 then 16 else 0
  }

  predicate WideType(t: uint16) {
    t == 0x602 || t == 0x603
  }

  /** A TLV of one of the two wide types with a credible length. */
  predicate WideFramed(b: Bytes)
    requires |b| >= 4
  {
    WideType(FieldAt(b, 0)) && (if FieldAt(b, 0) == 0x603 then 53 else 37) <= FieldAt(b, 2) <= |b|
  }

  /** Which bytes the wide decoder takes for a route, and where it stops. */
  lemma WideAcceptsExactly(b: Bytes)
    requires |b| >= 4
    ensures var d, length := Decode(b), FieldAt(b, 2);
            if WideFramed(b) then
              if b[4..8] != [0, 1, 0, 0] then d == Decoded(None, length)
              else (d.route.Some? <==> AddressFits(b, WideAt(b), length))
                   && d.used == if d.route.Some? then length else |b|
            else
              d == Decoded(None, if !WideType(FieldAt(b, 0)) && 4 <= length <= |b| then length else |b|)
  {
    if WideFramed(b) {
      var t := b[..FieldAt(b, 2)];
      FamilyBytes(b, t);
      if b[4..8] == [0, 1, 0, 0] {
        InsideAccepts(b, t);
      }
    }
  }

  lemma FamilyBytes(b: Bytes, t: Bytes)
    requires |t| >= 12 && t <= b
    ensures t[4..6] == b[4..6] && t[6..8] == b[6..8] && t[12..] == b[12..|t|]
    ensures b[4..8] == [0, 1, 0, 0] <==> Num2(t[4..6]) == 1 && Num2(t[6..8]) == 0
  {
    TwoDigits(t[4..6]);
    TwoDigits(t[6..8]);
    assert b[4..8] == [b[4], b[5], b[6], b[7]];
  }

  lemma InsideAccepts(b: Bytes, t: Bytes)
    requires |b| >= 4 && WideFramed(b) && t == b[..FieldAt(b, 2)] && Num2(t[4..6]) == 1 && Num2(t[6..8]) == 0
    ensures var i := Inside(FieldAt(b, 0), t); i.Some? && (i.value.Some? <==> AddressFits(b, WideAt(b), |t|))
  {
    var s := t[12..];
    assert s[0] == b[12];
    var n := 24 + 2 * b[12] as int;
    if n <= |s| {
      var s1 := s[n..];
      if FieldAt(b, 0) == 0x603 {
        if 16 <= |s1| {
          AddrAccepts(b, t, n + 28, s1[16..]);
        }
      } else {
        AddrAccepts(b, t, n + 12, s1);
      }
    }
  }

  lemma AddrAccepts(b: Bytes, t: Bytes, at: nat, s: Bytes)
    requires t <= b && at <= |t| && s == t[at..]
    ensures AddrDecode(s).Parsed? <==> AddressFits(b, at, |t|)
  {
    if at < |t| {
      assert s[0] == b[at];
    }
  }

  // ----- classic -----

  /** The sections of a classic encoding: header and next hop in the first eight bytes, then the exterior section of an
      external route, then the metric, then the destination. */
  lemma ClassicLayout(r: TlvRoute)
    requires Encodable1(r)
    ensures var t := Encoded1(r); var external := TlvType1(r.kind) == 0x103;
            var at := if external then 28 else 8;
            && |t| == at + 17 + AddrLen(r.dest.prefixlen)
            && t[..4] == Be(2, if external then 0x103 else 0x102) + Be(2, |t|)
            && t[4..8] == Be(4, r.nexthop)
            && (external ==> t[8..28] == ExternalBytes1(r.ext))
            && t[at..at + 16] == MetricBytes1(r.metric)
            && t[at + 16..] == [r.dest.prefixlen] + r.dest.addr[..AddrLen(r.dest.prefixlen)]
  {
    var t, body := Encoded1(r), BodyBytes1(r);
    var x := if TlvType1(r.kind) == IPV4_EXT then ExternalBytes1(r.ext) else [];
    var h, m, a := Be(4, r.nexthop), MetricBytes1(r.metric), AddrBytes(r.dest);
    assert t[4..] == body == h + x + m + a;
    FourParts(h, x, m, a);
    var n := 4 + |x|;
    Behind(t, 4, 0, 4);
    Behind(t, 4, 4, n);
    Behind(t, 4, n, n + 16);
    Behind(t, 4, n + 16, |body|);
  }

  lemma FourParts(h: Bytes, x: Bytes, m: Bytes, a: Bytes)
    ensures var s := h + x + m + a; var i := |h| + |x|;
            s[..|h|] == h && s[|h|..i] == x && s[i..i + |m|] == m && s[i + |m|..] == a
  {
  }

  lemma Metric1Layout(m: Metrics)
    ensures var s := MetricBytes1(m);
            && s[..4] == Be(4, DelayToScaled(m.delay)) && s[4..8] == Be(4, m.bandwidth)
            && s[8..] == [m.mtu2, m.mtu1, m.mtu0, m.hopCount, m.reliability, m.load, m.tag, m.flags]
  {
  }

  lemma External1Layout(x: Extdata)
    ensures var s := ExternalBytes1(x);
            && s[..4] == Be(4, x.orig) && s[4..8] == Be(4, x.asn) && s[8..12] == Be(4, x.tag)
            && s[12..16] == Be(4, x.metric) && s[16..18] == Be(2, x.reserved) && s[18..] == [x.protocol, x.flags]
  {
  }

  /** On its own the classic metric section is read back: the delay as scaling leaves it, the bandwidth cut to 32 bits.
      It is the place the decoder reads it from that is wrong. */
  lemma Metric1RoundTrip(m: Metrics, rest: Bytes)
    ensures MetricDecode1(MetricBytes1(m) + rest)
         == Parsed(m.(delay := ScaledToDelay(DelayToScaled(m.delay)), bandwidth := Wrap32(m.bandwidth)), rest)
  {
    var s, t := MetricBytes1(m) + rest, MetricBytes1(m);
    Metric1Layout(m);
    assert s[..4] == t[..4] && s[4..8] == t[4..8];
    assert forall i :: 8 <= i < 16 ==> s[i] == t[8..][i - 8];
    Num4Be(DelayToScaled(m.delay));
    Widths();
    NumBe(4, m.bandwidth);
    assert s[METRIC1_SIZE..] == rest;
  }

  /** So is the exterior section. */
  lemma External1RoundTrip(x: Extdata, rest: Bytes)
    ensures ExternalDecode1(ExternalBytes1(x) + rest) == Parsed(x, rest)
  {
    var s, t := ExternalBytes1(x) + rest, ExternalBytes1(x);
    External1Layout(x);
    assert s[..4] == t[..4] && s[4..8] == t[4..8] && s[8..12] == t[8..12] && s[12..16] == t[12..16];
    assert s[16..18] == t[16..18] && s[18] == t[18..][0] && s[19] == t[18..][1];
    Num4Be(x.orig);
    Num4Be(x.asn);
    Num4Be(x.tag);
    Num4Be(x.metric);
    Num2Be(x.reserved);
    assert s[EXTDATA1_SIZE..] == rest;
  }

  predicate ClassicType(t: uint16) {
    t == 0x102 || t == 0x103
  }

  /** Which bytes the classic decoder takes for a route, and where it stops. It looks for the destination four bytes
      too early and wants four more bytes behind it. */
  lemma ClassicAcceptsExactly(b: Bytes)
    requires |b| >= 4
    ensures var d, t, length := Decode1(b), FieldAt(b, 0), FieldAt(b, 2);
            if ClassicType(t) then
              && (d.route.Some? <==> && (if t == 0x103 then 45 else 25) <= length <= |b|
                                     && AddressFits(b, if t == 0x103 then 40 else 20, length - 4))
              && d.used == (if d.route.Some? then length else |b|)
            else
              d == Decoded(None, if 4 <= length <= |b| then length else |b|)
  {
    var t, length := FieldAt(b, 0), FieldAt(b, 2);
    if ClassicType(t) && Minimum1(t) <= length <= |b| {
      var s := b[4..length];
      if t == 0x103 {
        ClosingAccepts(b, length, 24, s[20..]);
      } else {
        ClosingAccepts(b, length, 4, s);
      }
    }
  }

  lemma ClosingAccepts(b: Bytes, length: nat, at: nat, s: Bytes)
    requires at + 16 <= length <= |b| && s == b[at..length]
    ensures Closing1(s).Parsed? <==> AddressFits(b, at + 16, length)
    ensures Closing1(s).Parsed? ==> |s| - |Closing1(s).rest| == 17 + AddrLen(b[at + 16])
  {
    var a := s[16..];
    assert a == b[..length][at + 16..];
    AddrAccepts(b, b[..length], at + 16, a);
    if at + 16 < length {
      assert a[0] == b[at + 16];
    }
  }
}
