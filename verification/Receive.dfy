/**
 The loops that take routes out of a received packet. A QUERY or REPLY is read until the decoder returns no
 route; an UPDATE is read past such TLVs, but only up to its first route.
 */
module Receive {
  import opened Words
  import opened Wire
  import S = Stream
  import opened Tlv2
  import opened Tlv1
  import opened Codec
  import opened Codec1
  import opened EncoderCache

  /** The decoder bound to a neighbour; `Safe` decodes nothing. */
  function DecodeAs(v: Version, b: Bytes): (d: Decoded)
    ensures d.used <= |b| && (b != [] ==> d.used > 0)
  {
    match v
    case Unbound => Decoded(None, |b|)
    case V1 => Decode1(b)
    case V2 => Tlv2.Decode(b)
  }

  method DecodeNext(pkt: S.Stream, v: Version) returns (route: Option<TlvRoute>)
    requires pkt.Valid()
    modifies pkt`getp, pkt`endp
    ensures pkt.Valid() && pkt.endp == old(pkt.endp)
    ensures var b := old(pkt.Unread()); var d := DecodeAs(v, b);
            route == d.route && pkt.getp == old(pkt.getp) + d.used && pkt.Unread() == b[d.used..]
  {
    match v {
      case Unbound =>
        pkt.SetGetp(pkt.endp);
        route := None;
      case V1 => route := Decoder1(pkt);
      case V2 => route := Decoder2(pkt);
    }
  }

  /** Every route the decoder can find in a packet. */
  function AllRoutes(v: Version, b: Bytes): seq<TlvRoute>
    decreases |b|
  {
    if b == [] then []
    else
      var d := DecodeAs(v, b);
      (if d.route.Some? then [d.route.value] else []) + AllRoutes(v, b[d.used..])
  }

  /** What `eigrp_query_receive` and `eigrp_reply_receive` take out of a packet. */
  function QueryRoutes(v: Version, b: Bytes): seq<TlvRoute>
    decreases |b|
  {
    if b == [] then []
    else
      var d := DecodeAs(v, b);
      if d.route.None? then [] else [d.route.value] + QueryRoutes(v, b[d.used..])
  }

  /** What `eigrp_update_receive` takes out of a packet. */
  function UpdateRoutes(v: Version, b: Bytes): seq<TlvRoute>
    decreases |b|
  {
    if b == [] then []
    else
      var d := DecodeAs(v, b);
      if d.route.Some? then [d.route.value] else UpdateRoutes(v, b[d.used..])
  }

  // ----- the loops -----

  lemma QueryNext(v: Version, b: Bytes, routes: seq<TlvRoute>)
    requires b != []
    ensures var d := DecodeAs(v, b);
            routes + QueryRoutes(v, b) == if d.route.None? then routes
                                          else routes + [d.route.value] + QueryRoutes(v, b[d.used..])
  {
    var d := DecodeAs(v, b);
    if d.route.Some? {
      Reassociate(routes, [d.route.value], QueryRoutes(v, b[d.used..]));
    }
  }

  lemma Reassociate<T>(a: seq<T>, b: seq<T>, c: seq<T>)
    ensures a + (b + c) == a + b + c
  {
  }

  /** The loop of `eigrp_query_receive`: it ends on every packet, because the decoder moves on. */
  method QueryReceive(pkt: S.Stream, v: Version) returns (routes: seq<TlvRoute>)
    requires pkt.Valid()
    modifies pkt`getp, pkt`endp
    ensures routes == QueryRoutes(v, old(pkt.Unread()))
  {
    routes := [];
    while pkt.endp > pkt.getp
      invariant pkt.Valid() && pkt.endp == old(pkt.endp)
      invariant routes + QueryRoutes(v, pkt.Unread()) == QueryRoutes(v, old(pkt.Unread()))
      decreases pkt.endp - pkt.getp
    {
      ghost var b := pkt.Unread();
      QueryNext(v, b, routes);
      var route := DecodeNext(pkt, v);
      if route.None? {
        return;
      }
      routes := routes + [route.value];
    }
  }

  /** The loop of `eigrp_update_receive`. */
  method UpdateReceive(pkt: S.Stream, v: Version) returns (routes: seq<TlvRoute>)
    requires pkt.Valid()
    modifies pkt`getp, pkt`endp
    ensures routes == UpdateRoutes(v, old(pkt.Unread()))
  {
    routes := [];
    while pkt.endp > pkt.getp
      invariant pkt.Valid() && pkt.endp == old(pkt.endp) && routes == []
      invariant UpdateRoutes(v, pkt.Unread()) == UpdateRoutes(v, old(pkt.Unread()))
      decreases pkt.endp - pkt.getp
    {
      var route := DecodeNext(pkt, v);
      if route.Some? {
        return [route.value];
      }
    }
  }

  // ----- what is lost -----

  /** An UPDATE yields the first of its routes: all of them exactly if it has no more than one. */
  lemma {:induction false} UpdateTakesFirst(v: Version, b: Bytes)
    ensures UpdateRoutes(v, b) == (if AllRoutes(v, b) == [] then [] else AllRoutes(v, b)[..1])
    ensures UpdateRoutes(v, b) == AllRoutes(v, b) <==> |AllRoutes(v, b)| <= 1
    decreases |b|
  {
    if b == [] {
    } else {
      UpdateTakesFirst(v, b[DecodeAs(v, b).used..]);
    }
  }

  /** Where a QUERY's routes stop: at the first TLV the decoder returns nothing for. */
  ghost predicate Stops(v: Version, b: Bytes)
    decreases |b|
  {
    b != [] && var d := DecodeAs(v, b);
    if d.route.None? then AllRoutes(v, b[d.used..]) != [] else Stops(v, b[d.used..])
  }

  /** A QUERY yields a prefix of its routes: all of them exactly if no TLV without a route precedes one. */
  lemma {:induction false} QueryTakesPrefix(v: Version, b: Bytes)
    ensures QueryRoutes(v, b) <= AllRoutes(v, b)
    ensures QueryRoutes(v, b) == AllRoutes(v, b) <==> !Stops(v, b)
    decreases |b|
  {
    if b == [] {
    } else {
      var d := DecodeAs(v, b);
      QueryTakesPrefix(v, b[d.used..]);
      if d.route.Some? {
        assert AllRoutes(v, b)[1..] == AllRoutes(v, b[d.used..]);
        assert QueryRoutes(v, b)[1..] == QueryRoutes(v, b[d.used..]);
      }
    }
  }

  // ----- from one daemon to another -----

  function EncodedAll(rid: uint32, rs: seq<TlvRoute>): Bytes
    requires forall i :: 0 <= i < |rs| ==> Encodable(rs[i])
  {
    if rs == [] then [] else Encoded(rid, rs[0]) + EncodedAll(rid, rs[1..])
  }

  function NormalisedAll(rid: uint32, rs: seq<TlvRoute>): seq<TlvRoute>
    requires forall i :: 0 <= i < |rs| ==> Encodable(rs[i])
  {
    if rs == [] then [] else [Normalised(rid, rs[0])] + NormalisedAll(rid, rs[1..])
  }

  lemma DecodeFirst(rid: uint32, rs: seq<TlvRoute>)
    requires (forall i :: 0 <= i < |rs| ==> Encodable(rs[i])) && rs != []
    ensures var b := EncodedAll(rid, rs); var d := DecodeAs(V2, b);
            b != [] && d.route == Some(Normalised(rid, rs[0])) && b[d.used..] == EncodedAll(rid, rs[1..])
  {
    RoundTrip(rid, rs[0], EncodedAll(rid, rs[1..]));
    BodyLength(rid, rs[0]);
  }

  lemma {:induction false} PlainQueryDelivers(rid: uint32, rs: seq<TlvRoute>)
    requires forall i :: 0 <= i < |rs| ==> Encodable(rs[i])
    ensures QueryRoutes(V2, EncodedAll(rid, rs)) == NormalisedAll(rid, rs)
  {
    if rs == [] {
    } else {
      DecodeFirst(rid, rs);
      PlainQueryDelivers(rid, rs[1..]);
    }
  }

  // ----- packets with an authentication TLV -----

  /** What `eigrp_add_authTLV_MD5_encode` puts in front of the routes. */
  predicate AuthTlv(t: Bytes) {
    |t| >= HDR && Num2(t[..2]) == TLV_AUTH && Num2(t[2..4]) == |t|
  }

  lemma AuthHeader(t: Bytes)
    ensures AuthTlv(t) <==> |t| >= 4 && t[0] == 0 && t[1] == 2 && t[2] as int * 0x100 + t[3] as int == |t|
  {
    if |t| >= 4 {
      TwoDigits(t[..2]);
      TwoDigits(t[2..4]);
    }
  }

  /** The TLVs of a packet as it is built: an authentication TLV, if the interface has a key, and the routes. */
  function Built(auth: Option<Bytes>, routes: Bytes): Bytes {
    (match auth case Some(t) => t case None => []) + routes
  }

  /** Neither decoder returns a route for an authentication TLV; both step over it. */
  lemma AuthIsNoRoute(v: Version, auth: Bytes, rest: Bytes)
    requires AuthTlv(auth)
    ensures DecodeAs(v, auth + rest).route == None
    ensures !v.Unbound? ==> DecodeAs(v, auth + rest) == Decoded(None, |auth|) && (auth + rest)[|auth|..] == rest
  {
    var b := auth + rest;
    assert b[..2] == auth[..2] && b[2..4] == auth[2..4];
  }

  lemma AuthStopsQuery(v: Version, auth: Bytes, rest: Bytes)
    requires AuthTlv(auth)
    ensures QueryRoutes(v, auth + rest) == []
  {
    AuthIsNoRoute(v, auth, rest);
  }

  lemma AuthPassedByUpdate(v: Version, auth: Option<Bytes>, rest: Bytes)
    requires !v.Unbound? && (auth.Some? ==> AuthTlv(auth.value))
    ensures UpdateRoutes(v, Built(auth, rest)) == UpdateRoutes(v, rest)
  {
    match auth
    case None => assert [] + rest == rest;
    case Some(t) => AuthIsNoRoute(v, t, rest);
  }

  /** A wide peer gets the routes of a QUERY or REPLY built by the wide encoder, all of them, in order and
      normalised, exactly if the packet carries no authentication TLV; of an authenticated one it gets nothing. */
  lemma QueryDelivers(rid: uint32, auth: Option<Bytes>, rs: seq<TlvRoute>)
    requires (forall i :: 0 <= i < |rs| ==> Encodable(rs[i])) && (auth.Some? ==> AuthTlv(auth.value))
    ensures var got := QueryRoutes(V2, Built(auth, EncodedAll(rid, rs)));
            && (got == NormalisedAll(rid, rs) <==> auth.None? || rs == [])
            && (auth.Some? ==> got == [])
  {
    match auth
    case None =>
      assert [] + EncodedAll(rid, rs) == EncodedAll(rid, rs);
      PlainQueryDelivers(rid, rs);
    case Some(t) =>
      AuthStopsQuery(V2, t, EncodedAll(rid, rs));
  }

  /** With the reliability every interface has by default a classic peer gets nothing out of any packet whose first
      route is in the classic encoding. */
  lemma ClassicPeerGetsNothing(r: TlvRoute, rest: Bytes)
    requires Encodable1(r) && r.metric.reliability == 255
    ensures QueryRoutes(V1, Encoded1(r) + rest) == UpdateRoutes(V1, Encoded1(r) + rest) == []
  {
    var b := Encoded1(r) + rest;
    DefaultReliabilityRejected(r, rest);
    assert b[|b|..] == [];
  }

  /** Of an UPDATE built by the same encoder it gets the first route only. */
  lemma UpdateDeliversFirst(rid: uint32, rs: seq<TlvRoute>)
    requires (forall i :: 0 <= i < |rs| ==> Encodable(rs[i])) && rs != []
    ensures UpdateRoutes(V2, EncodedAll(rid, rs)) == [Normalised(rid, rs[0])]
    ensures UpdateRoutes(V2, EncodedAll(rid, rs)) == NormalisedAll(rid, rs) <==> |rs| == 1
  {
    DecodeFirst(rid, rs);
    if |rs| > 1 {
      assert NormalisedAll(rid, rs)[1..] == NormalisedAll(rid, rs[1..]) && NormalisedAll(rid, rs[1..]) != [];
    }
  }

  /** A mixed interface puts the classic encoding first, so a wide peer gets nothing out of a QUERY or REPLY
      sent there, however the rest of the packet looks, while an UPDATE still yields its first route. */
  lemma MixedQueryIsEmpty(rid: uint32, r: TlvRoute, rest: Bytes)
    requires EncodableBoth(r)
    ensures QueryRoutes(V2, EncodedBoth(rid, r) + rest) == []
    ensures UpdateRoutes(V2, EncodedBoth(rid, r) + rest) == [Normalised(rid, r)]
  {
    var b := EncodedBoth(rid, r) + rest;
    BothDecodes(rid, r, rest);
    BodyLength(rid, r);
    assert UpdateRoutes(V2, b) == UpdateRoutes(V2, b[|Encoded1(r)|..]);
  }

  // ----- an update of several packets -----

  ghost predicate AllEncodable(packets: seq<seq<TlvRoute>>) {
    forall k, i :: 0 <= k < |packets| && 0 <= i < |packets[k]| ==> Encodable(packets[k][i])
  }

  /** What a wide peer takes out of a series of UPDATE packets. */
  ghost function ReceivedAll(rid: uint32, packets: seq<seq<TlvRoute>>): seq<TlvRoute>
    requires AllEncodable(packets)
  {
    if packets == [] then []
    else
      var k := |packets| - 1;
      ReceivedAll(rid, packets[..k]) + UpdateRoutes(V2, EncodedAll(rid, packets[k]))
  }

  /** What was put into them. */
  ghost function SentAll(rid: uint32, packets: seq<seq<TlvRoute>>): seq<TlvRoute>
    requires AllEncodable(packets)
  {
    if packets == [] then []
    else
      var k := |packets| - 1;
      SentAll(rid, packets[..k]) + NormalisedAll(rid, packets[k])
  }

  lemma PacketDelivers(rid: uint32, rs: seq<TlvRoute>)
    requires forall i :: 0 <= i < |rs| ==> Encodable(rs[i])
    ensures var got, sent := UpdateRoutes(V2, EncodedAll(rid, rs)), NormalisedAll(rid, rs);
            |got| <= |sent| == |rs| && (|got| == |sent| <==> |rs| <= 1) && (|rs| <= 1 ==> got == sent)
  {
    NormalisedLength(rid, rs);
    if rs != [] {
      UpdateDeliversFirst(rid, rs);
    }
  }

  lemma {:induction false} NormalisedLength(rid: uint32, rs: seq<TlvRoute>)
    requires forall i :: 0 <= i < |rs| ==> Encodable(rs[i])
    ensures |NormalisedAll(rid, rs)| == |rs|
  {
    if rs == [] {
    } else {
      NormalisedLength(rid, rs[1..]);
    }
  }

  ghost predicate OneEach(packets: seq<seq<TlvRoute>>) {
    forall k :: 0 <= k < |packets| ==> |packets[k]| <= 1
  }

  lemma {:induction false} UpdatesCount(rid: uint32, packets: seq<seq<TlvRoute>>)
    requires AllEncodable(packets)
    ensures |ReceivedAll(rid, packets)| <= |SentAll(rid, packets)|
    ensures |ReceivedAll(rid, packets)| == |SentAll(rid, packets)| <==> OneEach(packets)
  {
    if packets == [] {
    } else {
      var k := |packets| - 1;
      UpdatesCount(rid, packets[..k]);
      PacketDelivers(rid, packets[k]);
      OneEachNext(packets);
    }
  }

  lemma OneEachNext(packets: seq<seq<TlvRoute>>)
    requires packets != []
    ensures OneEach(packets) <==> OneEach(packets[..|packets| - 1]) && |packets[|packets| - 1]| <= 1
  {
    var p := packets[..|packets| - 1];
    assert forall j :: 0 <= j < |p| ==> p[j] == packets[j];
  }

  lemma {:induction false} UpdatesMatch(rid: uint32, packets: seq<seq<TlvRoute>>)
    requires AllEncodable(packets) && OneEach(packets)
    ensures ReceivedAll(rid, packets) == SentAll(rid, packets)
  {
    if packets == [] {
    } else {
      var k := |packets| - 1;
      UpdatesMatch(rid, packets[..k]);
      PacketDelivers(rid, packets[k]);
    }
  }

  /** A table sent in several UPDATE packets arrives complete exactly if no packet carries two routes. */
  lemma UpdatesDeliver(rid: uint32, packets: seq<seq<TlvRoute>>)
    requires AllEncodable(packets)
    ensures ReceivedAll(rid, packets) == SentAll(rid, packets)
            <==> forall k :: 0 <= k < |packets| ==> |packets[k]| <= 1
  {
    UpdatesCount(rid, packets);
    if OneEach(packets) {
      UpdatesMatch(rid, packets);
    }
  }
}
