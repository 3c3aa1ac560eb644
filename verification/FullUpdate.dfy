/**
 The full-table update from the sender's topology table to a wide peer's: the packets `EotPacking` builds, read by
 the update loop of `Receive`.
 */
module FullUpdate {
  import opened Words
  import opened Wire
  import opened Tlv2
  import opened EotPacking
  import opened EncoderCache
  import opened Receive

  /** The wide encoder's output for some route. */
  ghost predicate Wide(rid: uint32, o: Offer) {
    exists r :: Encodable(r) && o.bytes == Encoded(rid, r)
  }

  ghost predicate AllWide(rid: uint32, offers: seq<Offer>) {
    forall o :: o in offers ==> Wide(rid, o)
  }

  ghost function RouteOf(rid: uint32, o: Offer): (r: TlvRoute)
    requires Wide(rid, o)
    ensures Encodable(r) && o.bytes == Encoded(rid, r)
  {
    var r :| Encodable(r) && o.bytes == Encoded(rid, r); r
  }

  ghost function RoutesOf(rid: uint32, offers: seq<Offer>): (rs: seq<TlvRoute>)
    requires AllWide(rid, offers)
    ensures |rs| == |offers| && forall i :: 0 <= i < |rs| ==> Encodable(rs[i])
  {
    if offers == [] then [] else [RouteOf(rid, offers[0])] + RoutesOf(rid, offers[1..])
  }

  /** What the peer should learn from descriptors. */
  ghost function Wanted(rid: uint32, offers: seq<Offer>): seq<TlvRoute>
    requires AllWide(rid, offers)
  {
    NormalisedAll(rid, RoutesOf(rid, offers))
  }

  /** The encodings as they follow each other in a packet. */
  function OnWire(offers: seq<Offer>): Bytes {
    if offers == [] then [] else offers[0].bytes + OnWire(offers[1..])
  }

  /** What the peer takes out of the packets, each with the same authentication TLV or none. */
  function Taken(auth: Option<Bytes>, packets: seq<EotPacket>): seq<TlvRoute> {
    if packets == [] then []
    else
      var k := |packets| - 1;
      Taken(auth, packets[..k]) + UpdateRoutes(V2, Built(auth, OnWire(packets[k].offers)))
  }

  ghost predicate PacketsWide(rid: uint32, packets: seq<EotPacket>) {
    forall k :: 0 <= k < |packets| ==> AllWide(rid, packets[k].offers)
  }

  ghost function RoutesIn(rid: uint32, packets: seq<EotPacket>): (ps: seq<seq<TlvRoute>>)
    requires PacketsWide(rid, packets)
    ensures |ps| == |packets| && AllEncodable(ps)
    ensures forall k :: 0 <= k < |ps| ==> ps[k] == RoutesOf(rid, packets[k].offers)
  {
    seq(|packets|, k requires 0 <= k < |packets| => RoutesOf(rid, packets[k].offers))
  }

  lemma {:induction false} OnWireEncoded(rid: uint32, offers: seq<Offer>)
    requires AllWide(rid, offers)
    ensures OnWire(offers) == EncodedAll(rid, RoutesOf(rid, offers))
  {
    if offers == [] {
    } else {
      OnWireEncoded(rid, offers[1..]);
      assert RoutesOf(rid, offers)[1..] == RoutesOf(rid, offers[1..]);
    }
  }

  lemma {:induction false} WantedConcat(rid: uint32, a: seq<Offer>, b: seq<Offer>)
    requires AllWide(rid, a) && AllWide(rid, b)
    ensures AllWide(rid, a + b) && Wanted(rid, a + b) == Wanted(rid, a) + Wanted(rid, b)
  {
    if a == [] {
      assert a + b == b;
    } else {
      var ab := a + b;
      assert AllWide(rid, ab) && ab[0] == a[0] && ab[1..] == a[1..] + b;
      WantedConcat(rid, a[1..], b);
      WantedFirst(rid, a);
      WantedFirst(rid, ab);
      Reassociate([Normalised(rid, RouteOf(rid, a[0]))], Wanted(rid, a[1..]), Wanted(rid, b));
    }
  }

  lemma WantedFirst(rid: uint32, a: seq<Offer>)
    requires AllWide(rid, a) && a != []
    ensures AllWide(rid, a[1..])
    ensures Wanted(rid, a) == [Normalised(rid, RouteOf(rid, a[0]))] + Wanted(rid, a[1..])
  {
    assert RoutesOf(rid, a)[1..] == RoutesOf(rid, a[1..]);
  }

  lemma {:induction false} TakenReceived(rid: uint32, auth: Option<Bytes>, packets: seq<EotPacket>)
    requires PacketsWide(rid, packets) && (auth.Some? ==> AuthTlv(auth.value))
    ensures Taken(auth, packets) == ReceivedAll(rid, RoutesIn(rid, packets))
  {
    if packets == [] {
    } else {
      var k := |packets| - 1;
      TakenReceived(rid, auth, packets[..k]);
      assert RoutesIn(rid, packets)[..k] == RoutesIn(rid, packets[..k]);
      OnWireEncoded(rid, packets[k].offers);
      AuthPassedByUpdate(V2, auth, OnWire(packets[k].offers));
    }
  }

  lemma {:induction false} SentWanted(rid: uint32, packets: seq<EotPacket>)
    requires PacketsWide(rid, packets)
    ensures AllWide(rid, Contents(packets))
    ensures SentAll(rid, RoutesIn(rid, packets)) == Wanted(rid, Contents(packets))
  {
    if packets == [] {
    } else {
      var k := |packets| - 1;
      SentWanted(rid, packets[..k]);
      assert RoutesIn(rid, packets)[..k] == RoutesIn(rid, packets[..k]);
      WantedConcat(rid, Contents(packets[..k]), packets[k].offers);
    }
  }

  // ----- the table -----

  ghost predicate TableWide(rid: uint32, table: seq<seq<Offer>>) {
    forall i :: 0 <= i < |table| ==> AllWide(rid, table[i])
  }

  lemma {:induction false} PassingWide(rid: uint32, s: Sender, entries: seq<Offer>)
    requires AllWide(rid, entries)
    ensures AllWide(rid, Passing(s, entries))
  {
    if entries == [] {
    } else {
      PassingWide(rid, s, entries[..|entries| - 1]);
    }
  }

  lemma {:induction false} PassingAllWide(rid: uint32, s: Sender, table: seq<seq<Offer>>)
    requires TableWide(rid, table)
    ensures AllWide(rid, PassingAll(s, table))
  {
    if table == [] {
    } else {
      PassingAllWide(rid, s, table[..|table| - 1]);
      PassingWide(rid, s, table[|table| - 1]);
    }
  }

  lemma {:induction false} ContentsWide(rid: uint32, packets: seq<EotPacket>)
    requires AllWide(rid, Contents(packets))
    ensures PacketsWide(rid, packets)
  {
    if packets == [] {
    } else {
      var k := |packets| - 1;
      assert Contents(packets) == Contents(packets[..k]) + packets[k].offers;
      ContentsWide(rid, packets[..k]);
      assert forall j :: 0 <= j < k ==> packets[..k][j] == packets[j];
    }
  }

  lemma WideAtMost(rid: uint32, table: seq<seq<Offer>>)
    requires TableWide(rid, table)
    ensures AtMost(table, MOST_WIDE)
  {
    forall i, j | 0 <= i < |table| && 0 <= j < |table[i]| ensures |table[i][j].bytes| <= MOST_WIDE {
      var o := table[i][j];
      assert Wide(rid, o);
      BodyLength(rid, RouteOf(rid, o));
    }
  }

  /** The packets of a full-table update to a wide peer: what it takes out of them and what they contain. */
  lemma UpdatePackets(s: Sender, table: seq<seq<Offer>>, start: uint32, rid: uint32, auth: Option<Bytes>)
    requires Base(s) + RESERVE <= s.mtu && TableWide(rid, table) && (auth.Some? ==> AuthTlv(auth.value))
    ensures var ps := PackedAll(s, table, start).All();
            && PacketsWide(rid, ps) && AllWide(rid, PassingAll(s, table)) && Contents(ps) == PassingAll(s, table)
            && Taken(auth, ps) == ReceivedAll(rid, RoutesIn(rid, ps))
            && Wanted(rid, PassingAll(s, table)) == SentAll(rid, RoutesIn(rid, ps))
  {
    var ps := PackedAll(s, table, start).All();
    WideAtMost(rid, table);
    EveryRouteOnce(s, table, start, MOST_WIDE);
    PassingAllWide(rid, s, table);
    ContentsWide(rid, ps);
    TakenReceived(rid, auth, ps);
    SentWanted(rid, ps);
  }

  ghost predicate OneRouteEach(packets: seq<EotPacket>) {
    forall k :: 0 <= k < |packets| ==> |packets[k].offers| <= 1
  }

  /** From topology table to topology table: what passes split horizon and the filter reaches a wide peer complete
      exactly if the packing happens to put no two routes into one packet. */
  lemma FullTableArrives(s: Sender, table: seq<seq<Offer>>, start: uint32, rid: uint32, auth: Option<Bytes>)
    requires Base(s) + RESERVE <= s.mtu && TableWide(rid, table) && (auth.Some? ==> AuthTlv(auth.value))
    ensures AllWide(rid, PassingAll(s, table))
    ensures var ps := PackedAll(s, table, start).All();
            Taken(auth, ps) == Wanted(rid, PassingAll(s, table)) <==> OneRouteEach(ps)
  {
    var ps := PackedAll(s, table, start).All();
    UpdatePackets(s, table, start, rid, auth);
    UpdatesDeliver(rid, RoutesIn(rid, ps));
    OneEachRoutes(rid, ps);
  }

  lemma OneEachRoutes(rid: uint32, packets: seq<EotPacket>)
    requires PacketsWide(rid, packets)
    ensures OneEach(RoutesIn(rid, packets)) <==> OneRouteEach(packets)
  {
    var ps := RoutesIn(rid, packets);
    assert forall k :: 0 <= k < |packets| ==> |ps[k]| == |packets[k].offers|;
  }

  // ----- realistic MTUs -----

  /** The first packet takes a second route whenever two of the longest fit. */
  ghost predicate Sharing(f: Fill) {
    var n := |Contents(f.All())|;
    && (n <= 1 ==> f.placed == [] && f.cur.offers == Contents(f.All()))
    && (n == 1 ==> |f.cur.offers[0].bytes| <= MOST_WIDE)
    && (n >= 2 ==> !OneRouteEach(f.All()))
  }

  lemma PackedShares(s: Sender, o: Offer, start: uint32, f: Fill)
    requires Base(s) + MOST_WIDE + RESERVE <= s.mtu && |o.bytes| <= MOST_WIDE
    requires PacketsOk(s, start, MOST_WIDE, f.All()) && Sharing(f)
    ensures Sharing(Packed(s, o, f))
  {
    PackedCases(s, o, f);
    if |Contents(f.All())| <= 1 {
      FirstIsSmall(s, start, f);
      assert Roomy(s, f) == f;
      if Passes(s, o) {
        SecondShares(o, f);
      }
    } else {
      PackedOk(s, o, start, MOST_WIDE, f, Packed(s, o, f));
      StillShared(s, o, f);
    }
  }

  lemma SecondShares(o: Offer, f: Fill)
    requires f.placed == [] && |f.cur.offers| <= 1 && |o.bytes| <= MOST_WIDE
    ensures Sharing(Grown(o, f))
  {
    var g := Grown(o, f);
    ContentsNext([], g.cur);
    assert [] + [g.cur] == g.All() && Contents(g.All()) == g.cur.offers;
    assert g.All()[0] == g.cur;
    if f.cur.offers == [] {
      assert g.cur.offers == [o];
    }
  }

  lemma FirstIsSmall(s: Sender, start: uint32, f: Fill)
    requires PacketsOk(s, start, MOST_WIDE, f.All()) && f.placed == [] && |f.cur.offers| <= 1
    requires |f.cur.offers| == 1 ==> |f.cur.offers[0].bytes| <= MOST_WIDE
    ensures f.cur.length <= Base(s) + MOST_WIDE
  {
    assert f.All()[0] == f.cur;
    if |f.cur.offers| == 1 {
      SizeNext([], f.cur.offers[0]);
      assert [] + [f.cur.offers[0]] == f.cur.offers;
    }
  }

  lemma StillShared(s: Sender, o: Offer, f: Fill)
    requires !OneRouteEach(f.All())
    ensures !OneRouteEach(Packed(s, o, f).All())
  {
    var k :| 0 <= k < |f.All()| && |f.All()[k].offers| > 1;
    var g := Packed(s, o, f);
    assert |g.All()[k].offers| > 1;
  }

  lemma {:induction false} EachShares(s: Sender, entries: seq<Offer>, start: uint32, f: Fill)
    requires Base(s) + MOST_WIDE + RESERVE <= s.mtu
    requires forall j :: 0 <= j < |entries| ==> |entries[j].bytes| <= MOST_WIDE
    requires PacketsOk(s, start, MOST_WIDE, f.All()) && Sharing(f)
    ensures Sharing(PackedEach(s, entries, f))
  {
    if entries == [] {
    } else {
      var k := |entries| - 1;
      EachShares(s, entries[..k], start, f);
      PackedEachOk(s, entries[..k], start, MOST_WIDE, f);
      PackedShares(s, entries[k], start, PackedEach(s, entries[..k], f));
    }
  }

  lemma {:induction false} TableShares(s: Sender, table: seq<seq<Offer>>, start: uint32)
    requires Base(s) + MOST_WIDE + RESERVE <= s.mtu && AtMost(table, MOST_WIDE)
    ensures Sharing(PackedAll(s, table, start))
  {
    if table == [] {
      ContentsNext([], EotPacket(start, [], Base(s)));
    } else {
      var k := |table| - 1;
      TableShares(s, table[..k], start);
      EveryRouteOnce(s, table[..k], start, MOST_WIDE);
      EachShares(s, table[k], start, PackedAll(s, table[..k], start));
    }
  }

  /** With an MTU that has room for the longest encoding and the reserve, which every real one has, the whole table
      arrives exactly if there is at most one route to send. */
  lemma OnlyOneRouteArrives(s: Sender, table: seq<seq<Offer>>, start: uint32, rid: uint32, auth: Option<Bytes>)
    requires Base(s) + MOST_WIDE + RESERVE <= s.mtu && TableWide(rid, table) && (auth.Some? ==> AuthTlv(auth.value))
    ensures AllWide(rid, PassingAll(s, table))
    ensures Taken(auth, PackedAll(s, table, start).All()) == Wanted(rid, PassingAll(s, table))
            <==> |PassingAll(s, table)| <= 1
  {
    var f := PackedAll(s, table, start);
    UpdatePackets(s, table, start, rid, auth);
    FullTableArrives(s, table, start, rid, auth);
    WideAtMost(rid, table);
    TableShares(s, table, start);
    if |PassingAll(s, table)| <= 1 {
      assert f.All() == [f.cur];
    }
  }
}
