/**
 The full-table update a neighbour gets when it comes up: which descriptors it contains, how they are
 packed into packets, and how large a packet can get.
 */
module EotPacking {
  import opened Words
  import opened Metric
  import opened Wire
  import Tlv1
  import Tlv2

  type PrefixId = nat

  /** The room the daemon keeps for one route (`EIGRP_TLV_MAX_IPV4_BYTE`). */
  const RESERVE := 29

  /** A descriptor of the topology table with what the neighbour's encoder makes of it. */
  datatype Offer = Offer(prefix: PrefixId, ei: nat, distance: uint32, bytes: seq<uint8>)

  /** `auth` is the size of the authentication TLV, zero without one; `denied` is the outbound filter. */
  datatype Sender = Sender(mtu: uint16, auth: nat, ei: nat, denied: set<PrefixId>)

  datatype EotPacket = EotPacket(sequence: uint32, offers: seq<Offer>, length: nat)

  /** `eigrp_nbr_split_horizon_check`. */
  predicate SplitHorizon(s: Sender, o: Offer) {
    o.distance != MAX_METRIC && o.ei == s.ei
  }

  predicate Passes(s: Sender, o: Offer) {
    !SplitHorizon(s, o) && o.prefix !in s.denied
  }

  /** The descriptors that pass split horizon and the filter, in list order. */
  function Passing(s: Sender, entries: seq<Offer>): seq<Offer> {
    if entries == [] then []
    else
      var o := entries[|entries| - 1];
      Passing(s, entries[..|entries| - 1]) + (if Passes(s, o) then [o] else [])
  }

  function PassingAll(s: Sender, table: seq<seq<Offer>>): seq<Offer> {
    if table == [] then [] else PassingAll(s, table[..|table| - 1]) + Passing(s, table[|table| - 1])
  }

  function Size(offers: seq<Offer>): nat {
    if offers == [] then 0 else Size(offers[..|offers| - 1]) + |offers[|offers| - 1].bytes|
  }

  function Contents(packets: seq<EotPacket>): seq<Offer> {
    if packets == [] then [] else Contents(packets[..|packets| - 1]) + packets[|packets| - 1].offers
  }

  function Base(s: Sender): nat {
    HEADER_LEN + s.auth
  }

  /** No descriptor encodes to more than `most` bytes. */
  ghost predicate AtMost(table: seq<seq<Offer>>, most: nat) {
    forall i, j :: 0 <= i < |table| && 0 <= j < |table[i]| ==> |table[i][j].bytes| <= most
  }

  lemma SizeNext(offers: seq<Offer>, o: Offer)
    ensures Size(offers + [o]) == Size(offers) + |o.bytes|
  {
    assert (offers + [o])[..|offers|] == offers;
  }

  lemma ContentsNext(packets: seq<EotPacket>, p: EotPacket)
    ensures Contents(packets + [p]) == Contents(packets) + p.offers
  {
    assert (packets + [p])[..|packets|] == packets;
  }

  /** `seq_no++` on 32 bits. */
  function Bump(sequence: uint32): uint32 {
    if sequence == 0xffff_ffff then 0 else sequence + 1
  }

  /** The number of the `k`-th packet. */
  function Numbered(start: uint32, k: nat): uint32 {
    if k == 0 then start else Bump(Numbered(start, k - 1))
  }

  /** Unlike the numbers of `SequenceNumbers` these pass through zero. */
  lemma {:induction false} NumberedWraps(start: uint32, k: nat)
    ensures Numbered(start, k) == Wrap32(start + k)
  {
    if k == 0 {
    } else {
      NumberedWraps(start, k - 1);
      BumpWraps(start + k - 1);
    }
  }

  lemma BumpWraps(n: nat)
    ensures Bump(Wrap32(n)) == Wrap32(n + 1)
  {
  }

  // ----- the packing loop -----

  /** The packets placed so far are within bounds and numbered consecutively. */
  ghost predicate PacketsOk(s: Sender, start: uint32, most: nat, packets: seq<EotPacket>) {
    forall k :: 0 <= k < |packets| ==>
      && packets[k].sequence == Numbered(start, k)
      && packets[k].length == Base(s) + Size(packets[k].offers)
      && packets[k].length <= s.mtu - RESERVE + most
  }

  lemma PacketClosed(s: Sender, start: uint32, most: nat, packets: seq<EotPacket>, cur: EotPacket)
    requires PacketsOk(s, start, most, packets + [cur]) && RESERVE <= most && Base(s) + RESERVE <= s.mtu
    ensures PacketsOk(s, start, most, packets + [cur] + [EotPacket(Bump(cur.sequence), [], Base(s))])
  {
    var all := packets + [cur];
    var more := all + [EotPacket(Bump(cur.sequence), [], Base(s))];
    assert all[|packets|] == cur;
    forall k | 0 <= k < |more|
      ensures more[k].sequence == Numbered(start, k) && more[k].length == Base(s) + Size(more[k].offers)
      ensures more[k].length <= s.mtu - RESERVE + most
    {
      assert k < |all| ==> more[k] == all[k];
    }
  }

  lemma PacketGrows(s: Sender, start: uint32, most: nat, packets: seq<EotPacket>, cur: EotPacket, o: Offer)
    requires PacketsOk(s, start, most, packets + [cur]) && cur.length + RESERVE <= s.mtu && |o.bytes| <= most
    ensures PacketsOk(s, start, most,
                      packets + [cur.(offers := cur.offers + [o], length := cur.length + |o.bytes|)])
  {
    var all := packets + [cur];
    var more := packets + [cur.(offers := cur.offers + [o], length := cur.length + |o.bytes|)];
    assert all[|packets|] == cur;
    SizeNext(cur.offers, o);
    forall k | 0 <= k < |more|
      ensures more[k].sequence == Numbered(start, k) && more[k].length == Base(s) + Size(more[k].offers)
      ensures more[k].length <= s.mtu - RESERVE + most
    {
      assert k < |packets| ==> more[k] == all[k];
    }
  }

  /** A packing in progress: packets already placed, and the one being filled. */
  datatype Fill = Fill(placed: seq<EotPacket>, cur: EotPacket) {
    function All(): seq<EotPacket> {
      placed + [cur]
    }
  }

  /** A new packet is begun when the reserve does not fit any more. */
  function Roomy(s: Sender, f: Fill): Fill {
    if f.cur.length + RESERVE > s.mtu then Fill(f.All(), EotPacket(Bump(f.cur.sequence), [], Base(s))) else f
  }

  /** One descriptor. Room is made before the filter is asked. */
  function Packed(s: Sender, o: Offer, f: Fill): Fill {
    if SplitHorizon(s, o) then f
    else
      var g := Roomy(s, f);
      if o.prefix in s.denied then g
      else Grown(o, g)
  }

  function Grown(o: Offer, g: Fill): Fill {
    g.(cur := g.cur.(offers := g.cur.offers + [o], length := g.cur.length + |o.bytes|))
  }

  function PackedEach(s: Sender, entries: seq<Offer>, f: Fill): Fill {
    if entries == [] then f else Packed(s, entries[|entries| - 1], PackedEach(s, entries[..|entries| - 1], f))
  }

  function PackedAll(s: Sender, table: seq<seq<Offer>>, start: uint32): Fill {
    if table == [] then Fill([], EotPacket(start, [], Base(s)))
    else PackedEach(s, table[|table| - 1], PackedAll(s, table[..|table| - 1], start))
  }

  lemma RoomyOk(s: Sender, start: uint32, most: nat, f: Fill)
    requires RESERVE <= most && Base(s) + RESERVE <= s.mtu && PacketsOk(s, start, most, f.All())
    ensures var g := Roomy(s, f);
            && PacketsOk(s, start, most, g.All()) && g.cur.length + RESERVE <= s.mtu
            && Contents(g.All()) == Contents(f.All())
  {
    if f.cur.length + RESERVE > s.mtu {
      PacketClosed(s, start, most, f.placed, f.cur);
      ContentsNext(f.All(), EotPacket(Bump(f.cur.sequence), [], Base(s)));
    }
  }

  lemma GrownOk(s: Sender, o: Offer, start: uint32, most: nat, g: Fill)
    requires PacketsOk(s, start, most, g.All()) && g.cur.length + RESERVE <= s.mtu && |o.bytes| <= most
    ensures PacketsOk(s, start, most, Grown(o, g).All()) && Contents(Grown(o, g).All()) == Contents(g.All()) + [o]
  {
    PacketGrows(s, start, most, g.placed, g.cur, o);
    ContentsNext(g.placed, g.cur);
    ContentsNext(g.placed, g.cur.(offers := g.cur.offers + [o], length := g.cur.length + |o.bytes|));
  }

  lemma PackedCases(s: Sender, o: Offer, f: Fill)
    ensures Packed(s, o, f) == if SplitHorizon(s, o) then f
                               else if Passes(s, o) then Grown(o, Roomy(s, f)) else Roomy(s, f)
  {
  }

  lemma PackedOk(s: Sender, o: Offer, start: uint32, most: nat, f: Fill, g: Fill)
    requires RESERVE <= most && Base(s) + RESERVE <= s.mtu && |o.bytes| <= most
    requires PacketsOk(s, start, most, f.All()) && g == Packed(s, o, f)
    ensures PacketsOk(s, start, most, g.All())
    ensures Contents(g.All()) == if Passes(s, o) then Contents(f.All()) + [o] else Contents(f.All())
  {
    PackedCases(s, o, f);
    RoomyOk(s, start, most, f);
    if Passes(s, o) {
      GrownOk(s, o, start, most, Roomy(s, f));
    }
  }

  lemma {:induction false} PackedEachOk(s: Sender, entries: seq<Offer>, start: uint32, most: nat, f: Fill)
    requires RESERVE <= most && Base(s) + RESERVE <= s.mtu
    requires forall j :: 0 <= j < |entries| ==> |entries[j].bytes| <= most
    requires PacketsOk(s, start, most, f.All())
    ensures var g := PackedEach(s, entries, f);
            && PacketsOk(s, start, most, g.All()) && Contents(g.All()) == Contents(f.All()) + Passing(s, entries)
  {
    if entries == [] {
    } else {
      var k := |entries| - 1;
      var f', g := PackedEach(s, entries[..k], f), PackedEach(s, entries, f);
      PackedEachOk(s, entries[..k], start, most, f);
      assert |entries[k].bytes| <= most && g == Packed(s, entries[k], f');
      PackedOk(s, entries[k], start, most, f', g);
      PassingNext(s, entries, Contents(f.All()));
    }
  }

  lemma PassingNext(s: Sender, entries: seq<Offer>, before: seq<Offer>)
    requires entries != []
    ensures var k := |entries| - 1; var all := before + Passing(s, entries[..k]);
            before + Passing(s, entries) == if Passes(s, entries[k]) then all + [entries[k]] else all
  {
  }

  /** For any bound on the encoded size of one descriptor: what passes split horizon and the filter is sent,
      once and in order, in consecutively numbered packets no longer than the MTU less the reserve plus that
      bound. With the bound equal to the reserve, no packet exceeds the MTU. */
  lemma {:induction false} EveryRouteOnce(s: Sender, table: seq<seq<Offer>>, start: uint32, most: nat)
    requires RESERVE <= most && AtMost(table, most) && Base(s) + RESERVE <= s.mtu
    ensures var packets := PackedAll(s, table, start).All();
            && Contents(packets) == PassingAll(s, table)
            && PacketsOk(s, start, most, packets)
  {
    if table == [] {
      ContentsNext([], EotPacket(start, [], Base(s)));
    } else {
      var k := |table| - 1;
      EveryRouteOnce(s, table[..k], start, most);
      PackedEachOk(s, table[k], start, most, PackedAll(s, table[..k], start));
    }
  }

  /** The descriptors of the table, in table order. */
  function Flat(table: seq<seq<Offer>>): seq<Offer> {
    if table == [] then [] else Flat(table[..|table| - 1]) + table[|table| - 1]
  }

  /** What the receiver has to be told: not denied by the filter, and learned on another interface or lost. */
  predicate Due(s: Sender, o: Offer) {
    o.prefix !in s.denied && (o.ei != s.ei || o.distance == MAX_METRIC)
  }

  lemma {:induction false} PassingCounts(s: Sender, entries: seq<Offer>, o: Offer)
    ensures multiset(Passing(s, entries))[o] == if Due(s, o) then multiset(entries)[o] else 0
  {
    if entries == [] {
    } else {
      var p, x := entries[..|entries| - 1], entries[|entries| - 1];
      PassingCounts(s, p, o);
      assert entries == p + [x];
    }
  }

  lemma {:induction false} PassingAllCounts(s: Sender, table: seq<seq<Offer>>, o: Offer)
    ensures multiset(PassingAll(s, table))[o] == if Due(s, o) then multiset(Flat(table))[o] else 0
  {
    if table == [] {
    } else {
      PassingAllCounts(s, table[..|table| - 1], o);
      PassingCounts(s, table[|table| - 1], o);
    }
  }

  /** The packets of the full-table update hold each descriptor that is due as often as the table does, and no
      other. */
  lemma SentExactly(s: Sender, table: seq<seq<Offer>>, start: uint32, most: nat, o: Offer)
    requires RESERVE <= most && AtMost(table, most) && Base(s) + RESERVE <= s.mtu
    ensures multiset(Contents(PackedAll(s, table, start).All()))[o]
         == if o.prefix !in s.denied && (o.ei != s.ei || o.distance == MAX_METRIC) then multiset(Flat(table))[o] else 0
  {
    EveryRouteOnce(s, table, start, most);
    PassingAllCounts(s, table, o);
  }

  lemma {:induction false} PassingConcat(s: Sender, a: seq<Offer>, b: seq<Offer>)
    ensures Passing(s, a + b) == Passing(s, a) + Passing(s, b)
  {
    if b == [] {
      assert a + b == a;
    } else {
      var k := |b| - 1;
      PassingConcat(s, a, b[..k]);
      assert (a + b)[..|a + b| - 1] == a + b[..k];
    }
  }

  lemma {:induction false} PassingFlat(s: Sender, table: seq<seq<Offer>>)
    ensures PassingAll(s, table) == Passing(s, Flat(table))
  {
    if table == [] {
    } else {
      PassingFlat(s, table[..|table| - 1]);
      PassingConcat(s, Flat(table[..|table| - 1]), table[|table| - 1]);
    }
  }

  /** They hold them in table order: what is sent for a table is what is sent for its first part and then what is sent
      for the rest, wherever it is divided. */
  lemma SentInOrder(s: Sender, table: seq<seq<Offer>>, a: seq<seq<Offer>>, b: seq<seq<Offer>>, start: uint32, most: nat)
    requires RESERVE <= most && AtMost(table, most) && AtMost(a, most) && AtMost(b, most) && Base(s) + RESERVE <= s.mtu
    requires Flat(table) == Flat(a) + Flat(b)
    ensures Contents(PackedAll(s, table, start).All())
         == Contents(PackedAll(s, a, start).All()) + Contents(PackedAll(s, b, start).All())
  {
    EveryRouteOnce(s, table, start, most);
    EveryRouteOnce(s, a, start, most);
    EveryRouteOnce(s, b, start, most);
    PassingFlat(s, table);
    PassingFlat(s, a);
    PassingFlat(s, b);
    PassingConcat(s, Flat(a), Flat(b));
  }

  lemma {:induction false} EachNumbered(s: Sender, entries: seq<Offer>, start: uint32, f: Fill)
    requires f.cur.sequence == Numbered(start, |f.placed|)
    ensures var g := PackedEach(s, entries, f); g.cur.sequence == Numbered(start, |g.placed|)
  {
    if entries == [] {
    } else {
      EachNumbered(s, entries[..|entries| - 1], start, f);
    }
  }

  lemma {:induction false} LastNumbered(s: Sender, table: seq<seq<Offer>>, start: uint32)
    ensures var f := PackedAll(s, table, start); f.cur.sequence == Numbered(start, |f.placed|)
  {
    if table == [] {
    } else {
      var k := |table| - 1;
      LastNumbered(s, table[..k], start);
      EachNumbered(s, table[k], start, PackedAll(s, table[..k], start));
    }
  }

  /** The number the instance's counter is left at, and the next INIT packet gets, is zero exactly if the packets
      before the last one use up the numbers from `start` to the end of the cycle. */
  lemma ZeroLeftExactly(s: Sender, table: seq<seq<Offer>>, start: uint32)
    requires start != 0
    ensures var f := PackedAll(s, table, start);
            && (f.cur.sequence == 0 <==> Wrap32(start + |f.placed|) == 0)
            && (|f.placed| < 0x1_0000_0000 ==> (f.cur.sequence == 0 <==> |f.placed| == 0x1_0000_0000 - start))
  {
    var f := PackedAll(s, table, start);
    LastNumbered(s, table, start);
    NumberedWraps(start, |f.placed|);
    if |f.placed| < 0x1_0000_0000 {
      WrapsToZero(start, |f.placed|);
    }
  }

  lemma WrapsToZero(start: uint32, n: nat)
    requires start != 0 && n < 0x1_0000_0000
    ensures Wrap32(start + n) == 0 <==> n == 0x1_0000_0000 - start
  {
  }

  /** The reserve is the most a route may take: any larger encoding can overrun the MTU. */
  lemma LargerOverruns(s: Sender, o: Offer, start: uint32)
    requires Passes(s, o) && |o.bytes| > RESERVE
    requires Base(s) + |o.bytes| + RESERVE <= s.mtu < Base(s) + 2 * |o.bytes|
    ensures PackedAll(s, [[o, o]], start).cur.length > s.mtu
  {
    var f := Fill([], EotPacket(start, [], Base(s)));
    assert [[o, o]][..0] == [];
    assert [o, o][..1] == [o] && [o][..0] == [];
    assert PackedEach(s, [o], f) == Packed(s, o, f);
  }

  /** The reserve covers classic internal routes and nothing else: classic external ones and all wide ones are
      larger. */
  lemma ReserveCoversExactly(rid: uint32, r: Tlv2.TlvRoute)
    ensures Tlv1.Encodable1(r) ==> (|Tlv1.Encoded1(r)| <= RESERVE <==> Tlv1.TlvType1(r.kind) == Tlv2.IPV4_INT)
    ensures Tlv2.Encodable(r) ==> |Tlv2.Encoded(rid, r)| > RESERVE
  {
    if Tlv1.Encodable1(r) {
      Tlv1.BodyLength1(r);
    }
    if Tlv2.Encodable(r) {
      Tlv2.BodyLength(rid, r);
    }
  }

  // ----- the loop -----

  method PackOne(s: Sender, o: Offer, placed: seq<EotPacket>, cur: EotPacket)
    returns (placed': seq<EotPacket>, cur': EotPacket)
    ensures Fill(placed', cur') == Packed(s, o, Fill(placed, cur))
  {
    placed', cur' := placed, cur;
    if SplitHorizon(s, o) {
      return;
    }
    if cur.length + RESERVE > s.mtu {
      placed' := placed' + [cur'];
      cur' := EotPacket(Bump(cur'.sequence), [], Base(s));
    }
    if o.prefix in s.denied {
      return;
    }
    cur' := cur'.(offers := cur'.offers + [o], length := cur'.length + |o.bytes|);
  }

  /** `eigrp_update_send_EOT`. The instance's counter is left at the last number used. */
  method UpdateSendEot(s: Sender, table: seq<seq<Offer>>, start: uint32)
    returns (packets: seq<EotPacket>, counter: uint32)
    ensures packets == PackedAll(s, table, start).All()
    ensures packets != [] && counter == packets[|packets| - 1].sequence == Wrap32(start + |packets| - 1)
  {
    var cur := EotPacket(start, [], Base(s));
    packets := [];
    for i := 0 to |table|
      invariant Fill(packets, cur) == PackedAll(s, table[..i], start)
    {
      var entries := table[i];
      ghost var f := Fill(packets, cur);
      for j := 0 to |entries|
        invariant Fill(packets, cur) == PackedEach(s, entries[..j], f)
      {
        assert entries[..j + 1][..j] == entries[..j];
        packets, cur := PackOne(s, entries[j], packets, cur);
      }
      assert entries[..|entries|] == entries;
      assert table[..i + 1][..i] == table[..i];
    }
    assert table[..|table|] == table;
    LastNumbered(s, table, start);
    NumberedWraps(start, |packets|);
    packets := packets + [cur];
    counter := cur.sequence;
  }
}
