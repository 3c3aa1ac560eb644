/**
 How full the packets of a full-table update get when every route encodes to the same number of bytes, and so
 for which interfaces a packet overruns the MTU.
 */
module EotSizes {
  import opened Words
  import opened Metric
  import opened EotPacking

  /** The bytes a packet has for routes. */
  function Room(s: Sender): nat
    requires Base(s) + RESERVE <= s.mtu
  {
    s.mtu - Base(s)
  }

  /** How many routes of `b` bytes go into a packet before the loop begins another. */
  function Capacity(s: Sender, b: nat): nat
    requires b > 0 && Base(s) + RESERVE <= s.mtu
  {
    (Room(s) - RESERVE) / b + 1
  }

  lemma Division(a: nat, b: nat)
    requires b > 0
    ensures a == Times(a / b, b) + a % b && a % b < b
  {
  }

  lemma TimesNext(n: nat, b: nat)
    ensures Times(n + 1, b) == Times(n, b) + b
  {
  }

  /** Another route is still begun in a packet that holds `n` exactly if `n` is below the capacity. */
  lemma CapacityFits(s: Sender, b: nat, n: nat)
    requires b > 0 && Base(s) + RESERVE <= s.mtu
    ensures Base(s) + Times(n, b) + RESERVE <= s.mtu <==> n < Capacity(s, b)
  {
    var k := Capacity(s, b) - 1;
    Division(Room(s) - RESERVE, b);
    TimesNext(k, b);
    if n <= k {
      TimesBound(n, b, k, b);
    } else {
      TimesBound(k + 1, b, n, b);
    }
  }

  /** A packet filled to capacity overruns exactly if the reserve fits into what whole routes leave of the room. */
  lemma FullOverruns(s: Sender, b: nat)
    requires b > 0 && Base(s) + RESERVE <= s.mtu
    ensures Base(s) + Times(Capacity(s, b), b) > s.mtu <==> Room(s) % b >= RESERVE
    ensures Room(s) % b >= RESERVE ==> Capacity(s, b) == Room(s) / b + 1
  {
    var q, c := Room(s) / b, Capacity(s, b);
    Division(Room(s), b);
    TimesNext(q, b);
    CapacityFits(s, b, q);
    CapacityFits(s, b, q + 1);
    if c <= q {
      TimesBound(c, b, q, b);
    }
  }

  // ----- what the packing keeps -----

  ghost predicate Holds(s: Sender, b: nat, p: EotPacket, n: nat) {
    |p.offers| == n && p.length == Base(s) + Times(n, b)
  }

  ghost predicate AllFull(s: Sender, b: nat, packets: seq<EotPacket>)
    requires b > 0 && Base(s) + RESERVE <= s.mtu
  {
    forall p :: p in packets ==> Holds(s, b, p, Capacity(s, b))
  }

  /** The packets already placed are full. */
  ghost predicate Even(s: Sender, b: nat, f: Fill)
    requires b > 0 && Base(s) + RESERVE <= s.mtu
  {
    && AllFull(s, b, f.placed)
    && Holds(s, b, f.cur, |f.cur.offers|) && |f.cur.offers| <= Capacity(s, b)
    && |Contents(f.placed)| == Times(|f.placed|, Capacity(s, b))
  }

  lemma RoomyEven(s: Sender, b: nat, f: Fill)
    requires b > 0 && Base(s) + RESERVE <= s.mtu && Even(s, b, f)
    ensures Even(s, b, Roomy(s, f)) && |Roomy(s, f).cur.offers| < Capacity(s, b)
  {
    CapacityFits(s, b, |f.cur.offers|);
    if f.cur.length + RESERVE > s.mtu {
      assert |f.cur.offers| == Capacity(s, b);
      ContentsNext(f.placed, f.cur);
      TimesNext(|f.placed|, Capacity(s, b));
      Unscaled(b);
    }
  }

  lemma GrownEven(s: Sender, b: nat, o: Offer, g: Fill)
    requires b > 0 && Base(s) + RESERVE <= s.mtu && Even(s, b, g)
    requires |o.bytes| == b && |g.cur.offers| < Capacity(s, b)
    ensures Even(s, b, Grown(o, g))
  {
    TimesNext(|g.cur.offers|, b);
  }

  lemma PackedEven(s: Sender, b: nat, o: Offer, f: Fill)
    requires b > 0 && Base(s) + RESERVE <= s.mtu && Even(s, b, f) && |o.bytes| == b
    ensures Even(s, b, Packed(s, o, f))
  {
    PackedCases(s, o, f);
    RoomyEven(s, b, f);
    GrownEven(s, b, o, Roomy(s, f));
  }

  lemma {:induction false} PackedEachEven(s: Sender, b: nat, entries: seq<Offer>, f: Fill)
    requires b > 0 && Base(s) + RESERVE <= s.mtu && Even(s, b, f)
    requires forall j :: 0 <= j < |entries| ==> |entries[j].bytes| == b
    ensures Even(s, b, PackedEach(s, entries, f))
  {
    if entries == [] {
    } else {
      var k := |entries| - 1;
      PackedEachEven(s, b, entries[..k], f);
      PackedEven(s, b, entries[k], PackedEach(s, entries[..k], f));
    }
  }

  /** Every descriptor encodes to `b` bytes. */
  ghost predicate AllOf(table: seq<seq<Offer>>, b: nat) {
    forall i, j :: 0 <= i < |table| && 0 <= j < |table[i]| ==> |table[i][j].bytes| == b
  }

  lemma {:induction false} PackedAllEven(s: Sender, b: nat, table: seq<seq<Offer>>, start: uint32)
    requires b > 0 && Base(s) + RESERVE <= s.mtu && AllOf(table, b)
    ensures Even(s, b, PackedAll(s, table, start))
  {
    if table == [] {
      Unscaled(b);
      Unscaled(Capacity(s, b));
    } else {
      var k := |table| - 1;
      PackedAllEven(s, b, table[..k], start);
      PackedEachEven(s, b, table[k], PackedAll(s, table[..k], start));
    }
  }

  ghost predicate Overruns(s: Sender, packets: seq<EotPacket>) {
    exists p :: p in packets && p.length > s.mtu
  }

  lemma EvenOverruns(s: Sender, b: nat, f: Fill)
    requires b > 0 && Base(s) + RESERVE <= s.mtu && Even(s, b, f)
    ensures Overruns(s, f.All())
            <==> Base(s) + Times(Capacity(s, b), b) > s.mtu && |Contents(f.All())| >= Capacity(s, b)
  {
    var c, n := Capacity(s, b), |f.cur.offers|;
    ContentsNext(f.placed, f.cur);
    if n < c {
      CapacityFits(s, b, n);
    }
    if f.placed == [] {
      Unscaled(c);
      assert f.All() == [f.cur];
      assert f.cur in f.All();
    } else {
      TimesBound(1, c, |f.placed|, c);
      assert f.placed[0] in f.placed && f.placed[0] in f.All();
    }
  }

  /** When every route encodes to `b` bytes, some packet of the full-table update overruns the MTU exactly if whole
      routes leave at least the reserve of the room and more routes are sent than fit into the room. */
  lemma OverrunsExactly(s: Sender, b: nat, table: seq<seq<Offer>>, start: uint32)
    requires b > 0 && Base(s) + RESERVE <= s.mtu && AllOf(table, b)
    ensures Overruns(s, PackedAll(s, table, start).All())
            <==> Room(s) % b >= RESERVE && |PassingAll(s, table)| > Room(s) / b
  {
    var f := PackedAll(s, table, start);
    PackedAllEven(s, b, table, start);
    EvenOverruns(s, b, f);
    FullOverruns(s, b);
    EveryRouteOnce(s, table, start, if b < RESERVE then RESERVE else b);
  }

  /** On an Ethernet interface without authentication wide internal routes of 41 bytes, the longest ones, never
      overrun; wide external ones of 57 bytes do as soon as more than 25 are sent. */
  lemma OnEthernet(s: Sender, table: seq<seq<Offer>>, start: uint32)
    requires s.mtu == 1480 && s.auth == 0
    ensures AllOf(table, 41) ==> !Overruns(s, PackedAll(s, table, start).All())
    ensures AllOf(table, 57) ==> (Overruns(s, PackedAll(s, table, start).All()) <==> |PassingAll(s, table)| > 25)
  {
    assert 1460 % 41 == 25 && 1460 % 57 == 35 && 1460 / 57 == 25;
    if AllOf(table, 41) {
      OverrunsExactly(s, 41, table, start);
    }
    if AllOf(table, 57) {
      OverrunsExactly(s, 57, table, start);
    }
  }
}
