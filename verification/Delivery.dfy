/**
 The neighbour descriptor and the functions that fill and empty its retransmission queue, on the linked
 queue itself, each proved to take the step of `Transport` it stands for.
 */
module Delivery {
  import opened Words
  import opened PacketQueue
  import opened SequenceNumbers
  import opened Topology
  import opened Transport

  /** What is handed to an interface's output queue. */
  datatype Sent = Unicast(nbr: NbrId, sequence: uint32) | Multicast(sequence: uint32)

  class Neighbor {
    const id: NbrId
    var state: NbrState
    var initSequence: uint32
    var retransQueue: Queue
    ghost var accepted: seq<Packet>
    ghost var acked: seq<Packet>
    ghost var handed: set<nat>

    constructor (id: NbrId)
      ensures Valid() && View() == Fresh(Down) && this.id == id && fresh(retransQueue)
    {
      this.id := id;
      state, initSequence := Down, 0;
      retransQueue := new Queue();
      accepted, acked, handed := [], [], {};
    }

    ghost predicate Valid()
      reads this, retransQueue, retransQueue.q
    {
      retransQueue.Valid()
    }

    ghost function View(): Peer
      reads this, retransQueue
    {
      Peer(state, initSequence, retransQueue.q, accepted, acked, handed)
    }

    /** The part of `eigrp_nbr_state_set` for DOWN: the queue is replaced by a new one. */
    method Reset()
      modifies this
      ensures Valid() && View() == Fresh(Down) && fresh(retransQueue)
    {
      state, initSequence := Down, 0;
      retransQueue := new Queue();
      accepted, acked, handed := [], [], {};
    }
  }

  class Interface {
    var nbrs: seq<Neighbor>
    var obuf: seq<Sent>
  }

  /** `eigrp_packet_send_reliably`; `eigrp_packet_unack_retrans` queues the same packet again. */
  method SendReliably(ei: Interface, nbr: Neighbor)
    requires nbr.Valid()
    modifies ei`obuf, nbr`handed
    ensures nbr.View() == HandOver(old(nbr.View()))
    ensures var q := nbr.retransQueue.q;
            ei.obuf == old(ei.obuf) + if q == [] then [] else [Unicast(nbr.id, q[0].sequence)]
  {
    var packet := nbr.retransQueue.Next();
    if packet != null {
      ei.obuf := ei.obuf + [Unicast(nbr.id, packet.sequence)];
      nbr.handed := nbr.handed + {|nbr.acked|};
    }
  }

  /** `eigrp_update_place_on_nbr_queue`. */
  method PlaceOnNbrQueue(ei: Interface, nbr: Neighbor, packet: Packet)
    requires nbr.Valid() && packet !in nbr.retransQueue.q && !packet.freed
    modifies ei`obuf, nbr`handed, nbr`accepted, nbr.retransQueue, nbr.retransQueue.q, packet
    ensures nbr.Valid() && nbr.View() == Place(old(nbr.View()), packet)
    ensures nbr.retransQueue.q == old(nbr.retransQueue.q) + [packet]
  {
    nbr.retransQueue.Enqueue(packet);
    nbr.accepted := nbr.accepted + [packet];
    if nbr.retransQueue.count == 1 {
      SendReliably(ei, nbr);
    }
  }

  /** The first part of `eigrp_packet_ack`: the acknowledged packet leaves the queue and is freed. */
  method Acknowledge(nbr: Neighbor, ack: uint32) returns (acted: bool)
    requires nbr.Valid()
    modifies nbr`acked, nbr.retransQueue, nbr.retransQueue.q
    ensures nbr.Valid()
    ensures acted == (old(nbr.retransQueue.q) != [] && ack == old(nbr.retransQueue.q)[0].sequence)
    ensures nbr.View() == if acted then Dequeued(old(nbr.View())) else old(nbr.View())
    ensures acted ==> old(nbr.retransQueue.q)[0].freed
  {
    var packet := nbr.retransQueue.Next();
    acted := packet != null && ack == packet.sequence;
    if acted {
      packet := nbr.retransQueue.Dequeue();
      nbr.acked := nbr.acked + [packet];
      packet.Free();
    }
  }

  /** The packets can be queued behind `q`, one after the other. */
  ghost predicate Ready(q: seq<Packet>, packets: seq<Packet>)
    reads packets
  {
    && (forall i, j :: 0 <= i < j < |packets| ==> packets[i] != packets[j])
    && (forall i :: 0 <= i < |packets| ==> packets[i] !in q && !packets[i].freed)
  }

  lemma PlaceAllNext(p: Peer, packets: seq<Packet>, i: nat)
    requires i < |packets|
    ensures PlaceAll(p, packets[..i + 1]) == Place(PlaceAll(p, packets[..i]), packets[i])
  {
    assert packets[..i + 1][..i] == packets[..i];
  }

  lemma QueuedNext<T>(q: seq<T>, s: seq<T>, i: nat)
    requires i < |s|
    ensures q + s[..i + 1] == q + s[..i] + [s[i]]
  {
  }

  lemma ReadyRest(q: seq<Packet>, packets: seq<Packet>)
    requires packets != [] && Ready(q, packets)
    ensures Ready(q + [packets[0]], packets[1..]) && forall x :: x in packets[1..] ==> x != packets[0] && x !in q
  {
  }

  /** One packet of the full-table update. */
  method PlaceNth(ei: Interface, nbr: Neighbor, packets: seq<Packet>, i: nat, ghost was: Peer, ghost q: seq<Packet>)
    requires nbr.Valid() && i < |packets| && nbr.View() == PlaceAll(was, packets[..i])
    requires nbr.retransQueue.q == q + packets[..i] && Ready(nbr.retransQueue.q, packets[i..])
    modifies ei`obuf, nbr`handed, nbr`accepted, nbr.retransQueue, nbr.retransQueue.q, packets[i]
    ensures nbr.Valid() && nbr.View() == PlaceAll(was, packets[..i + 1])
    ensures nbr.retransQueue.q == q + packets[..i + 1] && Ready(nbr.retransQueue.q, packets[i + 1..])
  {
    PlaceAllNext(was, packets, i);
    assert packets[i..][0] == packets[i] && packets[i..][1..] == packets[i + 1..];
    ReadyRest(nbr.retransQueue.q, packets[i..]);
    PlaceOnNbrQueue(ei, nbr, packets[i]);
    QueuedNext(q, packets, i);
  }

  /** The full-table update, its packets already built. */
  method PlaceEach(ei: Interface, nbr: Neighbor, packets: seq<Packet>)
    requires nbr.Valid() && Ready(nbr.retransQueue.q, packets)
    modifies ei`obuf, nbr`handed, nbr`accepted, nbr.retransQueue, nbr.retransQueue.q, packets
    ensures nbr.Valid() && nbr.View() == PlaceAll(old(nbr.View()), packets)
  {
    ghost var was, q := nbr.View(), nbr.retransQueue.q;
    for i := 0 to |packets|
      invariant nbr.Valid() && nbr.View() == PlaceAll(was, packets[..i])
      invariant nbr.retransQueue.q == q + packets[..i] && Ready(nbr.retransQueue.q, packets[i..])
    {
      PlaceNth(ei, nbr, packets, i, was, q);
    }
    assert packets[..|packets|] == packets;
  }

  /** INIT was acknowledged: the peer is UP and gets the full table. */
  method ComeUp(ei: Interface, nbr: Neighbor, eot: seq<Packet>)
    requires nbr.Valid() && Ready(nbr.retransQueue.q, eot)
    modifies ei`obuf, nbr, nbr.retransQueue, nbr.retransQueue.q, eot
    ensures nbr.Valid() && nbr.View() == PlaceAll(old(nbr.View()).(state := Up, initSequence := 0), eot)
  {
    nbr.state, nbr.initSequence := Up, 0;
    PlaceEach(ei, nbr, eot);
  }

  /** `eigrp_packet_ack`, guarded as its caller guards it. */
  method PacketAck(ei: Interface, nbr: Neighbor, ack: uint32, eot: seq<Packet>)
    requires nbr.Valid() && Ready(nbr.retransQueue.q, eot)
    modifies ei`obuf, nbr, nbr.retransQueue, nbr.retransQueue.q, eot
    ensures nbr.Valid() && nbr.View() == Ack(old(nbr.View()), ack, eot)
  {
    if ack == 0 {
      return;
    }
    var acted := Acknowledge(nbr, ack);
    if acted {
      if nbr.state.Pending? && ack == nbr.initSequence {
        ComeUp(ei, nbr, eot);
      } else {
        SendReliably(ei, nbr);
      }
    }
  }

  // ----- a QUERY to every neighbour of an interface -----

  /** No neighbour is listed twice, and no queue is shared. */
  ghost predicate Distinct(nbrs: seq<Neighbor>)
    reads (set n | n in nbrs)`retransQueue
  {
    forall i, j :: 0 <= i < |nbrs| && 0 <= j < |nbrs| && i != j ==> Differ(nbrs[i], nbrs[j])
  }

  ghost predicate Differ(a: Neighbor, b: Neighbor)
    reads a`retransQueue, b`retransQueue
  {
    a != b && a.retransQueue != b.retransQueue
  }

  /** The neighbours that are UP, in list order. */
  function UpIds(nbrs: seq<Neighbor>): seq<NbrId>
    reads nbrs
  {
    if nbrs == [] then []
    else
      var n := nbrs[|nbrs| - 1];
      UpIds(nbrs[..|nbrs| - 1]) + (if n.state.Up? then [n.id] else [])
  }

  lemma UpIdsOne(n: Neighbor)
    ensures UpIds([n]) == if n.state == Up then [n.id] else []
  {
    assert [n][..0] == [];
  }

  /** Of two lists it holds what it holds of each, so with `UpIdsOne` it is the UP neighbours in list order. */
  lemma {:induction false} UpIdsConcat(a: seq<Neighbor>, b: seq<Neighbor>)
    ensures UpIds(a + b) == UpIds(a) + UpIds(b)
  {
    if b == [] {
      assert a + b == a;
    } else {
      var k := |b| - 1;
      UpIdsConcat(a, b[..k]);
      assert (a + b)[..|a + b| - 1] == a + b[..k];
    }
  }

  /** What a multicast QUERY is for one neighbour. */
  ghost predicate Offered(p: Peer, p': Peer, dup: Packet?, sequence: uint32) {
    if p.state.Up? then dup != null && dup.sequence == sequence && p' == Place(p, dup) else p' == p
  }

  ghost predicate Waits(p: Peer, nbr: Neighbor)
    reads nbr, nbr.retransQueue, nbr.retransQueue.q
  {
    nbr.Valid() && nbr.View() == p
  }

  ghost predicate IsIdle(p: Peer) {
    p.state.Up? && p.queue == []
  }

  /** The first `n` neighbours have been offered the QUERY, the others not yet. */
  ghost predicate OfferedUpTo(was: seq<Peer>, now: seq<Peer>, dups: seq<Packet?>, sequence: uint32, n: nat) {
    && n == |dups| <= |was| == |now|
    && (forall k :: 0 <= k < n ==> Offered(was[k], now[k], dups[k], sequence))
    && (forall k :: n <= k < |was| ==> now[k] == was[k])
  }

  ghost predicate SomeIdle(ps: seq<Peer>) {
    exists p :: p in ps && IsIdle(p)
  }

  lemma OfferedNext(was: seq<Peer>, now: seq<Peer>, dups: seq<Packet?>, sequence: uint32, n: nat, p: Peer, dup: Packet?)
    requires OfferedUpTo(was, now, dups, sequence, n) && n < |was| && Offered(was[n], p, dup, sequence)
    ensures OfferedUpTo(was, now[n := p], dups + [dup], sequence, n + 1)
  {
  }

  lemma IdleNext(ps: seq<Peer>, n: nat)
    requires n < |ps|
    ensures SomeIdle(ps[..n + 1]) <==> SomeIdle(ps[..n]) || IsIdle(ps[n])
  {
    assert ps[..n + 1] == ps[..n] + [ps[n]];
  }

  /** `eigrp_packetizer_query_encoder_neighbor`: is any neighbour UP? */
  method AnyUp(nbrs: seq<Neighbor>) returns (found: bool)
    ensures found <==> UpIds(nbrs) != []
  {
    found := false;
    for i := 0 to |nbrs|
      invariant UpIds(nbrs[..i]) == []
    {
      assert nbrs[..i + 1][..i] == nbrs[..i];
      if nbrs[i].state.Up? {
        UpIdsGrow(nbrs, i + 1);
        return true;
      }
    }
    assert nbrs[..|nbrs|] == nbrs;
  }

  lemma {:induction false} UpIdsGrow(nbrs: seq<Neighbor>, n: nat)
    requires n <= |nbrs| && UpIds(nbrs[..n]) != []
    ensures UpIds(nbrs) != []
    decreases |nbrs| - n
  {
    if n == |nbrs| {
      assert nbrs[..n] == nbrs;
    } else {
      assert nbrs[..n + 1][..n] == nbrs[..n];
      UpIdsGrow(nbrs, n + 1);
    }
  }

  /** The first loop: every UP neighbour goes on the reply list. */
  method AskAll(nbrs: seq<Neighbor>, rij: seq<NbrId>) returns (rij': seq<NbrId>)
    ensures rij' == rij + UpIds(nbrs)
  {
    rij' := rij;
    for i := 0 to |nbrs|
      invariant rij' == rij + UpIds(nbrs[..i])
    {
      assert nbrs[..i + 1][..i] == nbrs[..i];
      if nbrs[i].state.Up? {
        rij' := rij' + [nbrs[i].id];
      }
    }
    assert nbrs[..|nbrs|] == nbrs;
  }

  lemma QueuesApart(a: Queue, b: Queue)
    requires a.Valid() && b.Valid() && a != b
    ensures forall x :: x in a.q ==> x !in b.q
  {
  }

  /** One neighbour's share, if it is UP: a duplicate on its own queue; the retransmission timer is started
      only if nothing was waiting there. */
  method Offer(nbr: Neighbor, sequence: uint32) returns (idle: bool, ghost dup: Packet?)
    requires nbr.Valid()
    modifies nbr`handed, nbr`accepted, nbr.retransQueue, nbr.retransQueue.q
    ensures nbr.Valid() && Offered(old(nbr.View()), nbr.View(), dup, sequence)
    ensures idle == IsIdle(old(nbr.View()))
  {
    idle, dup := false, null;
    if nbr.state.Up? {
      idle := nbr.retransQueue.count == 0;
      var packet := new Packet(sequence);
      nbr.retransQueue.Enqueue(packet);
      nbr.accepted := nbr.accepted + [packet];
      if idle {
        nbr.handed := nbr.handed + {|nbr.acked|};
      }
      dup := packet;
    }
  }

  method OfferAt(nbr: Neighbor, sequence: uint32, ghost nbrs: seq<Neighbor>, ghost i: nat, ghost now: seq<Peer>)
    returns (idle: bool, ghost now': seq<Peer>, ghost dup: Packet?)
    requires Distinct(nbrs) && |now| == |nbrs| && i < |nbrs| && nbr == nbrs[i]
    requires forall k :: 0 <= k < |nbrs| ==> Waits(now[k], nbrs[k])
    modifies nbr`handed, nbr`accepted, nbr.retransQueue, nbr.retransQueue.q
    ensures |now'| == |nbrs| && now' == now[i := now'[i]]
    ensures forall k :: 0 <= k < |nbrs| ==> Waits(now'[k], nbrs[k])
    ensures Offered(now[i], now'[i], dup, sequence) && idle == IsIdle(now[i])
  {
    assert Waits(now[i], nbr);
    forall k | 0 <= k < |nbrs| && k != i
      ensures Differ(nbrs[k], nbr) && forall x :: x in nbrs[k].retransQueue.q ==> x !in nbr.retransQueue.q
    {
      assert Waits(now[k], nbrs[k]);
      QueuesApart(nbrs[k].retransQueue, nbr.retransQueue);
    }
    label before:
    idle, dup := Offer(nbr, sequence);
    now' := now[i := nbr.View()];
    forall k | 0 <= k < |nbrs| ensures Waits(now'[k], nbrs[k]) {
      assert old@before(Waits(now[k], nbrs[k]));
    }
  }

  /** Where the queues and packets of the neighbours are. */
  ghost predicate Within(ps: seq<Peer>, nbrs: seq<Neighbor>, queues: set<Queue>, packets: set<Packet>)
    reads (set n | n in nbrs)`retransQueue
  {
    && |ps| == |nbrs|
    && (forall k :: 0 <= k < |nbrs| ==> nbrs[k].retransQueue in queues)
    && (forall k, p :: 0 <= k < |nbrs| && p in ps[k].queue ==> p in packets)
  }

  /** The second loop: every UP neighbour gets a duplicate, and one multicast serves those that were idle. */
  method DuplicateToAll(nbrs: seq<Neighbor>, sequence: uint32, ghost was: seq<Peer>,
                        ghost queues: set<Queue>, ghost packets: set<Packet>)
    returns (initial: bool, ghost now: seq<Peer>, ghost dups: seq<Packet?>)
    requires Distinct(nbrs) && Within(was, nbrs, queues, packets)
    requires forall k :: 0 <= k < |nbrs| ==> Waits(was[k], nbrs[k])
    modifies (set n | n in nbrs)`handed, (set n | n in nbrs)`accepted, queues, packets
    ensures OfferedUpTo(was, now, dups, sequence, |nbrs|)
    ensures forall k :: 0 <= k < |nbrs| ==> Waits(now[k], nbrs[k])
    ensures initial <==> SomeIdle(was)
  {
    initial, now, dups := false, was, [];
    for i := 0 to |nbrs|
      invariant OfferedUpTo(was, now, dups, sequence, i)
      invariant forall k :: 0 <= k < |nbrs| ==> Waits(now[k], nbrs[k])
      invariant initial <==> SomeIdle(was[..i])
    {
      assert Waits(now[i], nbrs[i]);
      var idle;
      ghost var next, dup;
      idle, next, dup := OfferAt(nbrs[i], sequence, nbrs, i, now);
      OfferedNext(was, now, dups, sequence, i, next[i], dup);
      IdleNext(was, i);
      initial := initial || idle;
      now, dups := next, dups + [dup];
    }
    assert was[..|nbrs|] == was;
  }

  /** The first part of `eigrp_packetizer_query_interface_send`: is there an UP neighbour and a successor, and can
      the interface's encoder, of which `encoder` gives the number of bytes it appends, encode its route? A number
      is taken before the encoder is asked. */
  method BuildQuery(eigrp: Counter, nbrs: seq<Neighbor>, entries: seq<Route>, encoder: Route -> nat,
                    ghost was: seq<Peer>)
    returns (built: bool, sequence: uint32)
    requires |was| == |nbrs| && forall k :: 0 <= k < |nbrs| ==> Waits(was[k], nbrs[k])
    modifies eigrp
    ensures forall k :: 0 <= k < |nbrs| ==> Waits(was[k], nbrs[k])
    ensures UpIds(nbrs) == old(UpIds(nbrs))
    ensures var s := Successors(entries); var begun := old(UpIds(nbrs)) != [] && s != [];
            && (built <==> begun && encoder(s[0]) != 0)
            && (begun ==> sequence == Reserved(old(eigrp.sequenceNumber), 0))
            && eigrp.sequenceNumber == if begun then After(sequence) else old(eigrp.sequenceNumber)
  {
    built, sequence := false, 0;
    var anyUp := AnyUp(nbrs);
    if anyUp && Successors(entries) != [] {
      sequence := eigrp.Reserve();
      built := encoder(Successors(entries)[0]) != 0;
    }
  }

  /** The rest of it: reply list, duplicates, and the multicast. */
  method MulticastQuery(ei: Interface, rij: seq<NbrId>, sequence: uint32, ghost was: seq<Peer>,
                        ghost queues: set<Queue>, ghost packets: set<Packet>)
    returns (sent: bool, rij': seq<NbrId>, ghost now: seq<Peer>, ghost dups: seq<Packet?>)
    requires Distinct(ei.nbrs) && Within(was, ei.nbrs, queues, packets)
    requires forall k :: 0 <= k < |ei.nbrs| ==> Waits(was[k], ei.nbrs[k])
    modifies ei`obuf, (set n | n in ei.nbrs)`handed, (set n | n in ei.nbrs)`accepted, queues, packets
    ensures OfferedUpTo(was, now, dups, sequence, |ei.nbrs|) && rij' == rij + old(UpIds(ei.nbrs))
    ensures forall k :: 0 <= k < |ei.nbrs| ==> Waits(now[k], ei.nbrs[k])
    ensures sent <==> SomeIdle(was)
    ensures ei.obuf == old(ei.obuf) + if sent then [Multicast(sequence)] else []
  {
    rij' := AskAll(ei.nbrs, rij);
    sent, now, dups := DuplicateToAll(ei.nbrs, sequence, was, queues, packets);
    ei.obuf := ei.obuf + if sent then [Multicast(sequence)] else [];
  }

  /** `eigrp_packetizer_query_interface_send` on an interface that is not excepted. */
  method QueryInterfaceSend(eigrp: Counter, ei: Interface, entries: seq<Route>, rij: seq<NbrId>, encoder: Route -> nat,
                            ghost was: seq<Peer>, ghost queues: set<Queue>, ghost packets: set<Packet>)
    returns (built: bool, sent: bool, rij': seq<NbrId>, sequence: uint32, ghost now: seq<Peer>,
             ghost dups: seq<Packet?>)
    requires Distinct(ei.nbrs) && Within(was, ei.nbrs, queues, packets)
    requires forall k :: 0 <= k < |ei.nbrs| ==> Waits(was[k], ei.nbrs[k])
    modifies eigrp, ei`obuf, (set n | n in ei.nbrs)`handed, (set n | n in ei.nbrs)`accepted, queues, packets
    ensures |now| == |ei.nbrs| && forall k :: 0 <= k < |ei.nbrs| ==> Waits(now[k], ei.nbrs[k])
    ensures var s := Successors(entries);
            built <==> old(UpIds(ei.nbrs)) != [] && s != [] && encoder(s[0]) != 0
    ensures if built then OfferedUpTo(was, now, dups, sequence, |ei.nbrs|) else now == was
    ensures rij' == if built then rij + old(UpIds(ei.nbrs)) else rij
    ensures sent <==> built && SomeIdle(was)
    ensures ei.obuf == old(ei.obuf) + if sent then [Multicast(sequence)] else []
    ensures built ==> sequence == Reserved(old(eigrp.sequenceNumber), 0)
  {
    sent, rij', now, dups := false, rij, was, [];
    built, sequence := BuildQuery(eigrp, ei.nbrs, entries, encoder, was);
    if built {
      sent, rij', now, dups := MulticastQuery(ei, rij, sequence, was, queues, packets);
    }
  }
}
