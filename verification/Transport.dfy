/**
 Reliable delivery to one neighbour as a state machine: packets accepted for it, the packet outstanding,
 acknowledgements in any order and with any value, retransmissions, restarts of the peer.
 */
module Transport {
  import opened Words
  import opened PacketQueue

  /** What the daemon knows of a peer, with the history of this adjacency: the packets accepted for it, those
      acknowledged, and which of the accepted ones (by position) were ever handed to the output queue. */
  datatype Peer = Peer(state: NbrState, initSequence: uint32, queue: seq<Packet>,
                       accepted: seq<Packet>, acked: seq<Packet>, handed: set<nat>)

  /** `init` is the INIT packet built from the instance's sequence counter; `eot` are the packets of the
      full-table update, of which there is always at least one. */
  datatype PeerStep =
    | HelloMatched(init: Packet)       // K values agree: INIT is queued and the peer is Pending
    | InitReceived(init: Packet)       // an UPDATE with the INIT flag and a new sequence number
    | Placed(packet: Packet)           // UPDATE, QUERY or REPLY for an UP peer
    | Acked(ack: uint32, eot: seq<Packet>)
    | Retransmitted
    | Lost

  function Fresh(state: NbrState): Peer {
    Peer(state, 0, [], [], [], {})
  }

  /** `eigrp_packet_send_reliably`, and the retransmission timer: the oldest packet goes out. */
  function HandOver(p: Peer): Peer {
    if p.queue == [] then p else p.(handed := p.handed + {|p.acked|})
  }

  /** `eigrp_update_place_on_nbr_queue` and its likes: only a packet that is alone is sent at once. */
  function Place(p: Peer, packet: Packet): Peer {
    var q := p.(queue := p.queue + [packet], accepted := p.accepted + [packet]);
    if |q.queue| == 1 then HandOver(q) else q
  }

  function PlaceAll(p: Peer, packets: seq<Packet>): Peer {
    if packets == [] then p else Place(PlaceAll(p, packets[..|packets| - 1]), packets[|packets| - 1])
  }

  function SendInit(p: Peer, init: Packet): Peer {
    Place(p.(initSequence := init.sequence), init)
  }

  function Dequeued(p: Peer): Peer
    requires p.queue != []
  {
    p.(queue := p.queue[1..], acked := p.acked + [p.queue[0]])
  }

  /** `eigrp_packet_ack`; a header whose ack field is zero acknowledges nothing. */
  function Ack(p: Peer, ack: uint32, eot: seq<Packet>): Peer {
    if ack == 0 || p.queue == [] || ack != p.queue[0].sequence then p
    else if p.state.Pending? && ack == p.initSequence then
      PlaceAll(Dequeued(p).(state := Up, initSequence := 0), eot)
    else HandOver(Dequeued(p))
  }

  ghost predicate PeerOk(p: Peer, s: PeerStep) {
    match s
    case HelloMatched(_) => p.state.Down?
    case Placed(_) => p.state.Up?
    case Acked(_, eot) => eot != []
    case _ => true
  }

  ghost function PeerNext(p: Peer, s: PeerStep): Peer
    requires PeerOk(p, s)
  {
    match s
    case HelloMatched(init) => SendInit(p, init).(state := Pending)
    case InitReceived(init) =>
      if p.state.Pending? && p.initSequence == 0 then SendInit(p, init)
      else if p.state.Up? then SendInit(Fresh(Pending), init)
      else p
    case Placed(packet) => Place(p, packet)
    case Acked(ack, eot) => Ack(p, ack, eot)
    case Retransmitted => HandOver(p)
    case Lost => Fresh(Down)
  }

  ghost predicate PeerRun(ps: seq<Peer>, steps: seq<PeerStep>) {
    && |ps| == |steps| + 1
    && ps[0] == Fresh(Down)
    && forall i :: 0 <= i < |steps| ==> PeerOk(ps[i], steps[i]) && ps[i + 1] == PeerNext(ps[i], steps[i])
  }

  // ----- order and progress -----

  /** The positions below `n`. */
  function UpTo(n: nat): set<nat> {
    if n == 0 then {} else UpTo(n - 1) + {n - 1}
  }

  lemma {:induction false} UpToMembers(n: nat, i: nat)
    ensures i in UpTo(n) <==> i < n
  {
    if n == 0 {
    } else {
      UpToMembers(n - 1, i);
    }
  }

  /** Packets leave in the order they came, and exactly the acknowledged ones and the oldest waiting one
      have ever been handed to the output queue. */
  ghost predicate InOrder(p: Peer) {
    && p.accepted == p.acked + p.queue
    && p.handed == UpTo(|p.acked| + if p.queue == [] then 0 else 1)
  }

  /** A Pending peer waits for its INIT packet alone, unless that packet carries the sequence number zero. */
  ghost predicate PendingOnInit(p: Peer) {
    && (p.state.Down? ==> p.queue == [] && p.initSequence == 0)
    && (p.state.Up? ==> p.initSequence == 0)
    && (p.state.Pending? ==>
          p.queue != []
          && (p.queue[0].sequence == 0 || (p.queue[1..] == [] && p.queue[0].sequence == p.initSequence)))
  }

  ghost predicate PeerInv(p: Peer) {
    InOrder(p) && PendingOnInit(p)
  }

  lemma PlaceInOrder(p: Peer, packet: Packet)
    requires InOrder(p)
    ensures InOrder(Place(p, packet)) && Place(p, packet).state == p.state
    ensures Place(p, packet).queue == p.queue + [packet] && Place(p, packet).acked == p.acked
    ensures Place(p, packet).initSequence == p.initSequence
  {
    var q := Place(p, packet);
    assert q.accepted == q.acked + q.queue;
    if p.queue == [] {
      assert q.handed == UpTo(|p.acked|) + {|p.acked|};
    }
  }

  lemma {:induction false} PlaceAllInOrder(p: Peer, packets: seq<Packet>)
    requires InOrder(p)
    ensures var q := PlaceAll(p, packets);
            && InOrder(q) && q.state == p.state && q.initSequence == p.initSequence && q.acked == p.acked
            && q.queue == p.queue + packets
  {
    if packets == [] {
    } else {
      var front := packets[..|packets| - 1];
      PlaceAllInOrder(p, front);
      PlaceInOrder(PlaceAll(p, front), packets[|packets| - 1]);
      assert front + [packets[|packets| - 1]] == packets;
    }
  }

  lemma DequeuedInOrder(p: Peer)
    requires InOrder(p) && p.queue != []
    ensures InOrder(HandOver(Dequeued(p)))
    ensures p.queue[1..] == [] ==> InOrder(Dequeued(p))
  {
    var q := Dequeued(p);
    assert q.accepted == q.acked + q.queue;
    assert UpTo(|q.acked|) + {|q.acked|} == UpTo(|q.acked| + 1);
  }

  /** The PENDING branch skips the usual hand-over of the next packet; that is sound because the INIT packet
      was alone in the queue, so the first packet of the full-table update is sent when it is placed. */
  lemma AckKeeps(p: Peer, ack: uint32, eot: seq<Packet>)
    requires PeerInv(p) && eot != []
    ensures PeerInv(Ack(p, ack, eot))
  {
    if ack != 0 && p.queue != [] && ack == p.queue[0].sequence {
      DequeuedInOrder(p);
      if p.state.Pending? {
        PlaceAllInOrder(Dequeued(p).(state := Up, initSequence := 0), eot);
      }
    }
  }

  lemma SendInitKeeps(p: Peer, init: Packet)
    requires InOrder(p) && p.initSequence == 0
    requires p.queue != [] ==> p.queue[0].sequence == 0
    ensures PeerInv(SendInit(p, init).(state := Pending))
  {
    PlaceInOrder(p.(initSequence := init.sequence), init);
  }

  lemma PeerStepKeeps(p: Peer, s: PeerStep)
    requires PeerInv(p) && PeerOk(p, s)
    ensures PeerInv(PeerNext(p, s))
  {
    match s
    case HelloMatched(init) => SendInitKeeps(p, init);
    case InitReceived(init) =>
      if p.state.Pending? && p.initSequence == 0 {
        SendInitKeeps(p, init);
        assert SendInit(p, init).(state := Pending) == SendInit(p, init);
      } else if p.state.Up? {
        assert UpTo(0) == {};
        SendInitKeeps(Fresh(Pending), init);
      }
    case Placed(packet) => PlaceInOrder(p, packet);
    case Acked(ack, eot) => AckKeeps(p, ack, eot);
    case Retransmitted => HandOverIdle(p);
    case Lost => assert UpTo(0) == {};
  }

  lemma HandOverIdle(p: Peer)
    requires InOrder(p)
    ensures HandOver(p) == p
  {
  }

  /** Over every run: the acknowledged packets are the first accepted ones in order, the rest are queued in
      order, and a waiting packet that is next in line has been handed to the output queue. */
  lemma {:induction false} DeliveredInOrder(ps: seq<Peer>, steps: seq<PeerStep>, n: nat)
    requires PeerRun(ps, steps) && n <= |steps|
    ensures PeerInv(ps[n])
  {
    if n == 0 {
      assert UpTo(0) == {};
    } else {
      DeliveredInOrder(ps, steps, n - 1);
      PeerStepKeeps(ps[n - 1], steps[n - 1]);
    }
  }

  /** No stall: after any run the oldest waiting packet, and no younger one, has been sent already. */
  lemma OldestWaitingWasSent(ps: seq<Peer>, steps: seq<PeerStep>, i: nat)
    requires PeerRun(ps, steps)
    ensures var p := ps[|steps|];
            i in p.handed <==> i < |p.acked| || (i == |p.acked| && p.queue != [])
  {
    DeliveredInOrder(ps, steps, |steps|);
    UpToMembers(|ps[|steps|].acked| + (if ps[|steps|].queue == [] then 0 else 1), i);
  }

  /** Nothing is acknowledged, and so removed, except the oldest waiting packet by its own sequence number. */
  lemma OnlyTailIsAcked(ps: seq<Peer>, steps: seq<PeerStep>, n: nat)
    requires PeerRun(ps, steps) && n < |steps|
    requires ps[n + 1].acked != ps[n].acked && !steps[n].Lost? && !steps[n].InitReceived?
    ensures steps[n].Acked? && ps[n].queue != [] && steps[n].ack == ps[n].queue[0].sequence != 0
    ensures ps[n + 1].acked == ps[n].acked + [ps[n].queue[0]]
  {
    var p := ps[n];
    DeliveredInOrder(ps, steps, n);
    match steps[n]
    case Acked(ack, eot) =>
      if p.queue != [] && ack == p.queue[0].sequence && ack != 0 && p.state.Pending? {
        DequeuedInOrder(p);
        PlaceAllInOrder(Dequeued(p).(state := Up, initSequence := 0), eot);
      }
    case _ =>
  }

  /** The step is an acknowledgement of the oldest waiting packet, which is numbered. */
  predicate Matching(p: Peer, s: PeerStep) {
    s.Acked? && p.queue != [] && s.ack == p.queue[0].sequence != 0
  }

  /** An acknowledgement of the oldest waiting packet takes it off the queue, whatever the state, and the packet that
      is then the oldest has been sent; a Pending peer comes UP on it and the full table is queued. */
  lemma MatchingAckRemoves(ps: seq<Peer>, steps: seq<PeerStep>, n: nat)
    requires PeerRun(ps, steps) && n < |steps| && Matching(ps[n], steps[n])
    ensures var p, p' := ps[n], ps[n + 1];
            && p'.acked == p.acked + [p.queue[0]]
            && p'.queue == p.queue[1..] + (if p.state.Pending? then steps[n].eot else [])
            && p'.state == (if p.state.Pending? then Up else p.state) && p'.initSequence == 0
            && (p'.queue != [] ==> |p'.acked| in p'.handed)
  {
    var p := ps[n];
    DeliveredInOrder(ps, steps, n);
    DeliveredInOrder(ps, steps, n + 1);
    UpToMembers(|ps[n + 1].acked| + 1, |ps[n + 1].acked|);
    DequeuedInOrder(p);
    if p.state.Pending? {
      PlaceAllInOrder(Dequeued(p).(state := Up, initSequence := 0), steps[n].eot);
    }
  }

  /** Any other acknowledgement changes nothing. */
  lemma OtherAckIgnored(ps: seq<Peer>, steps: seq<PeerStep>, n: nat)
    requires PeerRun(ps, steps) && n < |steps| && steps[n].Acked? && !Matching(ps[n], steps[n])
    ensures ps[n + 1] == ps[n]
  {
  }

  /** Neither the peer is lost, nor does it restart, from step `m` on. */
  ghost predicate Undisturbed(steps: seq<PeerStep>, m: nat, n: nat)
    requires m <= n <= |steps|
  {
    forall i :: m <= i < n ==> !steps[i].Lost? && !steps[i].InitReceived?
  }

  ghost function MatchingAcks(ps: seq<Peer>, steps: seq<PeerStep>, m: nat, n: nat): nat
    requires m <= n <= |steps| < |ps|
    decreases n
  {
    if m == n then 0 else MatchingAcks(ps, steps, m, n - 1) + if Matching(ps[n - 1], steps[n - 1]) then 1 else 0
  }

  lemma StepAcks(ps: seq<Peer>, steps: seq<PeerStep>, n: nat)
    requires PeerRun(ps, steps) && n < |steps| && !steps[n].Lost? && !steps[n].InitReceived? && !ps[n].state.Down?
    ensures var p, p' := ps[n], ps[n + 1];
            && !p'.state.Down? && p.accepted <= p'.accepted
            && |p'.acked| == |p.acked| + if Matching(p, steps[n]) then 1 else 0
  {
    var p := ps[n];
    DeliveredInOrder(ps, steps, n);
    DeliveredInOrder(ps, steps, n + 1);
    match steps[n]
    case Acked(_, _) => if Matching(p, steps[n]) { MatchingAckRemoves(ps, steps, n); }
    case Placed(packet) => PlaceInOrder(p, packet);
    case _ =>
  }

  lemma PrefixTrans<T>(a: seq<T>, b: seq<T>, c: seq<T>)
    requires a <= b <= c
    ensures a <= c
  {
    assert c[..|b|][..|a|] == c[..|a|];
  }

  /** While a peer is neither lost nor restarted, exactly one packet is acknowledged for each matching
      acknowledgement, and nothing that was accepted is forgotten. */
  lemma {:induction false} AcksCount(ps: seq<Peer>, steps: seq<PeerStep>, m: nat, n: nat)
    requires PeerRun(ps, steps) && m <= n <= |steps| && Undisturbed(steps, m, n) && !ps[m].state.Down?
    ensures !ps[n].state.Down? && ps[m].accepted <= ps[n].accepted
    ensures |ps[n].acked| == |ps[m].acked| + MatchingAcks(ps, steps, m, n)
    decreases n
  {
    if m == n {
    } else {
      AcksCount(ps, steps, m, n - 1);
      StepAcks(ps, steps, n - 1);
      PrefixTrans(ps[m].accepted, ps[n - 1].accepted, ps[n].accepted);
    }
  }

  /** As many matching acknowledgements as there are waiting packets get every one of them acknowledged, in order. */
  lemma QueueDrains(ps: seq<Peer>, steps: seq<PeerStep>, m: nat, n: nat)
    requires PeerRun(ps, steps) && m <= n <= |steps| && Undisturbed(steps, m, n) && !ps[m].state.Down?
    requires MatchingAcks(ps, steps, m, n) == |ps[m].queue|
    ensures ps[n].acked == ps[m].acked + ps[m].queue
    ensures ps[n].accepted == ps[m].accepted ==> ps[n].queue == []
  {
    DeliveredInOrder(ps, steps, m);
    DeliveredInOrder(ps, steps, n);
    AcksCount(ps, steps, m, n);
    assert ps[n].acked == ps[n].accepted[..|ps[n].acked|] == ps[m].accepted;
  }

  /** An UP peer that restarts, and a DOWN one whose Hello matches, is Pending with nothing but INIT waiting, which has
      been sent; what an UP peer is given is accepted for it. */
  lemma AdjacencyBegins(ps: seq<Peer>, steps: seq<PeerStep>, n: nat)
    requires PeerRun(ps, steps) && n < |steps|
    ensures var s, p' := steps[n], ps[n + 1];
            && ((s.InitReceived? && ps[n].state.Up?) || s.HelloMatched? ==>
                  p'.state.Pending? && p'.queue == [s.init] && p'.initSequence == s.init.sequence && p'.handed == {0})
            && (s.InitReceived? && ps[n].state.Pending? ==>
                  p'.state.Pending?
                  && p'.queue == ps[n].queue + if ps[n].initSequence == 0 then [s.init] else [])
            && (s.InitReceived? && ps[n].state.Down? ==> p' == ps[n])
            && (s.Placed? ==> p' == ps[n].(queue := p'.queue, accepted := p'.accepted, handed := p'.handed)
                              && p'.queue == ps[n].queue + [s.packet] && p'.accepted == ps[n].accepted + [s.packet])
  {
    DeliveredInOrder(ps, steps, n);
    if steps[n].HelloMatched? {
      DownIsFresh(ps, steps, n);
    }
  }

  lemma {:induction false} DownIsFresh(ps: seq<Peer>, steps: seq<PeerStep>, n: nat)
    requires PeerRun(ps, steps) && n <= |steps| && ps[n].state.Down?
    ensures ps[n] == Fresh(Down)
  {
    if n == 0 {
    } else {
      DeliveredInOrder(ps, steps, n - 1);
      var p := ps[n - 1];
      if p.state.Down? {
        DownIsFresh(ps, steps, n - 1);
      } else if Matching(p, steps[n - 1]) {
        MatchingAckRemoves(ps, steps, n - 1);
      }
    }
  }

  // ----- the INIT packet with sequence number zero -----

  /** A Pending peer comes UP on the acknowledgement of its oldest packet exactly if that packet's sequence
      number, which is the instance's counter when INIT was built, is not zero. */
  lemma PendingCompletes(ps: seq<Peer>, steps: seq<PeerStep>, n: nat, eot: seq<Packet>)
    requires PeerRun(ps, steps) && n <= |steps| && ps[n].state.Pending? && eot != []
    ensures ps[n].queue != []
    ensures Ack(ps[n], ps[n].queue[0].sequence, eot).state.Up? <==> ps[n].queue[0].sequence != 0
  {
    DeliveredInOrder(ps, steps, n);
    if ps[n].queue[0].sequence != 0 {
      DequeuedInOrder(ps[n]);
      PlaceAllInOrder(Dequeued(ps[n]).(state := Up, initSequence := 0), eot);
    }
  }

  /** With a zero sequence number no sequence of steps short of losing the peer gets it out of Pending. */
  lemma {:induction false} ZeroInitStalls(ps: seq<Peer>, steps: seq<PeerStep>, m: nat, n: nat)
    requires PeerRun(ps, steps) && m <= n <= |steps|
    requires ps[m].state.Pending? && ps[m].queue != [] && ps[m].queue[0].sequence == 0
    requires forall i :: m <= i < n ==> !steps[i].Lost?
    ensures ps[n].state.Pending? && ps[n].queue != [] && ps[n].queue[0] == ps[m].queue[0]
    decreases n
  {
    if m == n {
    } else {
      ZeroInitStalls(ps, steps, m, n - 1);
      DeliveredInOrder(ps, steps, n - 1);
      var p := ps[n - 1];
      if steps[n - 1].InitReceived? && p.initSequence == 0 {
        PlaceInOrder(p.(initSequence := steps[n - 1].init.sequence), steps[n - 1].init);
      }
    }
  }
}
