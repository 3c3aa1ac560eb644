/**
 The doubly linked packet queue: packets enter at the head and leave at the tail, `next` points to the
 older neighbour and `previous` to the newer one. Every operation is proved against a plain sequence.
 */
module PacketQueue {
  import opened Words

  class Packet {
    var next: Packet?
    var previous: Packet?
    const sequence: uint32
    /** Set when the storage is released; no live structure may hold such a packet. */
    var freed: bool
    /** The place in the queue that holds the packet, counted from its creation on. */
    ghost var slot: int
    ghost var owner: Queue?

    constructor (sequence: uint32)
      ensures this.sequence == sequence && next == null && previous == null && !freed
    {
      this.sequence, next, previous, freed := sequence, null, null, false;
    }

    method Free()
      requires !freed
      modifies this`freed
      ensures freed
    {
      freed := true;
    }
  }

  class Queue {
    var head: Packet?
    var tail: Packet?
    var count: nat
    /** The packets, oldest first. */
    ghost var q: seq<Packet>
    /** How many packets have left. */
    ghost var gone: int

    ghost predicate Valid()
      reads this, q
    {
      && count == |q|
      && head == At(q, |q| - 1)
      && tail == At(q, 0)
      && (forall i :: 0 <= i < |q| ==> q[i].slot == gone + i && q[i].owner == this && !q[i].freed)
      && Linked(q)
    }

    /** Both pointer chains, each the reverse of the other. */
    static ghost predicate Linked(q: seq<Packet>)
      reads q
    {
      && (forall i {:trigger q[i].next} :: 0 <= i < |q| ==> q[i].next == At(q, i - 1))
      && (forall i {:trigger q[i].previous} :: 0 <= i < |q| ==> q[i].previous == At(q, i + 1))
    }

    static ghost function At(q: seq<Packet>, i: int): Packet? {
      if 0 <= i < |q| then q[i] else null
    }

    constructor ()
      ensures Valid() && q == []
    {
      head, tail, count, q, gone := null, null, 0, [], 0;
    }

    /** `eigrp_packet_enqueue`. */
    method Enqueue(packet: Packet)
      requires Valid() && packet !in q && !packet.freed
      modifies this, packet, q
      ensures Valid() && q == old(q) + [packet]
    {
      ghost var was, last := q, |q| - 1;
      assert forall i :: 0 <= i < |was| ==> was[i] != packet;
      packet.next := head;
      packet.previous := null;
      if tail == null {
        tail := packet;
      }
      if count != 0 {
        head.previous := packet;
      }
      head := packet;
      count := count + 1;
      packet.slot, packet.owner := gone + |q|, this;
      q := q + [packet];
      assert q[|was|] == packet && forall i :: 0 <= i < |was| ==> q[i] == was[i];
      Appended(was, packet);
    }

    /** Appending a packet linked to the newest one keeps the chains. */
    static lemma Appended(was: seq<Packet>, packet: Packet)
      requires packet.next == At(was, |was| - 1) && packet.previous == null
      requires forall i {:trigger was[i].next} :: 0 <= i < |was| ==> was[i].next == At(was, i - 1)
      requires forall i {:trigger was[i].previous} ::
                 0 <= i < |was| ==> was[i].previous == if i == |was| - 1 then packet else At(was, i + 1)
      ensures Linked(was + [packet])
    {
      var q := was + [packet];
      forall i | 0 <= i < |q| ensures q[i].previous == At(q, i + 1) && q[i].next == At(q, i - 1) {
        assert i < |was| ==> q[i] == was[i];
      }
    }

    /** `eigrp_packet_queue_next`: the oldest packet. */
    function Next(): (p: Packet?)
      requires Valid()
      reads this, q
      ensures p == if q == [] then null else q[0]
    {
      tail
    }

    /** `eigrp_packet_dequeue`. */
    method Dequeue() returns (packet: Packet?)
      requires Valid()
      modifies this, q
      ensures Valid()
      ensures old(q) == [] ==> packet == null && q == []
      ensures old(q) != [] ==> packet == old(q)[0] && q == old(q)[1..] && !packet.freed
    {
      packet := tail;
      if packet != null {
        assert packet == q[0] && q[0].previous == At(q, 1);
        tail := packet.previous;
        if tail == null {
          head := null;
        } else {
          tail.next := null;
        }
        count := count - 1;
        q, gone := q[1..], gone + 1;
      }
    }

    /** `eigrp_packet_queue_reset`: each packet is freed once, and only after its link has been read. */
    method Reset()
      requires Valid()
      modifies this, q
      ensures Valid() && q == []
      ensures forall p :: p in old(q) ==> p.freed
    {
      var packet := head;
      ghost var n := |q|;
      while packet != null
        invariant q == old(q) && 0 <= n <= |q|
        invariant packet == At(q, n - 1)
        invariant forall i :: 0 <= i < |q| ==> q[i].slot == gone + i
        invariant forall i {:trigger q[i].next} :: 0 <= i < |q| ==> q[i].next == At(q, i - 1)
        invariant forall i :: 0 <= i < |q| ==> (q[i].freed <==> n <= i)
        decreases n
      {
        var next := packet.next;
        assert packet == q[n - 1] && packet.next == At(q, n - 2);
        packet.Free();
        packet := next;
        n := n - 1;
      }
      head, tail, count, q := null, null, 0, [];
    }
  }
}
