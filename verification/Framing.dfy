/**
 TLV framing of a received packet: the check every packet passes before it is looked at, against the
 definition of a partition into TLVs, and the Hello walk that relies on it.
 */
module Framing {
  import opened Words
  import opened Wire

  // ----- partitions -----

  predicate WellFormed(t: Bytes) {
    |t| >= HDR && FieldAt(t, 2) == |t|
  }

  function TypeOf(t: Bytes): uint16
    requires |t| >= 2
  {
    FieldAt(t, 0)
  }

  function Concat(ts: seq<Bytes>): Bytes {
    if ts == [] then [] else Concat(ts[..|ts| - 1]) + ts[|ts| - 1]
  }

  predicate AllWellFormed(ts: seq<Bytes>) {
    forall i :: 0 <= i < |ts| ==> WellFormed(ts[i])
  }

  /** `ts` is the sequence of TLVs that `b` consists of. */
  predicate Partitions(ts: seq<Bytes>, b: Bytes) {
    Concat(ts) == b && AllWellFormed(ts)
  }

  /** Where the `i`-th TLV begins in the packet. */
  function Start(ts: seq<Bytes>, i: nat): nat
    requires i <= |ts|
  {
    HEADER_LEN + |Concat(ts[..i])|
  }

  /** The last authentication TLV, by position. */
  function LastAuth(ts: seq<Bytes>): (r: Option<nat>)
    requires AllWellFormed(ts)
    ensures r.Some? ==> r.value < |ts|
  {
    if ts == [] then None
    else if TypeOf(ts[|ts| - 1]) == TLV_AUTH then Some(|ts| - 1)
    else LastAuth(ts[..|ts| - 1])
  }

  lemma ConcatLast(ts: seq<Bytes>, n: nat)
    requires n < |ts|
    ensures Concat(ts[..n + 1]) == Concat(ts[..n]) + ts[n]
  {
    assert ts[..n + 1][..n] == ts[..n];
  }

  /** What the packet holds at the start of its `n`-th TLV. */
  lemma {:induction false} ConcatAt(ts: seq<Bytes>, n: nat)
    requires n < |ts|
    ensures |Concat(ts[..n])| + |ts[n]| <= |Concat(ts)|
    ensures Concat(ts)[..|Concat(ts[..n])|] == Concat(ts[..n])
    ensures Concat(ts)[|Concat(ts[..n])|..|Concat(ts[..n])| + |ts[n]|] == ts[n]
  {
    var k := |ts| - 1;
    if n == k {
    } else {
      ConcatAt(ts[..k], n);
      assert ts[..k][..n] == ts[..n];
    }
  }

  /** TLVs read off the front of a partitioned packet are the first ones of its partition. */
  lemma {:induction false} PrefixUnique(ts: seq<Bytes>, us: seq<Bytes>)
    requires AllWellFormed(ts) && AllWellFormed(us)
    requires |Concat(ts)| <= |Concat(us)| && Concat(ts) == Concat(us)[..|Concat(ts)|]
    ensures |ts| <= |us| && us[..|ts|] == ts
  {
    if ts == [] {
    } else {
      var n := |ts| - 1;
      var p, t := ts[..n], ts[n];
      assert Concat(p) == Concat(us)[..|Concat(p)|];
      PrefixUnique(p, us);
      assert us[..n] == p;
      assert us[..|us|] == us;
      assert |us| > n;
      ConcatAt(us, n);
      SameStart(Concat(us)[|Concat(p)|..], t, us[n]);
      assert us[..n + 1] == us[..n] + [us[n]];
    }
  }

  lemma FieldOfSlice(b: Bytes, lo: nat, hi: nat, i: nat)
    requires lo + i + 2 <= hi <= |b|
    ensures FieldAt(b[lo..hi], i) == FieldAt(b, lo + i)
  {
    var s, t := b[lo..hi][i..i + 2], b[lo + i..lo + i + 2];
    assert s[0] == t[0] && s[1] == t[1];
    assert s == t;
  }

  /** Two TLVs that start at the same place of the same bytes are the same. */
  lemma SameStart(b: Bytes, t: Bytes, u: Bytes)
    requires WellFormed(t) && WellFormed(u) && |t| <= |b| && |u| <= |b|
    requires t == b[..|t|] && u == b[..|u|]
    ensures t == u
  {
    FieldOfSlice(b, 0, |t|, 2);
    FieldOfSlice(b, 0, |u|, 2);
  }

  lemma PartitionUnique(ts: seq<Bytes>, us: seq<Bytes>, b: Bytes)
    requires Partitions(ts, b) && Partitions(us, b)
    ensures ts == us
  {
    PrefixUnique(ts, us);
    PrefixUnique(us, ts);
  }

  /** If `ts` is what has been read up to `offset`, the next TLV of any partition starts there and fits. */
  lemma NextFits(pkt: Bytes, offset: nat, ts: seq<Bytes>, us: seq<Bytes>)
    requires HEADER_LEN <= offset < |pkt| && Partitions(ts, pkt[HEADER_LEN..offset])
    requires Partitions(us, pkt[HEADER_LEN..])
    ensures |pkt| - offset >= HDR
    ensures HDR <= FieldAt(pkt, offset + 2) <= |pkt| - offset
  {
    var k := offset - HEADER_LEN;
    assert pkt[HEADER_LEN..][..k] == pkt[HEADER_LEN..offset];
    PrefixUnique(ts, us);
    assert us[..|us|] == us;
    ConcatAt(us, |ts|);
    var u := us[|ts|];
    assert pkt[HEADER_LEN..][k..k + |u|] == u;
    assert pkt[offset..offset + |u|] == u;
    FieldOfSlice(pkt, offset, offset + |u|, 2);
  }

  /** A well-formed TLV at `offset` extends what has been read by one. */
  lemma ReadNext(pkt: Bytes, offset: nat, ts: seq<Bytes>, length: nat)
    requires HEADER_LEN <= offset && offset + length <= |pkt| && length >= HDR
    requires Partitions(ts, pkt[HEADER_LEN..offset]) && FieldAt(pkt, offset + 2) == length
    ensures var t := pkt[offset..offset + length];
            Partitions(ts + [t], pkt[HEADER_LEN..offset + length]) && TypeOf(t) == FieldAt(pkt, offset)
    ensures Start(ts + [pkt[offset..offset + length]], |ts|) == offset
  {
    var t := pkt[offset..offset + length];
    assert (ts + [t])[..|ts|] == ts;
    assert pkt[HEADER_LEN..offset] + t == pkt[HEADER_LEN..offset + length];
    FieldOfSlice(pkt, offset, offset + length, 0);
    FieldOfSlice(pkt, offset, offset + length, 2);
  }

  // ----- the check -----

  ghost predicate Framed(pkt: Bytes) {
    |pkt| >= HEADER_LEN && exists ts :: Partitions(ts, pkt[HEADER_LEN..])
  }

  /** What the check reports about the authentication TLVs of a partition. */
  function AuthAt(ts: seq<Bytes>): Option<nat>
    requires AllWellFormed(ts)
  {
    match LastAuth(ts) case None => None case Some(i) => Some(Start(ts, i))
  }

  lemma AuthNext(ts: seq<Bytes>, t: Bytes)
    requires AllWellFormed(ts) && WellFormed(t)
    ensures AuthAt(ts + [t]) == if TypeOf(t) == TLV_AUTH then Some(Start(ts + [t], |ts|)) else AuthAt(ts)
    ensures LastAuth(ts + [t]) == if TypeOf(t) == TLV_AUTH then Some(|ts|) else LastAuth(ts)
  {
    assert (ts + [t])[..|ts|] == ts;
    match LastAuth(ts) {
      case Some(i) => assert (ts + [t])[..i] == ts[..i];
      case None =>
    }
  }

  /** `eigrp_packet_auth_tlv_find`: it succeeds exactly on packets whose bytes after the header are TLVs, and
      reports the last authentication TLV and whether that one is the first TLV of the packet. */
  method AuthTlvFind(pkt: Bytes) returns (ok: bool, auth: Option<nat>, first: bool, ghost ts: seq<Bytes>)
    requires |pkt| < 0x1_0000
    ensures ok <==> Framed(pkt)
    ensures ok ==> Partitions(ts, pkt[HEADER_LEN..])
    ensures ok ==> auth == AuthAt(ts) && (first <==> LastAuth(ts) == Some(0))
  {
    ok, auth, first, ts := false, None, false, [];
    if |pkt| < HEADER_LEN {
      return;
    }
    var offset := HEADER_LEN;
    while offset < |pkt|
      invariant HEADER_LEN <= offset <= |pkt|
      invariant Partitions(ts, pkt[HEADER_LEN..offset])
      invariant auth == AuthAt(ts) && (first <==> LastAuth(ts) == Some(0))
    {
      forall us | Partitions(us, pkt[HEADER_LEN..])
        ensures |pkt| - offset >= HDR && HDR <= FieldAt(pkt, offset + 2) <= |pkt| - offset
      {
        NextFits(pkt, offset, ts, us);
      }
      if |pkt| - offset < HDR {
        return;
      }
      var tlvType, tlvLength := FieldAt(pkt, offset), FieldAt(pkt, offset + 2);
      if tlvLength < HDR || tlvLength > |pkt| - offset {
        return;
      }
      ghost var t := pkt[offset..offset + tlvLength];
      ReadNext(pkt, offset, ts, tlvLength);
      AuthNext(ts, t);
      assert ts == [] <==> offset == HEADER_LEN;
      if tlvType == TLV_AUTH {
        auth, first := Some(offset), offset == HEADER_LEN;
      }
      offset := offset + tlvLength;
      ts := ts + [t];
    }
    assert pkt[HEADER_LEN..offset] == pkt[HEADER_LEN..];
    ok := true;
  }

  // ----- the Hello walk -----

  /** The do-while walk of `eigrp_hello_receive` over a packet that passed the check and is longer than its
      header. `stops` are the TLVs, by position, whose handler ends the walk. All reads are inside the
      packet, the TLVs visited are those of the partition in order, and the remaining size ends at zero. */
  method HelloWalk(pkt: Bytes, stops: set<nat>, ghost ts: seq<Bytes>)
    returns (visited: seq<nat>, size: int, stopped: bool)
    requires |pkt| > HEADER_LEN && Partitions(ts, pkt[HEADER_LEN..])
    ensures |visited| <= |ts| && forall i :: 0 <= i < |visited| ==> visited[i] == Start(ts, i)
    ensures !stopped ==> |visited| == |ts| && size == 0
    ensures stopped ==> 0 < |visited| && |visited| - 1 in stops
    ensures forall i :: 0 <= i < |visited| && i in stops ==> stopped && i == |visited| - 1
  {
    size, visited, stopped := |pkt| - HEADER_LEN, [], false;
    var at := HEADER_LEN;
    assert ts[..0] == [];
    while size > 0
      invariant 0 <= size && at == |pkt| - size
      invariant |visited| <= |ts| && at == Start(ts, |visited|)
      invariant forall i :: 0 <= i < |visited| ==> visited[i] == Start(ts, i) && i !in stops
    {
      var n := |visited|;
      WalkReads(pkt, ts, n);
      var length := FieldAt(pkt, at + 2);
      if length > 0 && length <= size {
        visited := visited + [at];
        if n in stops {
          stopped := true;
          return;
        }
      }
      at := at + length;
      size := size - length;
    }
    WalkOver(pkt, ts, |visited|);
  }

  lemma WalkReads(pkt: Bytes, ts: seq<Bytes>, n: nat)
    requires |pkt| > HEADER_LEN && Partitions(ts, pkt[HEADER_LEN..]) && n <= |ts| && Start(ts, n) < |pkt|
    ensures n < |ts| && Start(ts, n) + HDR <= |pkt|
    ensures HDR <= FieldAt(pkt, Start(ts, n) + 2) <= |pkt| - Start(ts, n)
    ensures Start(ts, n + 1) == Start(ts, n) + FieldAt(pkt, Start(ts, n) + 2)
  {
    assert ts[..|ts|] == ts;
    var at := Start(ts, n);
    ConcatAt(ts, n);
    ConcatLast(ts, n);
    assert pkt[HEADER_LEN..][at - HEADER_LEN..at - HEADER_LEN + |ts[n]|] == ts[n];
    assert pkt[at..at + |ts[n]|] == ts[n];
    FieldOfSlice(pkt, at, at + |ts[n]|, 2);
  }

  lemma WalkOver(pkt: Bytes, ts: seq<Bytes>, n: nat)
    requires |pkt| >= HEADER_LEN && Partitions(ts, pkt[HEADER_LEN..]) && n <= |ts| && Start(ts, n) == |pkt|
    ensures n == |ts|
  {
    if n < |ts| {
      ConcatAt(ts, n);
    }
  }

  /** A packet that is nothing but a header passes the check, yet the walk reads a TLV before it tests the
      size: the first read stays inside a checked packet exactly if the packet is longer than its header. */
  lemma FirstHelloRead(pkt: Bytes)
    requires Framed(pkt)
    ensures HEADER_LEN + HDR <= |pkt| <==> |pkt| > HEADER_LEN
  {
    var ts :| Partitions(ts, pkt[HEADER_LEN..]);
    if |pkt| > HEADER_LEN {
      assert ts[..0] == [];
      WalkReads(pkt, ts, 0);
    }
  }

  lemma BareHeaderIsFramed(pkt: Bytes)
    requires |pkt| == HEADER_LEN
    ensures Framed(pkt)
  {
    assert Partitions([], pkt[HEADER_LEN..]);
  }
}
