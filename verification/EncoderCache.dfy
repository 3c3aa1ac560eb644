/**
 The per-interface encoder: two counters of UP neighbours by TLV version, and the vector selected from them,
 kept up to date as neighbours come, change and go. The counters are 16 bits wide.
 */
module EncoderCache {
  import opened Words

  /** The version a neighbour's packets are encoded in; a neighbour starts unbound. */
  datatype Version = Unbound | V1 | V2

  datatype Encoder = Safe | Tlv1 | Tlv2 | Both

  datatype Nbr = Nbr(state: NbrState, version: Version)

  datatype Cache = Cache(nbrs: seq<Nbr>, tlv1Count: uint16, tlv2Count: uint16, encoder: Encoder)

  function Count(nbrs: seq<Nbr>, v: Version): nat {
    if nbrs == [] then 0
    else
      var n := nbrs[|nbrs| - 1];
      Count(nbrs[..|nbrs| - 1], v) + (if n.state.Up? && n.version == v then 1 else 0)
  }

  function Selection(any1: bool, any2: bool): Encoder {
    if any1 && any2 then Both else if any1 then Tlv1 else if any2 then Tlv2 else Safe
  }

  /** The cache says what a recount of the UP neighbours would say. */
  predicate Agrees(c: Cache) {
    && c.tlv1Count == Count(c.nbrs, V1) && c.tlv2Count == Count(c.nbrs, V2)
    && c.encoder == Selection(c.tlv1Count > 0, c.tlv2Count > 0)
  }

  // ----- the functions of the daemon -----

  function Wrap16(x: nat): uint16 {
    x % 0x1_0000
  }

  function Select(c: Cache): Cache {
    c.(encoder := if c.tlv1Count != 0 && c.tlv2Count != 0 then Both
                  else if c.tlv1Count != 0 then Tlv1
                  else if c.tlv2Count != 0 then Tlv2 else Safe)
  }

  function Bind(c: Cache, v: Version): Cache {
    match v
    case V1 => Select(c.(tlv1Count := Wrap16(c.tlv1Count + 1)))
    case V2 => Select(c.(tlv2Count := Wrap16(c.tlv2Count + 1)))
    case Unbound => c
  }

  function Unbind(c: Cache, v: Version): Cache {
    match v
    case V1 => Select(if c.tlv1Count > 0 then c.(tlv1Count := c.tlv1Count - 1) else c)
    case V2 => Select(if c.tlv2Count > 0 then c.(tlv2Count := c.tlv2Count - 1) else c)
    case Unbound => c
  }

  /** `eigrp_nbr_state_set`. */
  function StateSet(c: Cache, i: nat, state: NbrState): Cache
    requires i < |c.nbrs|
  {
    var n := c.nbrs[i];
    var left := if n.state.Up? && !state.Up? then Unbind(c, n.version) else c;
    var moved := left.(nbrs := left.nbrs[i := n.(state := state)]);
    if state.Up? && !n.state.Up? then Bind(moved, n.version) else moved
  }

  /** `eigrp_nbr_create` and `eigrp_nbr_delete`. */
  function Create(c: Cache): Cache {
    c.(nbrs := c.nbrs + [Nbr(Down, Unbound)])
  }

  function Delete(c: Cache, i: nat): Cache
    requires i < |c.nbrs|
  {
    var d := StateSet(c, i, Down);
    d.(nbrs := d.nbrs[..i] + d.nbrs[i + 1..])
  }

  /** `eigrp_sw_version_decode` rebinds the neighbour, whatever its state. */
  function Rebind(c: Cache, i: nat, v: Version): Cache
    requires i < |c.nbrs|
  {
    c.(nbrs := c.nbrs[i := c.nbrs[i].(version := v)])
  }

  /** `eigrp_interface_encoder_clear`. */
  function Clear(c: Cache): Cache {
    c.(tlv1Count := 0, tlv2Count := 0, encoder := Safe)
  }

  datatype CacheStep =
    | Created
    | Moved(i: nat, state: NbrState)
    | Deleted(i: nat)
    | Versioned(i: nat, v: Version)
    | Cleared

  predicate CacheOk(c: Cache, s: CacheStep) {
    match s
    case Moved(i, _) => i < |c.nbrs|
    case Deleted(i) => i < |c.nbrs|
    case Versioned(i, v) => i < |c.nbrs| && !v.Unbound?
    case _ => true
  }

  function CacheNext(c: Cache, s: CacheStep): Cache
    requires CacheOk(c, s)
  {
    match s
    case Created => Create(c)
    case Moved(i, state) => StateSet(c, i, state)
    case Deleted(i) => Delete(c, i)
    case Versioned(i, v) => Rebind(c, i, v)
    case Cleared => Clear(c)
  }

  /** What a step must respect for the cache to stay right; a caller can check it beforehand. */
  predicate Keeps(c: Cache, s: CacheStep)
    requires CacheOk(c, s)
  {
    match s
    case Created => true
    case Moved(i, state) =>
      var n := c.nbrs[i];
      state.Up? && !n.state.Up? ==> (n.version.V1? ==> c.tlv1Count < 0xffff) && (n.version.V2? ==> c.tlv2Count < 0xffff)
    case Deleted(_) => true
    case Versioned(i, v) => c.nbrs[i].state.Up? ==> c.nbrs[i].version == v
    case Cleared => forall n :: n in c.nbrs && n.state.Up? ==> n.version.Unbound?
  }

  // ----- proofs -----

  lemma {:induction false} CountSet(nbrs: seq<Nbr>, i: nat, n: Nbr, v: Version)
    requires i < |nbrs|
    ensures Count(nbrs[i := n], v) + (if nbrs[i].state.Up? && nbrs[i].version == v then 1 else 0)
         == Count(nbrs, v) + (if n.state.Up? && n.version == v then 1 else 0)
  {
    var k := |nbrs| - 1;
    if i < k {
      CountSet(nbrs[..k], i, n, v);
      assert nbrs[i := n][..k] == nbrs[..k][i := n];
    } else {
      assert nbrs[i := n][..k] == nbrs[..k];
    }
  }

  lemma {:induction false} CountCut(nbrs: seq<Nbr>, i: nat, v: Version)
    requires i < |nbrs| && !nbrs[i].state.Up?
    ensures Count(nbrs[..i] + nbrs[i + 1..], v) == Count(nbrs, v)
  {
    var k := |nbrs| - 1;
    if i < k {
      CountCut(nbrs[..k], i, v);
      assert (nbrs[..i] + nbrs[i + 1..])[..k - 1] == nbrs[..k][..i] + nbrs[..k][i + 1..];
    } else {
      assert nbrs[..i] + nbrs[i + 1..] == nbrs[..k];
    }
  }

  lemma {:induction false} CountZero(nbrs: seq<Nbr>, v: Version)
    ensures Count(nbrs, v) == 0 <==> forall n :: n in nbrs && n.state.Up? ==> n.version != v
  {
    if nbrs == [] {
    } else {
      var k := |nbrs| - 1;
      CountZero(nbrs[..k], v);
      assert nbrs == nbrs[..k] + [nbrs[k]];
    }
  }

  lemma {:induction false} CountBound(nbrs: seq<Nbr>, i: nat, v: Version)
    requires i < |nbrs| && nbrs[i].state.Up? && nbrs[i].version == v
    ensures Count(nbrs, v) > 0
  {
    CountZero(nbrs, v);
    assert nbrs[i] in nbrs;
  }

  /** A neighbour that changes state is counted in or out, unless the counter it belongs to is full. */
  lemma StateSetAgrees(c: Cache, i: nat, state: NbrState)
    requires Agrees(c) && i < |c.nbrs|
    ensures Agrees(StateSet(c, i, state)) <==> Keeps(c, Moved(i, state))
    ensures StateSet(c, i, state).nbrs == c.nbrs[i := c.nbrs[i].(state := state)]
  {
    var n := c.nbrs[i];
    CountSet(c.nbrs, i, n.(state := state), V1);
    CountSet(c.nbrs, i, n.(state := state), V2);
    if n.state.Up? && !n.version.Unbound? {
      CountBound(c.nbrs, i, n.version);
    }
  }

  lemma DeleteAgrees(c: Cache, i: nat)
    requires Agrees(c) && i < |c.nbrs|
    ensures Agrees(Delete(c, i))
  {
    var d := StateSet(c, i, Down);
    StateSetAgrees(c, i, Down);
    CountCut(d.nbrs, i, V1);
    CountCut(d.nbrs, i, V2);
  }

  lemma RebindAgrees(c: Cache, i: nat, v: Version)
    requires Agrees(c) && i < |c.nbrs| && !v.Unbound?
    ensures Agrees(Rebind(c, i, v)) <==> (c.nbrs[i].state.Up? ==> c.nbrs[i].version == v)
  {
    var n := c.nbrs[i];
    CountSet(c.nbrs, i, n.(version := v), V1);
    CountSet(c.nbrs, i, n.(version := v), V2);
  }

  lemma CreateAgrees(c: Cache)
    requires Agrees(c)
    ensures Agrees(Create(c))
  {
    assert Create(c).nbrs[..|c.nbrs|] == c.nbrs;
  }

  /** Each step keeps the cache right exactly when it respects `Keeps`. */
  lemma CacheStepExact(c: Cache, s: CacheStep)
    requires Agrees(c) && CacheOk(c, s)
    ensures Agrees(CacheNext(c, s)) <==> Keeps(c, s)
  {
    match s
    case Created => CreateAgrees(c);
    case Moved(i, state) => StateSetAgrees(c, i, state);
    case Deleted(i) => DeleteAgrees(c, i);
    case Versioned(i, v) => RebindAgrees(c, i, v);
    case Cleared =>
      CountZero(c.nbrs, V1);
      CountZero(c.nbrs, V2);
      assert forall v: Version :: v.V1? || v.V2? || v.Unbound?;
  }

  ghost predicate CacheRun(cs: seq<Cache>, steps: seq<CacheStep>) {
    && |cs| == |steps| + 1 && cs[0] == Cache([], 0, 0, Safe)
    && forall i :: 0 <= i < |steps| ==> CacheOk(cs[i], steps[i]) && cs[i + 1] == CacheNext(cs[i], steps[i])
  }

  /** Over any run of steps that respect `Keeps`, the counters equal a recount and the encoder is theirs. */
  lemma {:induction false} CacheAgrees(cs: seq<Cache>, steps: seq<CacheStep>, n: nat)
    requires CacheRun(cs, steps) && n <= |steps|
    requires forall i :: 0 <= i < n ==> Keeps(cs[i], steps[i])
    ensures Agrees(cs[n])
  {
    if n == 0 {
    } else {
      CacheAgrees(cs, steps, n - 1);
      CacheStepExact(cs[n - 1], steps[n - 1]);
    }
  }

  /** What an encoder puts on the wire. */
  predicate Speaks(e: Encoder, v: Version) {
    e.Both? || (e.Tlv1? && v.V1?) || (e.Tlv2? && v.V2?)
  }

  /** The aggregate encoder speaks a version exactly when an UP neighbour of the interface needs it. */
  lemma EncoderServesPeers(c: Cache, v: Version)
    requires Agrees(c) && !v.Unbound?
    ensures Speaks(c.encoder, v) <==> exists n :: n in c.nbrs && n.state.Up? && n.version == v
  {
    CountZero(c.nbrs, v);
  }

  /** The vector speaks the versions whose counters are not zero, and no other: this is what selecting means. */
  predicate Tuned(c: Cache) {
    (Speaks(c.encoder, V1) <==> c.tlv1Count > 0) && (Speaks(c.encoder, V2) <==> c.tlv2Count > 0)
  }

  function CountOf(c: Cache, v: Version): uint16 {
    match v
    case V1 => c.tlv1Count
    case V2 => c.tlv2Count
    case Unbound => 0
  }

  /** A neighbour that leaves undoes its arrival, unless its arrival wrapped the counter. */
  lemma UnbindUndoesBind(c: Cache, v: Version)
    requires Tuned(c)
    ensures Tuned(Bind(c, v)) && Tuned(Unbind(c, v))
    ensures Unbind(Bind(c, v), v) == c <==> CountOf(c, v) < 0xffff
  {
    match v
    case V1 => assert Bind(c, V1).tlv1Count == if c.tlv1Count == 0xffff then 0 else c.tlv1Count + 1;
    case V2 => assert Bind(c, V2).tlv2Count == if c.tlv2Count == 0xffff then 0 else c.tlv2Count + 1;
    case Unbound =>
  }

  // ----- the interface, updated in place -----

  class Interface {
    var nbrs: seq<Nbr>
    var tlv1PeerCount: uint16
    var tlv2PeerCount: uint16
    var encoder: Encoder

    constructor ()
      ensures View() == Cache([], 0, 0, Safe)
    {
      nbrs, tlv1PeerCount, tlv2PeerCount, encoder := [], 0, 0, Safe;
    }

    function View(): Cache
      reads this
    {
      Cache(nbrs, tlv1PeerCount, tlv2PeerCount, encoder)
    }

    /** `eigrp_interface_encoder_select`. */
    method EncoderSelect()
      modifies this`encoder
      ensures Tuned(View()) && View() == Select(old(View()))
    {
      if tlv1PeerCount != 0 && tlv2PeerCount != 0 {
        encoder := Both;
        return;
      }
      if tlv1PeerCount != 0 {
        encoder := Tlv1;
        return;
      }
      if tlv2PeerCount != 0 {
        encoder := Tlv2;
        return;
      }
      encoder := Safe;
    }

    method EncoderBind(version: Version)
      modifies this`tlv1PeerCount, this`tlv2PeerCount, this`encoder
      ensures View() == Bind(old(View()), version) && (!version.Unbound? ==> Tuned(View()))
    {
      match version {
        case V1 => tlv1PeerCount := Wrap16(tlv1PeerCount + 1);
        case V2 => tlv2PeerCount := Wrap16(tlv2PeerCount + 1);
        case Unbound => return;
      }
      EncoderSelect();
    }

    method EncoderUnbind(version: Version)
      modifies this`tlv1PeerCount, this`tlv2PeerCount, this`encoder
      ensures View() == Unbind(old(View()), version) && (!version.Unbound? ==> Tuned(View()))
    {
      match version {
        case V1 => if tlv1PeerCount > 0 { tlv1PeerCount := tlv1PeerCount - 1; }
        case V2 => if tlv2PeerCount > 0 { tlv2PeerCount := tlv2PeerCount - 1; }
        case Unbound => return;
      }
      EncoderSelect();
    }

    method EncoderClear()
      modifies this`tlv1PeerCount, this`tlv2PeerCount, this`encoder
      ensures View() == Clear(old(View()))
    {
      tlv1PeerCount, tlv2PeerCount, encoder := 0, 0, Safe;
    }

    /** A new neighbour starts DOWN and unbound. */
    method NbrCreate()
      modifies this`nbrs
      ensures View() == Create(old(View()))
    {
      nbrs := nbrs + [Nbr(Down, Unbound)];
    }

    /** `eigrp_sw_version_decode`: major version 2 is wide, anything else classic, whatever the state is. */
    method SwVersionDecode(i: nat, tlvMajor: uint8)
      requires i < |nbrs|
      modifies this`nbrs
      ensures View() == Rebind(old(View()), i, if tlvMajor == 2 then V2 else V1)
    {
      nbrs := nbrs[i := nbrs[i].(version := if tlvMajor == 2 then V2 else V1)];
    }

    /** The counting part of `eigrp_nbr_state_set`. */
    method NbrStateSet(i: nat, state: NbrState)
      requires i < |nbrs|
      modifies this
      ensures View() == StateSet(old(View()), i, state)
    {
      var oldState := nbrs[i].state;
      if oldState.Up? && !state.Up? {
        EncoderUnbind(nbrs[i].version);
      }
      nbrs := nbrs[i := nbrs[i].(state := state)];
      if state.Up? && !oldState.Up? {
        EncoderBind(nbrs[i].version);
      }
    }

    method NbrDelete(i: nat)
      requires i < |nbrs|
      modifies this
      ensures View() == Delete(old(View()), i)
    {
      NbrStateSet(i, Down);
      nbrs := nbrs[..i] + nbrs[i + 1..];
    }

    /** The end of `eigrp_intf_down`: every neighbour is deleted before the counters are cleared, so clearing
        them changes nothing. */
    method IntfDown()
      requires Agrees(View())
      modifies this
      ensures View() == Cache([], 0, 0, Safe)
    {
      while nbrs != []
        invariant Agrees(View())
        decreases |nbrs|
      {
        DeleteAgrees(View(), 0);
        NbrDelete(0);
      }
      assert Clear(View()) == View();
      EncoderClear();
    }
  }
}
