/**
 The DUAL machine of one destination as a flat transition table over values: what one message does,
 with the nested dispatch of the daemon's handlers already resolved. `Fsm.dfy` proves that the
 handlers compute this table; `DualRuns.dfy` proves what it keeps over whole runs.
 */
module Dual {
  import opened Words
  import opened Metric
  import opened Topology

  datatype PacketType = Update | Query | Reply | SiaQuery | SiaReply

  /** A message to the machine. `alloc` is the address a new route descriptor would get. */
  datatype Msg = Msg(packet: PacketType, data: DataType, adv: Option<Nbr>, route: Option<Route>,
                     metrics: Metrics, alloc: RouteId)

  /** What one message asks of the instance: was the prefix appended to the change list, was it deleted
      from the topology table, and which neighbours get a REPLY. */
  datatype Effects = Effects(listed: bool, dropped: bool, replies: seq<NbrId>)

  /** `Aborted` is the daemon's assertion that an ACTIVE_3 prefix has a flagged successor to reply to. */
  datatype Outcome = Done(d: Dest, fx: Effects) | Aborted

  /** What the callers of `eigrp_fsm_event` guarantee. */
  predicate MsgOk(d: Dest, msg: Msg) {
    && d.entries != []
    && (msg.route.None? ==> msg.adv.Some? && !Known(d.entries, msg.alloc))
    && (msg.data.Connected? ==> msg.route.Some? && Known(d.entries, msg.route.value.id))
  }

  /** The message a receive function builds from a decoded route: about the descriptor the sender has
      advertised before, or about the received one, which becomes the sender's and gets the address `alloc`. */
  function Incoming(d: Dest, packet: PacketType, nbr: Nbr, external: bool, metrics: Metrics, alloc: RouteId): Msg {
    var route := match Lookup(d.entries, nbr.id) case Some(r) => r case None => RouteCreate(alloc, nbr);
    Msg(packet, if external then External else Internal, Some(nbr), Some(route), metrics, alloc)
  }

  /** The descriptor a message is about. */
  function Subject(s: seq<Route>, msg: Msg): Route
    requires msg.route.None? ==> msg.adv.Some?
  {
    match msg.route
    case None => RouteCreate(msg.alloc, msg.adv.value)
    case Some(r) => if Known(s, r.id) then s[IndexOf(s, r.id)] else r
  }

  function RemoveFirst<T(==)>(s: seq<T>, x: T): seq<T> {
    if s == [] then []
    else if s[0] == x then s[1..] else [s[0]] + RemoveFirst(s[1..], x)
  }

  lemma {:induction false} RemoveFirstOne<T>(s: seq<T>, x: T)
    ensures multiset(RemoveFirst(s, x)) == multiset(s) - multiset{x}
    ensures x !in s ==> RemoveFirst(s, x) == s
  {
    if s == [] {
    } else {
      assert s == [s[0]] + s[1..];
      RemoveFirstOne(s[1..], x);
    }
  }

  function Costs(cfg: Config, d: Dest, msg: Msg): Costed
    requires MsgOk(d, msg)
  {
    UpdateDistance(cfg.k, d.nt, d.entries, Subject(d.entries, msg), msg.data, msg.metrics)
  }

  /** The destination once the selector has recorded the distance and, while Active, the reply. */
  function Recorded(cfg: Config, d: Dest, msg: Msg): Dest
    requires MsgOk(d, msg)
  {
    var c := Costs(cfg, d, msg);
    d.(entries := c.entries,
       rij := if msg.packet.Reply? && !d.state.Passive? then RemoveFirst(d.rij, c.route.adv) else d.rij)
  }

  // ----- the table -----

  datatype Verdict =
    | Keep                  // stay, answering a QUERY
    | Become(to: State)     // only the origin flag changes
    | Diffuse(to: State)    // start, or restart, a diffusing computation
    | Reset(origin: State)  // last reply: adopt the head of the list and its distance as FD
    | Satisfied             // last reply with the feasibility condition met under the old FD

  /** The feasibility condition, on the head of the list only. */
  predicate Feasible(d: Dest) {
    d.entries != [] && d.entries[0].reportedDistance < d.fdistance
  }

  function LastReply(feasible: bool, anyNbr: bool, to: State): Verdict {
    if feasible then Satisfied else if anyNbr then Diffuse(to) else Reset(to)
  }

  /** `worse` is "the successor's distance increased", `waiting` is "replies are still outstanding". */
  function Judge(state: State, packet: PacketType, successor: bool, worse: bool,
                 waiting: bool, feasible: bool, anyNbr: bool): Verdict
  {
    match state
    case Passive =>
      var active := if packet.Query? then Active3 else Active1;
      if feasible then Keep else if anyNbr then Diffuse(active) else Reset(active)
    case Active0 =>
      if packet.Reply? then (if waiting then Keep else LastReply(feasible, anyNbr, Active1))
      else if packet.Query? && successor then Become(Active2)
      else Keep
    case Active1 =>
      if packet.Query? && successor then Become(Active2)
      else if packet.Reply? && worse then (if waiting then Become(Active0) else LastReply(feasible, anyNbr, Active1))
      else if packet.Reply? then (if waiting then Keep else Reset(Active1))
      else if packet.Update? && worse then Become(Active0)
      else Keep
    case Active2 =>
      if packet.Reply? && !waiting then LastReply(feasible, anyNbr, Active3) else Keep
    case Active3 =>
      if packet.Reply? && worse then (if waiting then Become(Active2) else LastReply(feasible, anyNbr, Active3))
      else if packet.Reply? then (if waiting then Keep else Reset(Active3))
      else if packet.Update? && worse then Become(Active2)
      else Keep
  }

  function VerdictOf(cfg: Config, anyNbr: bool, d: Dest, msg: Msg): Verdict
    requires MsgOk(d, msg)
  {
    var c, w := Costs(cfg, d, msg), Recorded(cfg, d, msg);
    Judge(d.state, msg.packet, c.route.succ, c.change.Increase? && c.route.succ, w.rij != [], Feasible(w), anyNbr)
  }

  // ----- carrying a verdict out -----

  function Answer(msg: Msg): seq<NbrId> {
    if msg.packet.Query? && msg.adv.Some? then [msg.adv.value.id] else []
  }

  /** Recompute the successor flags and hand the paths to zebra. */
  function Settle(cfg: Config, d: Dest): Dest {
    var e := FlagAll(d.entries, d.fdistance, d.distance, cfg.variance);
    d.(entries := e, installed := PathSet(e, cfg.maxPaths))
  }

  function Adopt(d: Dest, fdistance: uint32): Dest
    requires d.entries != []
  {
    var head := d.entries[0];
    d.(fdistance := fdistance, distance := head.distance, rdistance := head.distance,
       reportedMetric := head.totalMetric)
  }

  predicate Agrees(d: Dest) {
    d.entries != [] && MetricsSame(d.reportedMetric, d.entries[0].totalMetric)
  }

  function KeepPassive(cfg: Config, d: Dest, msg: Msg): Outcome
    requires d.entries != []
  {
    if Agrees(d) then
      Done(Settle(cfg, d), Effects(false, false, Answer(msg)))
    else
      Done(Settle(cfg, Adopt(d, d.entries[0].distance).(needUpdate := true)),
           Effects(true, false, Answer(msg) + Answer(msg)))
  }

  function Deleted(d: Dest): Dest {
    d.(entries := [], rij := [], installed := [], live := false)
  }

  /** Unreachable descriptors are freed; freeing any of them withdraws the whole route from zebra. */
  function Pruned(d: Dest): Dest {
    var kept := Reachable(d.entries);
    if |kept| < |d.entries| then d.(entries := kept, installed := []) else d
  }

  predicate Lost(d: Dest) {
    d.distance == MAX_METRIC && !d.nt.TypeConnected?
  }

  /** What the tail of every returning handler makes of a destination. */
  function Closed(cfg: Config, d: Dest): Dest {
    var p := Pruned(Settle(cfg, d));
    if Lost(p) then Deleted(p) else p
  }

  /** The destination with the head adopted, before flags, paths and pruning. */
  function Adopted(d: Dest, fdistance: uint32): Dest
    requires d.entries != []
  {
    Adopt(d, fdistance).(state := Passive, needUpdate := true)
  }

  /** Back to Passive with the given FD. */
  function Return(cfg: Config, d: Dest, fdistance: uint32): Dest
    requires d.entries != []
  {
    Closed(cfg, Adopted(d, fdistance))
  }

  /** FD never grows when the feasibility condition was met. */
  function Nearer(d: Dest): uint32
    requires d.entries != []
  {
    if d.fdistance > d.entries[0].distance then d.entries[0].distance else d.fdistance
  }

  function Carry(cfg: Config, d: Dest, msg: Msg, v: Verdict): Outcome
    requires d.entries != []
  {
    match v
    case Keep =>
      if d.state.Passive? then KeepPassive(cfg, d, msg)
      else Done(d, Effects(false, false, Answer(msg)))
    case Become(to) =>
      Done(d.(state := to), Effects(false, false, []))
    case Diffuse(to) =>
      Done(d.(state := to, needQuery := true), Effects(true, false, []))
    case Reset(origin) =>
      var s := Successors(d.entries);
      if origin.Active3? && s == [] then Aborted
      else
        var r := Return(cfg, d, d.entries[0].distance);
        Done(r, Effects(true, !r.live, if origin.Active3? then [s[0].adv] else []))
    case Satisfied =>
      var r := Return(cfg, d, Nearer(d));
      Done(r, Effects(true, !r.live, []))
  }

  /** One message. `live` is a field of the destination, so a deleted one reports itself. */
  function React(cfg: Config, anyNbr: bool, d: Dest, msg: Msg): Outcome
    requires d.live && MsgOk(d, msg)
  {
    Carry(cfg, Recorded(cfg, d, msg), msg, VerdictOf(cfg, anyNbr, d, msg))
  }

  lemma CarryReset(cfg: Config, d: Dest, msg: Msg, origin: State)
    requires d.entries != []
    ensures var o, c := Carry(cfg, d, msg, Reset(origin)), Return(cfg, d, d.entries[0].distance);
            if origin.Active3? && Successors(d.entries) == [] then o.Aborted?
            else o == Done(c, Effects(true, !c.live,
                                      if origin.Active3? then [Successors(d.entries)[0].adv] else []))
  {
  }

  lemma CarrySatisfied(cfg: Config, d: Dest, msg: Msg)
    requires d.entries != []
    ensures var c := Return(cfg, d, Nearer(d));
            Carry(cfg, d, msg, Satisfied) == Done(c, Effects(true, !c.live, []))
  {
  }

  /** A prefix as `eigrp_update_receive` creates it from a decoded route that `rejected` may filter out. */
  function Learned(cfg: Config, id: RouteId, nbr: Nbr, metrics: Metrics, external: bool, rejected: bool): Dest {
    var reported := if rejected then metrics.(delay := MAX_METRIC) else metrics;
    var total := TotalMetric(nbr.link, reported);
    var distance := Stored(cfg.k, total);
    var route := Route(id, nbr.id, nbr.link, reported, Stored(cfg.k, metrics), total, distance, true, false);
    Dest([Flagged(route, distance, distance, cfg.variance)], [], total, distance, distance, distance,
         if external then TypeRemoteExternal else TypeRemote, Passive, true, false, [id], true)
  }

  /** A prefix that a filter rejects is recorded as infinitely far exactly if the poisoned delay is priced so. */
  lemma FilteredFarExactly(cfg: Config, id: RouteId, nbr: Nbr, metrics: Metrics, external: bool)
    requires cfg.k == DEFAULT_K && Narrow(metrics)
    ensures Learned(cfg, id, nbr, metrics, external, true).distance == MAX_METRIC
            <==> Wrap32(TotalMetric(nbr.link, metrics).bandwidth + DelayToScaled(nbr.link.delay)) == 0
  {
    PoisonedFarExactly(nbr.link, metrics);
  }
}
