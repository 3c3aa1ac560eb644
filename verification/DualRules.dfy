/**
 What one message does to a destination, rule by rule: the finite state machine of DUAL (section 3.5 of RFC 7868)
 as this daemon follows it, over the descriptors and the fields alone, and what the rules keep over whole runs.
 */
module DualRules {
  import opened Words
  import opened Metric
  import opened Topology
  import opened Dual
  import opened DualRuns
  import opened DualPassive

  /** The neighbour the message is about is a successor. */
  predicate FromSuccessor(d: Dest, msg: Msg)
    requires MsgOk(d, msg)
  {
    Subject(d.entries, msg).succ
  }

  /** It is one, and what it reports is news and farther away than what it reported before. */
  predicate GotWorse(cfg: Config, d: Dest, msg: Msg)
    requires MsgOk(d, msg)
  {
    var r := Subject(d.entries, msg);
    && r.succ && !msg.data.Connected? && !KnownAlready(d.nt, r, msg.data, msg.metrics)
    && r.reportedDistance < Stored(cfg.k, msg.metrics)
  }

  /** The feasibility condition on the head of the list, as the message leaves it. */
  predicate HeadFeasible(cfg: Config, d: Dest, msg: Msg)
    requires MsgOk(d, msg)
  {
    var h := Recorded(cfg, d, msg).entries[0];
    h.reportedDistance < d.fdistance
  }

  /** FD, D and RD are the distance of `h`, and its metric is the advertised one. */
  predicate Anchors(d: Dest, h: Route) {
    && d.fdistance == d.distance == d.rdistance == h.distance
    && d.reportedMetric == h.totalMetric
  }

  /** Whom a message asks for an answer. */
  function Asker(msg: Msg): seq<NbrId> {
    if msg.packet.Query? && msg.adv.Some? then [msg.adv.value.id] else []
  }

  /** A message built from a packet says what the packet says, and is about a descriptor of the list or about a new
      one at the address `alloc`, which is the sender's in either case. */
  lemma IncomingCarries(d: Dest, packet: PacketType, nbr: Nbr, external: bool, metrics: Metrics, alloc: RouteId)
    ensures var msg := Incoming(d, packet, nbr, external, metrics, alloc);
            && msg.packet == packet && msg.metrics == metrics && msg.adv == Some(nbr)
            && msg.data == (if external then External else Internal)
            && msg.route.Some? && msg.route.value.adv == nbr.id
            && (if exists x :: x in d.entries && x.adv == nbr.id then msg.route.value in d.entries
                else msg.route.value.id == alloc && msg.route.value.link == nbr.link)
  {
  }

  lemma CostsMean(cfg: Config, d: Dest, msg: Msg)
    requires MsgOk(d, msg) && UniqueIds(d.entries)
    ensures var c := Costs(cfg, d, msg);
            && c.route.succ == FromSuccessor(d, msg)
            && (c.change.Increase? && c.route.succ <==> GotWorse(cfg, d, msg))
  {
    var r := Subject(d.entries, msg);
    SubjectBelongs(d, msg);
    if msg.data.Connected? {
      ConnectedRecorded(cfg.k, d.nt, d.entries, r, msg.metrics);
    } else {
      MetricsRecorded(cfg.k, d.nt, d.entries, r, msg.data, msg.metrics);
    }
  }

  lemma VerdictMeans(cfg: Config, anyNbr: bool, d: Dest, msg: Msg)
    requires MsgOk(d, msg) && UniqueIds(d.entries)
    ensures VerdictOf(cfg, anyNbr, d, msg)
         == Judge(d.state, msg.packet, FromSuccessor(d, msg), GotWorse(cfg, d, msg),
                  Recorded(cfg, d, msg).rij != [], HeadFeasible(cfg, d, msg), anyNbr)
  {
    CostsMean(cfg, d, msg);
  }

  // ----- while Passive -----

  lemma KeepPassiveMeans(cfg: Config, w: Dest, msg: Msg)
    requires w.entries != [] && w.live
    ensures var Done(d', fx) := KeepPassive(cfg, w, msg); var h := w.entries[0];
            && d'.state == w.state && d'.live && d'.needQuery == w.needQuery && d'.rij == w.rij && !fx.dropped
            && (if MetricsSame(w.reportedMetric, h.totalMetric) then
                  SameAnchor(w, d') && d'.needUpdate == w.needUpdate && !fx.listed && fx.replies == Asker(msg)
                else
                  Anchors(d', h) && d'.needUpdate && fx.listed && fx.replies == Asker(msg) + Asker(msg))
  {
  }

  /** A destination whose head meets the feasibility condition stays Passive. It advertises anew exactly if the
      head's metric is no longer the advertised one, and then FD, D and RD are all the head's distance; otherwise
      the three stay as they were. A QUERY is answered to its sender, twice if there was something new. */
  lemma FeasibleStaysPassive(cfg: Config, d: Dest, msg: Msg, upNbrs: nat, d': Dest)
    requires Moves(cfg, d, Event(msg, upNbrs), d') && d.state.Passive? && UniqueIds(d.entries)
    requires HeadFeasible(cfg, d, msg)
    ensures var h, fx := Recorded(cfg, d, msg).entries[0], React(cfg, upNbrs > 0, d, msg).fx;
            && d'.state.Passive? && d'.live && !fx.dropped && d'.needQuery == d.needQuery
            && (if MetricsSame(d.reportedMetric, h.totalMetric) then
                  SameAnchor(d, d') && d'.needUpdate == d.needUpdate && !fx.listed && fx.replies == Asker(msg)
                else
                  Anchors(d', h) && d'.needUpdate && fx.listed && fx.replies == Asker(msg) + Asker(msg))
  {
    VerdictMeans(cfg, upNbrs > 0, d, msg);
    KeepPassiveMeans(cfg, Recorded(cfg, d, msg), msg);
  }

  /** One whose head does not meet it goes Active and asks, if there is anybody to ask: for its own sake, or for the
      sender's if the message is a QUERY. */
  lemma InfeasibleGoesActive(cfg: Config, d: Dest, msg: Msg, upNbrs: nat, d': Dest)
    requires Moves(cfg, d, Event(msg, upNbrs), d') && d.state.Passive? && UniqueIds(d.entries)
    requires !HeadFeasible(cfg, d, msg) && upNbrs > 0
    ensures d' == Recorded(cfg, d, msg).(state := if msg.packet.Query? then Active3 else Active1, needQuery := true)
    ensures React(cfg, true, d, msg).fx == Effects(true, false, [])
  {
    VerdictMeans(cfg, true, d, msg);
  }

  /** A message that settles the destination on its head, and whom it answers. */
  ghost predicate SettlesOnHead(cfg: Config, d: Dest, msg: Msg, upNbrs: nat, d': Dest, queried: bool)
    requires StepOk(cfg, d, Event(msg, upNbrs)) && React(cfg, upNbrs > 0, d, msg).Done?
  {
    var w, fx := Recorded(cfg, d, msg), React(cfg, upNbrs > 0, d, msg).fx;
    && d'.state.Passive? && Anchors(d', w.entries[0]) && d'.needUpdate && fx.listed
    && (if queried then Successors(w.entries) != [] && fx.replies == [Successors(w.entries)[0].adv]
        else fx.replies == [])
  }

  lemma ResetMeans(cfg: Config, d: Dest, msg: Msg, upNbrs: nat, d': Dest, origin: State)
    requires Moves(cfg, d, Event(msg, upNbrs), d') && VerdictOf(cfg, upNbrs > 0, d, msg) == Reset(origin)
    ensures SettlesOnHead(cfg, d, msg, upNbrs, d', origin.Active3?)
  {
    var w := Recorded(cfg, d, msg);
    CarryReset(cfg, w, msg, origin);
    ReturnFrame(cfg, w, w.entries[0].distance);
  }

  /** Without a neighbour that is UP it settles on its head at once. */
  lemma InfeasibleAloneSettles(cfg: Config, d: Dest, msg: Msg, d': Dest)
    requires Moves(cfg, d, Event(msg, 0), d') && d.state.Passive? && UniqueIds(d.entries)
    requires !HeadFeasible(cfg, d, msg)
    ensures SettlesOnHead(cfg, d, msg, 0, d', msg.packet.Query?)
  {
    VerdictMeans(cfg, false, d, msg);
    ResetMeans(cfg, d, msg, 0, d', if msg.packet.Query? then Active3 else Active1);
  }

  // ----- while Active -----

  /** The origin flag when the successor gets worse during a computation. */
  function Worsened(s: State): State {
    match s
    case Active1 => Active0
    case Active3 => Active2
    case _ => s
  }

  /** The origin flag when the successor sends a QUERY during a computation of the destination's own. */
  function Queried(s: State): State {
    match s
    case Active0 => Active2
    case Active1 => Active2
    case _ => s
  }

  /** A QUERY from a successor marks a computation as QUERY-originated, and is not answered before that ends; any
      other QUERY is answered at once and changes nothing. */
  lemma ActiveQuery(cfg: Config, d: Dest, msg: Msg, upNbrs: nat, d': Dest)
    requires Moves(cfg, d, Event(msg, upNbrs), d') && Active(d) && UniqueIds(d.entries) && msg.packet.Query?
    ensures var marked := FromSuccessor(d, msg) && (d.state.Active0? || d.state.Active1?);
            && d' == Recorded(cfg, d, msg).(state := if marked then Queried(d.state) else d.state)
            && React(cfg, upNbrs > 0, d, msg).fx == Effects(false, false, if marked then [] else Asker(msg))
  {
    VerdictMeans(cfg, upNbrs > 0, d, msg);
  }

  /** An UPDATE, and a REPLY that leaves others to be waited for, does no more than note that the successor has got
      worse; a SIA-QUERY or SIA-REPLY not even that. */
  lemma ActiveWaits(cfg: Config, d: Dest, msg: Msg, upNbrs: nat, d': Dest)
    requires Moves(cfg, d, Event(msg, upNbrs), d') && Active(d) && UniqueIds(d.entries)
    requires !msg.packet.Query? && (msg.packet.Reply? ==> Recorded(cfg, d, msg).rij != [])
    ensures var noted := GotWorse(cfg, d, msg) && (msg.packet.Update? || msg.packet.Reply?);
            d' == Recorded(cfg, d, msg).(state := if noted then Worsened(d.state) else d.state)
    ensures React(cfg, upNbrs > 0, d, msg).fx == Effects(false, false, [])
  {
    VerdictMeans(cfg, upNbrs > 0, d, msg);
    JudgeWaits(d.state, msg.packet, FromSuccessor(d, msg), GotWorse(cfg, d, msg), Recorded(cfg, d, msg).rij != [],
               HeadFeasible(cfg, d, msg), upNbrs > 0);
  }

  lemma JudgeWaits(state: State, packet: PacketType, successor: bool, worse: bool,
                   waiting: bool, feasible: bool, anyNbr: bool)
    requires !state.Passive? && !packet.Query? && (packet.Reply? ==> waiting)
    ensures Judge(state, packet, successor, worse, waiting, feasible, anyNbr)
         == if worse && (packet.Update? || packet.Reply?) && Worsened(state) != state then Become(Worsened(state))
            else Keep
  {
  }

  /** The last REPLY has to be judged by the feasibility condition exactly if the successor has got worse since the
      computation was begun. */
  predicate Reconsiders(cfg: Config, d: Dest, msg: Msg)
    requires MsgOk(d, msg)
  {
    d.state.Active0? || d.state.Active2? || GotWorse(cfg, d, msg)
  }

  /** The last REPLY when the successor has got worse but the head meets the feasibility condition: the destination
      settles on its head, and FD is the smaller one of the old FD and the new distance. */
  lemma LastReplyFeasible(cfg: Config, d: Dest, msg: Msg, upNbrs: nat, d': Dest)
    requires Moves(cfg, d, Event(msg, upNbrs), d') && Active(d) && UniqueIds(d.entries)
    requires msg.packet.Reply? && Recorded(cfg, d, msg).rij == []
    requires Reconsiders(cfg, d, msg) && HeadFeasible(cfg, d, msg)
    ensures var h, fx := Recorded(cfg, d, msg).entries[0], React(cfg, upNbrs > 0, d, msg).fx;
            && d'.state.Passive? && d'.fdistance == Min(d.fdistance, h.distance)
            && d'.distance == d'.rdistance == h.distance && d'.reportedMetric == h.totalMetric
            && d'.needUpdate && fx.listed && fx.replies == []
  {
    VerdictMeans(cfg, upNbrs > 0, d, msg);
    SatisfiedMeans(cfg, d, msg, upNbrs, d');
  }

  lemma SatisfiedMeans(cfg: Config, d: Dest, msg: Msg, upNbrs: nat, d': Dest)
    requires Moves(cfg, d, Event(msg, upNbrs), d') && VerdictOf(cfg, upNbrs > 0, d, msg) == Satisfied
    ensures var h, fx := Recorded(cfg, d, msg).entries[0], React(cfg, upNbrs > 0, d, msg).fx;
            && d'.state.Passive? && d'.fdistance == Min(d.fdistance, h.distance)
            && d'.distance == d'.rdistance == h.distance && d'.reportedMetric == h.totalMetric
            && d'.needUpdate && fx.listed && fx.replies == []
  {
    var w := Recorded(cfg, d, msg);
    CarrySatisfied(cfg, w, msg);
    ReturnFrame(cfg, w, Nearer(w));
  }

  // ----- what is left of the list -----

  lemma ReturnList(cfg: Config, w: Dest, fdistance: uint32)
    requires w.entries != [] && Return(cfg, w, fdistance).live
    ensures var r := Return(cfg, w, fdistance);
            r.entries == FlagAll(Reachable(w.entries), r.fdistance, r.distance, cfg.variance)
  {
    var e := FlagAll(w.entries, fdistance, w.entries[0].distance, cfg.variance);
    FlagAllReachable(w.entries, fdistance, w.entries[0].distance, cfg.variance);
    ReachableAll(e);
  }

  /** A message that ends a computation, or settles one on the spot, leaves the descriptors within reach, in their
      order, with flags computed from the new FD and D. */
  lemma ReachableRemain(cfg: Config, d: Dest, msg: Msg, upNbrs: nat, d': Dest)
    requires Moves(cfg, d, Event(msg, upNbrs), d') && Ends(VerdictOf(cfg, upNbrs > 0, d, msg)) && d'.live
    ensures d'.entries == FlagAll(Reachable(Recorded(cfg, d, msg).entries), d'.fdistance, d'.distance, cfg.variance)
  {
    var w := Recorded(cfg, d, msg);
    match VerdictOf(cfg, upNbrs > 0, d, msg)
    case Reset(origin) =>
      CarryReset(cfg, w, msg, origin);
      ReturnList(cfg, w, w.entries[0].distance);
    case Satisfied =>
      CarrySatisfied(cfg, w, msg);
      ReturnList(cfg, w, Nearer(w));
    case _ =>
  }

  /** When the head does not meet it either, the computation starts over with the same origin, if there is anybody
      to ask. */
  lemma LastReplyRestarts(cfg: Config, d: Dest, msg: Msg, upNbrs: nat, d': Dest)
    requires Moves(cfg, d, Event(msg, upNbrs), d') && Active(d) && UniqueIds(d.entries)
    requires msg.packet.Reply? && Recorded(cfg, d, msg).rij == []
    requires Reconsiders(cfg, d, msg) && !HeadFeasible(cfg, d, msg) && upNbrs > 0
    ensures d' == Recorded(cfg, d, msg).(state := if QueryOrigin(d.state) then Active3 else Active1, needQuery := true)
    ensures React(cfg, true, d, msg).fx == Effects(true, false, [])
  {
    VerdictMeans(cfg, true, d, msg);
  }

  /** In every other case the last REPLY settles the destination on its head, with a REPLY to the successor if the
      computation was QUERY-originated. */
  lemma LastReplySettles(cfg: Config, d: Dest, msg: Msg, upNbrs: nat, d': Dest)
    requires Moves(cfg, d, Event(msg, upNbrs), d') && Active(d) && UniqueIds(d.entries)
    requires msg.packet.Reply? && Recorded(cfg, d, msg).rij == []
    requires !Reconsiders(cfg, d, msg) || (!HeadFeasible(cfg, d, msg) && upNbrs == 0)
    ensures SettlesOnHead(cfg, d, msg, upNbrs, d', QueryOrigin(d.state))
  {
    VerdictMeans(cfg, upNbrs > 0, d, msg);
    ResetMeans(cfg, d, msg, upNbrs, d', if QueryOrigin(d.state) then Active3 else Active1);
  }

  // ----- over whole runs -----

  /** A prefix learned by UPDATE starts with one descriptor, its sender's, and settled on it; only the composite of
      the reported metrics is taken before the filter poisons them. */
  lemma LearnedSettled(cfg: Config, id: RouteId, nbr: Nbr, metrics: Metrics, external: bool, rejected: bool)
    ensures var d := Learned(cfg, id, nbr, metrics, external, rejected);
            && |d.entries| == 1 && d.entries[0].id == id && d.installed == [id] && d.live
            && Anchors(d, d.entries[0]) && d.state.Passive? && d.rij == []
            && d.needUpdate && !d.needQuery && d.nt == (if external then TypeRemoteExternal else TypeRemote)
            && d.entries[0].adv == nbr.id && d.entries[0].link == nbr.link
            && d.entries[0].reportedDistance == Stored(cfg.k, metrics)
            && d.distance == Stored(cfg.k, TotalMetric(nbr.link, if rejected then Poisoned(metrics) else metrics))
  {
  }

  /** From Passive to Passive a message either leaves FD, RD, D and the advertised metric as they were, or makes the
      first three the distance of the head. */
  lemma PassiveToPassive(cfg: Config, d: Dest, msg: Msg, upNbrs: nat, d': Dest)
    requires Moves(cfg, d, Event(msg, upNbrs), d') && d.state.Passive? && d'.state.Passive? && Inv(cfg, d)
    ensures SameAnchor(d, d') || Anchors(d', Recorded(cfg, d, msg).entries[0])
    ensures d'.live && !SameAnchor(d, d') ==>
              d'.entries != [] && d'.fdistance == d'.distance == d'.entries[0].distance
  {
    if HeadFeasible(cfg, d, msg) {
      FeasibleStaysPassive(cfg, d, msg, upNbrs, d');
    } else if upNbrs > 0 {
      InfeasibleGoesActive(cfg, d, msg, upNbrs, d');
    } else {
      InfeasibleAloneSettles(cfg, d, msg, d');
    }
    PassiveCoherence(cfg, upNbrs > 0, d, msg);
  }

  /** What a message that ends a computation does to FD. */
  lemma ReturnBounds(cfg: Config, d: Dest, msg: Msg, upNbrs: nat, d': Dest)
    requires Moves(cfg, d, Event(msg, upNbrs), d') && Active(d) && d'.state.Passive? && ListOk(cfg.k, d.entries)
    ensures d'.fdistance <= d'.distance
    ensures d'.fdistance > d.fdistance ==> !Reconsiders(cfg, d, msg) || (!HeadFeasible(cfg, d, msg) && upNbrs == 0)
  {
    ActiveStep(cfg, d, Event(msg, upNbrs), d');
    ReactActive(cfg, upNbrs > 0, d, msg);
    if Reconsiders(cfg, d, msg) && HeadFeasible(cfg, d, msg) {
      LastReplyFeasible(cfg, d, msg, upNbrs, d');
    } else if Reconsiders(cfg, d, msg) && upNbrs > 0 {
      LastReplyRestarts(cfg, d, msg, upNbrs, d');
    } else {
      LastReplySettles(cfg, d, msg, upNbrs, d');
    }
  }

  lemma FdBoundKept(cfg: Config, d: Dest, step: Step, d': Dest)
    requires Moves(cfg, d, step, d') && Inv(cfg, d) && d.fdistance <= d.distance
    ensures d'.fdistance <= d'.distance
  {
    if Active(d') {
      ActiveFreezes(cfg, d, step, d');
    } else if step.Event? {
      if Active(d) {
        ReturnBounds(cfg, d, step.msg, step.upNbrs, d');
      } else {
        PassiveToPassive(cfg, d, step.msg, step.upNbrs, d');
      }
    }
  }

  /** For a prefix learned by UPDATE, FD never exceeds D, after any run at all. */
  lemma {:induction false} FdNeverAbove(cfg: Config, ds: seq<Dest>, steps: seq<Step>,
                                        id: RouteId, nbr: Nbr, metrics: Metrics, external: bool, rejected: bool)
    requires IsRun(cfg, ds, steps) && ds[0] == Learned(cfg, id, nbr, metrics, external, rejected)
    ensures ds[|steps|].fdistance <= ds[|steps|].distance
  {
    LearnedInv(cfg, id, nbr, metrics, external, rejected);
    if steps == [] {
    } else {
      var n := |steps| - 1;
      RunPrefix(cfg, ds, steps);
      FdNeverAbove(cfg, ds[..n + 1], steps[..n], id, nbr, metrics, external, rejected);
      RunKeepsInv(cfg, ds[..n + 1], steps[..n]);
      FdBoundKept(cfg, ds[n], steps[n], ds[n + 1]);
    }
  }

  /** The source-node condition: after any run from a learned prefix that ends with a message and Passive, every
      flagged successor has reported a distance below FD, and so below the distance the daemon itself advertises. */
  lemma SuccessorsAreNearer(cfg: Config, ds: seq<Dest>, steps: seq<Step>, x: Route,
                            id: RouteId, nbr: Nbr, metrics: Metrics, external: bool, rejected: bool)
    requires IsRun(cfg, ds, steps) && ds[0] == Learned(cfg, id, nbr, metrics, external, rejected)
    requires steps != [] && steps[|steps| - 1].Event?
    requires var d := ds[|steps|]; d.live && d.state.Passive? && x in d.entries && x.succ
    ensures var d := ds[|steps|]; x.reportedDistance < d.fdistance <= d.rdistance == d.distance
  {
    LearnedStaysCoherent(cfg, ds, steps, id, nbr, metrics, external, rejected);
    FdNeverAbove(cfg, ds, steps, id, nbr, metrics, external, rejected);
  }
}
