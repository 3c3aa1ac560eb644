/**
 What a Passive destination is worth: its distance, its successor flags and the paths handed to zebra
 all agree with the head of the route list, at the end of every message and over every run.
 */
module DualPassive {
  import opened Words
  import opened Metric
  import opened Topology
  import opened Dual
  import opened DualRuns

  /** The invariant of a destination learned from a neighbour. */
  ghost predicate Inv(cfg: Config, d: Dest) {
    d.live ==>
      && ListOk(cfg.k, d.entries) && d.entries != []
      && !d.nt.TypeConnected?
      && (d.state.Passive? ==> Anchored(cfg, d))
  }

  ghost predicate Anchored(cfg: Config, d: Dest) {
    d.distance == d.rdistance == Stored(cfg.k, d.reportedMetric)
  }

  /** D and RD are the head's distance, which is the minimum, and the advertised metric is the head's. */
  ghost predicate Coherent(d: Dest) {
    && d.entries != []
    && d.distance == d.rdistance == d.entries[0].distance
    && (forall x :: x in d.entries ==> d.distance <= x.distance)
    && MetricsSame(d.reportedMetric, d.entries[0].totalMetric)
  }

  /** The cached flags are what the definitions of (feasible) successor say. */
  ghost predicate FlagsExact(cfg: Config, d: Dest) {
    forall x :: x in d.entries ==>
      && (x.succ <==> && x.reportedDistance < d.fdistance
                      && x.distance <= d.distance * cfg.variance
                      && x.distance != MAX_METRIC)
      && (x.fsucc <==> x.reportedDistance < d.fdistance && !x.succ)
  }

  /** What a message that ends Passive leaves behind. */
  ghost predicate Sound(cfg: Config, d: Dest) {
    Coherent(d) && FlagsExact(cfg, d) && ListOk(cfg.k, d.entries) && Anchored(cfg, d)
  }

  lemma SameMetricsSameDistance(k: KValues, a: Metrics, b: Metrics)
    requires MetricsSame(a, b)
    ensures Stored(k, a) == Stored(k, b)
  {
  }

  lemma FlagAllKeeps(k: KValues, s: seq<Route>, fdistance: uint32, distance: uint32, variance: uint8)
    requires ListOk(k, s)
    ensures ListOk(k, FlagAll(s, fdistance, distance, variance))
  {
    var t := FlagAll(s, fdistance, distance, variance);
    forall x | x in t ensures Priced(k, x) {
      var i :| 0 <= i < |t| && t[i] == x;
      assert s[i] in s;
    }
    forall i, j | 0 <= i < j < |t| ensures t[i].distance <= t[j].distance && t[i].id != t[j].id {
      assert t[i] == Flagged(s[i], fdistance, distance, variance);
      assert t[j] == Flagged(s[j], fdistance, distance, variance);
    }
  }

  lemma FlagAllExact(cfg: Config, d: Dest)
    ensures FlagsExact(cfg, Settle(cfg, d))
  {
    var e := Settle(cfg, d);
    forall x | x in e.entries
      ensures x.succ <==> x.reportedDistance < d.fdistance && x.distance <= d.distance * cfg.variance
                          && x.distance != MAX_METRIC
      ensures x.fsucc <==> x.reportedDistance < d.fdistance && !x.succ
    {
      var i :| 0 <= i < |e.entries| && e.entries[i] == x;
      assert x == Flagged(d.entries[i], d.fdistance, d.distance, cfg.variance);
    }
  }

  lemma HeadIsMinimum(d: Dest)
    requires d.entries != [] && Sorted(d.entries)
    ensures forall x :: x in d.entries ==> d.entries[0].distance <= x.distance
  {
  }

  /** Settling an anchored destination whose advertised metric is the head's makes it coherent. */
  lemma SettleCoherent(cfg: Config, d: Dest)
    requires ListOk(cfg.k, d.entries) && Agrees(d) && Anchored(cfg, d)
    ensures Sound(cfg, Settle(cfg, d))
  {
    var h, e := d.entries[0], Settle(cfg, d);
    assert h in d.entries;
    assert e.entries[0] == Flagged(h, d.fdistance, d.distance, cfg.variance);
    SameMetricsSameDistance(cfg.k, d.reportedMetric, h.totalMetric);
    FlagAllKeeps(cfg.k, d.entries, d.fdistance, d.distance, cfg.variance);
    HeadIsMinimum(e);
    FlagAllExact(cfg, d);
  }

  lemma AdoptAnchors(cfg: Config, d: Dest, fdistance: uint32)
    requires d.entries != [] && AllPriced(cfg.k, d.entries)
    ensures Anchored(cfg, Adopt(d, fdistance)) && Agrees(Adopt(d, fdistance))
  {
    assert d.entries[0] in d.entries;
  }

  lemma KeepPassiveCoherent(cfg: Config, d: Dest, msg: Msg)
    requires ListOk(cfg.k, d.entries) && d.entries != [] && Anchored(cfg, d)
    ensures Sound(cfg, KeepPassive(cfg, d, msg).d)
  {
    if Agrees(d) {
      SettleCoherent(cfg, d);
    } else {
      var a := Adopt(d, d.entries[0].distance);
      AdoptAnchors(cfg, d, d.entries[0].distance);
      SettleCoherent(cfg, a.(needUpdate := true));
    }
  }

  /** Pruning keeps the head of a destination that is not lost. */
  lemma PruneCoherent(cfg: Config, d: Dest)
    requires Sound(cfg, d) && d.distance != MAX_METRIC
    ensures Sound(cfg, Pruned(d))
  {
    ReachableHead(d.entries);
    ReachableKeeps(d.entries);
    ReachableMembers(d.entries);
  }

  lemma ReturnCoherent(cfg: Config, d: Dest, fdistance: uint32)
    requires ListOk(cfg.k, d.entries) && d.entries != [] && !d.nt.TypeConnected?
    ensures Return(cfg, d, fdistance).live ==> Sound(cfg, Return(cfg, d, fdistance))
  {
    ReturnLives(cfg, d, fdistance);
    AdoptAnchors(cfg, d, fdistance);
    var e := Settle(cfg, Adopted(d, fdistance));
    SettleCoherent(cfg, Adopted(d, fdistance));
    if d.entries[0].distance != MAX_METRIC {
      PruneCoherent(cfg, e);
      assert Return(cfg, d, fdistance) == Pruned(e);
    }
  }

  lemma ReturnLives(cfg: Config, d: Dest, fdistance: uint32)
    requires d.entries != []
    ensures Return(cfg, d, fdistance).live
            <==> d.live && (d.entries[0].distance != MAX_METRIC || d.nt.TypeConnected?)
  {
  }

  lemma CarryCoherent(cfg: Config, d: Dest, msg: Msg, v: Verdict)
    requires ListOk(cfg.k, d.entries) && d.entries != [] && !d.nt.TypeConnected?
    requires d.state.Passive? ==> Anchored(cfg, d)
    requires Carry(cfg, d, msg, v).Done?
    requires v.Become? || v.Diffuse? ==> !v.to.Passive?
    ensures var d' := Carry(cfg, d, msg, v).d; d'.live && d'.state.Passive? ==> Sound(cfg, d')
  {
    match v
    case Keep => if d.state.Passive? { KeepPassiveCoherent(cfg, d, msg); }
    case Reset(_) => ReturnCoherent(cfg, d, d.entries[0].distance);
    case Satisfied => ReturnCoherent(cfg, d, Nearer(d));
    case _ =>
  }

  lemma JudgeTargets(state: State, packet: PacketType, successor: bool, worse: bool,
                     waiting: bool, feasible: bool, anyNbr: bool)
    ensures var v := Judge(state, packet, successor, worse, waiting, feasible, anyNbr);
            v.Become? || v.Diffuse? ==> !v.to.Passive?
  {
  }

  /** Every message that ends Passive, with the prefix still in the table, leaves D, RD and the advertised
      metric equal to the head's and to the minimum, and the cached flags equal to their definition. */
  lemma PassiveCoherence(cfg: Config, anyNbr: bool, d: Dest, msg: Msg)
    requires Inv(cfg, d) && d.live && MsgOk(d, msg) && React(cfg, anyNbr, d, msg).Done?
    ensures var d' := React(cfg, anyNbr, d, msg).d; d'.live && d'.state.Passive? ==> Sound(cfg, d')
  {
    var c, w := Costs(cfg, d, msg), Recorded(cfg, d, msg);
    RecordedKeeps(cfg, d, msg);
    JudgeTargets(d.state, msg.packet, c.route.succ, c.change.Increase? && c.route.succ,
                 w.rij != [], Feasible(w), anyNbr);
    CarryCoherent(cfg, w, msg, VerdictOf(cfg, anyNbr, d, msg));
  }

  // ----- over whole runs -----

  lemma LearnedInv(cfg: Config, id: RouteId, nbr: Nbr, metrics: Metrics, external: bool, rejected: bool)
    ensures var d := Learned(cfg, id, nbr, metrics, external, rejected);
            Inv(cfg, d) && Sound(cfg, d)
  {
  }

  lemma NtFixed(cfg: Config, d: Dest, step: Step, d': Dest)
    requires Moves(cfg, d, step, d')
    ensures d'.nt == d.nt
  {
    if step.Event? {
      CarryFrame(cfg, Recorded(cfg, d, step.msg), step.msg, VerdictOf(cfg, step.upNbrs > 0, d, step.msg));
    }
  }

  lemma StepKeepsInv(cfg: Config, d: Dest, step: Step, d': Dest)
    requires Inv(cfg, d) && Moves(cfg, d, step, d')
    ensures Inv(cfg, d')
  {
    NtFixed(cfg, d, step, d');
    if Active(d') {
      ActiveFreezes(cfg, d, step, d');
      StillListed(cfg, d, step, d');
    } else {
      match step
      case Event(msg, upNbrs) => PassiveCoherence(cfg, upNbrs > 0, d, msg);
      case Added(r) => AddedKeeps(cfg, d.entries, r);
      case QuerySent(_) =>
    }
  }

  lemma StillListed(cfg: Config, d: Dest, step: Step, d': Dest)
    requires Moves(cfg, d, step, d') && ListOk(cfg.k, d.entries) && d.entries != [] && Active(d')
    ensures d'.entries != []
  {
    ActiveFreezes(cfg, d, step, d');
    assert CarriedTo(d.entries[0], d'.entries);
  }

  lemma {:induction false} RunKeepsInv(cfg: Config, ds: seq<Dest>, steps: seq<Step>)
    requires IsRun(cfg, ds, steps) && Inv(cfg, ds[0])
    ensures Inv(cfg, ds[|steps|])
  {
    if steps == [] {
    } else {
      var n := |steps| - 1;
      RunPrefix(cfg, ds, steps);
      RunKeepsInv(cfg, ds[..n + 1], steps[..n]);
      StepKeepsInv(cfg, ds[n], steps[n], ds[n + 1]);
    }
  }

  /** For a prefix learned by UPDATE, after any run at all, a message that ends Passive leaves a coherent
      destination with exact flags. */
  lemma LearnedStaysCoherent(cfg: Config, ds: seq<Dest>, steps: seq<Step>,
                             id: RouteId, nbr: Nbr, metrics: Metrics, external: bool, rejected: bool)
    requires ds != [] && ds[0] == Learned(cfg, id, nbr, metrics, external, rejected)
    requires IsRun(cfg, ds, steps) && steps != [] && steps[|steps| - 1].Event?
    ensures var d := ds[|steps|];
            d.live && d.state.Passive? ==> Sound(cfg, d)
  {
    var n := |steps| - 1;
    LearnedInv(cfg, id, nbr, metrics, external, rejected);
    RunPrefix(cfg, ds, steps);
    RunKeepsInv(cfg, ds[..n + 1], steps[..n]);
    PassiveCoherence(cfg, steps[n].upNbrs > 0, ds[n], steps[n].msg);
  }

  // ----- installed paths -----

  lemma PathIndex(s: seq<Route>, maxPaths: uint8, i: nat)
    requires i < |PathSet(s, maxPaths)|
    ensures i < |Successors(s)| && Successors(s)[i].id == PathSet(s, maxPaths)[i]
    ensures Successors(s)[i] in s && Successors(s)[i].succ
  {
    SuccessorsMembers(s);
    assert Successors(s)[i] in Successors(s);
  }

  lemma PathMember(s: seq<Route>, maxPaths: uint8, x: Route) returns (i: nat)
    requires UniqueIds(s) && x in s && x.id in PathSet(s, maxPaths)
    ensures i < |PathSet(s, maxPaths)| && i < |Successors(s)| && Successors(s)[i] == x && x.succ
  {
    var p := PathSet(s, maxPaths);
    i :| 0 <= i < |p| && p[i] == x.id;
    PathIndex(s, maxPaths, i);
    ListMemberOnce(s, x, Successors(s)[i]);
  }

  lemma PathMissed(s: seq<Route>, maxPaths: uint8, j: nat)
    requires j < |Successors(s)| && Successors(s)[j].id !in PathSet(s, maxPaths)
    ensures |PathSet(s, maxPaths)| <= j
  {
    if j < |PathSet(s, maxPaths)| {
      PathIndex(s, maxPaths, j);
      assert false;
    }
  }

  lemma PathsDistinct(s: seq<Route>, maxPaths: uint8)
    requires Sorted(s) && UniqueIds(s)
    ensures var p := PathSet(s, maxPaths); forall i, j :: 0 <= i < j < |p| ==> p[i] != p[j]
  {
    SuccessorsSorted(s);
    var p := PathSet(s, maxPaths);
    forall i, j | 0 <= i < j < |p| ensures p[i] != p[j] {
      PathIndex(s, maxPaths, i);
      PathIndex(s, maxPaths, j);
    }
  }

  /** The paths handed to zebra are the cheapest flagged successors, at most `maxPaths` of them. */
  lemma PathSetCheapest(s: seq<Route>, maxPaths: uint8)
    requires Sorted(s) && UniqueIds(s)
    ensures var p := PathSet(s, maxPaths);
            && |p| == Min(maxPaths, |Successors(s)|)
            && (forall i, j :: 0 <= i < j < |p| ==> p[i] != p[j])
            && (forall x :: x in s && x.id in p ==> x.succ)
            && (forall x, y :: x in s && y in s && x.id in p && y.succ && y.id !in p ==> x.distance <= y.distance)
  {
    var p := PathSet(s, maxPaths);
    PathsDistinct(s, maxPaths);
    forall x | x in s && x.id in p ensures x.succ {
      var _ := PathMember(s, maxPaths, x);
    }
    forall x, y | x in s && y in s && x.id in p && y.succ && y.id !in p ensures x.distance <= y.distance {
      CheaperInside(s, maxPaths, x, y);
    }
  }

  lemma CheaperInside(s: seq<Route>, maxPaths: uint8, x: Route, y: Route)
    requires Sorted(s) && UniqueIds(s) && x in s && y in s
    requires x.id in PathSet(s, maxPaths) && y.succ && y.id !in PathSet(s, maxPaths)
    ensures x.distance <= y.distance
  {
    var t := Successors(s);
    SuccessorsSorted(s);
    var i := PathMember(s, maxPaths, x);
    SuccessorsMembers(s);
    var j :| 0 <= j < |t| && t[j] == y;
    PathMissed(s, maxPaths, j);
  }

  /** The message ends the computation. */
  predicate Ends(v: Verdict) {
    v.Reset? || v.Satisfied?
  }

  /** Will carrying this message out free an unreachable descriptor? Known before the handler runs. */
  predicate Frees(cfg: Config, anyNbr: bool, d: Dest, msg: Msg)
    requires MsgOk(d, msg)
  {
    Ends(VerdictOf(cfg, anyNbr, d, msg)) && |Reachable(Recorded(cfg, d, msg).entries)| < |Recorded(cfg, d, msg).entries|
  }

  lemma {:induction false} FlagAllReachable(s: seq<Route>, fdistance: uint32, distance: uint32, variance: uint8)
    ensures Reachable(FlagAll(s, fdistance, distance, variance))
         == FlagAll(Reachable(s), fdistance, distance, variance)
  {
    if s == [] {
    } else {
      var p, x := s[..|s| - 1], s[|s| - 1];
      FlagAllReachable(p, fdistance, distance, variance);
      assert FlagAll(s, fdistance, distance, variance)[..|s| - 1] == FlagAll(p, fdistance, distance, variance);
      if x.distance != MAX_METRIC {
        assert (Reachable(p) + [x])[..|Reachable(p)|] == Reachable(p);
      }
    }
  }

  /** A settled destination installs its path set unless pruning frees a descriptor, which withdraws all. */
  lemma ReturnInstalls(cfg: Config, d: Dest, fdistance: uint32)
    requires d.entries != []
    ensures var r := Return(cfg, d, fdistance);
            r.live ==> r.installed == if |Reachable(d.entries)| < |d.entries| then []
                                      else PathSet(r.entries, cfg.maxPaths)
  {
    var a := Adopt(d, fdistance).(state := Passive, needUpdate := true);
    FlagAllReachable(d.entries, a.fdistance, a.distance, cfg.variance);
  }

  lemma CarryInstalls(cfg: Config, d: Dest, msg: Msg, v: Verdict)
    requires d.entries != [] && Carry(cfg, d, msg, v).Done?
    requires v.Become? || v.Diffuse? ==> !v.to.Passive?
    ensures var d' := Carry(cfg, d, msg, v).d;
            d'.live && d'.state.Passive? ==>
              d'.installed == if (v.Reset? || v.Satisfied?) && |Reachable(d.entries)| < |d.entries| then []
                              else PathSet(d'.entries, cfg.maxPaths)
  {
    match v
    case Reset(_) => ReturnInstalls(cfg, d, d.entries[0].distance);
    case Satisfied => ReturnInstalls(cfg, d, Nearer(d));
    case _ =>
  }

  /** After a message that ends Passive zebra holds exactly the path set of the destination, except when the
      message freed an unreachable descriptor: then zebra holds nothing, although successors may remain. */
  lemma InstalledPaths(cfg: Config, anyNbr: bool, d: Dest, msg: Msg)
    requires Inv(cfg, d) && d.live && MsgOk(d, msg) && React(cfg, anyNbr, d, msg).Done?
    ensures var d' := React(cfg, anyNbr, d, msg).d;
            d'.live && d'.state.Passive? ==>
              (d'.installed == PathSet(d'.entries, cfg.maxPaths)
               <==> !Frees(cfg, anyNbr, d, msg) || PathSet(d'.entries, cfg.maxPaths) == [])
  {
    var c, w := Costs(cfg, d, msg), Recorded(cfg, d, msg);
    JudgeTargets(d.state, msg.packet, c.route.succ, c.change.Increase? && c.route.succ,
                 w.rij != [], Feasible(w), anyNbr);
    CarryInstalls(cfg, w, msg, VerdictOf(cfg, anyNbr, d, msg));
  }

  ghost predicate InstalledBest(cfg: Config, e: Dest) {
    && |e.installed| <= cfg.maxPaths
    && (forall x :: x in e.entries && x.id in e.installed ==> Usable(cfg, e, x))
    && (forall x, y | x in e.entries && y in e.entries && x.id in e.installed && y.id !in e.installed ::
          Usable(cfg, e, y) ==> x.distance <= y.distance)
  }

  predicate Usable(cfg: Config, e: Dest, x: Route) {
    x.reportedDistance < e.fdistance && x.distance <= e.distance * cfg.variance && x.distance != MAX_METRIC
  }

  lemma PathSetBest(cfg: Config, e: Dest)
    requires FlagsExact(cfg, e) && ListOk(cfg.k, e.entries) && e.installed == PathSet(e.entries, cfg.maxPaths)
    ensures InstalledBest(cfg, e)
  {
    PathSetCheapest(e.entries, cfg.maxPaths);
  }

  /** What zebra holds after a message that ends Passive and freed nothing: feasible routes within variance,
      at most `maxPaths` of them, and none dearer than a feasible route within variance that was left out. */
  lemma InstalledAreBest(cfg: Config, anyNbr: bool, d: Dest, msg: Msg, e: Dest)
    requires Inv(cfg, d) && d.live && MsgOk(d, msg) && React(cfg, anyNbr, d, msg).Done?
    requires e == React(cfg, anyNbr, d, msg).d && e.live && e.state.Passive? && !Frees(cfg, anyNbr, d, msg)
    ensures InstalledBest(cfg, e)
  {
    PassiveCoherence(cfg, anyNbr, d, msg);
    InstalledPaths(cfg, anyNbr, d, msg);
    PathSetBest(cfg, e);
  }
}
