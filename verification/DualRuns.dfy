/**
 What the DUAL machine keeps over every run: messages in any order, descriptors added for connected
 interfaces, and the packetizer filling the reply list whenever it gets to run.
 */
module DualRuns {
  import opened Words
  import opened Topology
  import opened Dual

  /** `upNbrs` is the number of UP neighbours of the instance when the message arrives; `ups` are the UP
      neighbours of the interface a QUERY for this prefix is multicast on. */
  datatype Step =
    | Event(msg: Msg, upNbrs: nat)
    | Added(route: Route)
    | QuerySent(ups: seq<NbrId>)

  const QUIET := Effects(false, false, [])

  ghost predicate StepOk(cfg: Config, d: Dest, step: Step) {
    && d.live
    && match step
       case Event(msg, _) => MsgOk(d, msg)
       case Added(r) => !Known(d.entries, r.id) && Priced(cfg.k, r)
       case QuerySent(_) => true
  }

  /** Without a flagged successor the packetizer has no route to encode and sends nothing. */
  ghost function Next(cfg: Config, d: Dest, step: Step): Outcome
    requires StepOk(cfg, d, step)
  {
    match step
    case Event(msg, upNbrs) => React(cfg, upNbrs > 0, d, msg)
    case Added(r) => Done(d.(entries := InsertSorted(d.entries, r), installed := [r.id]), QUIET)
    case QuerySent(ups) => Done(if Successors(d.entries) == [] then d else d.(rij := d.rij + ups), QUIET)
  }

  ghost predicate Moves(cfg: Config, d: Dest, step: Step, d': Dest) {
    StepOk(cfg, d, step) && Next(cfg, d, step).Done? && Next(cfg, d, step).d == d'
  }

  ghost predicate IsRun(cfg: Config, ds: seq<Dest>, steps: seq<Step>) {
    && |ds| == |steps| + 1
    && forall i :: 0 <= i < |steps| ==> Moves(cfg, ds[i], steps[i], ds[i + 1])
  }

  lemma MovesBy(cfg: Config, d: Dest, msg: Msg, upNbrs: nat, w: Dest, v: Verdict, d': Dest, fx: Effects)
    requires d.live && MsgOk(d, msg) && Recorded(cfg, d, msg) == w && VerdictOf(cfg, upNbrs > 0, d, msg) == v
    requires Carry(cfg, w, msg, v) == Done(d', fx)
    ensures Moves(cfg, d, Event(msg, upNbrs), d')
  {
  }

  lemma RunPrefix(cfg: Config, ds: seq<Dest>, steps: seq<Step>)
    requires IsRun(cfg, ds, steps) && steps != []
    ensures IsRun(cfg, ds[..|steps|], steps[..|steps| - 1])
    ensures Moves(cfg, ds[|steps| - 1], steps[|steps| - 1], ds[|steps|])
  {
    var p, q := ds[..|steps|], steps[..|steps| - 1];
    forall i | 0 <= i < |q| ensures Moves(cfg, p[i], q[i], p[i + 1]) {
      assert Moves(cfg, ds[i], steps[i], ds[i + 1]);
    }
  }

  lemma RunExtends(cfg: Config, ds: seq<Dest>, steps: seq<Step>, step: Step, d: Dest)
    requires IsRun(cfg, ds, steps) && Moves(cfg, ds[|steps|], step, d)
    ensures IsRun(cfg, ds + [d], steps + [step])
  {
    forall i | 0 <= i <= |steps| ensures Moves(cfg, (ds + [d])[i], (steps + [step])[i], (ds + [d])[i + 1]) {
      ExtendedAt(ds, d, i);
      ExtendedAt(ds, d, i + 1);
      ExtendedAt(steps, step, i);
    }
  }

  lemma ExtendedAt<T>(s: seq<T>, x: T, i: nat)
    requires i <= |s|
    ensures (s + [x])[i] == if i < |s| then s[i] else x
  {
  }

  // ----- diffusing computations -----

  predicate Active(d: Dest) {
    !d.state.Passive?
  }

  /** The neighbours a step puts on the reply list. */
  function Asked(d: Dest, step: Step): multiset<NbrId> {
    if step.QuerySent? && Successors(d.entries) != [] then multiset(step.ups) else multiset{}
  }

  /** The neighbour a step is a REPLY from. */
  ghost function Replier(cfg: Config, d: Dest, step: Step): multiset<NbrId>
    requires StepOk(cfg, d, step)
  {
    if step.Event? && step.msg.packet.Reply? then multiset{Costs(cfg, d, step.msg).route.adv} else multiset{}
  }

  ghost function AllAsked(ds: seq<Dest>, steps: seq<Step>): multiset<NbrId>
    requires |ds| > |steps|
  {
    if steps == [] then multiset{}
    else AllAsked(ds[..|ds| - 1], steps[..|steps| - 1]) + Asked(ds[|steps| - 1], steps[|steps| - 1])
  }

  ghost function AllRepliers(cfg: Config, ds: seq<Dest>, steps: seq<Step>): multiset<NbrId>
    requires IsRun(cfg, ds, steps)
  {
    if steps == [] then multiset{}
    else
      RunPrefix(cfg, ds, steps);
      AllRepliers(cfg, ds[..|steps|], steps[..|steps| - 1])
      + Replier(cfg, ds[|steps| - 1], steps[|steps| - 1])
  }

  /** The message of a step is one a receive function has built from the sender's packet. */
  ghost predicate FromWire(d: Dest, msg: Msg) {
    && msg.adv.Some? && !Known(d.entries, msg.alloc)
    && msg == Incoming(d, msg.packet, msg.adv.value, msg.data.External?, msg.metrics, msg.alloc)
  }

  /** The descriptor a packet resolves to is its sender's, whether the sender was known or not, so the
      neighbour taken off the reply list is the one that sent the REPLY. */
  lemma ReplierIsSender(cfg: Config, d: Dest, step: Step)
    requires StepOk(cfg, d, step) && step.Event? && step.msg.packet.Reply?
    requires UniqueIds(d.entries) && FromWire(d, step.msg)
    ensures Replier(cfg, d, step) == multiset{step.msg.adv.value.id}
  {
    var s, nbr := d.entries, step.msg.adv.value.id;
    var r := Lookup(s, nbr);
    if r.Some? {
      assert Known(s, r.value.id);
      ListMemberOnce(s, r.value, s[IndexOf(s, r.value.id)]);
    }
    assert Subject(s, step.msg).adv == nbr;
  }

  /** An Active destination leaves Active only on the reply that nobody else is waited for. */
  lemma JudgeActive(state: State, packet: PacketType, successor: bool, worse: bool,
                    waiting: bool, feasible: bool, anyNbr: bool)
    requires !state.Passive?
    ensures var v := Judge(state, packet, successor, worse, waiting, feasible, anyNbr);
            && (v.Reset? || v.Satisfied? ==> packet.Reply? && !waiting)
            && (v.Become? || v.Diffuse? ==> !v.to.Passive?)
  {
  }

  lemma ReturnFrame(cfg: Config, d: Dest, fdistance: uint32)
    requires d.entries != []
    ensures var r := Return(cfg, d, fdistance);
            && r.nt == d.nt && r.state.Passive? && (r.rij == d.rij || r.rij == [])
            && r.needUpdate && r.needQuery == d.needQuery
            && r.fdistance == fdistance && r.distance == r.rdistance == d.entries[0].distance
            && r.reportedMetric == d.entries[0].totalMetric
  {
  }

  /** The fields a verdict leaves alone. */
  lemma CarryFrame(cfg: Config, d: Dest, msg: Msg, v: Verdict)
    requires d.entries != [] && Carry(cfg, d, msg, v).Done?
    ensures var d' := Carry(cfg, d, msg, v).d;
            d'.nt == d.nt
            && match v
               case Keep =>
                 if d.state.Passive? then d'.state.Passive? && d'.rij == d.rij && d'.live == d.live else d' == d
               case Become(to) => d' == d.(state := to)
               case Diffuse(to) => d' == d.(state := to, needQuery := true)
               case _ => d'.state.Passive? && (d'.rij == d.rij || d'.rij == [])
  {
    match v
    case Reset(_) => ReturnFrame(cfg, d, d.entries[0].distance);
    case Satisfied => ReturnFrame(cfg, d, Nearer(d));
    case _ =>
  }

  lemma ReactActive(cfg: Config, anyNbr: bool, d: Dest, msg: Msg)
    requires d.live && MsgOk(d, msg) && Active(d) && React(cfg, anyNbr, d, msg).Done?
    ensures var w, d' := Recorded(cfg, d, msg), React(cfg, anyNbr, d, msg).d;
            && (Active(d') ==> d'.rij == w.rij)
            && (!Active(d') ==> msg.packet.Reply? && w.rij == [] && d'.rij == [])
  {
    var c, w := Costs(cfg, d, msg), Recorded(cfg, d, msg);
    JudgeActive(d.state, msg.packet, c.route.succ, c.change.Increase? && c.route.succ,
                w.rij != [], Feasible(w), anyNbr);
    CarryFrame(cfg, w, msg, VerdictOf(cfg, anyNbr, d, msg));
  }

  /** While Active a step loses nobody from the reply list except the neighbour that replied, and only a
      REPLY that leaves the list empty ends the computation. */
  lemma ActiveStep(cfg: Config, d: Dest, step: Step, d': Dest)
    requires Moves(cfg, d, step, d') && Active(d)
    ensures multiset(d.rij) + Asked(d, step) <= multiset(d'.rij) + Replier(cfg, d, step)
    ensures !Active(d') ==> step.Event? && step.msg.packet.Reply? && d'.rij == []
  {
    if step.Event? {
      ReactActive(cfg, step.upNbrs > 0, d, step.msg);
      RemoveFirstOne(d.rij, Costs(cfg, d, step.msg).route.adv);
    }
  }

  lemma Balance<T>(m0: multiset<T>, m1: multiset<T>, m2: multiset<T>,
                   a: multiset<T>, b: multiset<T>, x: multiset<T>, y: multiset<T>)
    requires m0 + a <= m1 + b && m1 + x <= m2 + y
    ensures m0 + (a + x) <= m2 + (b + y)
  {
    forall t ensures (m0 + (a + x))[t] <= (m2 + (b + y))[t] {
      assert (m0 + a)[t] <= (m1 + b)[t] && (m1 + x)[t] <= (m2 + y)[t];
    }
  }

  /** As long as a destination stays Active, who was listed or asked is still listed or has replied. */
  lemma {:induction false} ReplyBalance(cfg: Config, ds: seq<Dest>, steps: seq<Step>)
    requires IsRun(cfg, ds, steps)
    requires forall i :: 0 <= i < |steps| ==> Active(ds[i])
    ensures multiset(ds[0].rij) + AllAsked(ds, steps)
         <= multiset(ds[|steps|].rij) + AllRepliers(cfg, ds, steps)
  {
    if steps == [] {
    } else {
      var n := |steps| - 1;
      var p, q := ds[..n + 1], steps[..n];
      RunPrefix(cfg, ds, steps);
      ReplyBalance(cfg, p, q);
      ActiveStep(cfg, ds[n], steps[n], ds[n + 1]);
      Balance(multiset(ds[0].rij), multiset(ds[n].rij), multiset(ds[n + 1].rij),
              AllAsked(p, q), AllRepliers(cfg, p, q), Asked(ds[n], steps[n]), Replier(cfg, ds[n], steps[n]));
    }
  }

  /** From any Active state, however messages and packetizer steps interleave, the first return to Passive
      is a REPLY that empties the reply list, and every neighbour that was on the list, or was put on it
      meanwhile, has replied as many times as it was listed. */
  lemma DiffusingComputationSafe(cfg: Config, ds: seq<Dest>, steps: seq<Step>)
    requires IsRun(cfg, ds, steps) && steps != []
    requires forall i :: 0 <= i < |steps| ==> Active(ds[i])
    requires !Active(ds[|steps|])
    ensures steps[|steps| - 1].Event? && steps[|steps| - 1].msg.packet.Reply?
    ensures ds[|steps|].rij == []
    ensures multiset(ds[0].rij) + AllAsked(ds, steps) <= AllRepliers(cfg, ds, steps)
  {
    var n := |steps| - 1;
    RunPrefix(cfg, ds, steps);
    ActiveStep(cfg, ds[n], steps[n], ds[n + 1]);
    ReplyBalance(cfg, ds, steps);
  }

  // ----- the frozen window -----

  /** FD, RD, D and the advertised metric. */
  predicate SameAnchor(d: Dest, e: Dest) {
    && d.fdistance == e.fdistance && d.rdistance == e.rdistance
    && d.distance == e.distance && d.reportedMetric == e.reportedMetric
  }

  lemma SubjectBelongs(d: Dest, msg: Msg)
    requires MsgOk(d, msg) && UniqueIds(d.entries)
    ensures Belongs(d.entries, Subject(d.entries, msg))
    ensures msg.data.Connected? ==> Subject(d.entries, msg) in d.entries
  {
    var s, r := d.entries, Subject(d.entries, msg);
    forall x | x in s && x.id == r.id ensures x == r {
      assert Known(s, r.id);
      ListMemberOnce(s, x, s[IndexOf(s, r.id)]);
    }
  }

  /** Recording a message keeps the list in order and carries every successor flag over. */
  lemma RecordedKeeps(cfg: Config, d: Dest, msg: Msg)
    requires MsgOk(d, msg) && ListOk(cfg.k, d.entries)
    ensures var w := Recorded(cfg, d, msg);
            && ListOk(cfg.k, w.entries) && w.entries != [] && FlagsCarried(d.entries, w.entries)
            && SameAnchor(d, w) && w.state == d.state && w.nt == d.nt && w.live == d.live
  {
    SubjectBelongs(d, msg);
    UpdateDistanceKeeps(cfg.k, d.nt, d.entries, Subject(d.entries, msg), msg.data, msg.metrics);
  }

  lemma AddedKeeps(cfg: Config, s: seq<Route>, r: Route)
    requires ListOk(cfg.k, s) && !Known(s, r.id) && Priced(cfg.k, r)
    ensures ListOk(cfg.k, InsertSorted(s, r)) && FlagsCarried(s, InsertSorted(s, r))
  {
    forall x | x in s ensures x.id != r.id {
    }
    assert RemoveId(s, r.id) == s;
    ResortKeeps(s, r);
    ResortCarries(s, r, r);
  }

  lemma CarryActive(cfg: Config, d: Dest, msg: Msg, v: Verdict)
    requires d.entries != [] && Carry(cfg, d, msg, v).Done?
    ensures var d' := Carry(cfg, d, msg, v).d;
            Active(d') ==> SameAnchor(d, d') && d'.entries == d.entries && d'.live == d.live
  {
    CarryFrame(cfg, d, msg, v);
  }

  lemma CarryReturn(cfg: Config, d: Dest, msg: Msg, v: Verdict)
    requires d.entries != [] && Carry(cfg, d, msg, v).Done? && Active(d)
    ensures var d' := Carry(cfg, d, msg, v).d;
            !Active(d') && !v.Become? && !v.Diffuse? ==>
              d'.fdistance == d'.distance || d'.fdistance == d.fdistance < d'.distance
  {
    match v
    case Reset(_) => ReturnFrame(cfg, d, d.entries[0].distance);
    case Satisfied => ReturnFrame(cfg, d, Nearer(d));
    case _ =>
  }

  lemma EventFreezes(cfg: Config, anyNbr: bool, d: Dest, msg: Msg)
    requires d.live && MsgOk(d, msg) && ListOk(cfg.k, d.entries)
    requires React(cfg, anyNbr, d, msg).Done? && Active(React(cfg, anyNbr, d, msg).d)
    ensures var d' := React(cfg, anyNbr, d, msg).d;
            && SameAnchor(d, d') && FlagsCarried(d.entries, d'.entries)
            && ListOk(cfg.k, d'.entries) && d'.live
  {
    RecordedKeeps(cfg, d, msg);
    CarryActive(cfg, Recorded(cfg, d, msg), msg, VerdictOf(cfg, anyNbr, d, msg));
  }

  /** Whatever happens, a step that leaves the destination Active has not touched FD, RD, D or the
      advertised metric, nor any successor flag; that includes the step that enters Active. */
  lemma ActiveFreezes(cfg: Config, d: Dest, step: Step, d': Dest)
    requires Moves(cfg, d, step, d') && ListOk(cfg.k, d.entries) && Active(d')
    ensures SameAnchor(d, d') && FlagsCarried(d.entries, d'.entries)
    ensures ListOk(cfg.k, d'.entries) && d'.live
  {
    match step
    case Event(msg, upNbrs) => EventFreezes(cfg, upNbrs > 0, d, msg);
    case Added(r) => AddedKeeps(cfg, d.entries, r);
    case QuerySent(_) => FlagsCarriedRefl(d.entries);
  }

  /** FD, RD, D, the advertised metric and the successor flags are constant over any Active stretch,
      counted from the state before the step that entered Active. */
  lemma {:induction false} ActiveWindowFrozen(cfg: Config, ds: seq<Dest>, steps: seq<Step>)
    requires IsRun(cfg, ds, steps) && ListOk(cfg.k, ds[0].entries)
    requires forall i :: 1 <= i < |ds| ==> Active(ds[i])
    ensures SameAnchor(ds[0], ds[|steps|]) && FlagsCarried(ds[0].entries, ds[|steps|].entries)
    ensures ListOk(cfg.k, ds[|steps|].entries)
  {
    if steps == [] {
      FlagsCarriedRefl(ds[0].entries);
    } else {
      var n := |steps| - 1;
      RunPrefix(cfg, ds, steps);
      ActiveWindowFrozen(cfg, ds[..n + 1], steps[..n]);
      ActiveFreezes(cfg, ds[n], steps[n], ds[n + 1]);
      FlagsCarriedTrans(ds[0].entries, ds[n].entries, ds[n + 1].entries);
    }
  }

  // ----- who answers -----

  /** The neighbours that sent the REPLYs of a run. */
  function Senders(steps: seq<Step>): multiset<NbrId> {
    if steps == [] then multiset{}
    else
      var step := steps[|steps| - 1];
      Senders(steps[..|steps| - 1])
      + (if step.Event? && step.msg.packet.Reply? && step.msg.adv.Some? then multiset{step.msg.adv.value.id}
         else multiset{})
  }

  ghost predicate RepliesFromWire(ds: seq<Dest>, steps: seq<Step>)
    requires |ds| > |steps|
  {
    forall i :: 0 <= i < |steps| && steps[i].Event? && steps[i].msg.packet.Reply? ==> FromWire(ds[i], steps[i].msg)
  }

  lemma {:induction false} RepliersAreSenders(cfg: Config, ds: seq<Dest>, steps: seq<Step>)
    requires IsRun(cfg, ds, steps) && ListOk(cfg.k, ds[0].entries) && RepliesFromWire(ds, steps)
    requires forall i :: 0 <= i < |steps| ==> Active(ds[i])
    ensures AllRepliers(cfg, ds, steps) == Senders(steps)
  {
    if steps == [] {
    } else {
      var n := |steps| - 1;
      var p, q := ds[..n + 1], steps[..n];
      RunPrefix(cfg, ds, steps);
      RepliersAreSenders(cfg, p, q);
      ActiveWindowFrozen(cfg, p, q);
      if steps[n].Event? && steps[n].msg.packet.Reply? {
        ReplierIsSender(cfg, ds[n], steps[n]);
      }
    }
  }

  /** Diffusing-computation safety over the neighbours themselves: by the first return to Passive every neighbour
      that was on the reply list, or was put on it meanwhile, has sent a REPLY as often as it was listed. */
  lemma EveryNeighbourReplied(cfg: Config, ds: seq<Dest>, steps: seq<Step>)
    requires IsRun(cfg, ds, steps) && steps != []
    requires ListOk(cfg.k, ds[0].entries) && RepliesFromWire(ds, steps)
    requires forall i :: 0 <= i < |steps| ==> Active(ds[i])
    requires !Active(ds[|steps|])
    ensures steps[|steps| - 1].Event? && steps[|steps| - 1].msg.packet.Reply? && ds[|steps|].rij == []
    ensures multiset(ds[0].rij) + AllAsked(ds, steps) <= Senders(steps)
  {
    DiffusingComputationSafe(cfg, ds, steps);
    RepliersAreSenders(cfg, ds, steps);
  }

  /** The FD a computation ends with is the new distance, or the FD it was entered with if that is smaller:
      never one that was invented in between. */
  lemma ReturnUsesEntryFd(cfg: Config, ds: seq<Dest>, steps: seq<Step>)
    requires IsRun(cfg, ds, steps) && |steps| >= 2 && ListOk(cfg.k, ds[0].entries)
    requires forall i :: 1 <= i < |steps| ==> Active(ds[i])
    requires !Active(ds[|steps|])
    ensures var d := ds[|steps|];
            d.fdistance == d.distance || d.fdistance == ds[0].fdistance < d.distance
  {
    var n := |steps| - 1;
    var p, q := ds[..n + 1], steps[..n];
    RunPrefix(cfg, ds, steps);
    ActiveWindowFrozen(cfg, p, q);
    assert p[0] == ds[0] && p[|q|] == ds[n];
    ActiveStep(cfg, ds[n], steps[n], ds[n + 1]);
    ReturnFd(cfg, steps[n].upNbrs > 0, ds[n], steps[n].msg);
  }

  lemma ReturnFd(cfg: Config, anyNbr: bool, d: Dest, msg: Msg)
    requires d.live && MsgOk(d, msg) && Active(d) && ListOk(cfg.k, d.entries)
    requires React(cfg, anyNbr, d, msg).Done? && !Active(React(cfg, anyNbr, d, msg).d)
    ensures var d' := React(cfg, anyNbr, d, msg).d;
            d'.fdistance == d'.distance || d'.fdistance == d.fdistance < d'.distance
  {
    var c, w := Costs(cfg, d, msg), Recorded(cfg, d, msg);
    RecordedKeeps(cfg, d, msg);
    JudgeActive(d.state, msg.packet, c.route.succ, c.change.Increase? && c.route.succ,
                w.rij != [], Feasible(w), anyNbr);
    CarryReturn(cfg, w, msg, VerdictOf(cfg, anyNbr, d, msg));
  }

  // ----- the step relation -----

  /** The arrows of the state diagram, with the shortcuts an instance without neighbours takes. */
  predicate Arrow(a: State, b: State) {
    match a
    case Passive => b in {Passive, Active1, Active3}
    case Active0 => b in {Passive, Active0, Active1, Active2}
    case Active1 => b in {Passive, Active0, Active1, Active2}
    case Active2 => b in {Passive, Active2, Active3}
    case Active3 => b in {Passive, Active2, Active3}
  }

  lemma JudgeArrows(state: State, packet: PacketType, successor: bool, worse: bool,
                    waiting: bool, feasible: bool, anyNbr: bool)
    ensures var v := Judge(state, packet, successor, worse, waiting, feasible, anyNbr);
            && (v.Become? || v.Diffuse? ==> Arrow(state, v.to))
            && Arrow(state, Passive) && Arrow(state, state)
  {
  }

  lemma StepFollowsArrow(cfg: Config, d: Dest, step: Step, d': Dest)
    requires Moves(cfg, d, step, d')
    ensures Arrow(d.state, d'.state)
  {
    if step.Event? {
      var msg := step.msg;
      var c, w, anyNbr := Costs(cfg, d, msg), Recorded(cfg, d, msg), step.upNbrs > 0;
      JudgeArrows(d.state, msg.packet, c.route.succ, c.change.Increase? && c.route.succ,
                  w.rij != [], Feasible(w), anyNbr);
      CarryFrame(cfg, w, msg, VerdictOf(cfg, anyNbr, d, msg));
    }
  }

  predicate QueryOrigin(s: State) {
    s.Active2? || s.Active3?
  }

  /** Once a computation is known to come from the successor's QUERY, it stays so until Passive. */
  lemma {:induction false} OriginSticks(cfg: Config, ds: seq<Dest>, steps: seq<Step>)
    requires IsRun(cfg, ds, steps) && QueryOrigin(ds[0].state)
    requires forall i :: 0 <= i < |ds| ==> Active(ds[i])
    ensures QueryOrigin(ds[|steps|].state)
  {
    if steps == [] {
    } else {
      var n := |steps| - 1;
      RunPrefix(cfg, ds, steps);
      OriginSticks(cfg, ds[..n + 1], steps[..n]);
      StepFollowsArrow(cfg, ds[n], steps[n], ds[n + 1]);
    }
  }
}
