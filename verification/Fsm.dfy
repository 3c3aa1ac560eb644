/**
 The DUAL event handlers as the daemon writes them: a selector that updates the prefix, a dispatch table,
 and eight handlers that overwrite the prefix and queue work, one of which dispatches again.
 Every handler is proved to carry out the matching row of the table in `Dual`.
 */
module Fsm {
  import opened Words
  import opened Metric
  import opened Topology
  import opened TopologyTable
  import opened Dual

  datatype FsmEvent = NqFcn | Lr | QFcn | LrFcs | Dinc | Qact | LrFcn | KeepState

  /** What waits in the packetizer's queue. */
  datatype Work = ReplyWork(nbr: NbrId, prefix: Prefix) | QueryWork(prefix: Prefix)

  class Instance {
    const cfg: Config
    /** The neighbours of each interface. */
    var neighbors: seq<seq<NbrState>>
    var topologyChanges: seq<Prefix>
    var work: seq<Work>

    function UpCount(): nat
      reads this
    {
      CountAll(neighbors)
    }

    /** `eigrp_nbr_count_get`. */
    method NbrCountGet() returns (counter: nat)
      ensures counter == UpCount()
    {
      counter := 0;
      for i := 0 to |neighbors|
        invariant counter == CountAll(neighbors[..i])
      {
        var nbrs := neighbors[i];
        for j := 0 to |nbrs|
          invariant counter == CountAll(neighbors[..i]) + CountUp(nbrs[..j])
        {
          assert nbrs[..j + 1][..j] == nbrs[..j];
          if nbrs[j].Up? {
            counter := counter + 1;
          }
        }
        assert nbrs[..|nbrs|] == nbrs && neighbors[..i + 1][..i] == neighbors[..i];
      }
      assert neighbors[..|neighbors|] == neighbors;
    }

    /** `eigrp_reply_send`. */
    method ReplySend(nbr: Option<NbrId>, prefix: Prefix)
      modifies this`work
      ensures work == old(work) + ReplyWorks(if nbr.Some? then [nbr.value] else [], prefix)
    {
      if nbr.Some? {
        work := work + [ReplyWork(nbr.value, prefix)];
      }
    }
  }

  function CountUp(s: seq<NbrState>): nat {
    if s == [] then 0 else CountUp(s[..|s| - 1]) + if s[|s| - 1].Up? then 1 else 0
  }

  function CountAll(s: seq<seq<NbrState>>): nat {
    if s == [] then 0 else CountAll(s[..|s| - 1]) + CountUp(s[|s| - 1])
  }

  lemma {:induction false} CountUpExact(s: seq<NbrState>)
    ensures CountUp(s) == multiset(s)[Up]
  {
    if s == [] {
    } else {
      CountUpExact(s[..|s| - 1]);
      assert s == s[..|s| - 1] + [s[|s| - 1]];
    }
  }

  /** The count is positive exactly if some interface has a neighbour that is UP. */
  lemma {:induction false} AnybodyUp(s: seq<seq<NbrState>>)
    ensures CountAll(s) > 0 <==> exists nbrs :: nbrs in s && Up in nbrs
  {
    if s == [] {
    } else {
      var p, last := s[..|s| - 1], s[|s| - 1];
      AnybodyUp(p);
      CountUpExact(last);
      assert s == p + [last];
      assert Up in last <==> Up in multiset(last);
    }
  }

  function ReplyWorks(nbrs: seq<NbrId>, prefix: Prefix): seq<Work> {
    seq(|nbrs|, i requires 0 <= i < |nbrs| => ReplyWork(nbrs[i], prefix))
  }

  lemma ReplyWorksTwice(work: seq<Work>, nbrs: seq<NbrId>, prefix: Prefix)
    ensures work + ReplyWorks(nbrs, prefix) + ReplyWorks(nbrs, prefix) == work + ReplyWorks(nbrs + nbrs, prefix)
  {
  }

  /** The change list after a message's effects: appended once if listed, first occurrence gone if dropped. */
  function Ledger<P(==)>(changes: seq<P>, p: P, fx: Effects): seq<P> {
    var listed := if fx.listed then changes + [p] else changes;
    if fx.dropped then RemoveFirst(listed, p) else listed
  }

  // ----- the selector and the table -----

  /** `eigrp_get_fsm_event`, once the distance and the reply are recorded. */
  function Select(state: State, packet: PacketType, successor: bool, increase: bool,
                  waiting: bool, feasible: bool): FsmEvent
  {
    match state
    case Passive => if feasible then KeepState else if packet.Query? then QFcn else NqFcn
    case Active0 =>
      if packet.Reply? then (if waiting then KeepState else if feasible then LrFcs else LrFcn)
      else if packet.Query? && successor then Qact
      else KeepState
    case Active1 =>
      if packet.Query? && successor then Qact
      else if packet.Reply? then
        (if increase && successor then Dinc else if waiting then KeepState else Lr)
      else if packet.Update? && increase && successor then Dinc
      else KeepState
    case Active2 =>
      if packet.Reply? then (if waiting then KeepState else if feasible then LrFcs else LrFcn) else KeepState
    case Active3 =>
      if packet.Reply? then
        (if increase && successor then Dinc else if waiting then KeepState else Lr)
      else if packet.Update? && increase && successor then Dinc
      else KeepState
  }

  /** The dispatch table: which handler an event reaches in a state, named by the event it is written for. */
  function Nsm(state: State, event: FsmEvent): FsmEvent {
    match (state, event)
    case (Passive, NqFcn) => NqFcn
    case (Passive, QFcn) => QFcn
    case (Active0, LrFcs) => LrFcs
    case (Active0, Qact) => Qact
    case (Active0, LrFcn) => LrFcn
    case (Active1, Lr) => Lr
    case (Active1, Dinc) => Dinc
    case (Active1, Qact) => Qact
    case (Active2, LrFcs) => LrFcs
    case (Active2, LrFcn) => LrFcn
    case (Active3, Lr) => Lr
    case (Active3, Dinc) => Dinc
    case _ => KeepState
  }

  /** The selector never raises an event the table drops in that state, and the handler that dispatches
      again cannot be reached from the states it moves to. */
  lemma SelectorMatchesTable(state: State, packet: PacketType, successor: bool, increase: bool,
                             waiting: bool, feasible: bool)
    ensures var e := Select(state, packet, successor, increase, waiting, feasible);
            && Nsm(state, e) == e
            && (e.Dinc? ==> state.Active1? || state.Active3?)
  {
  }

  // ----- handlers -----

  /** The prefix and the instance after an outcome. */
  twostate predicate Carried(eigrp: Instance, prefix: Prefix, o: Outcome)
    reads eigrp, prefix
  {
    o.Done? ==>
      && prefix.View() == o.d
      && eigrp.topologyChanges == Ledger(old(eigrp.topologyChanges), prefix, o.fx)
      && eigrp.work == old(eigrp.work) + ReplyWorks(o.fx.replies, prefix)
      && eigrp.neighbors == old(eigrp.neighbors)
  }

  function Restart(anyNbr: bool, to: State): Verdict {
    if anyNbr then Diffuse(to) else Reset(to)
  }

  /** What the DINC handler comes to: only the origin changes, unless its second dispatch finds that
      the last reply is in. */
  function DincVerdict(d: Dest, packet: PacketType, anyNbr: bool): Verdict {
    var to := if d.state.Active1? then Active0 else Active2;
    if packet.Reply? && d.rij == [] then LastReply(Feasible(d), anyNbr, if d.state.Active1? then Active1 else Active3)
    else Become(to)
  }

  method Finish(eigrp: Instance, prefix: Prefix)
    requires prefix.entries != [] && prefix.live
    modifies eigrp`topologyChanges, prefix
    ensures prefix.View() == Closed(eigrp.cfg, old(prefix.View()).(needUpdate := true))
    ensures eigrp.topologyChanges == Ledger(old(eigrp.topologyChanges), prefix, Effects(true, !prefix.live, []))
  {
    prefix.needUpdate := true;
    eigrp.topologyChanges := eigrp.topologyChanges + [prefix];
    prefix.Settle(eigrp.cfg);
    var dropped := prefix.UpdateTopologyTablePrefix();
    if dropped {
      eigrp.topologyChanges := RemoveFirst(eigrp.topologyChanges, prefix);
    }
  }

  /** The REPLY an ACTIVE_3 prefix owes the successor it had, on the flags frozen since Passive. */
  method ReplyToSuccessor(eigrp: Instance, prefix: Prefix) returns (ok: bool)
    modifies eigrp`work
    ensures ok <==> (prefix.state.Active3? ==> Successors(prefix.entries) != [])
    ensures ok ==> eigrp.work == old(eigrp.work) + Owed(prefix.state, prefix.entries, prefix)
  {
    if prefix.state.Active3? {
      var successors := prefix.GetSuccessor();
      if successors.None? {
        return false;
      }
      eigrp.ReplySend(Some(successors.value[0].adv), prefix);
    }
    return true;
  }

  function Owed(origin: State, s: seq<Route>, prefix: Prefix): seq<Work>
    requires origin.Active3? ==> Successors(s) != []
  {
    ReplyWorks(if origin.Active3? then [Successors(s)[0].adv] else [], prefix)
  }

  method EventLr(eigrp: Instance, prefix: Prefix) returns (ok: bool)
    requires prefix.entries != [] && prefix.live
    modifies eigrp, prefix
    ensures ok <==> (old(prefix.state).Active3? ==> Successors(old(prefix.entries)) != [])
    ensures ok ==>
      && prefix.View() == Closed(eigrp.cfg, Adopted(old(prefix.View()), old(prefix.entries)[0].distance))
      && eigrp.topologyChanges == Ledger(old(eigrp.topologyChanges), prefix, Effects(true, !prefix.live, []))
      && eigrp.neighbors == old(eigrp.neighbors)
      && eigrp.work == old(eigrp.work) + Owed(old(prefix.state), old(prefix.entries), prefix)
  {
    var route := prefix.entries[0];
    ghost var d := prefix.View();
    prefix.fdistance, prefix.distance, prefix.rdistance := route.distance, route.distance, route.distance;
    prefix.reportedMetric := route.totalMetric;
    ok := ReplyToSuccessor(eigrp, prefix);
    if ok {
      prefix.state := Passive;
      assert prefix.View().(needUpdate := true) == Adopted(d, route.distance);
      Finish(eigrp, prefix);
    }
  }

  method EventLrFcs(eigrp: Instance, prefix: Prefix)
    requires prefix.entries != [] && prefix.live
    modifies eigrp`topologyChanges, prefix
    ensures prefix.View() == Closed(eigrp.cfg, Adopted(old(prefix.View()), Nearer(old(prefix.View()))))
    ensures eigrp.topologyChanges == Ledger(old(eigrp.topologyChanges), prefix, Effects(true, !prefix.live, []))
  {
    ghost var d := prefix.View();
    var route := prefix.entries[0];
    prefix.state := Passive;
    prefix.distance, prefix.rdistance := route.distance, route.distance;
    prefix.reportedMetric := route.totalMetric;
    prefix.fdistance := if prefix.fdistance > prefix.distance then prefix.distance else prefix.fdistance;
    if prefix.state.Active2? {
      // The daemon would reply here, but it has just overwritten the state it tests.
      assert false;
    }
    assert prefix.View().(needUpdate := true) == Adopted(d, Nearer(d));
    Finish(eigrp, prefix);
  }

  lemma ReturnIgnoresState(cfg: Config, d: Dest, fdistance: uint32, to: State)
    requires d.entries != []
    ensures Return(cfg, d.(state := to), fdistance) == Return(cfg, d, fdistance)
  {
    assert Adopted(d.(state := to), fdistance) == Adopted(d, fdistance);
  }

  lemma RestartIgnoresState(cfg: Config, d: Dest, msg: Msg, anyNbr: bool, from: State, to: State)
    requires d.entries != []
    ensures Carry(cfg, d.(state := from), msg, Restart(anyNbr, to)) == Carry(cfg, d, msg, Restart(anyNbr, to))
  {
    if !anyNbr {
      CarryReset(cfg, d, msg, to);
      CarryReset(cfg, d.(state := from), msg, to);
      ReturnIgnoresState(cfg, d, d.entries[0].distance, from);
    }
  }

  lemma SatisfiedIgnoresState(cfg: Config, d: Dest, msg: Msg, to: State)
    requires d.entries != []
    ensures Carry(cfg, d.(state := to), msg, Satisfied) == Carry(cfg, d, msg, Satisfied)
  {
    CarrySatisfied(cfg, d, msg);
    CarrySatisfied(cfg, d.(state := to), msg);
    ReturnIgnoresState(cfg, d, Nearer(d), to);
  }

  method EventKeepState(eigrp: Instance, prefix: Prefix, msg: Msg)
    requires prefix.entries != []
    modifies eigrp, prefix
    ensures Carried(eigrp, prefix, Carry(eigrp.cfg, old(prefix.View()), msg, Keep))
  {
    if prefix.state.Passive? {
      ReplyWorksTwice(eigrp.work, Answer(msg), prefix);
      Readvertise(eigrp, prefix, msg);
      prefix.Settle(eigrp.cfg);
    }
    AnswerQuery(eigrp, prefix, msg);
  }

  method AnswerQuery(eigrp: Instance, prefix: Prefix, msg: Msg)
    modifies eigrp`work
    ensures eigrp.work == old(eigrp.work) + ReplyWorks(Answer(msg), prefix)
  {
    if msg.packet.Query? {
      eigrp.ReplySend(if msg.adv.Some? then Some(msg.adv.value.id) else None, prefix);
    }
  }

  /** What KEEP_STATE does in Passive when the head no longer is what was advertised. */
  method Readvertise(eigrp: Instance, prefix: Prefix, msg: Msg)
    requires prefix.entries != []
    modifies eigrp, prefix
    ensures var d := old(prefix.View());
            && prefix.View() == (if Agrees(d) then d else Adopt(d, d.entries[0].distance).(needUpdate := true))
            && eigrp.topologyChanges == old(eigrp.topologyChanges) + (if Agrees(d) then [] else [prefix])
            && eigrp.work == old(eigrp.work) + (if Agrees(d) then [] else ReplyWorks(Answer(msg), prefix))
            && eigrp.neighbors == old(eigrp.neighbors)
  {
    var route := prefix.entries[0];
    if !MetricsSame(prefix.reportedMetric, route.totalMetric) {
      prefix.rdistance, prefix.fdistance, prefix.distance := route.distance, route.distance, route.distance;
      prefix.reportedMetric := route.totalMetric;
      AnswerQuery(eigrp, prefix, msg);
      prefix.needUpdate := true;
      eigrp.topologyChanges := eigrp.topologyChanges + [prefix];
    }
  }

  /** The common tail of the handlers that start a computation: ask, or settle at once when alone. */
  method AskOrReset(eigrp: Instance, prefix: Prefix, msg: Msg) returns (ok: bool)
    requires prefix.entries != [] && prefix.live
    modifies eigrp, prefix
    ensures var o := Carry(eigrp.cfg, old(prefix.View()), msg, Restart(old(eigrp.UpCount()) > 0, old(prefix.state)));
            ok == o.Done? && Carried(eigrp, prefix, o)
  {
    var count := eigrp.NbrCountGet();
    if count > 0 {
      prefix.needQuery := true;
      eigrp.topologyChanges := eigrp.topologyChanges + [prefix];
      return true;
    } else {
      CarryReset(eigrp.cfg, prefix.View(), msg, prefix.state);
      ok := EventLr(eigrp, prefix);
    }
  }

  method EventNqFcn(eigrp: Instance, prefix: Prefix, msg: Msg) returns (ok: bool)
    requires prefix.entries != [] && prefix.live
    modifies eigrp, prefix
    ensures var o := Carry(eigrp.cfg, old(prefix.View()), msg, Restart(old(eigrp.UpCount()) > 0, Active1));
            ok == o.Done? && Carried(eigrp, prefix, o)
  {
    RestartIgnoresState(eigrp.cfg, prefix.View(), msg, eigrp.UpCount() > 0, Active1, Active1);
    prefix.state := Active1;
    ok := AskOrReset(eigrp, prefix, msg);
  }

  method EventQFcn(eigrp: Instance, prefix: Prefix, msg: Msg) returns (ok: bool)
    requires prefix.entries != [] && prefix.live
    modifies eigrp, prefix
    ensures var o := Carry(eigrp.cfg, old(prefix.View()), msg, Restart(old(eigrp.UpCount()) > 0, Active3));
            ok == o.Done? && Carried(eigrp, prefix, o)
  {
    RestartIgnoresState(eigrp.cfg, prefix.View(), msg, eigrp.UpCount() > 0, Active3, Active3);
    prefix.state := Active3;
    ok := AskOrReset(eigrp, prefix, msg);
  }

  method EventLrFcn(eigrp: Instance, prefix: Prefix, msg: Msg) returns (ok: bool)
    requires prefix.entries != [] && prefix.live
    modifies eigrp, prefix
    ensures var to := if old(prefix.state).Active0? then Active1 else Active3;
            var o := Carry(eigrp.cfg, old(prefix.View()), msg, Restart(old(eigrp.UpCount()) > 0, to));
            ok == o.Done? && Carried(eigrp, prefix, o)
  {
    var to := if prefix.state.Active0? then Active1 else Active3;
    RestartIgnoresState(eigrp.cfg, prefix.View(), msg, eigrp.UpCount() > 0, to, to);
    prefix.state := to;
    ok := AskOrReset(eigrp, prefix, msg);
  }

  method EventQact(eigrp: Instance, prefix: Prefix, msg: Msg)
    requires prefix.entries != []
    modifies prefix`state
    ensures Carried(eigrp, prefix, Carry(eigrp.cfg, old(prefix.View()), msg, Become(Active2)))
  {
    prefix.state := Active2;
  }

  // ----- the event -----

  /** How the receive functions address the machine. */
  method MessageFrom(prefix: Prefix, packet: PacketType, nbr: Nbr, external: bool, metrics: Metrics, alloc: RouteId)
    returns (msg: Msg)
    ensures msg == Incoming(prefix.View(), packet, nbr, external, metrics, alloc)
  {
    var route := prefix.DescriptorLookup(nbr.id);
    if route.None? {
      route := Some(RouteCreate(alloc, nbr));
    }
    msg := Msg(packet, if external then External else Internal, Some(nbr), route, metrics, alloc);
  }

  /** What the nested dispatch of the DINC handler relies on: the message has been recorded already,
      so recording it again changes nothing. */
  ghost predicate Replayed(cfg: Config, d: Dest, msg: Msg) {
    && MsgOk(d, msg) && msg.route.Some?
    && Costs(cfg, d, msg).entries == d.entries
    && Costs(cfg, d, msg).route == msg.route.value
  }

  lemma RecordedReplays(cfg: Config, d: Dest, msg: Msg)
    requires MsgOk(d, msg) && UniqueIds(d.entries) && Costs(cfg, d, msg).change.Increase?
    ensures Replayed(cfg, Recorded(cfg, d, msg), msg.(route := Some(Costs(cfg, d, msg).route)))
  {
    var r, c := Subject(d.entries, msg), Costs(cfg, d, msg);
    UpdateDistanceIdempotent(cfg.k, d.nt, d.entries, r, msg.data, msg.metrics);
    ResortKeeps(d.entries, c.route);
    var t := c.entries;
    assert c.route in t;
    ListMemberOnce(t, t[IndexOf(t, c.route.id)], c.route);
  }

  /** `eigrp_get_fsm_event`: record the distance, shrink the reply list, name the event. */
  method GetFsmEvent(eigrp: Instance, prefix: Prefix, msg: Msg) returns (event: FsmEvent, msg': Msg)
    requires MsgOk(prefix.View(), msg)
    modifies prefix`entries, prefix`rij
    ensures var d := old(prefix.View());
            var c, w := Costs(eigrp.cfg, d, msg), Recorded(eigrp.cfg, d, msg);
            && prefix.View() == w
            && msg' == msg.(route := Some(c.route))
            && event == Select(d.state, msg.packet, c.route.succ, c.change.Increase?, w.rij != [], Feasible(w))
  {
    var route := match msg.route
      case None => RouteCreate(msg.alloc, msg.adv.value)
      case Some(r) => if Known(prefix.entries, r.id) then prefix.entries[IndexOf(prefix.entries, r.id)] else r;
    ghost var d := prefix.View();
    var change;
    route, change := prefix.UpdateDistance(eigrp.cfg.k, route, msg.data, msg.metrics);
    msg' := msg.(route := Some(route));
    if msg.packet.Reply? && !prefix.state.Passive? {
      prefix.rij := RemoveFirst(prefix.rij, route.adv);
    }
    event := Select(prefix.state, msg.packet, route.succ, change.Increase?, prefix.rij != [],
                    prefix.entries[0].reportedDistance < prefix.fdistance);
  }

  /** The verdict an event stands for. */
  function EventVerdict(d: Dest, event: FsmEvent, packet: PacketType, anyNbr: bool): Verdict {
    match event
    case KeepState => Keep
    case NqFcn => Restart(anyNbr, Active1)
    case QFcn => Restart(anyNbr, Active3)
    case Lr => Reset(d.state)
    case LrFcs => Satisfied
    case LrFcn => Restart(anyNbr, if d.state.Active0? then Active1 else Active3)
    case Qact => Become(Active2)
    case Dinc => DincVerdict(d, packet, anyNbr)
  }

  /** Selector and table together decide what the flat table of `Dual` decides. */
  lemma SelectJudges(d: Dest, packet: PacketType, successor: bool, increase: bool, anyNbr: bool)
    ensures EventVerdict(d, Select(d.state, packet, successor, increase, d.rij != [], Feasible(d)), packet, anyNbr)
         == Judge(d.state, packet, successor, increase && successor, d.rij != [], Feasible(d), anyNbr)
  {
  }

  /** The handler `NSM[prefix->state][event]`, called; only the DINC handler comes back here, and then
      with another event. */
  method Dispatch(eigrp: Instance, prefix: Prefix, msg: Msg, event: FsmEvent) returns (ok: bool)
    requires prefix.entries != [] && prefix.live
    requires Nsm(prefix.state, event) == event
    requires event.Dinc? ==> !msg.packet.Query? && Replayed(eigrp.cfg, prefix.View(), msg)
    modifies eigrp, prefix
    ensures var v := EventVerdict(old(prefix.View()), event, msg.packet, old(eigrp.UpCount()) > 0);
            var o := Carry(eigrp.cfg, old(prefix.View()), msg, v);
            ok == o.Done? && Carried(eigrp, prefix, o)
    decreases if event.Dinc? then 2 else 0, 0
  {
    ok := true;
    match event {
      case KeepState => EventKeepState(eigrp, prefix, msg);
      case NqFcn => ok := EventNqFcn(eigrp, prefix, msg);
      case QFcn => ok := EventQFcn(eigrp, prefix, msg);
      case Lr =>
        CarryReset(eigrp.cfg, prefix.View(), msg, prefix.state);
        ok := EventLr(eigrp, prefix);
      case LrFcs =>
        CarrySatisfied(eigrp.cfg, prefix.View(), msg);
        EventLrFcs(eigrp, prefix);
      case LrFcn => ok := EventLrFcn(eigrp, prefix, msg);
      case Qact => EventQact(eigrp, prefix, msg);
      case Dinc => ok := EventDinc(eigrp, prefix, msg);
    }
  }

  /** The selector called again on a message it has recorded: it changes nothing. */
  method Reselect(eigrp: Instance, prefix: Prefix, msg: Msg) returns (event: FsmEvent, msg': Msg)
    requires Replayed(eigrp.cfg, prefix.View(), msg) && prefix.rij == []
    requires prefix.state.Active0? || prefix.state.Active2?
    requires !msg.packet.Query?
    modifies prefix`entries, prefix`rij
    ensures prefix.View() == old(prefix.View()) && msg' == msg
    ensures event == if !msg.packet.Reply? then KeepState else if Feasible(prefix.View()) then LrFcs else LrFcn
  {
    event, msg' := GetFsmEvent(eigrp, prefix, msg);
  }

  method DispatchAgain(eigrp: Instance, prefix: Prefix, msg: Msg, ghost d: Dest) returns (ok: bool)
    requires prefix.entries != [] && prefix.live && prefix.rij == [] && (d.state.Active1? || d.state.Active3?)
    requires prefix.View() == d.(state := if d.state.Active1? then Active0 else Active2)
    requires !msg.packet.Query? && Replayed(eigrp.cfg, prefix.View(), msg)
    modifies eigrp, prefix
    ensures var o := Carry(eigrp.cfg, d, msg, DincVerdict(d, msg.packet, old(eigrp.UpCount()) > 0));
            ok == o.Done? && Carried(eigrp, prefix, o)
    decreases 1, 0
  {
    var event, again := Reselect(eigrp, prefix, msg);
    DincAgain(eigrp.cfg, d, msg, eigrp.UpCount() > 0, event);
    ok := Dispatch(eigrp, prefix, again, event);
  }

  method EventDinc(eigrp: Instance, prefix: Prefix, msg: Msg) returns (ok: bool)
    requires prefix.entries != [] && prefix.live && (prefix.state.Active1? || prefix.state.Active3?)
    requires !msg.packet.Query? && Replayed(eigrp.cfg, prefix.View(), msg)
    modifies eigrp, prefix
    ensures var v := DincVerdict(old(prefix.View()), msg.packet, old(eigrp.UpCount()) > 0);
            var o := Carry(eigrp.cfg, old(prefix.View()), msg, v);
            ok == o.Done? && Carried(eigrp, prefix, o)
    decreases 1, 1
  {
    ghost var d := prefix.View();
    var to := if prefix.state.Active1? then Active0 else Active2;
    prefix.state := to;
    ok := true;
    if prefix.rij == [] {
      assert prefix.View() == d.(state := to);
      ok := DispatchAgain(eigrp, prefix, msg, d);
    }
  }

  /** With nobody left to wait for, the second dispatch carries out `DincVerdict` from the new state. */
  lemma DincAgain(cfg: Config, d: Dest, msg: Msg, anyNbr: bool, event: FsmEvent)
    requires d.entries != [] && (d.state.Active1? || d.state.Active3?) && d.rij == [] && !msg.packet.Query?
    requires event == if !msg.packet.Reply? then KeepState else if Feasible(d) then LrFcs else LrFcn
    ensures var e := d.(state := if d.state.Active1? then Active0 else Active2);
            Carry(cfg, e, msg, EventVerdict(e, event, msg.packet, anyNbr))
            == Carry(cfg, d, msg, DincVerdict(d, msg.packet, anyNbr))
  {
    var to := if d.state.Active1? then Active0 else Active2;
    if msg.packet.Reply? && Feasible(d) {
      SatisfiedIgnoresState(cfg, d, msg, to);
    } else if msg.packet.Reply? {
      RestartIgnoresState(cfg, d, msg, anyNbr, to, if d.state.Active1? then Active1 else Active3);
    }
  }

  /** The verdict of the selected event is the one of `Dual`. */
  lemma EventDecides(cfg: Config, anyNbr: bool, d: Dest, msg: Msg, event: FsmEvent)
    requires d.live && MsgOk(d, msg)
    requires var c, w := Costs(cfg, d, msg), Recorded(cfg, d, msg);
             event == Select(d.state, msg.packet, c.route.succ, c.change.Increase?, w.rij != [], Feasible(w))
    ensures var w, again := Recorded(cfg, d, msg), msg.(route := Some(Costs(cfg, d, msg).route));
            Carry(cfg, w, again, EventVerdict(w, event, msg.packet, anyNbr)) == React(cfg, anyNbr, d, msg)
  {
    var c, w := Costs(cfg, d, msg), Recorded(cfg, d, msg);
    var v := VerdictOf(cfg, anyNbr, d, msg);
    assert EventVerdict(w, event, msg.packet, anyNbr) == v by {
      SelectJudges(w, msg.packet, c.route.succ, c.change.Increase?, anyNbr);
    }
    CarryIgnoresRoute(cfg, w, msg, c.route, v);
  }

  lemma CarryIgnoresRoute(cfg: Config, d: Dest, msg: Msg, r: Route, v: Verdict)
    requires d.entries != []
    ensures Carry(cfg, d, msg.(route := Some(r)), v) == Carry(cfg, d, msg, v)
  {
  }

  lemma DincIsWorse(state: State, packet: PacketType, successor: bool, increase: bool, waiting: bool, feasible: bool)
    requires Select(state, packet, successor, increase, waiting, feasible).Dinc?
    ensures increase && !packet.Query?
  {
  }

  /** The selector leaves a prefix fit for dispatch, and names the event of the flat table's verdict. */
  method Prepare(eigrp: Instance, prefix: Prefix, msg: Msg, ghost anyNbr: bool) returns (event: FsmEvent, msg': Msg)
    requires prefix.live && MsgOk(prefix.View(), msg) && UniqueIds(prefix.entries)
    modifies prefix`entries, prefix`rij
    ensures prefix.entries != [] && prefix.live && Nsm(prefix.state, event) == event
    ensures event.Dinc? ==> !msg'.packet.Query? && Replayed(eigrp.cfg, prefix.View(), msg')
    ensures Carry(eigrp.cfg, prefix.View(), msg', EventVerdict(prefix.View(), event, msg'.packet, anyNbr))
         == React(eigrp.cfg, anyNbr, old(prefix.View()), msg)
  {
    ghost var d := prefix.View();
    event, msg' := GetFsmEvent(eigrp, prefix, msg);
    ghost var w := Recorded(eigrp.cfg, d, msg);
    assert prefix.View() == w;
    SelectorMatchesTable(d.state, msg.packet, Costs(eigrp.cfg, d, msg).route.succ,
                         Costs(eigrp.cfg, d, msg).change.Increase?, w.rij != [], Feasible(w));
    if event.Dinc? {
      DincIsWorse(d.state, msg.packet, Costs(eigrp.cfg, d, msg).route.succ,
                  Costs(eigrp.cfg, d, msg).change.Increase?, w.rij != [], Feasible(w));
      RecordedReplays(eigrp.cfg, d, msg);
    }
    EventDecides(eigrp.cfg, anyNbr, d, msg, event);
  }

  /** `eigrp_fsm_event`: the handlers, nested dispatch included, do what the flat table says. */
  method HandleEvent(eigrp: Instance, prefix: Prefix, msg: Msg) returns (ok: bool)
    requires prefix.live && MsgOk(prefix.View(), msg) && UniqueIds(prefix.entries)
    modifies eigrp, prefix
    ensures var o := React(eigrp.cfg, old(eigrp.UpCount()) > 0, old(prefix.View()), msg);
            ok == o.Done? && Carried(eigrp, prefix, o)
  {
    var event, again := Prepare(eigrp, prefix, msg, eigrp.UpCount() > 0);
    ok := Dispatch(eigrp, prefix, again, event);
  }
}
