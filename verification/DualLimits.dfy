/**
 The edges of the DUAL machine: when its assertion can fail, when a computation ends without anybody having
 been asked, when a prefix is deleted, and what a message owes the instance's change list.
 */
module DualLimits {
  import opened Metric
  import opened Topology
  import opened Dual
  import opened DualRuns
  import opened DualPassive

  // ----- the assertion on the successor list -----

  /** The daemon asserts exactly when a QUERY-originated computation ends and no descriptor is flagged. */
  lemma AbortsExactly(cfg: Config, anyNbr: bool, d: Dest, msg: Msg)
    requires d.live && MsgOk(d, msg)
    ensures React(cfg, anyNbr, d, msg).Aborted?
            <==> VerdictOf(cfg, anyNbr, d, msg) == Reset(Active3) && Successors(Recorded(cfg, d, msg).entries) == []
  {
  }

  lemma SuccessorCarried(s: seq<Route>, t: seq<Route>)
    requires FlagsCarried(s, t) && Successors(s) != []
    ensures Successors(t) != []
  {
    SuccessorsMembers(s);
    SuccessorsMembers(t);
    var x := Successors(s)[0];
    assert x in Successors(s);
    assert CarriedTo(x, t);
    assert t[IndexOf(t, x.id)] in Successors(t);
  }

  /** A destination that has a flagged successor when a computation starts cannot fail the assertion
      before it is Passive again, whatever arrives. */
  lemma WindowNeverAborts(cfg: Config, ds: seq<Dest>, steps: seq<Step>, next: Step)
    requires IsRun(cfg, ds, steps) && ListOk(cfg.k, ds[0].entries) && Successors(ds[0].entries) != []
    requires forall i :: 1 <= i < |ds| ==> Active(ds[i])
    requires StepOk(cfg, ds[|steps|], next)
    ensures Next(cfg, ds[|steps|], next).Done?
  {
    var d := ds[|steps|];
    ActiveWindowFrozen(cfg, ds, steps);
    SuccessorCarried(ds[0].entries, d.entries);
    if next.Event? {
      RecordedKeeps(cfg, d, next.msg);
      SuccessorCarried(d.entries, Recorded(cfg, d, next.msg).entries);
      AbortsExactly(cfg, next.upNbrs > 0, d, next.msg);
    }
  }

  lemma NoneFlagged(s: seq<Route>)
    ensures Successors(s) == [] <==> forall x :: x in s ==> !x.succ
  {
    SuccessorsMembers(s);
    if Successors(s) != [] {
      assert Successors(s)[0] in Successors(s);
    }
  }

  /** A step brings no flagged descriptor from outside; received routes never carry the flag. */
  predicate JoinsUnflagged(d: Dest, step: Step) {
    match step
    case Event(msg, _) => msg.route.Some? && !Known(d.entries, msg.route.value.id) ==> !msg.route.value.succ
    case Added(r) => !r.succ
    case QuerySent(_) => true
  }

  lemma RecordedUnflagged(cfg: Config, d: Dest, msg: Msg, upNbrs: nat)
    requires MsgOk(d, msg) && ListOk(cfg.k, d.entries) && JoinsUnflagged(d, Event(msg, upNbrs))
    requires Successors(d.entries) == []
    ensures Successors(Recorded(cfg, d, msg).entries) == []
  {
    var r, c := Subject(d.entries, msg), Costs(cfg, d, msg);
    NoneFlagged(d.entries);
    NoneFlagged(c.entries);
    if msg.route.Some? && Known(d.entries, msg.route.value.id) {
      assert r in d.entries;
    }
    assert !r.succ;
    ResortKeeps(d.entries, c.route);
  }

  lemma UnflaggedStays(cfg: Config, d: Dest, step: Step, d': Dest)
    requires Moves(cfg, d, step, d') && ListOk(cfg.k, d.entries) && Active(d') && JoinsUnflagged(d, step)
    requires Successors(d.entries) == []
    ensures Successors(d'.entries) == []
  {
    match step
    case Event(msg, upNbrs) =>
      RecordedUnflagged(cfg, d, msg, upNbrs);
      RecordedKeeps(cfg, d, msg);
      CarryActive(cfg, Recorded(cfg, d, msg), msg, VerdictOf(cfg, upNbrs > 0, d, msg));
    case Added(r) =>
      InsertSortedMembers(d.entries, r);
      NoneFlagged(d.entries);
      NoneFlagged(d'.entries);
    case QuerySent(_) =>
  }

  lemma {:induction false} UnflaggedWindow(cfg: Config, ds: seq<Dest>, steps: seq<Step>)
    requires IsRun(cfg, ds, steps) && ListOk(cfg.k, ds[0].entries)
    requires forall i :: 1 <= i < |ds| ==> Active(ds[i])
    requires forall i :: 0 <= i < |steps| ==> JoinsUnflagged(ds[i], steps[i])
    requires Successors(ds[0].entries) == []
    ensures Successors(ds[|steps|].entries) == []
  {
    if steps == [] {
    } else {
      var n := |steps| - 1;
      RunPrefix(cfg, ds, steps);
      UnflaggedWindow(cfg, ds[..n + 1], steps[..n]);
      ActiveWindowFrozen(cfg, ds[..n + 1], steps[..n]);
      UnflaggedStays(cfg, ds[n], steps[n], ds[n + 1]);
    }
  }

  /** When the last reply of a QUERY-originated computation comes in, the daemon asserts exactly if the destination
      had no flagged successor before the step that entered Active, however long ago that was. */
  lemma AbortsByEntry(cfg: Config, ds: seq<Dest>, steps: seq<Step>, msg: Msg, upNbrs: nat)
    requires IsRun(cfg, ds, steps) && ListOk(cfg.k, ds[0].entries)
    requires forall i :: 1 <= i < |ds| ==> Active(ds[i])
    requires forall i :: 0 <= i < |steps| ==> JoinsUnflagged(ds[i], steps[i])
    requires StepOk(cfg, ds[|steps|], Event(msg, upNbrs)) && JoinsUnflagged(ds[|steps|], Event(msg, upNbrs))
    requires VerdictOf(cfg, upNbrs > 0, ds[|steps|], msg) == Reset(Active3)
    ensures React(cfg, upNbrs > 0, ds[|steps|], msg).Aborted? <==> Successors(ds[0].entries) == []
  {
    var d := ds[|steps|];
    ActiveWindowFrozen(cfg, ds, steps);
    AbortsExactly(cfg, upNbrs > 0, d, msg);
    if Successors(ds[0].entries) == [] {
      UnflaggedWindow(cfg, ds, steps);
      RecordedUnflagged(cfg, d, msg, upNbrs);
    } else {
      SuccessorCarried(ds[0].entries, d.entries);
      RecordedKeeps(cfg, d, msg);
      SuccessorCarried(d.entries, Recorded(cfg, d, msg).entries);
    }
  }

  /** A settled Passive destination whose head is feasible has that head as a flagged successor. */
  lemma FeasibleHasSuccessor(cfg: Config, d: Dest)
    requires Coherent(d) && FlagsExact(cfg, d) && cfg.variance >= 1 && d.distance != MAX_METRIC
    ensures Feasible(d) ==> Successors(d.entries) != []
  {
    var h := d.entries[0];
    assert h in d.entries;
    MultipleAtLeast(d.distance, cfg.variance);
    SuccessorsMembers(d.entries);
    if Feasible(d) {
      assert h in Successors(d.entries);
    }
  }

  lemma MultipleAtLeast(a: nat, b: nat)
    requires b >= 1
    ensures a <= a * b
  {
    Grows(1, b, a);
  }

  // ----- nobody asked -----

  /** Until the packetizer has run the reply list is empty, and then a single REPLY, whoever sent it, is the last
      one. It ends the computation exactly if no QUERY has reached the origin flag and the successor has not got
      worse, or the feasibility condition is met, or there is nobody left to ask; otherwise the daemon starts
      over. No neighbour need have been asked. */
  lemma UnaskedReplyEnds(cfg: Config, anyNbr: bool, d: Dest, msg: Msg)
    requires d.live && MsgOk(d, msg) && msg.packet.Reply? && Active(d) && d.rij == []
    ensures var c := Costs(cfg, d, msg); var v := VerdictOf(cfg, anyNbr, d, msg);
            && (Ends(v) <==> || ((d.state.Active1? || d.state.Active3?) && !(c.change.Increase? && c.route.succ))
                             || Feasible(Recorded(cfg, d, msg)) || !anyNbr)
            && (!Ends(v) ==> v.Diffuse?)
    ensures var o := React(cfg, anyNbr, d, msg);
            o.Done? ==> (o.d.state.Passive? <==> Ends(VerdictOf(cfg, anyNbr, d, msg)))
  {
    var w, v := Recorded(cfg, d, msg), VerdictOf(cfg, anyNbr, d, msg);
    assert w.rij == [];
    JudgeTargets(d.state, msg.packet, Costs(cfg, d, msg).route.succ,
                 Costs(cfg, d, msg).change.Increase? && Costs(cfg, d, msg).route.succ, false, Feasible(w), anyNbr);
    if Carry(cfg, w, msg, v).Done? {
      CarryFrame(cfg, w, msg, v);
    }
  }

  // ----- what a message owes the change list -----

  /** Needs are only added, and only together with an entry in the change list; a deleted prefix says so. */
  lemma NeedsAreListed(cfg: Config, anyNbr: bool, d: Dest, msg: Msg)
    requires d.live && MsgOk(d, msg) && React(cfg, anyNbr, d, msg).Done?
    ensures var Done(d', fx) := React(cfg, anyNbr, d, msg);
            && (fx.dropped <==> !d'.live)
            && (d.needUpdate ==> d'.needUpdate) && (d.needQuery ==> d'.needQuery)
            && (!fx.listed ==> d'.needUpdate == d.needUpdate && d'.needQuery == d.needQuery)
            && (fx.listed ==> d'.needUpdate || d'.needQuery)
  {
    CarryListed(cfg, Recorded(cfg, d, msg), msg, VerdictOf(cfg, anyNbr, d, msg));
  }

  lemma CarryListed(cfg: Config, d: Dest, msg: Msg, v: Verdict)
    requires d.live && d.entries != [] && Carry(cfg, d, msg, v).Done?
    ensures var Done(d', fx) := Carry(cfg, d, msg, v);
            && (fx.dropped <==> !d'.live)
            && (d.needUpdate ==> d'.needUpdate) && (d.needQuery ==> d'.needQuery)
            && (!fx.listed ==> d'.needUpdate == d.needUpdate && d'.needQuery == d.needQuery)
            && (fx.listed ==> d'.needUpdate || d'.needQuery)
  {
    match v
    case Keep => if d.state.Passive? { KeepListed(cfg, d, msg); }
    case Become(_) =>
    case Diffuse(_) =>
    case Reset(origin) =>
      CarryReset(cfg, d, msg, origin);
      ReturnFrame(cfg, d, d.entries[0].distance);
    case Satisfied =>
      CarrySatisfied(cfg, d, msg);
      ReturnFrame(cfg, d, Nearer(d));
  }

  lemma KeepListed(cfg: Config, d: Dest, msg: Msg)
    requires d.live && d.entries != []
    ensures var Done(d', fx) := KeepPassive(cfg, d, msg);
            && d'.live && !fx.dropped && d'.needQuery == d.needQuery
            && d'.needUpdate == (fx.listed || d.needUpdate)
  {
  }

  // ----- when a prefix is deleted -----

  /** The guard of the deletion, on what is known before the handler runs. */
  predicate Drops(cfg: Config, anyNbr: bool, d: Dest, msg: Msg)
    requires MsgOk(d, msg)
  {
    && Ends(VerdictOf(cfg, anyNbr, d, msg))
    && Recorded(cfg, d, msg).entries[0].distance == MAX_METRIC && !d.nt.TypeConnected?
  }

  /** A message deletes the prefix exactly if it ends a computation, or settles one on the spot, with no route
      within reach and the prefix not connected. A REPLY to the old successor is then queued for the deleted prefix
      exactly if a QUERY had reached the origin flag. */
  lemma DroppedExactly(cfg: Config, anyNbr: bool, d: Dest, msg: Msg)
    requires d.live && MsgOk(d, msg) && React(cfg, anyNbr, d, msg).Done?
    ensures var fx := React(cfg, anyNbr, d, msg).fx;
            && (fx.dropped <==> Drops(cfg, anyNbr, d, msg))
            && (fx.dropped ==> fx.listed)
            && (fx.dropped ==> |fx.replies| == if VerdictOf(cfg, anyNbr, d, msg) == Reset(Active3) then 1 else 0)
  {
    CarryDrops(cfg, Recorded(cfg, d, msg), msg, VerdictOf(cfg, anyNbr, d, msg));
  }

  lemma CarryDrops(cfg: Config, d: Dest, msg: Msg, v: Verdict)
    requires d.live && d.entries != [] && Carry(cfg, d, msg, v).Done?
    ensures var fx := Carry(cfg, d, msg, v).fx;
            && (fx.dropped <==> Ends(v) && d.entries[0].distance == MAX_METRIC && !d.nt.TypeConnected?)
            && (fx.dropped ==> fx.listed)
            && (fx.dropped ==> |fx.replies| == if v == Reset(Active3) then 1 else 0)
  {
    match v
    case Reset(origin) =>
      CarryReset(cfg, d, msg, origin);
      ReturnLives(cfg, d, d.entries[0].distance);
    case Satisfied =>
      CarrySatisfied(cfg, d, msg);
      ReturnLives(cfg, d, Nearer(d));
    case Keep => if d.state.Passive? { KeepListed(cfg, d, msg); }
    case _ =>
  }
}
