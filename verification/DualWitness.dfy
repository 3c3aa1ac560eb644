/**
 Concrete runs, each from a prefix as an UPDATE creates it, under the default K values, variance and path limit
 and over interfaces with the default bandwidth and delay: a computation that ends and leaves zebra without paths,
 one that ends without anybody having been asked, and one that fails the daemon's assertion. They are what the
 exact conditions of `DualLimits` look like in practice.
 */
module DualWitness {
  import opened Words
  import opened Metric
  import opened Topology
  import opened Dual
  import opened DualRuns
  import opened DualPassive
  import opened DualLimits

  const CFG := Config(DEFAULT_K, 1, 4)

  const N7 := Nbr(7, DEFAULT_LINK)
  const N8 := Nbr(8, DEFAULT_LINK)

  function Vector(bandwidth: uint32, delay: uint64): Metrics {
    NO_METRICS.(bandwidth := bandwidth, delay := delay)
  }

  /** The reported delay that makes a route without bandwidth component unreachable over an interface with the
      default bandwidth and delay. */
  const FAR: uint32 := 0xffff_f5ff

  lemma Prices(bandwidth: uint32, delay: uint32)
    ensures Stored(DEFAULT_K, Vector(bandwidth, delay)) == Wrap32(bandwidth + delay)
    ensures TotalMetric(DEFAULT_LINK, Vector(bandwidth, delay)) == Vector(Min(bandwidth, 25600), delay + 2560)
    ensures Stored(DEFAULT_K, TotalMetric(DEFAULT_LINK, Vector(bandwidth, delay)))
         == Wrap32(Min(bandwidth, 25600) + delay + 2560)
  {
    assert BandwidthToScaled(DEFAULT_LINK.bandwidth) == 25600 && DelayToScaled(DEFAULT_LINK.delay) == 2560;
    DefaultComposite(Vector(bandwidth, delay));
    DefaultComposite(TotalMetric(DEFAULT_LINK, Vector(bandwidth, delay)));
  }

  /** A descriptor with these metrics reported over the default interface. */
  function Over(id: RouteId, adv: NbrId, delay: uint32, reported: uint32, distance: uint32, succ: bool): Route {
    Route(id, adv, DEFAULT_LINK, Vector(0, delay), reported, Vector(0, delay + 2560), distance, succ, false)
  }

  // ----- a computation that ends -----

  function NearRoute(): Route { Over(1, 7, 0, 0, 2560, true) }

  function WorseRoute(): Route { Over(1, 7, 3000, 3000, 5560, true) }

  function FarRoute(): Route { Over(2, 8, FAR, FAR, MAX_METRIC, false) }

  function Start(): Dest {
    Dest([NearRoute()], [], Vector(0, 2560), 2560, 2560, 2560, TypeRemote, Passive, true, false, [1], true)
  }

  function TwoRoutes(): Dest {
    Start().(entries := [NearRoute(), FarRoute()])
  }

  function Started(): Dest {
    TwoRoutes().(entries := [WorseRoute(), FarRoute()], state := Active1, needQuery := true)
  }

  function Ended(): Dest {
    Dest([WorseRoute()], [], Vector(0, 5560), 5560, 5560, 5560, TypeRemote, Passive, true, true, [], true)
  }

  lemma StartIsLearned()
    ensures Start() == Learned(CFG, 1, N7, Vector(0, 0), false, false)
  {
    Prices(0, 0);
  }

  lemma InsertLast(x: Route, y: Route)
    requires x.distance <= y.distance
    ensures InsertSorted([x], y) == [x, y]
  {
    assert [x][1..] == [];
  }

  lemma FirstOfTwo(x: Route, y: Route, x': Route)
    requires x.id == x'.id && x.id != y.id && x'.distance < y.distance
    ensures Resort([x, y], x') == [x', y]
    ensures IndexOf([x, y], x.id) == 0 && IndexOf([x, y], y.id) == 1
  {
    assert [x, y][1..] == [y];
    assert RemoveId([x, y], x.id) == [y];
    assert Slot([y], x'.distance) == 0;
  }

  lemma LookupTwo(x: Route, y: Route)
    requires x.adv != y.adv
    ensures Lookup([x, y], x.adv) == Some(x) && Lookup([x, y], y.adv) == Some(y)
    ensures forall n :: n != x.adv ==> Lookup([x], n) == None
    ensures Lookup([x], x.adv) == Some(x)
  {
    assert [x, y][..1] == [x] && [x][..0] == [];
  }

  /** Neighbour 8 advertises a route that is too far to be used; the prefix stays Passive. */
  lemma FarRouteLearned()
    ensures Moves(CFG, Start(), Event(Incoming(Start(), Update, N8, false, Vector(0, FAR), 2), 2), TwoRoutes())
  {
    var msg := Incoming(Start(), Update, N8, false, Vector(0, FAR), 2);
    var received := RouteCreate(2, N8);
    Prices(0, FAR);
    LookupTwo(NearRoute(), FarRoute());
    assert IndexOf([NearRoute()], 2) == 1;
    assert Subject(Start().entries, msg) == received;
    assert Recost(CFG.k, received, Vector(0, FAR)) == FarRoute();
    assert RemoveId([NearRoute()], 2) == [NearRoute()];
    InsertLast(NearRoute(), FarRoute());
    var w := Recorded(CFG, Start(), msg);
    assert w == TwoRoutes();
    SettledTwo();
  }

  lemma FlagTwo(x: Route, y: Route, fd: uint32, d: uint32)
    ensures FlagAll([x, y], fd, d, 1) == [Flagged(x, fd, d, 1), Flagged(y, fd, d, 1)]
  {
  }

  lemma SuccessorsTwo(x: Route, y: Route)
    requires x.succ && !y.succ
    ensures Successors([x]) == [x] && Successors([x, y]) == [x]
  {
    assert [x, y][..1] == [x] && [x][..0] == [];
  }

  lemma SettledTwo()
    ensures Settle(CFG, TwoRoutes()) == TwoRoutes()
  {
    FlagTwo(NearRoute(), FarRoute(), 2560, 2560);
    SuccessorsTwo(NearRoute(), FarRoute());
    assert PathSet([NearRoute(), FarRoute()], 4) == [1];
  }

  // the steps of the run, in order

  function Worse(d: Dest): Msg {
    Incoming(d, Update, N7, false, Vector(0, 3000), 3)
  }

  function FarReply(d: Dest): Msg {
    Incoming(d, Reply, N8, false, Vector(0, FAR), 3)
  }

  function LastWord(d: Dest): Msg {
    Incoming(d, Reply, N7, false, Vector(0, 3000), 3)
  }

  lemma WorsePriced()
    ensures Recost(CFG.k, NearRoute(), Vector(0, 3000)) == WorseRoute()
    ensures ChangeOf(CFG.k, NearRoute(), Vector(0, 3000)) == Increase
    ensures !MetricsSame(Vector(0, 3000), NearRoute().reportedMetric)
  {
    Prices(0, 3000);
  }

  lemma WorseCosted(d: Dest)
    requires d == TwoRoutes()
    ensures MsgOk(d, Worse(d)) && Costs(CFG, d, Worse(d)) == Costed([WorseRoute(), FarRoute()], WorseRoute(), Increase)
  {
    WorsePriced();
    LookupTwo(NearRoute(), FarRoute());
    FirstOfTwo(NearRoute(), FarRoute(), WorseRoute());
    assert Subject(d.entries, Worse(d)) == NearRoute();
  }

  /** Neighbour 7 gets worse; the other route is not feasible, so the prefix goes Active and asks. */
  lemma ComputationStarts()
    ensures Moves(CFG, TwoRoutes(), Event(Worse(TwoRoutes()), 2), Started())
  {
    WorseRecorded();
    var d, w := TwoRoutes(), TwoRoutes().(entries := [WorseRoute(), FarRoute()]);
    MovesBy(CFG, d, Worse(d), 2, w, Diffuse(Active1), Started(), Effects(true, false, []));
  }

  lemma WorseRecorded()
    ensures var d := TwoRoutes();
            && MsgOk(d, Worse(d)) && Recorded(CFG, d, Worse(d)) == d.(entries := [WorseRoute(), FarRoute()])
            && VerdictOf(CFG, true, d, Worse(d)) == Diffuse(Active1)
  {
    WorseCosted(TwoRoutes());
  }

  /** Both neighbours are asked. */
  lemma BothAsked()
    ensures Moves(CFG, Started(), QuerySent([7, 8]), Started().(rij := [7, 8]))
  {
    SuccessorsTwo(WorseRoute(), FarRoute());
    assert Started().rij + [7, 8] == [7, 8];
  }

  lemma RemoveSecond(a: NbrId, b: NbrId)
    requires a != b
    ensures RemoveFirst([a, b], b) == [a] && RemoveFirst([b], b) == []
  {
    assert [a, b][1..] == [b];
  }

  lemma FarUnmoved(d: Dest)
    requires d.entries == [WorseRoute(), FarRoute()]
    ensures MsgOk(d, FarReply(d)) && Costs(CFG, d, FarReply(d)) == Costed(d.entries, FarRoute(), Same)
  {
    LookupTwo(WorseRoute(), FarRoute());
    FirstOfTwo(WorseRoute(), FarRoute(), WorseRoute());
    assert Subject(d.entries, FarReply(d)) == FarRoute();
  }

  lemma FirstReplyRecorded(d: Dest)
    requires d == Started().(rij := [7, 8])
    ensures MsgOk(d, FarReply(d)) && Recorded(CFG, d, FarReply(d)) == Started().(rij := [7])
    ensures VerdictOf(CFG, true, d, FarReply(d)) == Keep
  {
    FarUnmoved(d);
    RemoveSecond(7, 8);
  }

  /** Neighbour 8 has nothing new; neighbour 7 is still waited for. */
  lemma FirstReply()
    ensures var d := Started().(rij := [7, 8]);
            Moves(CFG, d, Event(FarReply(d), 2), Started().(rij := [7]))
  {
    var d, w := Started().(rij := [7, 8]), Started().(rij := [7]);
    FirstReplyRecorded(d);
    MovesBy(CFG, d, FarReply(d), 2, w, Keep, w, Effects(false, false, []));
  }

  lemma LastReplyRecorded(rij: seq<NbrId>)
    requires rij == [7] || rij == []
    ensures var d := Started().(rij := rij);
            && MsgOk(d, LastWord(d)) && Recorded(CFG, d, LastWord(d)) == Started()
            && VerdictOf(CFG, true, d, LastWord(d)) == Reset(Active1)
  {
    WorseUnmoved(Started().(rij := rij));
    assert RemoveFirst(rij, 7) == [];
  }

  lemma WorseUnmoved(d: Dest)
    requires d.entries == [WorseRoute(), FarRoute()]
    ensures MsgOk(d, LastWord(d)) && Costs(CFG, d, LastWord(d)) == Costed(d.entries, WorseRoute(), Same)
  {
    LookupTwo(WorseRoute(), FarRoute());
    FirstOfTwo(WorseRoute(), FarRoute(), WorseRoute());
    assert Subject(d.entries, LastWord(d)) == WorseRoute();
  }

  /** The reply of neighbour 7 is the last one, whether it was asked or not. */
  lemma LastReplyEnds(rij: seq<NbrId>)
    requires rij == [7] || rij == []
    ensures var d := Started().(rij := rij);
            Moves(CFG, d, Event(LastWord(d), 2), Ended())
  {
    LastReplyRecorded(rij);
    var d := Started().(rij := rij);
    StartedResets(LastWord(d));
    MovesBy(CFG, d, LastWord(d), 2, Started(), Reset(Active1), Ended(), Effects(true, false, []));
  }

  lemma StartedResets(msg: Msg)
    ensures Carry(CFG, Started(), msg, Reset(Active1)) == Done(Ended(), Effects(true, false, []))
  {
    StartedReturns();
    CarryReset(CFG, Started(), msg, Active1);
  }

  lemma StartedReturns()
    ensures Return(CFG, Started(), 5560) == Ended()
  {
    var far := FarRoute();
    FlagTwo(WorseRoute(), far, 5560, 5560);
    SuccessorsTwo(WorseRoute(), far);
    assert [WorseRoute(), far][..1] == [WorseRoute()] && [WorseRoute()][..0] == [];
    assert Reachable([WorseRoute()]) == [WorseRoute()];
    assert Reachable([WorseRoute(), far]) == [WorseRoute()];
  }

  /** From the prefix as it is learned to the first Active state. */
  function LeadStates(): seq<Dest> {
    [Start(), TwoRoutes(), Started()]
  }

  function LeadSteps(): seq<Step> {
    [Event(Incoming(Start(), Update, N8, false, Vector(0, FAR), 2), 2), Event(Worse(TwoRoutes()), 2)]
  }

  /** From there to Passive: both neighbours are asked, and both reply. */
  function AskedStates(): seq<Dest> {
    [Started(), Started().(rij := [7, 8]), Started().(rij := [7]), Ended()]
  }

  function AskedSteps(): seq<Step> {
    [QuerySent([7, 8]), Event(FarReply(Started().(rij := [7, 8])), 2), Event(LastWord(Started().(rij := [7])), 2)]
  }

  lemma RunOfOne(a: Dest, b: Dest, s: Step)
    requires Moves(CFG, a, s, b)
    ensures IsRun(CFG, [a, b], [s])
  {
    RunExtends(CFG, [a], [], s, b);
    assert [a] + [b] == [a, b] && [] + [s] == [s];
  }

  lemma RunOfTwo(a: Dest, b: Dest, c: Dest, s: Step, t: Step)
    requires Moves(CFG, a, s, b) && Moves(CFG, b, t, c)
    ensures IsRun(CFG, [a, b, c], [s, t])
  {
    RunOfOne(a, b, s);
    RunExtends(CFG, [a, b], [s], t, c);
    assert [a, b] + [c] == [a, b, c] && [s] + [t] == [s, t];
  }

  lemma RunOfThree(a: Dest, b: Dest, c: Dest, d: Dest, s: Step, t: Step, u: Step)
    requires Moves(CFG, a, s, b) && Moves(CFG, b, t, c) && Moves(CFG, c, u, d)
    ensures IsRun(CFG, [a, b, c, d], [s, t, u])
  {
    RunOfTwo(a, b, c, s, t);
    RunExtends(CFG, [a, b, c], [s, t], u, d);
    assert [a, b, c] + [d] == [a, b, c, d] && [s, t] + [u] == [s, t, u];
  }

  lemma LeadMoves()
    ensures IsRun(CFG, LeadStates(), LeadSteps())
  {
    FarRouteLearned();
    ComputationStarts();
    RunOfTwo(Start(), TwoRoutes(), Started(), LeadSteps()[0], LeadSteps()[1]);
  }

  lemma LeadRun()
    ensures IsRun(CFG, LeadStates(), LeadSteps()) && Inv(CFG, Started())
    ensures LeadStates()[0] == Learned(CFG, 1, N7, Vector(0, 0), false, false)
  {
    LeadMoves();
    StartIsLearned();
    LearnedInv(CFG, 1, N7, Vector(0, 0), false, false);
    RunKeepsInv(CFG, LeadStates(), LeadSteps());
  }

  /** Every state of the Active part meets the invariant. */
  lemma StartedInv(rij: seq<NbrId>)
    ensures Inv(CFG, Started().(rij := rij))
  {
    LeadRun();
  }

  lemma AskedRun()
    ensures IsRun(CFG, AskedStates(), AskedSteps())
  {
    BothAsked();
    FirstReply();
    LastReplyEnds([7]);
    var s, d := AskedSteps(), Started();
    RunOfThree(d, d.(rij := [7, 8]), d.(rij := [7]), Ended(), s[0], s[1], s[2]);
  }

  predicate IsReplyOf(s: Step, nbr: NbrId) {
    s.Event? && s.msg.packet.Reply? && s.msg.adv.Some? && s.msg.adv.value.id == nbr
  }

  lemma SendersNext(steps: seq<Step>, step: Step)
    ensures var reply := step.Event? && step.msg.packet.Reply? && step.msg.adv.Some?;
            Senders(steps + [step]) == Senders(steps) + if reply then multiset{step.msg.adv.value.id} else multiset{}
  {
    assert (steps + [step])[..|steps|] == steps;
  }

  lemma SendersOfThree(s: Step, t: Step, u: Step, x: NbrId, y: NbrId)
    requires s.QuerySent? && IsReplyOf(t, x) && IsReplyOf(u, y)
    ensures Senders([s, t, u]) == multiset{x, y}
  {
    SendersNext([], s);
    SendersNext([s], t);
    SendersNext([s, t], u);
    assert [] + [s] == [s] && [s] + [t] == [s, t] && [s, t] + [u] == [s, t, u];
  }

  lemma AskedOfThree(a: Dest, b: Dest, c: Dest, d: Dest, s: Step, t: Step, u: Step)
    requires s.QuerySent? && t.Event? && u.Event? && Successors(a.entries) != []
    ensures AllAsked([a, b, c, d], [s, t, u]) == multiset(s.ups)
  {
    assert [s, t, u][..2] == [s, t] && [s, t][..1] == [s] && [s][..0] == [];
    assert [a, b, c, d][..3] == [a, b, c] && [a, b, c][..2] == [a, b] && [a, b][..1] == [a];
    assert AllAsked([a], []) == multiset{};
    assert AllAsked([a, b], [s]) == multiset(s.ups);
    assert AllAsked([a, b, c], [s, t]) == multiset(s.ups);
  }

  lemma AskedSenders()
    ensures AllAsked(AskedStates(), AskedSteps()) == Senders(AskedSteps()) == multiset{7, 8}
  {
    var d, s := Started(), AskedSteps();
    SuccessorsTwo(WorseRoute(), FarRoute());
    SendersOfThree(s[0], s[1], s[2], 8, 7);
    AskedOfThree(d, d.(rij := [7, 8]), d.(rij := [7]), Ended(), s[0], s[1], s[2]);
    assert s[0].ups == [7, 8];
  }

  lemma RepliesMade()
    ensures RepliesFromWire(AskedStates(), AskedSteps())
  {
    var d, s := AskedStates(), AskedSteps();
    forall i | 0 <= i < 3 && s[i].Event? && s[i].msg.packet.Reply? ensures FromWire(d[i], s[i].msg) {
      assert i == 1 || i == 2;
    }
  }

  /** The hypotheses of the theorems about Active stretches, on the asked part of the run. */
  ghost predicate ComputationOf(ds: seq<Dest>, steps: seq<Step>) {
    && IsRun(CFG, ds, steps) && steps != [] && ListOk(CFG.k, ds[0].entries) && RepliesFromWire(ds, steps)
    && (forall i :: 0 <= i < |steps| ==> Active(ds[i])) && !Active(ds[|steps|])
  }

  lemma AskedComputation()
    ensures ComputationOf(AskedStates(), AskedSteps())
  {
    StartedInv([]);
    AskedRun();
    RepliesMade();
  }

  /** The theorems about diffusing computations apply to real runs. This one starts as an UPDATE creates the
      prefix; its Active part meets every hypothesis, ends, and ends with both neighbours having replied. */
  lemma ComputationEnds()
    ensures LeadStates()[0] == Learned(CFG, 1, N7, Vector(0, 0), false, false)
    ensures IsRun(CFG, LeadStates(), LeadSteps()) && LeadStates()[2] == AskedStates()[0]
    ensures ComputationOf(AskedStates(), AskedSteps()) && AskedStates()[3].live
    ensures AllAsked(AskedStates(), AskedSteps()) == Senders(AskedSteps()) == multiset{7, 8}
  {
    LeadRun();
    AskedComputation();
    AskedSenders();
  }

  /** The last step of the same run shows what freeing a descriptor does: neighbour 7 is the successor, four paths
      are allowed, and after the last reply zebra holds none. The state before it meets the hypotheses of
      `InstalledPaths`. */
  lemma PathsVanish()
    ensures Inv(CFG, AskedStates()[2]) && Moves(CFG, AskedStates()[2], AskedSteps()[2], AskedStates()[3])
    ensures var d := AskedStates()[3];
            && d.live && d.state.Passive? && Coherent(d)
            && Successors(d.entries) == [WorseRoute()] && PathSet(d.entries, CFG.maxPaths) == [1] && d.installed == []
  {
    StartedInv([7]);
    LastReplyEnds([7]);
    EndedWithoutPaths();
  }

  lemma EndedWithoutPaths()
    ensures var d := Ended();
            Coherent(d) && Successors(d.entries) == [WorseRoute()] && PathSet(d.entries, CFG.maxPaths) == [1]
  {
    SuccessorsTwo(WorseRoute(), FarRoute());
  }

  // ----- nobody asked -----

  /** The same prefix, but the REPLY of neighbour 7 comes before the packetizer has run: nobody is asked, nobody
      is on the reply list, and the computation is over. */
  lemma NobodyAsked()
    ensures var ds, steps := [Started(), Ended()], [Event(LastWord(Started()), 2)];
            && Inv(CFG, ds[0]) && IsRun(CFG, ds, steps) && RepliesFromWire(ds, steps)
            && Active(ds[0]) && !Active(ds[1]) && ds[0].rij == [] && AllAsked(ds, steps) == multiset{}
  {
    StartedInv([]);
    LastReplyEnds([]);
    assert Started().(rij := []) == Started();
    var ds, steps := [Started(), Ended()], [Event(LastWord(Started()), 2)];
    RunOfOne(Started(), Ended(), steps[0]);
    assert ds[..1][..0] == [] && steps[..0] == [];
    assert AllAsked(ds[..1], steps[..0]) == multiset{};
  }

  // ----- the assertion -----

  /** A neighbour's route whose reported bandwidth component is so large that it does not meet the feasibility
      condition even when it is the only one. */
  function LoneRoute(): Route {
    Route(1, 7, DEFAULT_LINK, Vector(MAX_METRIC, 0), MAX_METRIC, Vector(25600, 2560), 28160, false, false)
  }

  function Lone(): Dest {
    Dest([LoneRoute()], [], Vector(25600, 2560), 28160, 28160, 28160, TypeRemote, Passive, true, false, [1], true)
  }

  function LoneAsked(): Dest {
    Lone().(state := Active3, needQuery := true)
  }

  function FromSeven(d: Dest, packet: PacketType): Msg {
    Incoming(d, packet, N7, false, Vector(MAX_METRIC, 0), 2)
  }

  lemma LoneIsLearned()
    ensures Lone() == Learned(CFG, 1, N7, Vector(MAX_METRIC, 0), false, false)
  {
    Prices(MAX_METRIC, 0);
  }

  lemma LoneUnmoved(d: Dest, packet: PacketType)
    requires d == Lone() || d == LoneAsked()
    ensures var msg := FromSeven(d, packet);
            MsgOk(d, msg) && Costs(CFG, d, msg) == Costed(d.entries, LoneRoute(), Same) && Recorded(CFG, d, msg) == d
  {
    LookupTwo(LoneRoute(), LoneRoute().(adv := 8));
    assert IndexOf([LoneRoute()], 1) == 0;
    assert RemoveFirst<NbrId>([], 7) == [];
  }

  /** The daemon's assertion fails two messages after the prefix was learned: a QUERY from the neighbour makes it
      Active, no descriptor is flagged, so nobody can be asked, and the neighbour's REPLY is the last one. */
  lemma AssertionFails()
    ensures Lone() == Learned(CFG, 1, N7, Vector(MAX_METRIC, 0), false, false)
    ensures Moves(CFG, Lone(), Event(FromSeven(Lone(), Query), 1), LoneAsked())
    ensures var d := LoneAsked();
            StepOk(CFG, d, Event(FromSeven(d, Reply), 1)) && React(CFG, true, d, FromSeven(d, Reply)).Aborted?
  {
    LoneIsLearned();
    LoneUnmoved(Lone(), Query);
    LoneUnmoved(LoneAsked(), Reply);
    assert VerdictOf(CFG, true, Lone(), FromSeven(Lone(), Query)) == Diffuse(Active3);
    assert [LoneRoute()][..0] == [];
    assert Successors(LoneAsked().entries) == [];
    AbortsExactly(CFG, true, LoneAsked(), FromSeven(LoneAsked(), Reply));
  }
}
