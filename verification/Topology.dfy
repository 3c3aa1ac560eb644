/**
 Route descriptors, the distance-sorted list of a prefix, and the operations of the topology table
 on one prefix. A route descriptor is a value that carries the address it has in the daemon (`id`).
 */
module Topology {
  import opened Words
  import opened Metric

  type RouteId = nat

  /** A neighbour, as far as route descriptors depend on it: who it is and the link it sits on. */
  datatype Nbr = Nbr(id: NbrId, link: Link)

  datatype Route = Route(id: RouteId, adv: NbrId, link: Link,
                         reportedMetric: Metrics, reportedDistance: uint32,
                         totalMetric: Metrics, distance: uint32,
                         succ: bool, fsucc: bool)

  datatype NetType = TypeConnected | TypeRemote | TypeRemoteExternal
  datatype State = Passive | Active0 | Active1 | Active2 | Active3
  datatype DataType = Connected | Internal | External
  datatype Change = Decrease | Same | Increase

  datatype Config = Config(k: KValues, variance: uint8, maxPaths: uint8)

  /** One prefix of the topology table. `installed` is the path set last handed to zebra. */
  datatype Dest = Dest(entries: seq<Route>, rij: seq<NbrId>, reportedMetric: Metrics,
                       fdistance: uint32, rdistance: uint32, distance: uint32,
                       nt: NetType, state: State, needUpdate: bool, needQuery: bool,
                       installed: seq<RouteId>, live: bool)

  function RouteCreate(id: RouteId, nbr: Nbr): Route {
    Route(id, nbr.id, nbr.link, NO_METRICS, MAX_METRIC, NO_METRICS, MAX_METRIC, false, false)
  }

  // ----- the list library's contract -----

  ghost predicate Sorted(s: seq<Route>) {
    forall i, j :: 0 <= i < j < |s| ==> s[i].distance <= s[j].distance
  }

  ghost predicate UniqueIds(s: seq<Route>) {
    forall i, j :: 0 <= i < j < |s| ==> s[i].id != s[j].id
  }

  /** Position of the first occurrence of a descriptor, or the length of the list. */
  function IndexOf(s: seq<Route>, id: RouteId): (n: nat)
    ensures n <= |s|
    ensures n < |s| ==> s[n].id == id
    ensures forall i :: 0 <= i < n ==> s[i].id != id
  {
    if s == [] || s[0].id == id then 0 else 1 + IndexOf(s[1..], id)
  }

  predicate Known(s: seq<Route>, id: RouteId) {
    IndexOf(s, id) < |s|
  }

  /** `listnode_delete`. */
  function RemoveId(s: seq<Route>, id: RouteId): seq<Route> {
    var n := IndexOf(s, id);
    if n < |s| then s[..n] + s[n + 1..] else s
  }

  /** `eigrp_prefix_descriptor_lookup`: the first descriptor a neighbour has advertised. */
  function Lookup(s: seq<Route>, nbr: NbrId): (r: Option<Route>)
    ensures r.Some? ==> r.value in s && r.value.adv == nbr
    ensures r.None? ==> forall x :: x in s ==> x.adv != nbr
  {
    if s == [] then None
    else
      var p := Lookup(s[..|s| - 1], nbr);
      if p.Some? then p else if s[|s| - 1].adv == nbr then Some(s[|s| - 1]) else None
  }

  /** It is the first one in list order. */
  lemma {:induction false} LookupFirst(s: seq<Route>, nbr: NbrId, i: nat)
    requires i < |s| && s[i].adv == nbr && forall j :: 0 <= j < i ==> s[j].adv != nbr
    ensures Lookup(s, nbr) == Some(s[i])
  {
    var p := s[..|s| - 1];
    if i < |p| {
      LookupFirst(p, nbr, i);
    }
  }

  /** Where `listnode_add_sort` links a node: before the first strictly greater one. */
  function Slot(s: seq<Route>, distance: uint32): (n: nat)
    ensures n <= |s|
    ensures n < |s| ==> distance < s[n].distance
    ensures forall i :: 0 <= i < n ==> s[i].distance <= distance
  {
    if s == [] || distance < s[0].distance then 0 else 1 + Slot(s[1..], distance)
  }

  function InsertSorted(s: seq<Route>, r: Route): seq<Route> {
    var n := Slot(s, r.distance);
    s[..n] + [r] + s[n..]
  }

  function Resort(s: seq<Route>, r: Route): seq<Route> {
    InsertSorted(RemoveId(s, r.id), r)
  }

  lemma RemoveIdKeeps(s: seq<Route>, id: RouteId)
    requires UniqueIds(s)
    ensures var t := RemoveId(s, id);
            && UniqueIds(t) && (Sorted(s) ==> Sorted(t))
            && (forall x :: x in t <==> x in s && x.id != id)
  {
    RemoveIdMembers(s, id);
    var t, n := RemoveId(s, id), IndexOf(s, id);
    forall i, j | 0 <= i < j < |t| ensures t[i].id != t[j].id && (Sorted(s) ==> t[i].distance <= t[j].distance) {
      RemoveIdAt(s, id, i);
      RemoveIdAt(s, id, j);
    }
  }

  lemma RemoveIdAt(s: seq<Route>, id: RouteId, i: nat)
    requires i < |RemoveId(s, id)|
    ensures RemoveId(s, id)[i] == if i < IndexOf(s, id) then s[i] else s[i + 1]
  {
  }

  lemma RemoveIdMembers(s: seq<Route>, id: RouteId)
    requires UniqueIds(s)
    ensures forall x :: x in RemoveId(s, id) <==> x in s && x.id != id
  {
    var n := IndexOf(s, id);
    if n < |s| {
      CutMembers(s, n);
    }
  }

  /** Everything but the `n`-th element stays. */
  lemma CutMembers(s: seq<Route>, n: nat)
    requires UniqueIds(s) && n < |s|
    ensures forall x :: x in s[..n] + s[n + 1..] <==> x in s && x.id != s[n].id
  {
    var t := s[..n] + s[n + 1..];
    forall x | x in s && x.id != s[n].id ensures x in t {
      var i :| 0 <= i < |s| && s[i] == x;
      assert x == t[if i < n then i else i - 1];
    }
    forall x | x in t ensures x in s && x.id != s[n].id {
      var i :| 0 <= i < |t| && t[i] == x;
      assert x == s[if i < n then i else i + 1];
    }
  }

  lemma InsertSortedMembers(s: seq<Route>, r: Route)
    ensures var t := InsertSorted(s, r);
            forall x :: x in t <==> x in s || x == r
  {
    var n, t := Slot(s, r.distance), InsertSorted(s, r);
    assert t[n] == r;
    forall x | x in s ensures x in t {
      var i :| 0 <= i < |s| && s[i] == x;
      assert x == t[if i < n then i else i + 1];
    }
  }

  lemma InsertSortedSorted(s: seq<Route>, r: Route)
    requires Sorted(s)
    ensures Sorted(InsertSorted(s, r))
  {
    var n, t := Slot(s, r.distance), InsertSorted(s, r);
    forall i, j | 0 <= i < j < |t| ensures t[i].distance <= t[j].distance {
      assert n < j ==> t[j] == s[j - 1];
      assert i < n ==> t[i] == s[i];
      assert n < i ==> t[i] == s[i - 1];
      assert j < n ==> t[j] == s[j];
      assert n < |s| && n < j ==> s[n].distance <= s[j - 1].distance;
    }
  }

  lemma InsertSortedAt(s: seq<Route>, r: Route, i: nat)
    requires i <= |s|
    ensures var n, t := Slot(s, r.distance), InsertSorted(s, r);
            |t| == |s| + 1 && t[i] == if i < n then s[i] else if i == n then r else s[i - 1]
  {
  }

  lemma InsertSortedUnique(s: seq<Route>, r: Route)
    requires UniqueIds(s) && forall x :: x in s ==> x.id != r.id
    ensures UniqueIds(InsertSorted(s, r))
  {
    var t := InsertSorted(s, r);
    forall i, j | 0 <= i < j < |t| ensures t[i].id != t[j].id {
      InsertSortedAt(s, r, i);
      InsertSortedAt(s, r, j);
    }
  }

  lemma InsertThenRemove(s: seq<Route>, r: Route)
    requires forall x :: x in s ==> x.id != r.id
    ensures RemoveId(InsertSorted(s, r), r.id) == s
  {
    var n, t := Slot(s, r.distance), InsertSorted(s, r);
    forall i | 0 <= i < n ensures t[i].id != r.id {
      assert t[i] == s[i];
    }
    assert t[n] == r;
    assert IndexOf(t, r.id) == n;
    assert t[..n] == s[..n] && t[n + 1..] == s[n..];
  }

  /** Deleting and re-adding a descriptor keeps the list sorted and touches no other descriptor;
      doing it twice is the same as doing it once. */
  lemma ResortKeeps(s: seq<Route>, r: Route)
    requires UniqueIds(s)
    ensures var t := Resort(s, r);
            && UniqueIds(t) && (Sorted(s) ==> Sorted(t))
            && (forall x :: x in t <==> (x in s && x.id != r.id) || x == r)
            && Resort(t, r) == t
  {
    RemoveIdKeeps(s, r.id);
    var p := RemoveId(s, r.id);
    InsertSortedMembers(p, r);
    InsertSortedUnique(p, r);
    InsertThenRemove(p, r);
    if Sorted(s) {
      InsertSortedSorted(p, r);
    }
  }

  // ----- distances -----

  datatype Costed = Costed(entries: seq<Route>, route: Route, change: Change)

  /** A descriptor after its neighbour advertised `metrics`. */
  function Recost(k: KValues, r: Route, metrics: Metrics): Route {
    var total := TotalMetric(r.link, metrics);
    r.(reportedMetric := metrics, reportedDistance := Stored(k, metrics),
       totalMetric := total, distance := Stored(k, total))
  }

  function ChangeOf(k: KValues, r: Route, metrics: Metrics): Change {
    if r.reportedDistance < Stored(k, metrics) then Increase else Decrease
  }

  /** Does a message leave the list as it is? */
  predicate Unmoved(nt: NetType, data: DataType, r: Route, metrics: Metrics) {
    match data
    case Connected => nt.TypeConnected?
    case Internal => MetricsSame(metrics, r.reportedMetric)
    case External => nt.TypeRemoteExternal? && MetricsSame(metrics, r.reportedMetric)
  }

  function UpdateDistance(k: KValues, nt: NetType, s: seq<Route>,
                          r: Route, data: DataType, metrics: Metrics): Costed {
    if Unmoved(nt, data, r, metrics) then Costed(s, r, Same)
    else if data.Connected? then Costed(Resort(s, r), r, Decrease)
    else
      var r' := Recost(k, r, metrics);
      Costed(Resort(s, r'), r', ChangeOf(k, r, metrics))
  }

  /** The stored distance of a descriptor is the composite of its total metric. */
  ghost predicate Priced(k: KValues, r: Route) {
    r.distance == Stored(k, r.totalMetric)
  }

  ghost predicate AllPriced(k: KValues, s: seq<Route>) {
    forall x :: x in s ==> Priced(k, x)
  }

  /** `r` is a member of `s`, or a descriptor `s` does not know yet. */
  ghost predicate Belongs(s: seq<Route>, r: Route) {
    forall x :: x in s && x.id == r.id ==> x == r
  }

  /** What every list of a prefix keeps. */
  ghost predicate ListOk(k: KValues, s: seq<Route>) {
    Sorted(s) && UniqueIds(s) && AllPriced(k, s)
  }

  /** Same descriptors (and possibly new ones), successor flags untouched. */
  ghost predicate FlagsCarried(s: seq<Route>, t: seq<Route>) {
    forall x :: x in s ==> CarriedTo(x, t)
  }

  /** The descriptor at x's address in `t` has x's flags. */
  ghost predicate CarriedTo(x: Route, t: seq<Route>) {
    Known(t, x.id) && SameFlags(x, t[IndexOf(t, x.id)])
  }

  ghost predicate SameFlags(x: Route, y: Route) {
    x.id == y.id && x.adv == y.adv && x.succ == y.succ && x.fsucc == y.fsucc
  }

  lemma ListMemberOnce(s: seq<Route>, x: Route, y: Route)
    requires UniqueIds(s) && x in s && y in s && x.id == y.id
    ensures x == y
  {
  }

  lemma MemberCarried(x: Route, t: seq<Route>, y: Route)
    requires UniqueIds(t) && y in t && SameFlags(x, y)
    ensures CarriedTo(x, t)
  {
    ListMemberOnce(t, t[IndexOf(t, x.id)], y);
  }

  lemma ResortCarries(s: seq<Route>, r: Route, r': Route)
    requires UniqueIds(s) && Belongs(s, r) && SameFlags(r, r')
    ensures FlagsCarried(s, Resort(s, r'))
  {
    var t := Resort(s, r');
    ResortKeeps(s, r');
    forall x | x in s ensures CarriedTo(x, t) {
      MemberCarried(x, t, if x.id == r.id then r' else x);
    }
  }

  lemma FlagsCarriedRefl(s: seq<Route>)
    requires UniqueIds(s)
    ensures FlagsCarried(s, s)
  {
    forall x | x in s ensures CarriedTo(x, s) {
      MemberCarried(x, s, x);
    }
  }

  lemma FlagsCarriedTrans(s: seq<Route>, t: seq<Route>, u: seq<Route>)
    requires FlagsCarried(s, t) && FlagsCarried(t, u)
    ensures FlagsCarried(s, u)
  {
    forall x | x in s ensures CarriedTo(x, u) {
      assert CarriedTo(x, t);
      assert CarriedTo(t[IndexOf(t, x.id)], u);
    }
  }

  /** Every update of a distance, early returns included, keeps the list sorted, priced and without
      duplicates, loses no descriptor, and touches no successor flag. */
  lemma UpdateDistanceKeeps(k: KValues, nt: NetType, s: seq<Route>, r: Route, data: DataType, metrics: Metrics)
    requires ListOk(k, s) && Belongs(s, r)
    requires data.Connected? ==> r in s
    ensures var c := UpdateDistance(k, nt, s, r, data, metrics);
            && ListOk(k, c.entries) && FlagsCarried(s, c.entries)
            && Belongs(c.entries, c.route) && SameFlags(r, c.route)
            && (s != [] ==> c.entries != [])
            && (c.route in c.entries || (c.entries == s && c.route == r))
  {
    var c := UpdateDistance(k, nt, s, r, data, metrics);
    if Unmoved(nt, data, r, metrics) {
      FlagsCarriedRefl(s);
    } else {
      ResortKeeps(s, c.route);
      ResortCarries(s, r, c.route);
    }
  }

  /** Does the message advertise what the descriptor already carries? External data for a prefix that is not
      external is recorded in any case. */
  predicate KnownAlready(nt: NetType, r: Route, data: DataType, metrics: Metrics) {
    MetricsSame(metrics, r.reportedMetric) && (data.External? ==> nt.TypeRemoteExternal?)
  }

  /** What a neighbour advertises is recorded: its descriptor carries the metrics of the message, and if they are
      news, the reported distance is their composite, the distance that of the total over the link, the list is
      the old one with this descriptor in place of its predecessor, and the change is an increase exactly if the
      old reported distance was smaller. Otherwise nothing changes. */
  lemma MetricsRecorded(k: KValues, nt: NetType, s: seq<Route>, r: Route, data: DataType, metrics: Metrics)
    requires UniqueIds(s) && Belongs(s, r) && !data.Connected?
    ensures var c := UpdateDistance(k, nt, s, r, data, metrics);
            && MetricsSame(metrics, c.route.reportedMetric)
            && c.route.id == r.id && c.route.adv == r.adv && c.route.link == r.link
            && c.route.succ == r.succ && c.route.fsucc == r.fsucc
            && (c.route in c.entries <==> r in s || !KnownAlready(nt, r, data, metrics))
            && (if KnownAlready(nt, r, data, metrics) then c == Costed(s, r, Same)
                else
                  && c.route.reportedMetric == metrics
                  && c.route.reportedDistance == Stored(k, metrics)
                  && c.route.totalMetric == TotalMetric(r.link, metrics)
                  && c.route.distance == Stored(k, TotalMetric(r.link, metrics))
                  && (forall x :: x in c.entries <==> (x in s && x.id != r.id) || x == c.route)
                  && c.change == (if r.reportedDistance < Stored(k, metrics) then Increase else Decrease))
  {
    var c := UpdateDistance(k, nt, s, r, data, metrics);
    ResortKeeps(s, c.route);
  }

  /** Connected data carries no metrics: the descriptor keeps its own and goes to its place in the list. */
  lemma ConnectedRecorded(k: KValues, nt: NetType, s: seq<Route>, r: Route, metrics: Metrics)
    requires UniqueIds(s) && r in s
    ensures var c := UpdateDistance(k, nt, s, r, Connected, metrics);
            && c.route == r && c.change == (if nt.TypeConnected? then Same else Decrease)
            && (if nt.TypeConnected? then c.entries == s
                else (forall x :: x in c.entries <==> x in s) && UniqueIds(c.entries))
            && (Sorted(s) ==> Sorted(c.entries))
  {
    ResortKeeps(s, r);
    forall x | x in s && x.id == r.id ensures x == r {
      ListMemberOnce(s, x, r);
    }
  }

  /** The nested selector of the DINC handler repeats the update; nothing moves the second time. The change it
      reports is "same" for internal data, and otherwise only where the type of the prefix allows it. */
  lemma UpdateDistanceIdempotent(k: KValues, nt: NetType, s: seq<Route>, r: Route, data: DataType, metrics: Metrics)
    requires UniqueIds(s)
    ensures var c := UpdateDistance(k, nt, s, r, data, metrics);
            var c' := UpdateDistance(k, nt, c.entries, c.route, data, metrics);
            && c'.entries == c.entries && c'.route == c.route
            && c'.change == (if data.Internal? || (data.External? && nt.TypeRemoteExternal?)
                                || (data.Connected? && nt.TypeConnected?) then Same else Decrease)
  {
    var c := UpdateDistance(k, nt, s, r, data, metrics);
    ResortKeeps(s, c.route);
  }

  // ----- successors -----

  /** The flags a descriptor gets when FD and D are settled. The product is taken in 64 bits and cannot wrap. */
  function Flagged(r: Route, fdistance: uint32, distance: uint32, variance: uint8): Route {
    if r.reportedDistance < fdistance then
      var near := r.distance <= distance * variance && r.distance != MAX_METRIC;
      r.(succ := near, fsucc := !near)
    else
      r.(succ := false, fsucc := false)
  }

  function FlagAll(s: seq<Route>, fdistance: uint32, distance: uint32, variance: uint8): (t: seq<Route>)
    ensures |t| == |s|
    ensures forall i :: 0 <= i < |s| ==> t[i] == Flagged(s[i], fdistance, distance, variance)
  {
    if s == [] then []
    else FlagAll(s[..|s| - 1], fdistance, distance, variance)
         + [Flagged(s[|s| - 1], fdistance, distance, variance)]
  }

  /** The flagged successors, in list order. */
  function Successors(s: seq<Route>): seq<Route> {
    if s == [] then []
    else Successors(s[..|s| - 1]) + if s[|s| - 1].succ then [s[|s| - 1]] else []
  }

  lemma {:induction false} SuccessorsMembers(s: seq<Route>)
    ensures forall x :: x in Successors(s) <==> x in s && x.succ
  {
    if s == [] {
    } else {
      SuccessorsMembers(s[..|s| - 1]);
      assert s == s[..|s| - 1] + [s[|s| - 1]];
    }
  }

  function Take<T>(s: seq<T>, n: nat): seq<T> {
    s[..Min(|s|, n)]
  }

  function Ids(s: seq<Route>): (t: seq<RouteId>)
    ensures |t| == |s| && forall i :: 0 <= i < |s| ==> t[i] == s[i].id
  {
    seq(|s|, i requires 0 <= i < |s| => s[i].id)
  }

  /** What `eigrp_update_routing_table` hands to zebra; no path at all withdraws the route. */
  function PathSet(s: seq<Route>, maxPaths: uint8): seq<RouteId> {
    Ids(Take(Successors(s), maxPaths))
  }

  /** The descriptors that survive `eigrp_update_topology_table_prefix`. */
  function Reachable(s: seq<Route>): (t: seq<Route>)
    ensures |t| <= |s|
  {
    if s == [] then []
    else Reachable(s[..|s| - 1]) + if s[|s| - 1].distance != MAX_METRIC then [s[|s| - 1]] else []
  }

  lemma {:induction false} ReachableMembers(s: seq<Route>)
    ensures forall x :: x in Reachable(s) <==> x in s && x.distance != MAX_METRIC
  {
    if s == [] {
    } else {
      ReachableMembers(s[..|s| - 1]);
      assert s == s[..|s| - 1] + [s[|s| - 1]];
    }
  }

  lemma {:induction false} ReachableAll(s: seq<Route>)
    ensures |Reachable(s)| == |s| ==> Reachable(s) == s
  {
    if s == [] {
    } else {
      ReachableAll(s[..|s| - 1]);
    }
  }

  lemma ListAppend(s: seq<Route>, x: Route)
    requires Sorted(s) && UniqueIds(s)
    requires forall y :: y in s ==> y.distance <= x.distance && y.id != x.id
    ensures Sorted(s + [x]) && UniqueIds(s + [x])
  {
    forall i | 0 <= i < |s| ensures s[i].distance <= x.distance && s[i].id != x.id {
      assert s[i] in s;
    }
  }

  lemma ListInit(s: seq<Route>)
    requires s != [] && Sorted(s) && UniqueIds(s)
    ensures var p, x := s[..|s| - 1], s[|s| - 1];
            && Sorted(p) && UniqueIds(p)
            && forall y :: y in p ==> y.distance <= x.distance && y.id != x.id
  {
  }

  lemma {:induction false} SuccessorsSorted(s: seq<Route>)
    requires Sorted(s) && UniqueIds(s)
    ensures Sorted(Successors(s)) && UniqueIds(Successors(s))
  {
    if s == [] {
    } else {
      var p, x := s[..|s| - 1], s[|s| - 1];
      ListInit(s);
      SuccessorsSorted(p);
      SuccessorsMembers(p);
      if x.succ {
        ListAppend(Successors(p), x);
      }
    }
  }

  lemma {:induction false} ReachableKeeps(s: seq<Route>)
    requires Sorted(s) && UniqueIds(s)
    ensures Sorted(Reachable(s)) && UniqueIds(Reachable(s))
  {
    if s == [] {
    } else {
      var p, x := s[..|s| - 1], s[|s| - 1];
      ListInit(s);
      ReachableKeeps(p);
      ReachableMembers(p);
      if x.distance != MAX_METRIC {
        ListAppend(Reachable(p), x);
      }
    }
  }

  lemma {:induction false} ReachableHead(s: seq<Route>)
    requires s != [] && s[0].distance != MAX_METRIC
    ensures Reachable(s) != [] && Reachable(s)[0] == s[0]
  {
    if |s| == 1 {
    } else {
      ReachableHead(s[..|s| - 1]);
    }
  }
}
