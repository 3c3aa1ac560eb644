/**
 The prefix descriptor of the topology table and the operations that overwrite it in place,
 each proved against its function in `Topology` and `Dual`.
 */
module TopologyTable {
  import opened Words
  import opened Metric
  import opened Topology
  import Dual

  class Prefix {
    var entries: seq<Route>
    var rij: seq<NbrId>
    var reportedMetric: Metrics
    var fdistance: uint32
    var rdistance: uint32
    var distance: uint32
    var nt: NetType
    var state: State
    var needUpdate: bool
    var needQuery: bool
    /** The paths zebra was last told to use. */
    var installed: seq<RouteId>
    /** Cleared when the descriptor is freed. */
    var live: bool

    function View(): Dest
      reads this
    {
      Dest(entries, rij, reportedMetric, fdistance, rdistance, distance,
           nt, state, needUpdate, needQuery, installed, live)
    }

    /** The prefix `eigrp_update_receive` creates for a decoded route that is not in the table yet. */
    constructor Learn(cfg: Config, id: RouteId, nbr: Nbr, metrics: Metrics, external: bool, rejected: bool)
      ensures fresh(this)
      ensures View() == Dual.Learned(cfg, id, nbr, metrics, external, rejected)
    {
      var reported := if rejected then metrics.(delay := MAX_METRIC) else metrics;
      var total := TotalMetric(nbr.link, reported);
      var cost := Stored(cfg.k, total);
      var route := Route(id, nbr.id, nbr.link, reported, Stored(cfg.k, metrics), total, cost, true, false);
      rij, state, live := [], Passive, true;
      nt := if external then TypeRemoteExternal else TypeRemote;
      fdistance, distance, rdistance := cost, cost, cost;
      entries, installed := [route], [id];
      reportedMetric := total;
      needUpdate, needQuery := true, false;
      new;
      UpdateNodeFlags(cfg);
    }

    /** `eigrp_prefix_descriptor_lookup`. */
    method DescriptorLookup(nbr: NbrId) returns (r: Option<Route>)
      ensures r == Lookup(entries, nbr)
    {
      for i := 0 to |entries|
        invariant Lookup(entries[..i], nbr) == None
      {
        assert entries[..i + 1][..i] == entries[..i];
        if entries[i].adv == nbr {
          LookupPrefix(entries, i + 1, nbr);
          return Some(entries[i]);
        }
      }
      assert entries[..|entries|] == entries;
      return None;
    }

    static lemma {:induction false} LookupPrefix(s: seq<Route>, n: nat, nbr: NbrId)
      requires n <= |s| && Lookup(s[..n], nbr).Some?
      ensures Lookup(s, nbr) == Lookup(s[..n], nbr)
    {
      if n < |s| {
        assert s[..|s| - 1][..n] == s[..n];
        LookupPrefix(s[..|s| - 1], n, nbr);
      } else {
        assert s[..n] == s;
      }
    }

    /** `eigrp_topology_update_distance`. */
    method UpdateDistance(k: KValues, route: Route, data: DataType, metrics: Metrics)
      returns (route': Route, change: Change)
      modifies this`entries
      ensures var c := Topology.UpdateDistance(k, nt, old(entries), route, data, metrics);
              entries == c.entries && route' == c.route && change == c.change
    {
      route', change := route, Same;
      match data {
        case Connected =>
          if nt.TypeConnected? {
            return;
          }
          change := Decrease;
        case Internal =>
          if MetricsSame(metrics, route.reportedMetric) {
            return;
          }
          route', change := Reprice(k, route, metrics);
        case External =>
          if nt.TypeRemoteExternal? && MetricsSame(metrics, route.reportedMetric) {
            return;
          }
          route', change := Reprice(k, route, metrics);
      }
      entries := RemoveId(entries, route'.id);
      entries := InsertSorted(entries, route');
    }

    static method Reprice(k: KValues, route: Route, metrics: Metrics) returns (r: Route, change: Change)
      ensures r == Recost(k, route, metrics) && change == ChangeOf(k, route, metrics)
    {
      var newReported := Stored(k, metrics);
      change := if route.reportedDistance < newReported then Increase else Decrease;
      r := route.(reportedMetric := metrics);
      r := r.(reportedDistance := newReported);
      r := r.(totalMetric := TotalMetric(r.link, r.reportedMetric));
      r := r.(distance := Stored(k, r.totalMetric));
    }

    /** `eigrp_topology_update_node_flags`. */
    method UpdateNodeFlags(cfg: Config)
      modifies this`entries
      ensures entries == FlagAll(old(entries), fdistance, distance, cfg.variance)
    {
      var i := 0;
      while i < |entries|
        invariant 0 <= i <= |entries| == |old(entries)|
        invariant forall j :: 0 <= j < i ==> entries[j] == Flagged(old(entries)[j], fdistance, distance, cfg.variance)
        invariant entries[i..] == old(entries)[i..]
      {
        var route := entries[i];
        assert route == old(entries)[i..][0];
        if route.reportedDistance < fdistance {
          if route.distance <= distance * cfg.variance && route.distance != MAX_METRIC {
            route := route.(succ := true, fsucc := false);
          } else {
            route := route.(fsucc := true, succ := false);
          }
        } else {
          route := route.(fsucc := false, succ := false);
        }
        assert route == Flagged(old(entries)[i], fdistance, distance, cfg.variance);
        assert old(entries)[i + 1..] == old(entries)[i..][1..];
        entries := entries[i := route];
        i := i + 1;
      }
    }

    /** `eigrp_topology_get_successor`; no list at all when there is no successor. */
    method GetSuccessor() returns (r: Option<seq<Route>>)
      ensures r == if Successors(entries) == [] then None else Some(Successors(entries))
    {
      var successors: seq<Route> := [];
      for i := 0 to |entries|
        invariant successors == Successors(entries[..i])
      {
        assert entries[..i + 1][..i] == entries[..i];
        if entries[i].succ {
          successors := successors + [entries[i]];
        }
      }
      assert entries[..|entries|] == entries;
      return if successors == [] then None else Some(successors);
    }

    /** `eigrp_topology_get_successor_max`: the tail is dropped one node at a time. */
    method GetSuccessorMax(maxPaths: uint8) returns (r: Option<seq<Route>>)
      ensures r == if Successors(entries) == [] then None else Some(Take(Successors(entries), maxPaths))
    {
      r := GetSuccessor();
      if r.Some? {
        ghost var all := r.value;
        var s := r.value;
        while |s| > maxPaths
          invariant Min(|all|, maxPaths) <= |s| <= |all| && s == all[..|s|]
        {
          s := s[..|s| - 1];
        }
        r := Some(s);
      }
    }

    /** `eigrp_update_routing_table`. */
    method UpdateRoutingTable(cfg: Config)
      modifies this`installed
      ensures installed == PathSet(entries, cfg.maxPaths)
    {
      var successors := GetSuccessorMax(cfg.maxPaths);
      if successors.Some? {
        installed := Ids(successors.value);
      } else {
        installed := [];
      }
    }

    /** Flags, then paths: how every handler that ends Passive settles the prefix. */
    method Settle(cfg: Config)
      modifies this`entries, this`installed
      ensures View() == Dual.Settle(cfg, old(View()))
    {
      UpdateNodeFlags(cfg);
      UpdateRoutingTable(cfg);
    }

    /** The deletion loop: unlink each unreachable descriptor of the list it walks over. */
    static method Unlink(all: seq<Route>) returns (list: seq<Route>)
      ensures list == Reachable(all)
    {
      list := all;
      ghost var n, kept := 0, [];
      var i := 0;
      while i < |list|
        invariant 0 <= n <= |all| && i == |kept|
        invariant kept == Reachable(all[..n]) && list == kept + all[n..]
        decreases |list| - i
      {
        ReachableNext(all, n);
        Pluck(kept, all[n..]);
        assert all[n..][1..] == all[n + 1..];
        if list[i].distance == MAX_METRIC {
          list := list[..i] + list[i + 1..];
        } else {
          i := i + 1;
          kept := kept + [all[n]];
        }
        n := n + 1;
      }
      assert all[..n] == all;
    }

    /** Free every unreachable descriptor. Freeing one withdraws the prefix from zebra. */
    method FreeUnreachable()
      modifies this`entries, this`installed
      ensures entries == Reachable(old(entries))
      ensures installed == if |entries| < |old(entries)| then [] else old(installed)
    {
      var before := |entries|;
      entries := Unlink(entries);
      if |entries| < before {
        installed := [];
      }
    }

    static lemma ReachableNext(s: seq<Route>, n: nat)
      requires n < |s|
      ensures Reachable(s[..n + 1]) == Reachable(s[..n]) + if s[n].distance == MAX_METRIC then [] else [s[n]]
    {
      assert s[..n + 1][..n] == s[..n];
    }

    static lemma Pluck<T>(a: seq<T>, b: seq<T>)
      requires b != []
      ensures (a + b)[|a|] == b[0]
      ensures (a + b)[..|a|] + (a + b)[|a| + 1..] == a + b[1..]
      ensures (a + [b[0]]) + b[1..] == a + b
    {
    }

    /** `eigrp_update_topology_table_prefix`: a prefix left unreachable is deleted. */
    method UpdateTopologyTablePrefix() returns (dropped: bool)
      requires live
      modifies this
      ensures var p := Dual.Pruned(old(View()));
              View() == if Dual.Lost(p) then Dual.Deleted(p) else p
      ensures dropped == !live
    {
      ReachableAll(entries);
      FreeUnreachable();
      assert View() == Dual.Pruned(old(View()));
      dropped := distance == MAX_METRIC && !nt.TypeConnected?;
      if dropped {
        entries, rij, installed, live := [], [], [], false;
      }
    }
  }
}
