/**
 The instance's list of prefixes with work pending, and the two loops that drain it. A prefix may be
 listed more than once; the loops must neither lose a request nor serve one twice.
 */
module Bookkeeping {
  import opened TopologyTable
  import opened Dual
  import opened Fsm

  // ----- lists with repetitions -----

  /** The members of `q` in the order in which they first occur. */
  ghost function Firsts<T>(s: seq<T>, q: set<T>): seq<T> {
    if s == [] then []
    else
      var p, x := s[..|s| - 1], s[|s| - 1];
      if x in q && x !in p then Firsts(p, q) + [x] else Firsts(p, q)
  }

  /** The list without the first occurrence of each member of `q`. */
  ghost function Rest<T>(s: seq<T>, q: set<T>): seq<T> {
    if s == [] then []
    else
      var p, x := s[..|s| - 1], s[|s| - 1];
      if x in q && x !in p then Rest(p, q) else Rest(p, q) + [x]
  }

  /** Every listed member of `q` is picked, once, and nothing else is. */
  lemma {:induction false} FirstsOnce<T>(s: seq<T>, q: set<T>)
    ensures forall x :: x in Firsts(s, q) <==> x in s && x in q
    ensures forall i, j :: 0 <= i < j < |Firsts(s, q)| ==> Firsts(s, q)[i] != Firsts(s, q)[j]
  {
    if s == [] {
    } else {
      var p := s[..|s| - 1];
      FirstsOnce(p, q);
      assert s == p + [s[|s| - 1]];
    }
  }

  /** What is picked and what stays add up to the list. */
  lemma {:induction false} FirstsAndRest<T>(s: seq<T>, q: set<T>)
    ensures multiset(Firsts(s, q)) + multiset(Rest(s, q)) == multiset(s)
  {
    if s == [] {
    } else {
      FirstsAndRest(s[..|s| - 1], q);
      assert s == s[..|s| - 1] + [s[|s| - 1]];
    }
  }

  lemma {:induction false} RestOthers<T>(s: seq<T>, q: set<T>, x: T)
    requires x !in q
    ensures x in Rest(s, q) <==> x in s
  {
    if s == [] {
    } else {
      RestOthers(s[..|s| - 1], q, x);
      assert s == s[..|s| - 1] + [s[|s| - 1]];
    }
  }

  lemma {:induction false} RestSubset<T>(s: seq<T>, q: set<T>, x: T)
    requires x in Rest(s, q)
    ensures x in s
  {
    if s != [] && x in Rest(s[..|s| - 1], q) {
      RestSubset(s[..|s| - 1], q, x);
    }
  }

  lemma {:induction false} RemoveBetween<T>(a: seq<T>, x: T, b: seq<T>)
    requires x !in a
    ensures RemoveFirst(a + [x] + b, x) == a + b
  {
    var s := a + [x] + b;
    if a == [] {
      assert s == [x] + b;
    } else {
      assert s[0] == a[0] && s[1..] == a[1..] + [x] + b;
      RemoveBetween(a[1..], x, b);
      assert a == [a[0]] + a[1..];
    }
  }

  // ----- one walk over the list -----

  /** A walk in progress: the list as it is now, the position, who was served, who still wants service. */
  datatype Walk<T> = Walk(list: seq<T>, i: nat, served: seq<T>, wanting: set<T>)

  /** One visit. The next node is known before the current one may be unlinked. */
  ghost function Visit<T>(w: Walk<T>, keep: set<T>): Walk<T> {
    if w.i >= |w.list| then w
    else
      var p := w.list[w.i];
      if p !in w.wanting then w.(i := w.i + 1)
      else if p in keep then Walk(w.list, w.i + 1, w.served + [p], w.wanting - {p})
      else Walk(RemoveFirst(w.list, p), w.i, w.served + [p], w.wanting - {p})
  }

  /** What a walk has come to after `n` visits. */
  ghost function Walked<T>(s: seq<T>, q: set<T>, keep: set<T>, n: nat): Walk<T> {
    if n == 0 then Walk(s, 0, [], q) else Visit(Walked(s, q, keep, n - 1), keep)
  }

  lemma NextStays<T>(s: seq<T>, q: set<T>, n: nat)
    requires n < |s|
    ensures var p, x := s[..n], s[n];
            && Rest(s[..n + 1], q) == (if x in q && x !in p then Rest(p, q) else Rest(p, q) + [x])
            && Firsts(s[..n + 1], q) == (if x in q && x !in p then Firsts(p, q) + [x] else Firsts(p, q))
  {
    assert s[..n + 1][..n] == s[..n];
  }

  /** Unlinking the first occurrence removes the node just visited, and nothing before it. */
  lemma UnlinksVisited<T>(s: seq<T>, done: set<T>, n: nat)
    requires n < |s| && s[n] in done && s[n] !in s[..n]
    ensures RemoveFirst(Rest(s[..n], done) + s[n..], s[n]) == Rest(s[..n + 1], done) + s[n + 1..]
    ensures |Rest(s[..n + 1], done)| == |Rest(s[..n], done)|
  {
    var a, x := Rest(s[..n], done), s[n];
    NextStays(s, done, n);
    if x in a {
      RestSubset(s[..n], done, x);
    }
    assert a + s[n..] == a + [x] + s[n + 1..];
    RemoveBetween(a, x, s[n + 1..]);
  }

  lemma PassesVisited<T>(s: seq<T>, done: set<T>, n: nat)
    requires n < |s| && (s[n] !in done || s[n] in s[..n])
    ensures Rest(s[..n], done) + s[n..] == Rest(s[..n + 1], done) + s[n + 1..]
    ensures |Rest(s[..n + 1], done)| == |Rest(s[..n], done)| + 1
  {
    NextStays(s, done, n);
    assert Rest(s[..n], done) + s[n..] == Rest(s[..n], done) + [s[n]] + s[n + 1..];
  }

  ghost function Elems<T>(s: seq<T>): set<T> {
    set x | x in s
  }

  ghost function Shape<T>(s: seq<T>, q: set<T>, keep: set<T>, n: nat): Walk<T>
    requires n <= |s|
  {
    Walk(Rest(s[..n], q - keep) + s[n..], |Rest(s[..n], q - keep)|, Firsts(s[..n], q),
         q - Elems(s[..n]))
  }

  lemma VisitShape<T>(s: seq<T>, q: set<T>, keep: set<T>, n: nat)
    requires n < |s|
    ensures Visit(Shape(s, q, keep, n), keep) == Shape(s, q, keep, n + 1)
  {
    var w, p := Shape(s, q, keep, n), s[n];
    assert w.list[w.i] == p;
    NextStays(s, q, n);
    assert s[..n + 1] == s[..n] + [p];
    assert Elems(s[..n + 1]) == Elems(s[..n]) + {p};
    if p in w.wanting && p !in keep {
      UnlinksVisited(s, q - keep, n);
    } else {
      PassesVisited(s, q - keep, n);
    }
  }

  lemma ShapeStart<T>(s: seq<T>, q: set<T>, keep: set<T>)
    ensures Shape(s, q, keep, 0) == Walk(s, 0, [], q)
  {
    assert s[..0] == [];
  }

  /** After `n` visits the first `n` places of the original list are dealt with, and no others. */
  lemma {:induction false} WalkedShape<T>(s: seq<T>, q: set<T>, keep: set<T>, n: nat)
    requires n <= |s|
    ensures Walked(s, q, keep, n) == Shape(s, q, keep, n)
  {
    if n == 0 {
      ShapeStart(s, q, keep);
    } else {
      WalkedShape(s, q, keep, n - 1);
      VisitShape(s, q, keep, n - 1);
    }
  }

  lemma WalkEnds<T>(s: seq<T>, q: set<T>, keep: set<T>, n: nat)
    requires n <= |s|
    ensures var w := Walked(s, q, keep, n);
            (w.i < |w.list| <==> n < |s|) && (n < |s| ==> w.list[w.i] == s[n])
  {
    WalkedShape(s, q, keep, n);
  }

  /** A whole walk serves every listed member of `q` once, in order, and unlinks those not kept. */
  lemma WalkResult<T>(s: seq<T>, q: set<T>, keep: set<T>)
    requires q <= Elems(s)
    ensures var w := Walked(s, q, keep, |s|);
            w.list == Rest(s, q - keep) && w.served == Firsts(s, q) && w.wanting == {}
  {
    WalkedShape(s, q, keep, |s|);
    assert s[..|s|] == s;
  }

  // ----- the loops -----

  ghost function QueryWorks(s: seq<Prefix>): seq<Work> {
    seq(|s|, i requires 0 <= i < |s| => QueryWork(s[i]))
  }

  ghost function WantQuery(s: seq<Prefix>): set<Prefix>
    reads s
  {
    set p | p in s && p.needQuery
  }

  ghost function WantUpdate(s: seq<Prefix>): set<Prefix>
    reads s
  {
    set p | p in s && p.needUpdate
  }

  lemma QueryWorksGrow(work: seq<Work>, s: seq<Prefix>, p: Prefix)
    ensures work + QueryWorks(s) + [QueryWork(p)] == work + QueryWorks(s + [p])
  {
  }

  /** The body of the loop of `eigrp_query_send_all`: `i` is the current node, `next` the saved next one. */
  method QueryOne(eigrp: Instance, i: nat, ghost s: seq<Prefix>, ghost w: Walk<Prefix>)
    returns (next: nat, sent: bool)
    requires i == w.i < |w.list| && eigrp.topologyChanges == w.list && w.list[i] in s && WantQuery(s) == w.wanting
    modifies eigrp`topologyChanges, eigrp`work, (set p | p in s)`needQuery
    ensures var v := Visit(w, WantUpdate(s));
            && next == v.i && eigrp.topologyChanges == v.list && WantQuery(s) == v.wanting
            && v.served == w.served + (if sent then [w.list[i]] else [])
            && eigrp.work == old(eigrp.work) + QueryWorks(if sent then [w.list[i]] else [])
  {
    var prefix := eigrp.topologyChanges[i];
    sent, next := prefix.needQuery, i + 1;
    if sent {
      eigrp.work := eigrp.work + [QueryWork(prefix)];
      prefix.needQuery := false;
      if !prefix.needUpdate {
        eigrp.topologyChanges := RemoveFirst(eigrp.topologyChanges, prefix);
        next := next - 1;
      }
    }
    assert WantQuery(s) == w.wanting - {prefix};
  }

  /** The loop of `eigrp_query_send_all`. */
  method QueryEach(eigrp: Instance) returns (counter: nat, ghost w: Walk<Prefix>)
    modifies eigrp`topologyChanges, eigrp`work, (set p | p in eigrp.topologyChanges)`needQuery
    ensures w == Walked(old(eigrp.topologyChanges), old(WantQuery(eigrp.topologyChanges)),
                        old(WantUpdate(eigrp.topologyChanges)), |old(eigrp.topologyChanges)|)
    ensures eigrp.topologyChanges == w.list && WantQuery(old(eigrp.topologyChanges)) == w.wanting
    ensures eigrp.work == old(eigrp.work) + QueryWorks(w.served) && counter == |w.served|
  {
    ghost var s := eigrp.topologyChanges;
    ghost var asking, keep := WantQuery(s), WantUpdate(s);
    ghost var n := 0;
    var i := 0;
    w := Walk(s, 0, [], asking);
    counter := 0;
    while i < |eigrp.topologyChanges|
      invariant n <= |s| && w == Walked(s, asking, keep, n)
      invariant eigrp.topologyChanges == w.list && i == w.i && counter == |w.served|
      invariant eigrp.work == old(eigrp.work) + QueryWorks(w.served)
      invariant WantQuery(s) == w.wanting && WantUpdate(s) == keep
      decreases |s| - n
    {
      var sent;
      WalkEnds(s, asking, keep, n);
      QueryWorksGrow(old(eigrp.work), w.served, w.list[i]);
      i, sent := QueryOne(eigrp, i, s, w);
      counter := if sent then counter + 1 else counter;
      n, w := n + 1, Visit(w, keep);
    }
    WalkEnds(s, asking, keep, n);
  }

  /** `eigrp_query_send_all`. */
  method QuerySendAll(eigrp: Instance) returns (counter: nat)
    modifies eigrp`topologyChanges, eigrp`work, (set p | p in eigrp.topologyChanges)`needQuery
    ensures var s, asking := old(eigrp.topologyChanges), old(WantQuery(eigrp.topologyChanges));
            && eigrp.work == old(eigrp.work) + QueryWorks(Firsts(s, asking))
            && counter == |Firsts(s, asking)|
            && eigrp.topologyChanges == Rest(s, asking - old(WantUpdate(eigrp.topologyChanges)))
            && WantQuery(s) == {}
  {
    ghost var s, w := eigrp.topologyChanges, Walk([], 0, [], {});
    WalkResult(s, WantQuery(s), WantUpdate(s));
    counter, w := QueryEach(eigrp);
  }

  /** The body of the loop that drains the updates. */
  method DrainOne(eigrp: Instance, i: nat, ghost s: seq<Prefix>, ghost w: Walk<Prefix>) returns (next: nat)
    requires i == w.i < |w.list| && eigrp.topologyChanges == w.list && w.list[i] in s && WantUpdate(s) == w.wanting
    modifies eigrp`topologyChanges, (set p | p in s)`needUpdate
    ensures var v := Visit(w, WantQuery(s));
            next == v.i && eigrp.topologyChanges == v.list && WantUpdate(s) == v.wanting
  {
    var prefix := eigrp.topologyChanges[i];
    next := i + 1;
    if prefix.needUpdate {
      prefix.needUpdate := false;
      if !prefix.needQuery {
        eigrp.topologyChanges := RemoveFirst(eigrp.topologyChanges, prefix);
        next := next - 1;
      }
    }
    assert WantUpdate(s) == w.wanting - {prefix};
  }

  /** The drain that closes `eigrp_update_packetize_all`. */
  method DrainUpdates(eigrp: Instance)
    modifies eigrp`topologyChanges, (set p | p in eigrp.topologyChanges)`needUpdate
    ensures var s, asking := old(eigrp.topologyChanges), old(WantUpdate(eigrp.topologyChanges));
            && eigrp.topologyChanges == Rest(s, asking - old(WantQuery(eigrp.topologyChanges)))
            && WantUpdate(s) == {}
  {
    ghost var s := eigrp.topologyChanges;
    ghost var asking, keep := WantUpdate(s), WantQuery(s);
    ghost var n, w := 0, Walk(s, 0, [], asking);
    var i := 0;
    while i < |eigrp.topologyChanges|
      invariant n <= |s| && w == Walked(s, asking, keep, n)
      invariant eigrp.topologyChanges == w.list && i == w.i
      invariant WantUpdate(s) == w.wanting && WantQuery(s) == keep
      decreases |s| - n
    {
      WalkEnds(s, asking, keep, n);
      i := DrainOne(eigrp, i, s, w);
      n, w := n + 1, Visit(w, keep);
    }
    WalkEnds(s, asking, keep, n);
    WalkResult(s, asking, keep);
  }
}
