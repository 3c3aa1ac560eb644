/**
 The topology table and its change list together, over every run of messages, drains and deletions:
 a request that was recorded stays on the list until it is served, and each is served exactly once.
 */
module NoLostWork {
  import opened Metric
  import opened Topology
  import opened Dual
  import opened DualRuns
  import opened DualPassive
  import opened DualLimits
  import opened Bookkeeping
  import opened Fsm

  type PrefixId = nat

  /** `work` are the prefixes that the QUERY and REPLY items waiting for the packetizer point to, in order. */
  datatype Book = Book(changes: seq<PrefixId>, table: map<PrefixId, Dest>, work: seq<PrefixId>)

  datatype BookStep =
    | Handled(p: PrefixId, msg: Msg, upNbrs: nat)   // one `eigrp_fsm_event`
    | Quiet(p: PrefixId, step: Step)                // descriptor added, or QUERY packetized
    | Learned(p: PrefixId, d: Dest)                 // prefix created by an UPDATE
    | Attached(p: PrefixId, d: Dest)                // prefix created for a connected interface
    | QueriesQueued                                 // `eigrp_query_send_all`
    | UpdatesSent                                   // the drain of `eigrp_update_packetize_all`
    | Processed                                     // the packetizer takes one item
    | Removed(p: PrefixId)                          // `eigrp_prefix_descriptor_delete`

  predicate Needs(d: Dest) {
    d.needUpdate || d.needQuery
  }

  function Asking(b: Book): set<PrefixId> {
    set p | p in b.table && b.table[p].needQuery && p in b.changes
  }

  function Updating(b: Book): set<PrefixId> {
    set p | p in b.table && b.table[p].needUpdate && p in b.changes
  }

  /** Nothing on the list has been freed. */
  ghost predicate NoneFreed(b: Book) {
    forall p :: p in b.changes ==> p in b.table
  }

  /** An identity is not given to a new prefix while anything points to an old one of that name. */
  predicate Unused(b: Book, p: PrefixId) {
    p !in b.table && p !in b.changes && p !in b.work
  }

  ghost predicate BookOk(cfg: Config, b: Book, s: BookStep) {
    match s
    case Handled(p, msg, upNbrs) =>
      && p in b.table && b.table[p].live && MsgOk(b.table[p], msg)
      && React(cfg, upNbrs > 0, b.table[p], msg).Done?
    case Quiet(p, step) => p in b.table && !step.Event? && StepOk(cfg, b.table[p], step)
    case Learned(p, d) => Unused(b, p) && d.live && d.needUpdate && !d.needQuery
    case Attached(p, d) => Unused(b, p) && d.live && !Needs(d)
    case QueriesQueued => true
    case UpdatesSent => true
    case Processed => b.work != []
    case Removed(p) => p in b.table
  }

  /** The drains pass over entries that are not in the table; `FreedWork` says when they meet none. */
  ghost function BookNext(cfg: Config, b: Book, s: BookStep): Book
    requires BookOk(cfg, b, s)
  {
    match s
    case Handled(p, msg, upNbrs) =>
      var Done(d, fx) := React(cfg, upNbrs > 0, b.table[p], msg);
      Book(Ledger(b.changes, p, fx),
           if fx.dropped then b.table - {p} else b.table[p := d],
           b.work + seq(|fx.replies|, _ => p))
    case Quiet(p, step) => b.(table := b.table[p := Next(cfg, b.table[p], step).d])
    case Learned(p, d) => b.(changes := b.changes + [p], table := b.table[p := d])
    case Attached(p, d) => b.(changes := RemoveFirst(b.changes + [p], p), table := b.table[p := d])
    case QueriesQueued =>
      Book(Rest(b.changes, Asking(b) - Updating(b)),
           map p | p in b.table :: b.table[p].(needQuery := b.table[p].needQuery && p !in b.changes),
           b.work + Firsts(b.changes, Asking(b)))
    case UpdatesSent =>
      Book(Rest(b.changes, Updating(b) - Asking(b)),
           map p | p in b.table :: b.table[p].(needUpdate := b.table[p].needUpdate && p !in b.changes),
           b.work)
    case Processed => b.(work := b.work[1..])
    case Removed(p) => b.(changes := RemoveFirst(b.changes, p), table := b.table - {p})
  }

  /** No lost work: whatever lives and needs something is on the list. */
  ghost predicate AllListed(b: Book) {
    forall p :: p in b.table ==> b.table[p].live && (Needs(b.table[p]) ==> p in b.changes)
  }

  lemma RemoveFirstOthers<T>(s: seq<T>, x: T, y: T)
    requires x != y
    ensures y in RemoveFirst(s, x) <==> y in s
  {
    RemoveFirstOne(s, x);
    assert y in RemoveFirst(s, x) <==> y in multiset(RemoveFirst(s, x));
    assert y in s <==> y in multiset(s);
  }

  lemma LedgerOthers<T>(changes: seq<T>, p: T, fx: Effects, x: T)
    requires x != p
    ensures x in Ledger(changes, p, fx) <==> x in changes
  {
    RemoveFirstOthers(if fx.listed then changes + [p] else changes, p, x);
  }

  lemma HandledKeeps(cfg: Config, b: Book, p: PrefixId, msg: Msg, upNbrs: nat)
    requires AllListed(b) && BookOk(cfg, b, Handled(p, msg, upNbrs))
    ensures AllListed(BookNext(cfg, b, Handled(p, msg, upNbrs)))
  {
    var Done(d, fx) := React(cfg, upNbrs > 0, b.table[p], msg);
    var b' := BookNext(cfg, b, Handled(p, msg, upNbrs));
    NeedsAreListed(cfg, upNbrs > 0, b.table[p], msg);
    forall x | x in b'.table ensures b'.table[x].live && (Needs(b'.table[x]) ==> x in b'.changes) {
      if x != p {
        LedgerOthers(b.changes, p, fx, x);
      }
    }
  }

  lemma QueriesKeep(cfg: Config, b: Book)
    requires AllListed(b)
    ensures AllListed(BookNext(cfg, b, QueriesQueued))
  {
    var b' := BookNext(cfg, b, QueriesQueued);
    forall x | x in b'.table ensures b'.table[x].live && (Needs(b'.table[x]) ==> x in b'.changes) {
      if Needs(b'.table[x]) {
        RestOthers(b.changes, Asking(b) - Updating(b), x);
      }
    }
  }

  lemma UpdatesKeep(cfg: Config, b: Book)
    requires AllListed(b)
    ensures AllListed(BookNext(cfg, b, UpdatesSent))
  {
    var b' := BookNext(cfg, b, UpdatesSent);
    forall x | x in b'.table ensures b'.table[x].live && (Needs(b'.table[x]) ==> x in b'.changes) {
      if Needs(b'.table[x]) {
        RestOthers(b.changes, Updating(b) - Asking(b), x);
      }
    }
  }

  lemma RemovedKeeps(cfg: Config, b: Book, p: PrefixId)
    requires AllListed(b) && p in b.table
    ensures AllListed(BookNext(cfg, b, Removed(p)))
  {
    forall x | x in b.table && x != p ensures x in RemoveFirst(b.changes, p) <==> x in b.changes {
      RemoveFirstOthers(b.changes, p, x);
    }
  }

  /** A prefix listed and unlisted again within one call leaves the list as it was. */
  lemma AttachedUnlisted(changes: seq<PrefixId>, p: PrefixId)
    requires p !in changes
    ensures RemoveFirst(changes + [p], p) == changes
  {
    RemoveBetween(changes, p, []);
    assert changes + [p] + [] == changes + [p] && changes + [] == changes;
  }

  lemma BookStepKeeps(cfg: Config, b: Book, s: BookStep)
    requires AllListed(b) && BookOk(cfg, b, s)
    ensures AllListed(BookNext(cfg, b, s))
  {
    match s
    case Handled(p, msg, upNbrs) => HandledKeeps(cfg, b, p, msg, upNbrs);
    case Quiet(_, _) =>
    case Learned(_, _) =>
    case Attached(p, _) => AttachedUnlisted(b.changes, p);
    case QueriesQueued => QueriesKeep(cfg, b);
    case UpdatesSent => UpdatesKeep(cfg, b);
    case Processed =>
    case Removed(p) => RemovedKeeps(cfg, b, p);
  }

  ghost predicate BookMoves(cfg: Config, b: Book, s: BookStep, b': Book) {
    BookOk(cfg, b, s) && BookNext(cfg, b, s) == b'
  }

  ghost predicate BookRun(cfg: Config, bs: seq<Book>, steps: seq<BookStep>) {
    && |bs| == |steps| + 1
    && forall i {:trigger steps[i]} :: 0 <= i < |steps| ==> BookMoves(cfg, bs[i], steps[i], bs[i + 1])
  }

  /** Over every run, no live prefix with pending work is missing from the list. */
  lemma {:induction false} NoLostRequests(cfg: Config, bs: seq<Book>, steps: seq<BookStep>, n: nat)
    requires BookRun(cfg, bs, steps) && AllListed(bs[0]) && n <= |steps|
    ensures AllListed(bs[n])
  {
    if n == 0 {
    } else {
      NoLostRequests(cfg, bs, steps, n - 1);
      BookStepKeeps(cfg, bs[n - 1], steps[n - 1]);
    }
  }

  lemma CountOnce<T>(s: seq<T>, x: T)
    requires forall i, j :: 0 <= i < j < |s| ==> s[i] != s[j]
    ensures multiset(s)[x] == if x in s then 1 else 0
  {
    if x in s {
      var k :| 0 <= k < |s| && s[k] == x;
      assert s == s[..k] + [x] + s[k + 1..];
      assert x !in s[..k] && x !in s[k + 1..];
    }
  }

  /** After any run, draining the queries queues every prefix of the table that needs one, exactly once
      however often it is listed, and leaves none needing one. */
  lemma QueriesServedOnce(cfg: Config, bs: seq<Book>, steps: seq<BookStep>)
    requires BookRun(cfg, bs, steps) && AllListed(bs[0])
    ensures var b := bs[|steps|]; var b' := BookNext(cfg, b, QueriesQueued);
            && b'.work[..|b.work|] == b.work
            && (forall p :: p in b.table ==>
                  multiset(b'.work[|b.work|..])[p] == (if b.table[p].needQuery then 1 else 0))
            && (forall p :: p in b'.table ==> !b'.table[p].needQuery && b'.table[p].needUpdate == b.table[p].needUpdate)
  {
    var b := bs[|steps|];
    NoLostRequests(cfg, bs, steps, |steps|);
    var added := Firsts(b.changes, Asking(b));
    assert (b.work + added)[|b.work|..] == added;
    FirstsOnce(b.changes, Asking(b));
    forall p | p in b.table ensures multiset(added)[p] == if b.table[p].needQuery then 1 else 0 {
      CountOnce(added, p);
    }
  }

  // ----- when a freed prefix stays on the list -----

  /** A prefix whose computation ends unreachable is freed by the handler that has just listed it, and one
      occurrence is unlinked: the list still refers to it exactly when it was listed before the message. */
  lemma FreedStaysListed(cfg: Config, anyNbr: bool, d: Dest, msg: Msg, changes: seq<PrefixId>, p: PrefixId)
    requires d.live && MsgOk(d, msg) && React(cfg, anyNbr, d, msg).Done?
    requires React(cfg, anyNbr, d, msg).fx.dropped
    ensures p in Ledger(changes, p, React(cfg, anyNbr, d, msg).fx) <==> p in changes
  {
    var fx := React(cfg, anyNbr, d, msg).fx;
    DroppedExactly(cfg, anyNbr, d, msg);
    RemoveFirstOne(changes + [p], p);
    assert multiset(Ledger(changes, p, fx)) == multiset(changes);
    assert p in Ledger(changes, p, fx) <==> p in multiset(Ledger(changes, p, fx));
  }

  /** The other deletions unlink one occurrence too. */
  lemma RemovedStaysListed(changes: seq<PrefixId>, p: PrefixId)
    ensures p in RemoveFirst(changes, p) <==> multiset(changes)[p] >= 2
  {
    RemoveFirstOne(changes, p);
    assert p in RemoveFirst(changes, p) <==> p in multiset(RemoveFirst(changes, p));
  }

  /** A step frees no prefix that is listed more often than it is unlinked; known before the step. */
  ghost predicate Tidy(cfg: Config, b: Book, s: BookStep)
    requires BookOk(cfg, b, s)
  {
    match s
    case Handled(p, msg, upNbrs) => Drops(cfg, upNbrs > 0, b.table[p], msg) ==> p !in b.changes
    case Removed(p) => multiset(b.changes)[p] < 2
    case _ => true
  }

  /** Which steps leave a freed prefix on a list that had none. */
  lemma FreesOnlyUnlisted(cfg: Config, b: Book, s: BookStep)
    requires NoneFreed(b) && BookOk(cfg, b, s)
    ensures NoneFreed(BookNext(cfg, b, s)) <==> Tidy(cfg, b, s)
  {
    match s
    case Handled(p, msg, upNbrs) => HandledFrees(cfg, b, p, msg, upNbrs);
    case Removed(p) => RemovedFrees(cfg, b, p);
    case Attached(p, _) => AttachedUnlisted(b.changes, p);
    case QueriesQueued => RestFrees(b, Asking(b) - Updating(b));
    case UpdatesSent => RestFrees(b, Updating(b) - Asking(b));
    case _ =>
  }

  lemma HandledFrees(cfg: Config, b: Book, p: PrefixId, msg: Msg, upNbrs: nat)
    requires NoneFreed(b) && BookOk(cfg, b, Handled(p, msg, upNbrs))
    ensures NoneFreed(BookNext(cfg, b, Handled(p, msg, upNbrs)))
            <==> (Drops(cfg, upNbrs > 0, b.table[p], msg) ==> p !in b.changes)
  {
    var fx := React(cfg, upNbrs > 0, b.table[p], msg).fx;
    DroppedExactly(cfg, upNbrs > 0, b.table[p], msg);
    var b' := BookNext(cfg, b, Handled(p, msg, upNbrs));
    forall x | x in b'.changes && x != p ensures x in b'.table {
      LedgerOthers(b.changes, p, fx, x);
    }
    if fx.dropped {
      FreedStaysListed(cfg, upNbrs > 0, b.table[p], msg, b.changes, p);
    }
  }

  lemma RemovedFrees(cfg: Config, b: Book, p: PrefixId)
    requires NoneFreed(b) && p in b.table
    ensures NoneFreed(BookNext(cfg, b, Removed(p))) <==> multiset(b.changes)[p] < 2
  {
    RemovedStaysListed(b.changes, p);
    forall x | x in RemoveFirst(b.changes, p) && x != p ensures x in b.table - {p} {
      RemoveFirstOthers(b.changes, p, x);
    }
  }

  lemma RestFrees(b: Book, q: set<PrefixId>)
    requires NoneFreed(b)
    ensures forall x :: x in Rest(b.changes, q) ==> x in b.table
  {
    forall x | x in Rest(b.changes, q) ensures x in b.table {
      RestSubset(b.changes, q, x);
    }
  }

  ghost predicate CleanUpTo(bs: seq<Book>, n: nat)
    requires n < |bs|
  {
    forall i :: 0 <= i <= n ==> NoneFreed(bs[i])
  }

  ghost predicate TidyUpTo(cfg: Config, bs: seq<Book>, steps: seq<BookStep>, n: nat)
    requires BookRun(cfg, bs, steps) && n <= |steps|
  {
    forall i :: 0 <= i < n ==> Tidy(cfg, bs[i], steps[i])
  }

  /** Over every run the list, and so every drain, meets live prefixes only, exactly if every step is tidy. */
  lemma {:induction false} ListStaysClean(cfg: Config, bs: seq<Book>, steps: seq<BookStep>, n: nat)
    requires BookRun(cfg, bs, steps) && NoneFreed(bs[0]) && n <= |steps|
    ensures CleanUpTo(bs, n) <==> TidyUpTo(cfg, bs, steps, n)
  {
    if n == 0 {
    } else {
      ListStaysClean(cfg, bs, steps, n - 1);
      CleanNext(bs, n);
      TidyNext(cfg, bs, steps, n);
      assert BookMoves(cfg, bs[n - 1], steps[n - 1], bs[n]);
      if CleanUpTo(bs, n - 1) {
        FreesOnlyUnlisted(cfg, bs[n - 1], steps[n - 1]);
      }
    }
  }

  lemma CleanNext(bs: seq<Book>, n: nat)
    requires 0 < n < |bs|
    ensures CleanUpTo(bs, n) <==> CleanUpTo(bs, n - 1) && NoneFreed(bs[n])
  {
  }

  lemma TidyNext(cfg: Config, bs: seq<Book>, steps: seq<BookStep>, n: nat)
    requires BookRun(cfg, bs, steps) && 0 < n <= |steps|
    ensures TidyUpTo(cfg, bs, steps, n) <==> TidyUpTo(cfg, bs, steps, n - 1) && Tidy(cfg, bs[n - 1], steps[n - 1])
  {
  }
}
