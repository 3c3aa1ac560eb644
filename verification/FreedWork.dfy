/**
 What still points to a prefix after it was freed: the packetizer's queue besides the change list, each with
 the exact condition over every run, and runs in which it happens.
 */
module FreedWork {
  import opened Words
  import opened Metric
  import opened Topology
  import opened Dual
  import opened DualRuns
  import opened DualPassive
  import opened DualLimits
  import opened DualWitness
  import opened Bookkeeping
  import opened NoLostWork

  // ----- the packetizer's queue -----

  /** No waiting item points to a freed prefix. */
  ghost predicate WorkLives(b: Book) {
    forall p :: p in b.work ==> p in b.table
  }

  /** A step frees no prefix that an item points to, and queues no REPLY for a prefix it frees; known before the
      step. */
  ghost predicate Spares(cfg: Config, b: Book, s: BookStep)
    requires BookOk(cfg, b, s)
  {
    match s
    case Handled(p, msg, upNbrs) =>
      Drops(cfg, upNbrs > 0, b.table[p], msg) ==>
        p !in b.work && VerdictOf(cfg, upNbrs > 0, b.table[p], msg) != Reset(Active3)
    case Removed(p) => p !in b.work
    case _ => true
  }

  /** Which steps leave an item pointing to a freed prefix in a queue that had none. */
  lemma WorkLivesExactly(cfg: Config, b: Book, s: BookStep)
    requires WorkLives(b) && BookOk(cfg, b, s)
    ensures WorkLives(BookNext(cfg, b, s)) <==> Spares(cfg, b, s)
  {
    match s
    case Handled(p, msg, upNbrs) => HandledSpares(cfg, b, p, msg, upNbrs);
    case QueriesQueued => QueriesSpare(cfg, b);
    case Removed(p) =>
      assert forall x :: x in b.table - {p} <==> x in b.table && x != p;
    case _ =>
  }

  lemma HandledSpares(cfg: Config, b: Book, p: PrefixId, msg: Msg, upNbrs: nat)
    requires WorkLives(b) && BookOk(cfg, b, Handled(p, msg, upNbrs))
    ensures WorkLives(BookNext(cfg, b, Handled(p, msg, upNbrs))) <==> Spares(cfg, b, Handled(p, msg, upNbrs))
  {
    var fx, b' := React(cfg, upNbrs > 0, b.table[p], msg).fx, BookNext(cfg, b, Handled(p, msg, upNbrs));
    DroppedExactly(cfg, upNbrs > 0, b.table[p], msg);
    Repeated(b.work, p, |fx.replies|);
    if fx.dropped {
      assert forall x :: x in b'.table <==> x in b.table && x != p;
    }
  }

  lemma Repeated(work: seq<PrefixId>, p: PrefixId, n: nat)
    ensures forall x :: x in work + seq(n, _ => p) <==> x in work || (n > 0 && x == p)
  {
    if n > 0 {
      assert seq(n, _ => p)[0] == p;
    }
  }

  lemma QueriesSpare(cfg: Config, b: Book)
    requires WorkLives(b)
    ensures WorkLives(BookNext(cfg, b, QueriesQueued))
  {
    FirstsOnce(b.changes, Asking(b));
  }

  ghost predicate WorkLivesUpTo(bs: seq<Book>, n: nat)
    requires n < |bs|
  {
    forall i :: 0 <= i <= n ==> WorkLives(bs[i])
  }

  ghost predicate SparesUpTo(cfg: Config, bs: seq<Book>, steps: seq<BookStep>, n: nat)
    requires BookRun(cfg, bs, steps) && n <= |steps|
  {
    forall i :: 0 <= i < n ==> Spares(cfg, bs[i], steps[i])
  }

  /** Over every run the packetizer meets live prefixes only, exactly if every step spares its queue. */
  lemma {:induction false} QueueStaysLive(cfg: Config, bs: seq<Book>, steps: seq<BookStep>, n: nat)
    requires BookRun(cfg, bs, steps) && WorkLives(bs[0]) && n <= |steps|
    ensures WorkLivesUpTo(bs, n) <==> SparesUpTo(cfg, bs, steps, n)
  {
    if n == 0 {
    } else {
      QueueStaysLive(cfg, bs, steps, n - 1);
      WorkLivesNext(bs, n);
      SparesNext(cfg, bs, steps, n);
      assert BookMoves(cfg, bs[n - 1], steps[n - 1], bs[n]);
      if WorkLivesUpTo(bs, n - 1) {
        WorkLivesExactly(cfg, bs[n - 1], steps[n - 1]);
      }
    }
  }

  lemma WorkLivesNext(bs: seq<Book>, n: nat)
    requires 0 < n < |bs|
    ensures WorkLivesUpTo(bs, n) <==> WorkLivesUpTo(bs, n - 1) && WorkLives(bs[n])
  {
  }

  lemma SparesNext(cfg: Config, bs: seq<Book>, steps: seq<BookStep>, n: nat)
    requires BookRun(cfg, bs, steps) && 0 < n <= |steps|
    ensures SparesUpTo(cfg, bs, steps, n)
            <==> SparesUpTo(cfg, bs, steps, n - 1) && Spares(cfg, bs[n - 1], steps[n - 1])
  {
  }

  /** The step reads a prefix that was freed before, which is undefined in the source. */
  ghost predicate Touches(b: Book, s: BookStep) {
    match s
    case QueriesQueued => !NoneFreed(b)
    case UpdatesSent => !NoneFreed(b)
    case Processed => b.work != [] && b.work[0] !in b.table
    case _ => false
  }

  /** Where the model passes over freed prefixes, tidy and sparing runs never go. */
  lemma NothingFreedTouched(cfg: Config, bs: seq<Book>, steps: seq<BookStep>, n: nat)
    requires BookRun(cfg, bs, steps) && NoneFreed(bs[0]) && WorkLives(bs[0]) && n < |steps|
    requires TidyUpTo(cfg, bs, steps, n) && SparesUpTo(cfg, bs, steps, n)
    ensures !Touches(bs[n], steps[n])
  {
    ListStaysClean(cfg, bs, steps, n);
    QueueStaysLive(cfg, bs, steps, n);
    assert CleanUpTo(bs, n) && WorkLivesUpTo(bs, n);
    assert NoneFreed(bs[n]) && WorkLives(bs[n]);
  }

  // ----- runs that leave a freed prefix behind -----

  /** What is left after a message that frees the only prefix. */
  lemma OneFreed(cfg: Config, d: Dest, msg: Msg, upNbrs: nat, changes: seq<PrefixId>)
    requires d.live && MsgOk(d, msg) && React(cfg, upNbrs > 0, d, msg).Done? && Drops(cfg, upNbrs > 0, d, msg)
    requires RemoveFirst(changes + [0], 0) == changes
    ensures BookMoves(cfg, Book(changes, map[0 := d], []), Handled(0, msg, upNbrs),
                      Book(changes, map[], if VerdictOf(cfg, upNbrs > 0, d, msg) == Reset(Active3) then [0] else []))
  {
    DroppedExactly(cfg, upNbrs > 0, d, msg);
    assert map[0 := d] - {0} == map[];
    assert [] + seq(1, _ => 0) == [0] && [] + seq(0, _ => 0) == [];
  }

  /** What is left after one that goes on with the computation of the only prefix. */
  lemma OneAsked(cfg: Config, d: Dest, msg: Msg, upNbrs: nat, d': Dest)
    requires d.live && MsgOk(d, msg) && React(cfg, upNbrs > 0, d, msg) == Done(d', Effects(true, false, []))
    ensures BookMoves(cfg, Book([0], map[0 := d], []), Handled(0, msg, upNbrs), Book([0, 0], map[0 := d'], []))
  {
    assert [0] + [0] == [0, 0] && map[0 := d][0 := d'] == map[0 := d'];
    assert [] + seq(0, _ => 0) == [];
  }

  /** The only route of `Start`, out of reach. */
  function GoneRoute(): Route { Over(1, 7, FAR, FAR, MAX_METRIC, true) }

  function Withdrawal(d: Dest, packet: PacketType): Msg {
    Incoming(d, packet, N7, false, Vector(0, FAR), 2)
  }

  function Queried(): Dest {
    Start().(entries := [GoneRoute()], state := Active3, needQuery := true)
  }

  lemma GoneCosted(packet: PacketType)
    ensures var msg := Withdrawal(Start(), packet);
            MsgOk(Start(), msg) && Costs(CFG, Start(), msg) == Costed([GoneRoute()], GoneRoute(), Increase)
  {
    var near := NearRoute();
    Prices(0, FAR);
    LookupTwo(near, near.(adv := 8));
    assert IndexOf([near], 1) == 0;
    assert Subject(Start().entries, Withdrawal(Start(), packet)) == near;
    assert Recost(CFG.k, near, Vector(0, FAR)) == GoneRoute();
    assert RemoveId([near], 1) == [];
  }

  lemma GoneUnmoved(packet: PacketType)
    ensures var msg := Withdrawal(Queried(), packet);
            MsgOk(Queried(), msg) && Costs(CFG, Queried(), msg) == Costed([GoneRoute()], GoneRoute(), Same)
  {
    LookupTwo(GoneRoute(), GoneRoute().(adv := 8));
    assert IndexOf([GoneRoute()], 1) == 0;
    assert Subject(Queried().entries, Withdrawal(Queried(), packet)) == GoneRoute();
  }

  /** With no neighbour UP a withdrawing UPDATE settles at once. */
  lemma UpdateDrops()
    ensures var d := Start(); var msg := Withdrawal(d, Update);
            && MsgOk(d, msg) && React(CFG, false, d, msg).Done?
            && VerdictOf(CFG, false, d, msg) == Reset(Active1) && Drops(CFG, false, d, msg)
  {
    UpdateRecorded();
    CarryReset(CFG, Start().(entries := [GoneRoute()]), Withdrawal(Start(), Update), Active1);
  }

  lemma UpdateRecorded()
    ensures var d := Start(); var msg := Withdrawal(d, Update);
            && MsgOk(d, msg) && Recorded(CFG, d, msg) == d.(entries := [GoneRoute()])
            && VerdictOf(CFG, false, d, msg) == Reset(Active1)
  {
    GoneCosted(Update);
  }

  /** With the withdrawing neighbour UP, its QUERY makes the prefix Active. */
  lemma QueryAsks()
    ensures var d := Start(); var msg := Withdrawal(d, Query);
            MsgOk(d, msg) && React(CFG, true, d, msg) == Done(Queried(), Effects(true, false, []))
  {
    GoneCosted(Query);
    assert VerdictOf(CFG, true, Start(), Withdrawal(Start(), Query)) == Diffuse(Active3);
  }

  /** Its REPLY ends the computation. */
  lemma ReplyDrops()
    ensures var d := Queried(); var msg := Withdrawal(d, Reply);
            && MsgOk(d, msg) && React(CFG, true, d, msg).Done?
            && VerdictOf(CFG, true, d, msg) == Reset(Active3) && Drops(CFG, true, d, msg)
  {
    GoneUnmoved(Reply);
    assert RemoveFirst<NbrId>([], 7) == [];
    assert Recorded(CFG, Queried(), Withdrawal(Queried(), Reply)) == Queried();
    SuccessorsTwo(GoneRoute(), GoneRoute().(succ := false));
    CarryReset(CFG, Queried(), Withdrawal(Queried(), Reply), Active3);
  }

  /** One of the entries of a prefix that is listed once more goes. */
  lemma OneUnlisted()
    ensures RemoveFirst([0] + [0], 0) == [0] && RemoveFirst([0, 0] + [0], 0) == [0, 0]
  {
    assert ([0] + [0])[1..] == [0] && ([0, 0] + [0])[1..] == [0, 0];
  }

  /** The prefix has just been created by an UPDATE, which lists it. */
  const JUST_LEARNED := Book([0], map[0 := Start()], [])

  lemma LearnedMoves()
    ensures Inv(CFG, Start()) && BookMoves(CFG, Book([], map[], []), BookStep.Learned(0, Start()), JUST_LEARNED)
  {
    StartIsLearned();
    LearnedInv(CFG, 1, N7, Vector(0, 0), false, false);
    assert [] + [0] == [0];
  }

  lemma WithdrawalMoves()
    ensures BookMoves(CFG, JUST_LEARNED, Handled(0, Withdrawal(Start(), Update), 0), Book([0], map[], []))
  {
    UpdateDrops();
    OneUnlisted();
    OneFreed(CFG, Start(), Withdrawal(Start(), Update), 0, [0]);
  }

  /** The prefix as the QUERY leaves it. */
  const ASKING := Book([0, 0], map[0 := Queried()], [])

  lemma QueryMoves()
    ensures BookMoves(CFG, JUST_LEARNED, Handled(0, Withdrawal(Start(), Query), 1), ASKING)
  {
    QueryAsks();
    OneAsked(CFG, Start(), Withdrawal(Start(), Query), 1, Queried());
  }

  lemma ReplyMoves()
    ensures BookMoves(CFG, ASKING, Handled(0, Withdrawal(Queried(), Reply), 1), Book([0, 0], map[], [0]))
  {
    ReplyDrops();
    OneUnlisted();
    OneFreed(CFG, Queried(), Withdrawal(Queried(), Reply), 1, [0, 0]);
  }

  /** Two steps suffice: a prefix is learned, which lists it, and its neighbour withdraws it while no neighbour is
      UP. The handler lists it again, frees it, and unlinks one of the two entries. */
  lemma FreedEntryRemains()
    ensures var b0, b2 := Book([], map[], []), Book([0], map[], []);
            && Inv(CFG, Start())
            && BookMoves(CFG, b0, BookStep.Learned(0, Start()), JUST_LEARNED)
            && BookMoves(CFG, JUST_LEARNED, Handled(0, Withdrawal(Start(), Update), 0), b2)
            && AllListed(b0) && NoneFreed(JUST_LEARNED) && !NoneFreed(b2)
  {
    LearnedMoves();
    WithdrawalMoves();
    assert 0 in [0];
  }

  /** Three steps suffice for the packetizer's queue: the neighbour withdraws the same prefix with a QUERY and then
      replies, and the REPLY owed to it is queued for a prefix that the same call frees. */
  lemma FreedReplyRemains()
    ensures var b0, b3 := Book([], map[], []), Book([0, 0], map[], [0]);
            && Inv(CFG, Start())
            && BookMoves(CFG, b0, BookStep.Learned(0, Start()), JUST_LEARNED)
            && BookMoves(CFG, JUST_LEARNED, Handled(0, Withdrawal(Start(), Query), 1), ASKING)
            && BookMoves(CFG, ASKING, Handled(0, Withdrawal(Queried(), Reply), 1), b3)
            && WorkLives(b0) && !WorkLives(b3)
  {
    LearnedMoves();
    QueryMoves();
    ReplyMoves();
    assert 0 in [0];
  }
}
