/**
  Whole runs of the commit protocol: every interleaving of every number of
  clients refines a serial run of atomic operations.
 */
module CommitRuns {
  import opened Options
  import opened Catalog
  import opened CommitProtocol

  /** The actions whose last statement publishes to the committed rows, with
      the atomic operation each performs; all others are private. */
  function Published(s: Sys, c: ClientId, a: Action): Option<Op>
    requires Can(s, c, a)
  {
    match a
    case Create(op) => Some(op)
    case Publish => Some(OpOf(At(s, c).txn))
    case AlterPublish => Some(AlterOp(At(s, c).alter))
    case StageRow(sid, batch, m) => if BatchStaged(s.db, batch) then None else Some(Stage(sid, StagedRow(batch, m)))
    case PurgeRow(x) => Some(Purge(x))
    case MakeExtents(_, _, _) => None
    case Begin => None
    case ReadNumber => None
    case InsertSnap(_) => None
    case InsertExtent => None
    case SoftDelete(_) => None
    case Swap => None
    case Destage => None
    case Fail => None
    case Quit => None
    case ListStaged(_) => None
    case BeginGroup(_, _) => None
    case AlterRead(_, _) => None
    case AlterInsert(_) => None
    case AlterSwap => None
    case Collect(_) => None
  }

  lemma PrivateStepKeeps(s: Sys, c: ClientId, a: Action)
    requires Inv(s) && Can(s, c, a) && Published(s, c, a).None?
    ensures Inv(Do(s, c, a))
  {
    match a
    case MakeExtents(t, added, removed) => MakeExtentsKeeps(s, c, t, added, removed);
    case Begin => BeginKeeps(s, c);
    case ReadNumber => ReadNumberKeeps(s, c);
    case InsertSnap(snap) => InsertSnapKeeps(s, c, snap);
    case InsertExtent => InsertExtentKeeps(s, c);
    case SoftDelete(now) => SoftDeleteKeeps(s, c, now);
    case Swap => SwapKeeps(s, c);
    case Destage => DestageKeeps(s, c);
    case Fail => if At(s, c).InTxn? { AbortKeeps(s, c); } else { ToIdleKeeps(s, c); }
    case Quit => ToIdleKeeps(s, c);
    case StageRow(sid, batch, m) => StageRowKeeps(s, c, sid, batch, m);
    case ListStaged(rows) => ListStagedKeeps(s, c, rows);
    case BeginGroup(t, order) => BeginGroupKeeps(s, c, t, order);
    case AlterRead(t, column) => AlterReadKeeps(s, c, t, column);
    case AlterInsert(to) => AlterInsertKeeps(s, c, to);
    case AlterSwap => AlterSwapKeeps(s, c);
    case Collect(before) => CollectKeeps(s, c, before);
  }

  lemma PublishedStepKeeps(s: Sys, c: ClientId, a: Action)
    requires Inv(s) && Can(s, c, a) && Published(s, c, a).Some?
    ensures Inv(Do(s, c, a))
  {
    match a
    case Create(op) => CreateKeeps(s, c, op);
    case Publish => PublishKeeps(s, c);
    case AlterPublish => AlterPublishKeeps(s, c);
    case StageRow(sid, batch, m) => StageRowKeeps(s, c, sid, batch, m);
    case PurgeRow(x) => PurgeRowKeeps(s, c, x);
  }

  lemma StepKeeps(s: Sys, c: ClientId, a: Action)
    requires Inv(s) && Can(s, c, a)
    ensures Inv(Do(s, c, a))
  {
    if Published(s, c, a).Some? { PublishedStepKeeps(s, c, a); } else { PrivateStepKeeps(s, c, a); }
  }

  lemma PrivateStepIsSilent(s: Sys, c: ClientId, a: Action)
    requires Can(s, c, a) && Published(s, c, a).None?
    ensures Do(s, c, a).db == s.db && Do(s, c, a).log == s.log
  {}

  lemma PublishedStepRefines(s: Sys, c: ClientId, a: Action)
    requires Inv(s) && Can(s, c, a) && Published(s, c, a).Some?
    ensures var s', op := Do(s, c, a), Published(s, c, a).value;
      Enabled(s.db, op) && s'.db == Apply(s.db, op) && s'.log == s.log + [op]
  {
    match a
    case Create(op) =>
    case Publish => PublishKeeps(s, c);
    case AlterPublish => AlterIsAtomic(s, c);
    case StageRow(sid, batch, m) =>
    case PurgeRow(x) =>
  }

  /** One statement refines at most one atomic operation: it either leaves the
      committed rows and the log alone, or it performs an operation that the
      committed rows accept at that moment.  A commit's parent is then the
      table's current snapshot; a conflict, an error and every other private
      statement change nothing. */
  lemma StepRefines(s: Sys, c: ClientId, a: Action)
    requires Inv(s) && Can(s, c, a)
    ensures var s', op := Do(s, c, a), Published(s, c, a);
      if op.None? then s'.db == s.db && s'.log == s.log
      else Enabled(s.db, op.value) && s'.db == Apply(s.db, op.value) && s'.log == s.log + [op.value]
    ensures a.Publish? ==> var txn := At(s, c).txn;
      txn.table in s.db.tables && s.db.tables[txn.table].current == txn.parent
  {
    if Published(s, c, a).None? { PrivateStepIsSilent(s, c, a); } else { PublishedStepRefines(s, c, a); }
    assert ClientOk(s, At(s, c));
  }

  // ---------------------------------------------------------------- runs

  datatype Event = Event(client: ClientId, action: Action)

  ghost predicate Runs(s: Sys, trace: seq<Event>, s': Sys)
    decreases |trace|
  {
    if trace == [] then s' == s
    else
      && Can(s, trace[0].client, trace[0].action)
      && Runs(Do(s, trace[0].client, trace[0].action), trace[1..], s')
  }

  lemma {:induction false} RunKeeps(s: Sys, trace: seq<Event>, s': Sys)
    requires Inv(s) && Runs(s, trace, s')
    ensures Inv(s')
    decreases |trace|
  {
    if trace != [] {
      StepKeeps(s, trace[0].client, trace[0].action);
      RunKeeps(Do(s, trace[0].client, trace[0].action), trace[1..], s');
    }
  }

  lemma StartOk()
    ensures Inv(Start)
  {
    forall c ensures ClientOk(Start, At(Start, c)) {}
    forall c, d | c != d ensures Apart(At(Start, c), At(Start, d)) {}
  }

  /** Refinement: whatever the interleaving, the committed rows are those of
      running the published operations one at a time, each accepted by the
      state before it; so every commit extends the then-current snapshot. */
  lemma EveryRunIsSerial(trace: seq<Event>, s: Sys)
    requires Runs(Start, trace, s)
    ensures Serial(s.log) && s.db == Replay(s.log) && Wf(s.db)
  {
    StartOk();
    RunKeeps(Start, trace, s);
    SerialWf(s.log);
  }

  // ---------------------------------------------------------------- the unique index

  /** The unique index and the compare-and-set judge a commit alike: the next
      sequence number is taken exactly when the parent is no longer current. */
  lemma NumberTakenIffStale(s: Sys, c: ClientId)
    requires Inv(s) && At(s, c).InTxn? && At(s, c).txn.pc.HasNumber()
    ensures var txn := At(s, c).txn;
      txn.table in s.db.tables &&
      (NumberTaken(s.db, txn.table, txn.number + 1) <==> s.db.tables[txn.table].current != txn.parent)
  {
    var db, txn := s.db, At(s, c).txn;
    assert ClientOk(s, At(s, c));
    SerialWf(s.log);
    assert TableOk(db, txn.table);
    var cur := db.tables[txn.table].current;
    assert SnapOk(db, txn.parent) && SnapOk(db, cur);
    if cur == txn.parent {
      forall x | x in db.snaps && db.snaps[x].table == txn.table ensures db.snaps[x].number != txn.number + 1 {
        assert SnapOk(db, x);
      }
    } else {
      if db.snaps[cur].number == txn.number { assert SameSlot(db, cur, txn.parent); }
      AncestorNumber(db, cur, txn.number + 1);
    }
  }

  /** The current pointer only moves up the chain. */
  lemma PointerOnlyAdvances(s: Sys, c: ClientId, a: Action, t: TableId)
    requires Inv(s) && Can(s, c, a) && t in s.db.tables
    ensures var s' := Do(s, c, a);
      && t in s'.db.tables && s'.db.tables[t].current in s'.db.snaps && s.db.tables[t].current in s.db.snaps
      && (s'.db.tables[t].current == s.db.tables[t].current
          || s'.db.snaps[s'.db.tables[t].current].number == s.db.snaps[s.db.tables[t].current].number + 1)
      && (forall x :: x in s.db.snaps ==> x in s'.db.snaps && s'.db.snaps[x] == s.db.snaps[x])
  {
    SerialWf(s.log);
    assert TableOk(s.db, t);
    StepRefines(s, c, a);
  }
}
