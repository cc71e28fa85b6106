/**
  What careful runs keep of the extents: each is added by at most one commit,
  and no list a client holds has gone stale in a way that matters.

  The assumption is on the collector alone, as a condition on single steps:
  `Careful` (a row is not hard-deleted while some committer still holds the
  staged manifest it came from).
 */
module CommitLedger {
  import opened Catalog
  import opened CommitProtocol
  import opened CommitRuns
  import opened CommitStaging

  predicate HoldsRow(client: Client, x: ExtentId) {
    || (client.Holding? && exists sid :: sid in client.rows && client.rows[sid].id == x)
    || (client.InTxn? && exists sid :: sid in client.held && client.held[sid].id == x)
  }

  /** The collector does not hard-delete a row some committer may still try to
      commit: the grace period outlasts a committer's tick. */
  ghost predicate Careful(s: Sys, a: Action) {
    a.PurgeRow? ==> forall d :: !HoldsRow(At(s, d), a.extent)
  }

  /** A held manifest that has been committed still has its row. */
  ghost predicate HeldOk(s: Sys, rows: map<StagedId, Manifest>) {
    forall sid :: sid in rows && AddCount(s.log, rows[sid].id) == 1 ==> rows[sid].id in s.db.extents
  }

  ghost predicate DoomedOk(s: Sys, doomed: set<ExtentId>) {
    forall x :: x in doomed ==> AddCount(s.log, x) == 1 && (x in s.db.extents ==> !s.db.extents[x].Live())
  }

  ghost predicate ClientSafe(s: Sys, client: Client) {
    && (client.Holding? ==> HeldOk(s, client.rows))
    && (client.InTxn? ==> HeldOk(s, client.held))
    && (client.Collecting? ==> DoomedOk(s, client.doomed))
  }

  ghost predicate RowsOnce(s: Sys) {
    && (forall x {:trigger AddCount(s.log, x)} :: AddCount(s.log, x) <= 1)
    && (forall x :: x in s.db.extents ==> AddCount(s.log, x) == 1)
  }

  ghost predicate Safe(s: Sys) {
    && Kept(s) && RowsOnce(s)
    && (forall c {:trigger ClientSafe(s, At(s, c))} :: ClientSafe(s, At(s, c)))
  }

  // ---------------------------------------------------------------- private steps

  lemma PrivateStepSafe(s: Sys, s': Sys, c: ClientId)
    requires Safe(s) && Kept(s') && s'.db == s.db && s'.log == s.log
    requires forall d :: d != c ==> At(s', d) == At(s, d)
    requires ClientSafe(s, At(s', c))
    ensures Safe(s')
  {
    forall d ensures ClientSafe(s', At(s', d)) {
      assert ClientSafe(s, At(s, d));
      assert ClientSafe(s, At(s', d));
    }
  }

  /** A list of staged rows holds nothing that has been committed. */
  lemma ListSafe(s: Sys, c: ClientId, rows: set<StagedId>)
    requires Safe(s) && Can(s, c, ListStaged(rows))
    ensures ClientSafe(s, At(Do(s, c, ListStaged(rows)), c))
  {}

  lemma CollectSafe(s: Sys, c: ClientId, before: Time)
    requires Safe(s) && Can(s, c, Collect(before))
    ensures ClientSafe(s, At(Do(s, c, Collect(before)), c))
  {}

  lemma OtherClientSafe(s: Sys, c: ClientId, a: Action)
    requires Can(s, c, a) && QuietAction(a) && !TxnAction(a) && !a.ListStaged? && !a.Collect?
    requires Kept(s) && ClientSafe(s, At(s, c))
    ensures ClientSafe(s, At(Do(s, c, a), c))
  {
    assert ClientKept(s, c, At(s, c));
  }

  lemma QuietClientSafe(s: Sys, c: ClientId, a: Action)
    requires Safe(s) && Can(s, c, a) && QuietAction(a)
    ensures ClientSafe(s, At(Do(s, c, a), c))
  {
    assert ClientSafe(s, At(s, c));
    if TxnAction(a) { TxnActionShape(s, c, a); }
    else if a.ListStaged? { ListSafe(s, c, a.rows); }
    else if a.Collect? { CollectSafe(s, c, a.before); }
    else { OtherClientSafe(s, c, a); }
  }

  lemma QuietSafe(s: Sys, c: ClientId, a: Action)
    requires Safe(s) && Can(s, c, a) && QuietAction(a)
    ensures Safe(Do(s, c, a))
  {
    StepKept(s, c, a);
    QuietMoves(s, c, a);
    QuietClientSafe(s, c, a);
    PrivateStepSafe(s, Do(s, c, a), c);
  }

  lemma WorkStepSafe(s: Sys, c: ClientId, t: TableId, added: seq<Manifest>, removed: set<ExtentId>)
    requires Safe(s) && Kept(WorkStep(s, c, t, added, removed))
    ensures Safe(WorkStep(s, c, t, added, removed))
  {
    PrivateStepSafe(s, WorkStep(s, c, t, added, removed), c);
  }

  // ---------------------------------------------------------------- publishing steps

  /** What a publish by client `c` adds was never added before. */
  lemma AddedOnce(s: Sys, c: ClientId)
    requires Safe(s) && ReadyToPublish(s, c)
    ensures forall i :: 0 <= i < |At(s, c).txn.added| ==> AddCount(s.log, At(s, c).txn.added[i].id) == 0
  {
    var txn, held := At(s, c).txn, At(s, c).held;
    assert ClientOk(s, At(s, c)) && ClientKept(s, c, At(s, c)) && ClientSafe(s, At(s, c));
    forall i | 0 <= i < |txn.added| ensures AddCount(s.log, txn.added[i].id) == 0 {
      if txn.kind.Grouped? {
        assert Sourced(txn.group, txn.added[i]);
        var sid :| sid in txn.group && txn.group[sid] == txn.added[i];
        assert held[sid].id !in s.db.extents;
      }
    }
  }

  /** A publish keeps every row, and leaves soft-deleted rows soft-deleted. */
  lemma PublishedRows(s: Sys, c: ClientId)
    requires Inv(s) && ReadyToPublish(s, c)
    ensures var s' := PublishStep(s, c); var added := At(s, c).txn.added;
      && (forall x :: x in s'.db.extents <==> x in s.db.extents || HasId(added, x))
      && (forall x :: x in s.db.extents && !s.db.extents[x].Live() ==> s'.db.extents[x] == s.db.extents[x])
      && (forall x :: HasId(added, x) ==> x !in s.db.extents)
  {
    var txn := At(s, c).txn;
    PublishAtomic(s, c);
    assert ClientOk(s, At(s, c));
    forall x | HasId(txn.added, x) ensures x !in s.db.extents {
      var i :| 0 <= i < |txn.added| && txn.added[i].id == x;
    }
  }

  lemma PublishedOnce(s: Sys, c: ClientId)
    requires Safe(s) && ReadyToPublish(s, c)
    ensures RowsOnce(PublishStep(s, c))
  {
    AddedOnce(s, c);
    CountsAfterPublish(s, c);
    PublishedRows(s, c);
  }

  lemma ClientAfterPublish(s: Sys, c: ClientId, client: Client)
    requires Safe(s) && ReadyToPublish(s, c) && ClientSafe(s, client)
    ensures ClientSafe(PublishStep(s, c), client)
  {
    AddedOnce(s, c);
    CountsAfterPublish(s, c);
    PublishedRows(s, c);
    if client.Collecting? {
      forall x | x in client.doomed ensures !HasId(At(s, c).txn.added, x) { assert AddCount(s.log, x) == 1; }
    }
  }

  lemma PublishSafe(s: Sys, c: ClientId)
    requires Safe(s) && ReadyToPublish(s, c)
    ensures Safe(PublishStep(s, c))
  {
    var s' := PublishStep(s, c);
    PublishKept(s, c);
    PublishedOnce(s, c);
    PublisherAfter(s, c);
    forall d ensures ClientSafe(s', At(s', d)) {
      assert ClientSafe(s, At(s, d));
      ClientAfterPublish(s, c, At(s', d));
    }
  }

  /** A published operation that neither adds nor purges. */
  lemma NoAddsSafe(s: Sys, s': Sys, op: Op)
    requires Safe(s) && Kept(s') && !op.Commit? && s'.log == s.log + [op] && s'.db.extents == s.db.extents
    requires forall d :: At(s', d) == At(s, d) || At(s', d).Idle?
    ensures Safe(s')
  {
    CountsAfter(s, s', op);
    forall d ensures ClientSafe(s', At(s', d)) { assert ClientSafe(s, At(s, d)); }
  }

  lemma SameClientsSafe(s: Sys, s': Sys, op: Op)
    requires Safe(s) && Kept(s') && !op.Commit? && s'.log == s.log + [op] && s'.db.extents == s.db.extents
    requires s'.clients == s.clients
    ensures Safe(s')
  {
    forall d ensures At(s', d) == At(s, d) {}
    NoAddsSafe(s, s', op);
  }

  lemma StageRowSafe(s: Sys, c: ClientId, sid: StagedId, batch: BatchId, m: Manifest)
    requires Safe(s) && Stageable(s, sid, m)
    ensures Safe(StageStep(s, sid, batch, m))
  {
    StageRowKept(s, c, sid, batch, m);
    if BatchStaged(s.db, batch) {
      assert ClientSafe(s, At(s, c));
      PrivateStepSafe(s, StageStep(s, sid, batch, m), c);
    } else {
      SameClientsSafe(s, StageStep(s, sid, batch, m), Stage(sid, StagedRow(batch, m)));
    }
  }

  lemma PurgedStep(s: Sys, s': Sys, x: ExtentId)
    requires Safe(s) && Kept(s') && s' == PurgeStep(s, x)
    requires forall d :: !HoldsRow(At(s, d), x)
    ensures Safe(s')
  {
    CountsAfter(s, s', Purge(x));
    forall d ensures ClientSafe(s', At(s', d)) {
      assert ClientSafe(s, At(s, d));
      assert !HoldsRow(At(s, d), x);
    }
  }

  lemma PurgeRowSafe(s: Sys, c: ClientId, x: ExtentId)
    requires Safe(s) && RowFree(s, x) && forall d :: !HoldsRow(At(s, d), x)
    ensures Safe(PurgeStep(s, x))
  {
    PurgeKept(s, c, x);
    PurgedStep(s, PurgeStep(s, x), x);
  }

  lemma LoudSafe(s: Sys, c: ClientId, a: Action)
    requires Safe(s) && Can(s, c, a) && Careful(s, a) && !QuietAction(a)
    ensures Safe(Do(s, c, a))
  {
    StepKept(s, c, a);
    if a.MakeExtents? { WorkStepSafe(s, c, a.table, a.added, a.removed); }
    else if a.Create? { SameClientsSafe(s, CreateStep(s, a.op), a.op); }
    else if a.Publish? { PublishSafe(s, c); }
    else if a.StageRow? { StageRowSafe(s, c, a.sid, a.batch, a.manifest); }
    else if a.AlterPublish? { NoAddsSafe(s, AlterStep(s, c), AlterOp(At(s, c).alter)); }
    else { PurgeRowSafe(s, c, a.extent); }
  }

  lemma StepSafe(s: Sys, c: ClientId, a: Action)
    requires Safe(s) && Can(s, c, a) && Careful(s, a)
    ensures Safe(Do(s, c, a))
  {
    if QuietAction(a) { QuietSafe(s, c, a); } else { LoudSafe(s, c, a); }
  }

  // ---------------------------------------------------------------- careful runs

  ghost predicate CarefulRuns(s: Sys, trace: seq<Event>, s': Sys)
    decreases |trace|
  {
    if trace == [] then s' == s
    else
      && Can(s, trace[0].client, trace[0].action) && Careful(s, trace[0].action)
      && CarefulRuns(Do(s, trace[0].client, trace[0].action), trace[1..], s')
  }

  lemma StartSafe()
    ensures Safe(Start)
  {
    StartKept();
    forall c ensures ClientSafe(Start, At(Start, c)) {}
  }

  lemma {:induction false} CarefulRunSafe(s: Sys, trace: seq<Event>, s': Sys)
    requires Safe(s) && CarefulRuns(s, trace, s')
    ensures Safe(s')
    decreases |trace|
  {
    if trace != [] {
      StepSafe(s, trace[0].client, trace[0].action);
      CarefulRunSafe(Do(s, trace[0].client, trace[0].action), trace[1..], s');
    }
  }

  /** Exactly once: in a careful run every accepted row is either still staged
      and not in the chain, or destaged and added by exactly one commit. */
  lemma StagedRowsCommitOnce(trace: seq<Event>, s: Sys, sid: StagedId)
    requires CarefulRuns(Start, trace, s) && sid in s.accepted
    ensures AddCount(s.log, s.accepted[sid].id) == if sid in s.db.staged then 0 else 1
  {
    StartSafe();
    CarefulRunSafe(Start, trace, s);
  }

  /** A purge by id of a list taken earlier never removes a live extent. */
  lemma PurgeHitsOnlyDeleted(trace: seq<Event>, s: Sys, c: ClientId, x: ExtentId)
    requires CarefulRuns(Start, trace, s) && Can(s, c, PurgeRow(x)) && x in s.db.extents
    ensures !s.db.extents[x].Live()
  {
    StartSafe();
    CarefulRunSafe(Start, trace, s);
    assert ClientSafe(s, At(s, c));
  }
}
