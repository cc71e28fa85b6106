/**
  What every run keeps of staged rows, whatever the clients do: who may commit
  which extent id, and that a row leaves the staging table exactly when a commit
  adds it.  A row is then never lost, and it is added twice exactly when some
  commit adds it after a purge removed it.
 */
module CommitStaging {
  import opened Catalog
  import opened CommitProtocol
  import opened CommitRuns

  // ---------------------------------------------------------------- accounting on a serial log

  predicate Adds(op: Op, x: ExtentId) { op.Commit? && HasId(op.added, x) }

  /** How many committed transactions added extent `x`. */
  ghost function AddCount(log: seq<Op>, x: ExtentId): nat {
    if log == [] then 0
    else AddCount(log[..|log| - 1], x) + (if Adds(log[|log| - 1], x) then 1 else 0)
  }

  lemma AddCountAppend(log: seq<Op>, op: Op, x: ExtentId)
    ensures AddCount(log + [op], x) == AddCount(log, x) + (if Adds(op, x) then 1 else 0)
  {
    assert (log + [op])[..|log + [op]| - 1] == log;
  }

  /** How many purges found row `x` present. */
  ghost function PurgeCount(log: seq<Op>, x: ExtentId): nat
    requires Serial(log)
  {
    if log == [] then 0
    else
      var init, op := log[..|log| - 1], log[|log| - 1];
      PurgeCount(init, x) + (if op == Purge(x) && x in Replay(init).extents then 1 else 0)
  }

  /** Every add of an extent is accounted for: its row is still there, or a
      purge removed it.  So an extent can be added twice only across a purge. */
  lemma {:induction false} RowAccounting(log: seq<Op>, x: ExtentId)
    requires Serial(log)
    ensures AddCount(log, x) == PurgeCount(log, x) + (if x in Replay(log).extents then 1 else 0)
    decreases |log|
  {
    if log != [] {
      var init, op := log[..|log| - 1], log[|log| - 1];
      RowAccounting(init, x);
      if Adds(op, x) {
        var i :| 0 <= i < |op.added| && op.added[i].id == x;
        assert x !in Replay(init).extents;
      }
    }
  }

  /** No commit adds `x` after a purge has removed it. */
  ghost predicate NeverReadded(log: seq<Op>, x: ExtentId)
    requires Serial(log)
  {
    log == [] ||
    var init, op := log[..|log| - 1], log[|log| - 1];
    NeverReadded(init, x) && (Adds(op, x) ==> PurgeCount(init, x) == 0)
  }

  lemma {:induction false} AddedOnceIff(log: seq<Op>, x: ExtentId)
    requires Serial(log)
    ensures AddCount(log, x) <= 1 <==> NeverReadded(log, x)
    decreases |log|
  {
    if log != [] {
      AddedOnceIff(log[..|log| - 1], x);
      RowAccounting(log[..|log| - 1], x);
      if Adds(log[|log| - 1], x) { AddFindsNoRow(log, x); }
    }
  }

  lemma AddFindsNoRow(log: seq<Op>, x: ExtentId)
    requires log != [] && Serial(log) && Adds(log[|log| - 1], x)
    ensures x !in Replay(log[..|log| - 1]).extents
  {
    var added := log[|log| - 1].added;
    var i :| 0 <= i < |added| && added[i].id == x;
  }

  // ---------------------------------------------------------------- what a client may commit

  predicate Owned(s: Sys, x: ExtentId, owner: Owner) { x in s.minted && s.minted[x].owner == owner }

  /** A writer's own extents, none of them committed yet. */
  ghost predicate WorkOk(s: Sys, c: ClientId, added: seq<Manifest>) {
    forall i {:trigger added[i]} :: 0 <= i < |added| ==>
      Owned(s, added[i].id, Writer(c)) && AddCount(s.log, added[i].id) == 0
  }

  predicate NoneBack(added: seq<Manifest>, removed: set<ExtentId>) {
    forall x :: x in removed ==> !HasId(added, x)
  }

  predicate Sourced(group: map<StagedId, Manifest>, m: Manifest) {
    exists sid :: sid in group && group[sid] == m
  }

  /** A committer's group and its manifests name the same held rows. */
  ghost predicate GroupOk(txn: Txn, held: map<StagedId, Manifest>) {
    && (forall sid :: sid in txn.group ==> sid in held && txn.group[sid] == held[sid])
    && (forall sid :: sid in txn.group ==> HasId(txn.added, txn.group[sid].id))
    && (forall i :: 0 <= i < |txn.added| ==> Sourced(txn.group, txn.added[i]))
  }

  ghost predicate ClientKept(s: Sys, c: ClientId, client: Client) {
    match client
    case Idle => true
    case Working(_, added, removed) => WorkOk(s, c, added) && NoneBack(added, removed)
    case Holding(_) => true
    case InTxn(txn, held) =>
      && NoneBack(txn.added, txn.removed)
      && (if txn.kind.Direct? then WorkOk(s, c, txn.added) && txn.group == map[] && held == map[]
          else GroupOk(txn, held))
    case Altering(_) => true
    case Collecting(_) => true
  }

  ghost predicate RowsKept(s: Sys) {
    && (forall x {:trigger AddCount(s.log, x)} :: AddCount(s.log, x) > 0 ==> x in s.minted)
    && (forall sid :: sid in s.accepted ==>
          && Owned(s, s.accepted[sid].id, Router(sid))
          && (sid in s.db.staged <==> AddCount(s.log, s.accepted[sid].id) == 0))
  }

  ghost predicate Kept(s: Sys) {
    && Inv(s) && RowsKept(s)
    && (forall c {:trigger ClientKept(s, c, At(s, c))} :: ClientKept(s, c, At(s, c)))
  }

  // ---------------------------------------------------------------- private steps

  /** The step of `c` leaves everything but its own state. */
  ghost predicate OnlyMoves(s: Sys, s': Sys, c: ClientId) {
    && s'.db == s.db && s'.log == s.log && s'.accepted == s.accepted && s'.minted == s.minted
    && forall d :: d != c ==> At(s', d) == At(s, d)
  }

  predicate SameWork(a: Client, b: Client) {
    && a.InTxn? && b.InTxn? && a.held == b.held
    && a.txn.kind == b.txn.kind && a.txn.table == b.txn.table && a.txn.parent == b.txn.parent
    && a.txn.added == b.txn.added && a.txn.removed == b.txn.removed && a.txn.group == b.txn.group
  }

  predicate TxnAction(a: Action) {
    a.ReadNumber? || a.InsertSnap? || a.InsertExtent? || a.SoftDelete? || a.Swap? || a.Destage?
  }

  predicate QuietAction(a: Action) {
    || TxnAction(a) || a.Fail? || a.Begin? || a.BeginGroup? || a.Quit?
    || a.AlterRead? || a.AlterInsert? || a.AlterSwap? || a.ListStaged? || a.Collect?
  }

  lemma TxnActionMoves(s: Sys, c: ClientId, a: Action)
    requires Can(s, c, a) && TxnAction(a)
    ensures OnlyMoves(s, Do(s, c, a), c) && At(s, c).InTxn?
  {}

  lemma OtherQuietMoves(s: Sys, c: ClientId, a: Action)
    requires Can(s, c, a) && QuietAction(a) && !TxnAction(a)
    ensures OnlyMoves(s, Do(s, c, a), c)
  {}

  lemma QuietMoves(s: Sys, c: ClientId, a: Action)
    requires Can(s, c, a) && QuietAction(a)
    ensures OnlyMoves(s, Do(s, c, a), c)
  {
    if TxnAction(a) { TxnActionMoves(s, c, a); } else { OtherQuietMoves(s, c, a); }
  }

  /** A statement inside a transaction never changes what is being committed. */
  lemma TxnActionShape(s: Sys, c: ClientId, a: Action)
    requires Can(s, c, a) && TxnAction(a)
    ensures var s' := Do(s, c, a);
      OnlyMoves(s, s', c) && At(s, c).InTxn?
      && (At(s', c) == AfterAbort(At(s, c)) || SameWork(At(s', c), At(s, c)))
  {
    TxnActionMoves(s, c, a);
  }

  /** What a transaction begins with: the table's current snapshot as parent,
      and for a writer the table's schema of that moment. */
  lemma BeginCaptures(s: Sys, c: ClientId)
    requires Can(s, c, Begin)
    ensures var me, after := At(s, c), At(Do(s, c, Begin), c);
      && after.InTxn? && after.txn.kind.Direct? && after.txn.table == me.table
      && after.txn.parent == s.db.tables[me.table].current && after.txn.schema == s.db.tables[me.table].schema
      && after.txn.added == me.added && after.txn.removed == me.removed && after.txn.group == map[]
  {}

  /** The schema a commit records: a writer's is the one captured when it began,
      whatever its later statements find; a committer's is its parent's. */
  lemma SchemaIsCaptured(s: Sys, c: ClientId, a: Action)
    requires Can(s, c, a) && TxnAction(a) && At(Do(s, c, a), c).InTxn?
    ensures At(s, c).InTxn?
    ensures var before, after := At(s, c).txn, At(Do(s, c, a), c).txn;
      && (before.kind.Direct? ==> after.schema == before.schema)
      && (before.kind.Grouped? && a.ReadNumber? ==> before.parent in s.db.snaps && after.schema == s.db.snaps[before.parent].schema)
      && (before.kind.Grouped? && !a.ReadNumber? ==> after.schema == before.schema)
  {}

  lemma SameWorkKept(s: Sys, c: ClientId, a: Client, b: Client)
    requires ClientKept(s, c, a) && a.InTxn? && (b == AfterAbort(a) || SameWork(b, a))
    ensures ClientKept(s, c, b)
  {}

  lemma BeginGroupKept(s: Sys, c: ClientId, t: TableId, order: seq<StagedId>)
    requires Can(s, c, BeginGroup(t, order))
    ensures ClientKept(s, c, At(Do(s, c, BeginGroup(t, order)), c))
  {
    var me := At(Do(s, c, BeginGroup(t, order)), c);
    var txn, held := me.txn, me.held;
    forall sid | sid in txn.group ensures HasId(txn.added, txn.group[sid].id) {
      var i :| 0 <= i < |order| && order[i] == sid;
      assert txn.added[i] == held[sid];
    }
    forall i | 0 <= i < |txn.added| ensures Sourced(txn.group, txn.added[i]) {
      assert order[i] in txn.group;
    }
  }

  lemma OtherClientKept(s: Sys, c: ClientId, a: Action)
    requires Can(s, c, a) && QuietAction(a) && !TxnAction(a) && !a.BeginGroup? && ClientKept(s, c, At(s, c))
    ensures ClientKept(s, c, At(Do(s, c, a), c))
  {
    if a.Fail? && At(s, c).InTxn? { SameWorkKept(s, c, At(s, c), AfterAbort(At(s, c))); }
  }

  lemma QuietClientKept(s: Sys, c: ClientId, a: Action)
    requires Kept(s) && Can(s, c, a) && QuietAction(a)
    ensures ClientKept(s, c, At(Do(s, c, a), c))
  {
    assert ClientKept(s, c, At(s, c));
    if TxnAction(a) {
      TxnActionShape(s, c, a);
      SameWorkKept(s, c, At(s, c), At(Do(s, c, a), c));
    } else if a.BeginGroup? {
      BeginGroupKept(s, c, a.table, a.order);
    } else {
      OtherClientKept(s, c, a);
    }
  }

  /** A step that publishes nothing and mints nothing for anyone else. */
  lemma QuietStep(s: Sys, s': Sys, c: ClientId)
    requires Kept(s) && Inv(s') && OnlyMoves(s, s', c) && ClientKept(s, c, At(s', c))
    ensures Kept(s')
  {
    forall d ensures ClientKept(s', d, At(s', d)) {
      assert ClientKept(s, d, At(s', d)) by { assert ClientKept(s, d, At(s, d)); }
    }
  }

  /** Minting a fresh extent id disturbs no one. */
  lemma MintStep(s: Sys, s': Sys, c: ClientId)
    requires Kept(s) && Inv(s') && s'.db == s.db && s'.log == s.log && s'.accepted == s.accepted
    requires forall x :: x in s.minted ==> x in s'.minted && s'.minted[x] == s.minted[x]
    requires forall d :: d != c ==> At(s', d) == At(s, d)
    requires ClientKept(s', c, At(s', c))
    ensures Kept(s')
  {
    forall d ensures ClientKept(s', d, At(s', d)) {
      assert ClientKept(s, d, At(s, d));
    }
  }

  lemma FreshWorkOk(s: Sys, s': Sys, c: ClientId, added: seq<Manifest>)
    requires RowsKept(s) && s'.log == s.log && s'.minted == s.minted + Mints(added, Writer(c))
    requires forall i :: 0 <= i < |added| ==> added[i].id !in s.minted
    ensures WorkOk(s', c, added)
  {
    forall i | 0 <= i < |added| ensures Owned(s', added[i].id, Writer(c)) && AddCount(s'.log, added[i].id) == 0 {
      assert HasId(added, added[i].id);
    }
  }

  lemma WorkStepKept(s: Sys, c: ClientId, t: TableId, added: seq<Manifest>, removed: set<ExtentId>)
    requires Kept(s) && DistinctIds(added)
    requires forall i :: 0 <= i < |added| ==> added[i].id !in s.minted && added[i].table == t
    requires forall x :: x in removed ==> x in s.minted && s.minted[x].manifest.table == t
    ensures Kept(WorkStep(s, c, t, added, removed))
  {
    var s' := WorkStep(s, c, t, added, removed);
    NewWork(s, c, t, added, removed);
    MintingGrows(s, s', added, Writer(c));
    FreshWorkOk(s, s', c, added);
    MintStep(s, s', c);
  }

  // ---------------------------------------------------------------- publishing steps

  lemma CountsAfterPublish(s: Sys, c: ClientId)
    requires ReadyToPublish(s, c)
    ensures var s', added := PublishStep(s, c), At(s, c).txn.added;
      forall x :: AddCount(s'.log, x) == AddCount(s.log, x) + (if HasId(added, x) then 1 else 0)
  {
    forall x ensures AddCount(PublishStep(s, c).log, x)
                  == AddCount(s.log, x) + (if HasId(At(s, c).txn.added, x) then 1 else 0)
    { AddCountAppend(s.log, OpOf(At(s, c).txn), x); }
  }

  /** Whoever owns an id is the only one whose commit adds it. */
  lemma OwnersOfAdded(s: Sys, c: ClientId, x: ExtentId)
    requires Kept(s) && ReadyToPublish(s, c) && HasId(At(s, c).txn.added, x)
    ensures x in s.minted
    ensures At(s, c).txn.kind.Direct? ==> s.minted[x].owner == Writer(c)
    ensures At(s, c).txn.kind.Grouped? ==>
      && s.minted[x].owner.Router?
      && var sid := s.minted[x].owner.sid;
         sid in At(s, c).txn.group && sid in s.accepted && s.accepted[sid].id == x
  {
    var txn, held := At(s, c).txn, At(s, c).held;
    assert ClientOk(s, At(s, c));
    assert ClientKept(s, c, At(s, c));
    var i :| 0 <= i < |txn.added| && txn.added[i].id == x;
    assert MintedFor(s.minted, txn.added[i], txn.table);
    if txn.kind.Grouped? {
      assert Sourced(txn.group, txn.added[i]);
      var sid :| sid in txn.group && txn.group[sid] == txn.added[i];
      assert held[sid] == s.accepted[sid];
    }
  }

  /** A commit adds a staged row exactly when it takes it out of the staging table. */
  lemma AddedIffDestaged(s: Sys, c: ClientId, sid: StagedId)
    requires Kept(s) && ReadyToPublish(s, c) && sid in s.accepted
    ensures HasId(At(s, c).txn.added, s.accepted[sid].id) <==> sid in At(s, c).txn.group
  {
    assert ClientKept(s, c, At(s, c));
    assert ClientOk(s, At(s, c));
    if HasId(At(s, c).txn.added, s.accepted[sid].id) { OwnersOfAdded(s, c, s.accepted[sid].id); }
  }

  lemma RowsAfterPublish(s: Sys, c: ClientId)
    requires Kept(s) && ReadyToPublish(s, c)
    ensures RowsKept(PublishStep(s, c))
  {
    var s', txn := PublishStep(s, c), At(s, c).txn;
    CountsAfterPublish(s, c);
    forall x ensures AddCount(s'.log, x) > 0 ==> x in s'.minted {
      if HasId(txn.added, x) { OwnersOfAdded(s, c, x); }
    }
    forall sid | sid in s'.accepted
      ensures Owned(s', s'.accepted[sid].id, Router(sid))
      ensures sid in s'.db.staged <==> AddCount(s'.log, s'.accepted[sid].id) == 0
    { AddedIffDestaged(s, c, sid); }
  }

  lemma OthersWorkOk(s: Sys, c: ClientId, d: ClientId, added: seq<Manifest>)
    requires Kept(s) && ReadyToPublish(s, c) && d != c && WorkOk(s, d, added)
    ensures WorkOk(PublishStep(s, c), d, added)
  {
    CountsAfterPublish(s, c);
    forall i | 0 <= i < |added| ensures !HasId(At(s, c).txn.added, added[i].id) {
      if HasId(At(s, c).txn.added, added[i].id) { OwnersOfAdded(s, c, added[i].id); }
    }
  }

  lemma BystanderAfterPublish(s: Sys, c: ClientId, d: ClientId, client: Client)
    requires Kept(s) && ReadyToPublish(s, c) && d != c && ClientKept(s, d, client)
    ensures ClientKept(PublishStep(s, c), d, client)
  {
    if client.Working? { OthersWorkOk(s, c, d, client.added); }
    if client.InTxn? && client.txn.kind.Direct? { OthersWorkOk(s, c, d, client.txn.added); }
  }

  lemma PublishKept(s: Sys, c: ClientId)
    requires Kept(s) && ReadyToPublish(s, c)
    ensures Kept(PublishStep(s, c))
  {
    var s' := PublishStep(s, c);
    PublishStepKeeps(s, c);
    RowsAfterPublish(s, c);
    PublisherAfter(s, c);
    forall d ensures ClientKept(s', d, At(s', d)) {
      assert ClientKept(s, d, At(s, d));
      if d != c { BystanderAfterPublish(s, c, d, At(s, d)); }
    }
  }

  /** Staging only adds an accepted row with an id never added before. */
  ghost predicate Staged(s: Sys, s': Sys, sid: StagedId, row: StagedRow) {
    && sid !in s.accepted && row.manifest.id !in s.minted && s'.clients == s.clients
    && s'.db == s.db.(staged := s.db.staged[sid := row])
    && s'.minted == s.minted[row.manifest.id := Mint(row.manifest, Router(sid))]
    && s'.accepted == s.accepted[sid := row.manifest]
    && s'.log == s.log + [Stage(sid, row)]
  }

  lemma CountsAfter(s: Sys, s': Sys, op: Op)
    requires !op.Commit? && s'.log == s.log + [op]
    ensures forall x :: AddCount(s'.log, x) == AddCount(s.log, x)
  {
    forall x ensures AddCount(s'.log, x) == AddCount(s.log, x) { AddCountAppend(s.log, op, x); }
  }

  lemma RowsAfterStage(s: Sys, s': Sys, sid: StagedId, row: StagedRow)
    requires RowsKept(s) && Staged(s, s', sid, row)
    ensures RowsKept(s')
  {
    assert AddCount(s.log, row.manifest.id) == 0;
    CountsAfter(s, s', Stage(sid, row));
  }

  lemma ClientAfterStage(s: Sys, s': Sys, sid: StagedId, row: StagedRow, d: ClientId, client: Client)
    requires ClientKept(s, d, client) && Staged(s, s', sid, row)
    ensures ClientKept(s', d, client)
  {
    CountsAfter(s, s', Stage(sid, row));
  }

  lemma StagedKept(s: Sys, s': Sys, sid: StagedId, row: StagedRow)
    requires Kept(s) && Inv(s') && Staged(s, s', sid, row)
    ensures Kept(s')
  {
    RowsAfterStage(s, s', sid, row);
    forall d ensures ClientKept(s', d, At(s', d)) {
      assert ClientKept(s, d, At(s, d));
      ClientAfterStage(s, s', sid, row, d, At(s, d));
    }
  }

  lemma StageRowKept(s: Sys, c: ClientId, sid: StagedId, batch: BatchId, m: Manifest)
    requires Kept(s) && Stageable(s, sid, m)
    ensures Kept(StageStep(s, sid, batch, m))
  {
    StageRowKeeps(s, c, sid, batch, m);
    if BatchStaged(s.db, batch) {
      assert ClientKept(s, c, At(s, c));
      MintStep(s, StageStep(s, sid, batch, m), c);
    } else {
      StagedKept(s, StageStep(s, sid, batch, m), sid, StagedRow(batch, m));
    }
  }

  /** A published operation that adds and stages nothing. */
  lemma NoAddsKept(s: Sys, s': Sys, op: Op)
    requires Kept(s) && Inv(s') && !op.Commit? && s'.log == s.log + [op]
    requires s'.db.staged == s.db.staged && s'.accepted == s.accepted && s'.minted == s.minted
    requires forall d :: At(s', d) == At(s, d) || At(s', d).Idle?
    ensures Kept(s')
  {
    CountsAfter(s, s', op);
    forall d ensures ClientKept(s', d, At(s', d)) { assert ClientKept(s, d, At(s, d)); }
  }

  lemma SameClientsKept(s: Sys, s': Sys, op: Op)
    requires Kept(s) && Inv(s') && !op.Commit? && s'.log == s.log + [op] && s'.clients == s.clients
    requires s'.db.staged == s.db.staged && s'.accepted == s.accepted && s'.minted == s.minted
    ensures Kept(s')
  {
    forall d ensures At(s', d) == At(s, d) {}
    NoAddsKept(s, s', op);
  }

  lemma CreateKept(s: Sys, c: ClientId, op: Op)
    requires Kept(s) && op.CreateTable? && Enabled(s.db, op) && op.snap !in s.used && op.schema !in s.usedSchemas
    ensures Kept(CreateStep(s, op))
  {
    CreateStepKeeps(s, c, op);
    SameClientsKept(s, CreateStep(s, op), op);
  }

  lemma AlterKept(s: Sys, c: ClientId)
    requires Kept(s) && ReadyToAlter(s, c)
    ensures Kept(AlterStep(s, c))
  {
    AlterPublishKeeps(s, c);
    NoAddsKept(s, AlterStep(s, c), AlterOp(At(s, c).alter));
  }

  lemma PurgeKept(s: Sys, c: ClientId, x: ExtentId)
    requires Kept(s) && RowFree(s, x)
    ensures Kept(PurgeStep(s, x))
  {
    PurgeStepKeeps(s, c, x);
    SameClientsKept(s, PurgeStep(s, x), Purge(x));
  }

  lemma LoudStepKept(s: Sys, c: ClientId, a: Action)
    requires Kept(s) && Can(s, c, a) && !QuietAction(a)
    ensures Kept(Do(s, c, a))
  {
    if a.MakeExtents? { WorkStepKept(s, c, a.table, a.added, a.removed); }
    else if a.Create? { CreateKept(s, c, a.op); }
    else if a.Publish? { PublishKept(s, c); }
    else if a.StageRow? { StageRowKept(s, c, a.sid, a.batch, a.manifest); }
    else if a.AlterPublish? { AlterKept(s, c); }
    else { PurgeKept(s, c, a.extent); }
  }

  lemma QuietStepKept(s: Sys, c: ClientId, a: Action)
    requires Kept(s) && Can(s, c, a) && QuietAction(a)
    ensures Kept(Do(s, c, a))
  {
    StepKeeps(s, c, a);
    QuietMoves(s, c, a);
    QuietClientKept(s, c, a);
    QuietStep(s, Do(s, c, a), c);
  }

  lemma StepKept(s: Sys, c: ClientId, a: Action)
    requires Kept(s) && Can(s, c, a)
    ensures Kept(Do(s, c, a))
  {
    if QuietAction(a) { QuietStepKept(s, c, a); } else { LoudStepKept(s, c, a); }
  }

  // ---------------------------------------------------------------- whole runs

  lemma StartKept()
    ensures Kept(Start)
  {
    StartOk();
    forall c ensures ClientKept(Start, c, At(Start, c)) {}
  }

  lemma {:induction false} RunKept(s: Sys, trace: seq<Event>, s': Sys)
    requires Kept(s) && Runs(s, trace, s')
    ensures Kept(s')
    decreases |trace|
  {
    if trace != [] {
      StepKept(s, trace[0].client, trace[0].action);
      RunKept(Do(s, trace[0].client, trace[0].action), trace[1..], s');
    }
  }

  /** Never lost: in every run whatever, an accepted row has left the staging
      table exactly when some commit has added it to the chain. */
  lemma DestagedIffCommitted(trace: seq<Event>, s: Sys, sid: StagedId)
    requires Runs(Start, trace, s) && sid in s.accepted
    ensures sid !in s.db.staged <==> AddCount(s.log, s.accepted[sid].id) >= 1
  {
    StartKept();
    RunKept(Start, trace, s);
  }

  /** Exactly once: in every run whatever, a row that has left the staging
      table was added by exactly one commit if and only if no commit added it
      after a purge had removed it. */
  lemma CommittedOnceIff(trace: seq<Event>, s: Sys, sid: StagedId)
    requires Runs(Start, trace, s) && sid in s.accepted && sid !in s.db.staged
    ensures Serial(s.log)
    ensures AddCount(s.log, s.accepted[sid].id) == 1 <==> NeverReadded(s.log, s.accepted[sid].id)
  {
    StartKept();
    RunKept(Start, trace, s);
    AddedOnceIff(s.log, s.accepted[sid].id);
  }

  /** What a committer can check as it commits: the commit is the first to add
      `x` exactly when no purge has removed `x` before. */
  lemma CommitIsFirstIff(s: Sys, c: ClientId, x: ExtentId)
    requires Inv(s) && ReadyToPublish(s, c) && HasId(At(s, c).txn.added, x)
    ensures AddCount(PublishStep(s, c).log, x) == 1 <==> PurgeCount(s.log, x) == 0
  {
    PublishAtomic(s, c);
    SerialAppend(s.log, OpOf(At(s, c).txn));
    CountsAfterPublish(s, c);
    RowAccounting(s.log, x);
    AddFindsNoRow(s.log + [OpOf(At(s, c).txn)], x);
    assert (s.log + [OpOf(At(s, c).txn)])[..|s.log|] == s.log;
  }
}
