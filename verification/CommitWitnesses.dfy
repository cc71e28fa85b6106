/**
  Runs of clients, statement by statement, in which the conditions on the
  collector and on rewrites are not met: a staged row committed twice, and a
  source rewritten twice.
 */
module CommitWitnesses {
  import opened Options
  import opened Catalog
  import opened CommitProtocol
  import opened CommitRuns
  import opened CommitStaging
  import opened CommitConservation

  // ---------------------------------------------------------------- building runs

  ghost predicate Follows(s: Sys, s': Sys) { exists c, a :: Can(s, c, a) && s' == Do(s, c, a) }

  ghost predicate Link(states: seq<Sys>, i: nat) { i + 1 < |states| ==> Follows(states[i], states[i + 1]) }

  ghost predicate Path(states: seq<Sys>) {
    |states| > 0 && states[0] == Start && forall i: nat {:trigger Link(states, i)} :: Link(states, i)
  }

  ghost predicate Reached(s: Sys) { exists states :: Path(states) && states[|states| - 1] == s }

  lemma {:induction false} RunsAppend(s: Sys, trace: seq<Event>, mid: Sys, c: ClientId, a: Action)
    requires Runs(s, trace, mid) && Can(mid, c, a)
    ensures Runs(s, trace + [Event(c, a)], Do(mid, c, a))
    decreases |trace|
  {
    var longer := trace + [Event(c, a)];
    if trace == [] {
      assert longer[1..] == [];
    } else {
      RunsAppend(Do(s, trace[0].client, trace[0].action), trace[1..], mid, c, a);
      assert longer[0] == trace[0] && longer[1..] == trace[1..] + [Event(c, a)];
    }
  }

  lemma ReachedStep(s: Sys, c: ClientId, a: Action)
    requires Reached(s) && Can(s, c, a)
    ensures Reached(Do(s, c, a))
  {
    var states :| Path(states) && states[|states| - 1] == s;
    PathExtends(states, Do(s, c, a));
  }

  lemma PathExtends(states: seq<Sys>, s': Sys)
    requires Path(states) && Follows(states[|states| - 1], s')
    ensures Path(states + [s']) && Reached(s')
  {
    var longer := states + [s'];
    forall i: nat ensures Link(longer, i) { assert Link(states, i); }
    assert Path(longer) && longer[|longer| - 1] == s';
  }

  /** The runs that end in `s`. */
  ghost predicate Runnable(s: Sys) { exists trace :: Runs(Start, trace, s) }

  lemma {:induction false} PathRuns(states: seq<Sys>)
    requires Path(states)
    ensures Runnable(states[|states| - 1])
    decreases |states|
  {
    if |states| == 1 {
      assert Runs(Start, [], Start);
    } else {
      var init := states[..|states| - 1];
      forall i: nat ensures Link(init, i) { assert Link(states, i); }
      PathRuns(init);
      assert Link(states, |states| - 2);
      StepRuns(init[|init| - 1], states[|states| - 1]);
    }
  }

  lemma StepRuns(s: Sys, s': Sys)
    requires Follows(s, s') && Runnable(s)
    ensures Runnable(s')
  {
    var trace :| Runs(Start, trace, s);
    var c, a :| Can(s, c, a) && s' == Do(s, c, a);
    RunsAppend(Start, trace, s, c, a);
  }

  lemma ReachedRuns(s: Sys)
    requires Reached(s)
    ensures Runnable(s)
  {
    var states :| Path(states) && states[|states| - 1] == s;
    PathRuns(states);
  }

  lemma ReachedOk(s: Sys)
    requires Reached(s)
    ensures Inv(s) && Kept(s) && Wf(s.db)
  {
    ReachedRuns(s);
    var trace :| Runs(Start, trace, s);
    StartKept();
    RunKept(Start, trace, s);
    SerialWf(s.log);
  }

  /** No client holds the lock on a table row. */
  ghost predicate NoLocks(s: Sys) { forall d {:trigger At(s, d)} :: TableLock(At(s, d)).None? }

  lemma StillNoLocks(s: Sys, s': Sys, c: ClientId)
    requires NoLocks(s) && TableLock(At(s', c)).None? && forall d :: d != c ==> At(s', d) == At(s, d)
    ensures NoLocks(s')
  {
    forall d ensures TableLock(At(s', d)).None? { assert TableLock(At(s, d)).None?; }
  }

  // ---------------------------------------------------------------- a commit that meets no conflict

  /** Only client `c` has moved on, inside the transaction it was in. */
  ghost predicate Onward(s: Sys, s': Sys, c: ClientId) {
    Reached(s') && OnlyMoves(s, s', c) && SameWork(At(s', c), At(s, c))
  }

  lemma NumberStep(s: Sys, c: ClientId) returns (s': Sys)
    requires Reached(s) && At(s, c).InTxn? && At(s, c).txn.pc.Begun?
    ensures Onward(s, s', c) && At(s', c).txn.pc.NumberRead? && s'.used == s.used
  {
    ReachedOk(s);
    assert ClientOk(s, At(s, c));
    ReachedStep(s, c, ReadNumber);
    s' := Do(s, c, ReadNumber);
    TxnActionMoves(s, c, ReadNumber);
  }

  lemma SnapStep(s: Sys, c: ClientId, snap: SnapId) returns (s': Sys)
    requires Reached(s) && At(s, c).InTxn? && At(s, c).txn.pc.NumberRead? && Unmoved(s.db, At(s, c).txn)
    requires snap !in s.used
    ensures Onward(s, s', c) && At(s', c).txn.pc.SnapIn? && s'.used == s.used + {snap}
    ensures At(s', c).txn.snap == snap && At(s', c).txn.inserted == 0 && At(s', c).txn.writes == map[]
  {
    ReachedOk(s);
    assert ClientOk(s, At(s, c));
    assert At(s, c).txn.added[..0] == [];
    NumberTakenIffStale(s, c);
    ReachedStep(s, c, InsertSnap(snap));
    s' := Do(s, c, InsertSnap(snap));
    TxnActionMoves(s, c, InsertSnap(snap));
  }

  lemma RowStep(s: Sys, c: ClientId) returns (s': Sys)
    requires Reached(s) && At(s, c).InTxn? && At(s, c).txn.pc.SnapIn? && At(s, c).txn.inserted < |At(s, c).txn.added|
    requires var txn := At(s, c).txn;
      txn.added[txn.inserted].id !in s.db.extents && txn.added[txn.inserted].id !in txn.writes
    ensures Onward(s, s', c) && At(s', c).txn == InsertRow(At(s, c).txn) && s'.used == s.used
  {
    ReachedStep(s, c, InsertExtent);
    s' := Do(s, c, InsertExtent);
    TxnActionMoves(s, c, InsertExtent);
  }

  /** The read, the insert of the snapshot and that of at most one extent. */
  lemma OpenCommit(s: Sys, c: ClientId, snap: SnapId) returns (s': Sys)
    requires Reached(s) && At(s, c).InTxn? && At(s, c).txn.pc.Begun? && Unmoved(s.db, At(s, c).txn)
    requires |At(s, c).txn.added| <= 1 && snap !in s.used
    requires forall i :: 0 <= i < |At(s, c).txn.added| ==> At(s, c).txn.added[i].id !in s.db.extents
    ensures Onward(s, s', c) && s'.used == s.used + {snap}
    ensures var txn := At(s', c).txn; txn.pc.SnapIn? && txn.snap == snap && txn.inserted == |txn.added|
  {
    var s1 := NumberStep(s, c);
    s' := SnapStep(s1, c, snap);
    if At(s, c).txn.added != [] {
      var s2 := s';
      s' := RowStep(s2, c);
    }
  }

  lemma RetireStep(s: Sys, c: ClientId, now: Time) returns (s': Sys)
    requires Reached(s) && At(s, c).InTxn? && At(s, c).txn.kind.Direct? && At(s, c).txn.pc.SnapIn?
    requires At(s, c).txn.inserted == |At(s, c).txn.added|
    ensures Onward(s, s', c) && At(s', c).txn == RetireRows(s.db.extents, At(s, c).txn, now) && s'.used == s.used
  {
    ReachedStep(s, c, SoftDelete(now));
    s' := Do(s, c, SoftDelete(now));
    TxnActionMoves(s, c, SoftDelete(now));
  }

  lemma SwapStep(s: Sys, c: ClientId) returns (s': Sys)
    requires Reached(s) && Can(s, c, Swap) && Unmoved(s.db, At(s, c).txn)
    ensures Onward(s, s', c) && At(s', c).txn == At(s, c).txn.(pc := Swapped) && s'.used == s.used
  {
    ReachedStep(s, c, Swap);
    s' := Do(s, c, Swap);
    TxnActionMoves(s, c, Swap);
  }

  lemma DestageStep(s: Sys, c: ClientId) returns (s': Sys)
    requires Reached(s) && Can(s, c, Destage)
    ensures Onward(s, s', c) && At(s', c).txn == At(s, c).txn.(pc := Destaged) && s'.used == s.used
  {
    ReachedStep(s, c, Destage);
    s' := Do(s, c, Destage);
    TxnActionMoves(s, c, Destage);
  }

  /** What a commit by client `c` leaves of the rows, and of everything else. */
  ghost predicate Committed(s: Sys, s': Sys, c: ClientId, op: Op) {
    && op.Commit? && Reached(s') && s'.log == s.log + [op]
    && s'.db.extents == Retire(s.db.extents + Inserts(op.added), op.removed, op.now)
    && s'.db.tables.Keys == s.db.tables.Keys && s'.db.staged == s.db.staged - op.group
    && op.table in s'.db.tables && s'.db.tables[op.table].current == op.snap
    && s'.accepted == s.accepted && s'.minted == s.minted
    && forall d :: d != c ==> At(s', d) == At(s, d)
  }

  lemma EndStep(s: Sys, c: ClientId) returns (s': Sys)
    requires Reached(s) && ReadyToPublish(s, c)
    ensures Committed(s, s', c, OpOf(At(s, c).txn)) && s'.used == s.used
    ensures At(s, c).txn.kind.Direct? ==> At(s', c).Idle?
    ensures At(s, c).txn.kind.Grouped? ==> At(s', c).Holding?
  {
    ReachedOk(s);
    ReachedStep(s, c, Publish);
    PublishKeeps(s, c);
    PublisherAfter(s, c);
    s' := PublishStep(s, c);
  }

  lemma BeginStep(s: Sys, c: ClientId) returns (s': Sys)
    requires Reached(s) && NoLocks(s) && At(s, c).Working? && At(s, c).table in s.db.tables
    ensures Reached(s') && NoLocks(s') && OnlyMoves(s, s', c) && s'.used == s.used
    ensures var me := At(s, c);
      At(s', c) == InTxn(BegunTxn(s.db.tables[me.table], me.table, me.added, me.removed), map[])
  {
    ReachedStep(s, c, Begin);
    s' := Do(s, c, Begin);
    OtherQuietMoves(s, c, Begin);
    StillNoLocks(s, s', c);
  }

  /** From an open direct transaction to its end. */
  lemma CloseDirect(s: Sys, c: ClientId, now: Time) returns (s': Sys)
    requires Reached(s) && NoLocks(s) && At(s, c).InTxn? && Unmoved(s.db, At(s, c).txn)
    requires var txn := At(s, c).txn; txn.kind.Direct? && txn.pc.SnapIn? && txn.inserted == |txn.added|
    ensures Committed(s, s', c, OpOf(At(s, c).txn.(now := now))) && At(s', c).Idle? && s'.used == s.used
  {
    var s1 := RetireStep(s, c, now);
    var s2 := SwapStep(s1, c);
    ReachedOk(s);
    s' := EndStep(s2, c);
  }

  /** From a begun direct transaction to its end. */
  lemma DirectCommit(s: Sys, c: ClientId, snap: SnapId, now: Time) returns (s': Sys, op: Op)
    requires Reached(s) && NoLocks(s) && snap !in s.used && At(s, c).InTxn? && Unmoved(s.db, At(s, c).txn)
    requires At(s, c).txn.kind.Direct? && At(s, c).txn.pc.Begun? && |At(s, c).txn.added| <= 1
    requires forall i :: 0 <= i < |At(s, c).txn.added| ==> At(s, c).txn.added[i].id !in s.db.extents
    ensures Committed(s, s', c, op) && NoLocks(s') && At(s', c).Idle? && s'.used == s.used + {snap}
    ensures var txn := At(s, c).txn;
      op.table == txn.table && op.snap == snap && op.added == txn.added && op.removed == txn.removed && op.now == now
  {
    var s1 := OpenCommit(s, c, snap);
    s' := CloseDirect(s1, c, now);
    op := OpOf(At(s1, c).txn.(now := now));
    StillNoLocks(s, s', c);
  }

  /** From held rows to the end of the commit of one of them. */
  lemma GroupCommit(s: Sys, c: ClientId, t: TableId, sid: StagedId, snap: SnapId) returns (s': Sys, op: Op)
    requires Reached(s) && NoLocks(s) && snap !in s.used && At(s, c).Holding? && t in s.db.tables
    requires sid in At(s, c).rows && At(s, c).rows[sid].table == t && At(s, c).rows[sid].id !in s.db.extents
    ensures Committed(s, s', c, op) && NoLocks(s') && s'.used == s.used + {snap}
    ensures op.Commit? && op.table == t && op.snap == snap && op.added == [At(s, c).rows[sid]] && op.removed == {}
    ensures op.group == {sid} && At(s', c).Holding?
  {
    var s1 := GroupStep(s, c, t, sid);
    var s2 := OpenCommit(s1, c, snap);
    StillNoLocks(s, s2, c);
    s' := CloseGroup(s2, c);
    op := OpOf(At(s2, c).txn);
    StillNoLocks(s, s', c);
  }

  lemma CloseGroup(s: Sys, c: ClientId) returns (s': Sys)
    requires Reached(s) && NoLocks(s) && At(s, c).InTxn? && Unmoved(s.db, At(s, c).txn)
    requires var txn := At(s, c).txn; txn.kind.Grouped? && txn.pc.SnapIn? && txn.inserted == |txn.added|
    ensures Committed(s, s', c, OpOf(At(s, c).txn)) && At(s', c).Holding? && s'.used == s.used
  {
    var s1 := SwapStep(s, c);
    var s2 := DestageStep(s1, c);
    s' := EndStep(s2, c);
  }

  lemma CanBeginGroup(s: Sys, c: ClientId, t: TableId, sid: StagedId)
    requires At(s, c).Holding? && t in s.db.tables && sid in At(s, c).rows && At(s, c).rows[sid].table == t
    ensures Can(s, c, BeginGroup(t, [sid]))
    ensures Do(s, c, BeginGroup(t, [sid]))
         == Becomes(s, c, InTxn(GroupTxn(s.db.tables[t].current, t, At(s, c).rows, [sid]), At(s, c).rows))
  {}

  lemma GroupStep(s: Sys, c: ClientId, t: TableId, sid: StagedId) returns (s': Sys)
    requires Reached(s) && At(s, c).Holding? && t in s.db.tables
    requires sid in At(s, c).rows && At(s, c).rows[sid].table == t
    ensures Reached(s') && OnlyMoves(s, s', c) && s'.used == s.used
    ensures At(s', c) == InTxn(GroupTxn(s.db.tables[t].current, t, At(s, c).rows, [sid]), At(s, c).rows)
  {
    CanBeginGroup(s, c, t, sid);
    ReachedStep(s, c, BeginGroup(t, [sid]));
    s' := Do(s, c, BeginGroup(t, [sid]));
  }

  // ---------------------------------------------------------------- other steps

  ghost predicate Makeable(s: Sys, c: ClientId, t: TableId, added: seq<Manifest>, removed: set<ExtentId>) {
    && At(s, c).Idle? && DistinctIds(added)
    && (forall i :: 0 <= i < |added| ==> added[i].id !in s.minted && added[i].table == t)
    && (forall x :: x in removed ==> x in s.minted && s.minted[x].manifest.table == t)
  }

  lemma MakeReached(s: Sys, c: ClientId, t: TableId, added: seq<Manifest>, removed: set<ExtentId>)
    requires Reached(s) && Makeable(s, c, t, added, removed)
    ensures Reached(WorkStep(s, c, t, added, removed))
  {
    ReachedStep(s, c, MakeExtents(t, added, removed));
  }

  lemma OneMint(m: Manifest, owner: Owner)
    ensures Mints([m], owner) == map[m.id := Mint(m, owner)]
  {
    assert [m][..0] == [];
  }

  /** One new extent is written, to replace those in `removed`. */
  lemma MakeStep(s: Sys, c: ClientId, t: TableId, m: Manifest, removed: set<ExtentId>) returns (s': Sys)
    requires Reached(s) && NoLocks(s) && Makeable(s, c, t, [m], removed)
    ensures Reached(s') && NoLocks(s') && s' == Becomes(s, c, Working(t, [m], removed)).(minted := s'.minted)
    ensures s'.minted == s.minted[m.id := Mint(m, Writer(c))] && forall d :: d != c ==> At(s', d) == At(s, d)
  {
    MakeReached(s, c, t, [m], removed);
    OneMint(m, Writer(c));
    s' := WorkStep(s, c, t, [m], removed);
    StillNoLocks(s, s', c);
  }

  /** A run that only removes. */
  lemma ExpireStep(s: Sys, c: ClientId, t: TableId, removed: set<ExtentId>) returns (s': Sys)
    requires Reached(s) && NoLocks(s) && Makeable(s, c, t, [], removed)
    ensures Reached(s') && NoLocks(s') && s' == Becomes(s, c, Working(t, [], removed))
    ensures forall d :: d != c ==> At(s', d) == At(s, d)
  {
    MakeReached(s, c, t, [], removed);
    s' := WorkStep(s, c, t, [], removed);
    StillNoLocks(s, s', c);
  }

  const Created := CreateTable(0, 0, 0, [])

  /** One table, and no client doing anything. */
  lemma Founded() returns (s: Sys)
    ensures Reached(s) && NoLocks(s) && forall d :: At(s, d) == Idle
    ensures s.log == [Created] && s.used == {0} && s.minted == map[] && s.accepted == map[]
    ensures 0 in s.db.tables && s.db.extents == map[] && s.db.staged == map[]
  {
    assert Path([Start]);
    ReachedStep(Start, 0, Create(Created));
    s := CreateStep(Start, Created);
  }

  lemma OneInsert(m: Manifest)
    ensures Inserts([m]) == map[m.id := RowOf(m)]
    ensures SumRows([m]) == m.rows && HasId([m], m.id) && forall x :: HasId([m], x) ==> x == m.id
  {
    assert [m][..0] == [];
    assert [m][0].id == m.id;
  }

  function Gone(row: ExtentRow): ExtentRow { row.(deletedAt := Some(0)) }

  lemma RowsAppended(rows: map<ExtentId, ExtentRow>, m: Manifest, now: Time)
    requires m.id !in rows
    ensures Retire(rows + Inserts([m]), {}, now) == rows[m.id := RowOf(m)]
  {
    OneInsert(m);
  }

  lemma RowsReplaced(rows: map<ExtentId, ExtentRow>, x: ExtentId, m: Manifest)
    requires m.id !in rows && m.id != x && x in rows
    ensures Retire(rows + Inserts([m]), {x}, 0) == rows[x := RetireRow(rows[x], true, 0)][m.id := RowOf(m)]
  {
    OneInsert(m);
  }

  lemma RowsRetired(rows: map<ExtentId, ExtentRow>, x: ExtentId)
    requires x in rows
    ensures Retire(rows + Inserts([]), {x}, 0) == rows[x := RetireRow(rows[x], true, 0)]
  {}

  // ---------------------------------------------------------------- one source rewritten twice

  function Ten(id: ExtentId): Manifest { Manifest(id, 0, 10) }

  /** Extent 1 is committed. */
  lemma OneIngest() returns (s: Sys)
    ensures Reached(s) && NoLocks(s) && 0 in s.db.tables && s.used == {0, 1} && forall d :: At(s, d) == Idle
    ensures s.db.extents == map[1 := RowOf(Ten(1))] && s.minted == map[1 := Mint(Ten(1), Writer(1))]
    ensures RowsIn(s.log, 0, Ingest) == 10
  {
    var s0 := Founded();
    var s1 := MakeStep(s0, 1, 0, Ten(1), {});
    var s2 := BeginStep(s1, 1);
    var op;
    s, op := DirectCommit(s2, 1, 1, 0);
    RowsAppended(map[], Ten(1), 0);
    FirstIngest(op);
  }

  lemma FirstIngest(op: Op)
    requires op.Commit? && op.table == 0 && op.removed == {} && op.added == [Ten(1)]
    ensures RowsIn([Created] + [op], 0, Ingest) == 10
  {
    OneInsert(Ten(1));
    var log := [Created] + [op];
    assert log[..1] == [Created] && [Created][..0] == [];
    assert RowsIn([Created], 0, Ingest) == 0;
  }

  /** Clients 2 and 3 have each rewritten extent 1. */
  ghost predicate Rewriting(s: Sys, rows: map<ExtentId, ExtentRow>) {
    && Reached(s) && NoLocks(s) && 0 in s.db.tables && s.db.extents == rows && RowsIn(s.log, 0, Ingest) == 10
    && At(s, 3) == Working(0, [Ten(3)], {1})
  }

  lemma TwoRewrites() returns (s: Sys)
    ensures Rewriting(s, map[1 := RowOf(Ten(1))]) && s.used == {0, 1} && At(s, 2) == Working(0, [Ten(2)], {1})
  {
    var s0 := OneIngest();
    var s1 := MakeStep(s0, 2, 0, Ten(2), {1});
    s := MakeStep(s1, 3, 0, Ten(3), {1});
  }

  /** A transaction whose parent is no longer current ends where it began. */
  lemma ConflictStep(s: Sys, c: ClientId, snap: SnapId) returns (s': Sys)
    requires Reached(s) && NoLocks(s) && At(s, c).InTxn? && At(s, c).txn.pc.Begun? && At(s, c).txn.kind.Direct?
    requires At(s, c).txn.table in s.db.tables && !Unmoved(s.db, At(s, c).txn) && snap !in s.used
    ensures Reached(s') && NoLocks(s') && OnlyMoves(s, s', c) && s'.used == s.used
    ensures var txn := At(s, c).txn; At(s', c) == Working(txn.table, txn.added, txn.removed)
  {
    var s1 := NumberStep(s, c);
    ReachedOk(s1);
    NumberTakenIffStale(s1, c);
    ReachedStep(s1, c, InsertSnap(snap));
    TxnActionMoves(s1, c, InsertSnap(snap));
    s' := Do(s1, c, InsertSnap(snap));
    StillNoLocks(s, s', c);
  }

  /** A current snapshot is an id already used. */
  lemma CurrentUsed(s: Sys, t: TableId)
    requires Reached(s) && t in s.db.tables
    ensures s.db.tables[t].current in s.used
  {
    ReachedOk(s);
    assert TableOk(s.db, t);
  }

  ghost predicate Rewrites(client: Client, id: ExtentId) {
    client.InTxn? && client.txn.pc.Begun? && client.txn.kind.Direct? && client.txn.table == 0
    && client.txn.added == [Ten(id)] && client.txn.removed == {1}
  }

  /** Clients 3 and 2 begin on one parent. */
  lemma BothBegin(s: Sys) returns (s': Sys)
    requires Rewriting(s, map[1 := RowOf(Ten(1))]) && s.used == {0, 1} && At(s, 2) == Working(0, [Ten(2)], {1})
    ensures Reached(s') && NoLocks(s') && 0 in s'.db.tables && s'.used == {0, 1}
    ensures s'.db.extents == map[1 := RowOf(Ten(1))] && RowsIn(s'.log, 0, Ingest) == 10
    ensures Rewrites(At(s', 3), 3) && At(s', 3).txn.parent in s'.used
    ensures Rewrites(At(s', 2), 2) && Unmoved(s'.db, At(s', 2).txn)
  {
    CurrentUsed(s, 0);
    var s1 := BeginStep(s, 3);
    s' := BeginStep(s1, 2);
  }

  /** Client 2 commits its rewrite. */
  lemma SecondBegins(s: Sys) returns (s': Sys)
    requires Rewriting(s, map[1 := RowOf(Ten(1))]) && s.used == {0, 1} && At(s, 2) == Working(0, [Ten(2)], {1})
    ensures Reached(s') && NoLocks(s') && 0 in s'.db.tables && s'.used == {0, 1, 2}
    ensures s'.db.extents == map[1 := Gone(RowOf(Ten(1))), 2 := RowOf(Ten(2))] && RowsIn(s'.log, 0, Ingest) == 10
    ensures Rewrites(At(s', 3), 3) && !Unmoved(s'.db, At(s', 3).txn)
  {
    var s1 := BothBegin(s);
    var op;
    s', op := DirectCommit(s1, 2, 2, 0);
    RowsReplaced(s1.db.extents, 1, Ten(2));
    RewriteIngestsNothing(s1.log, op);
  }

  lemma SecondConflicts(s: Sys) returns (s': Sys)
    requires Rewriting(s, map[1 := RowOf(Ten(1))]) && s.used == {0, 1} && At(s, 2) == Working(0, [Ten(2)], {1})
    ensures Rewriting(s', map[1 := Gone(RowOf(Ten(1))), 2 := RowOf(Ten(2))]) && s'.used == {0, 1, 2}
  {
    var s1 := SecondBegins(s);
    s' := ConflictStep(s1, 3, 3);
  }

  lemma RewriteIngestsNothing(log: seq<Op>, op: Op)
    requires op.Commit? && op.removed != {}
    ensures RowsIn(log + [op], 0, Ingest) == RowsIn(log, 0, Ingest)
  {
    assert (log + [op])[..|log + [op]| - 1] == log;
  }

  /** Client 3 begins again with its source list unchanged, and commits. */
  lemma SecondCommits(s: Sys) returns (s': Sys)
    requires Rewriting(s, map[1 := Gone(RowOf(Ten(1))), 2 := RowOf(Ten(2))]) && s.used == {0, 1, 2}
    ensures Reached(s') && RowsIn(s'.log, 0, Ingest) == 10
    ensures s'.db.extents == map[1 := Gone(RowOf(Ten(1))), 2 := RowOf(Ten(2)), 3 := RowOf(Ten(3))]
  {
    var s1 := BeginStep(s, 3);
    var op;
    s', op := DirectCommit(s1, 3, 3, 0);
    RowsReplaced(s.db.extents, 1, Ten(3));
    RewriteIngestsNothing(s1.log, op);
  }

  lemma TwentyLive(db: DB)
    requires db.extents == map[1 := Gone(RowOf(Ten(1))), 2 := RowOf(Ten(2)), 3 := RowOf(Ten(3))]
    ensures LiveOf(db, 0) == map[2 := 10, 3 := 10]
  {}

  /** Two compactions of one source, the second begun again after a conflict
      with its source list unchanged: both commits are accepted, and 10 ingested
      rows become 20 live ones. */
  lemma StaleRewriteDuplicatesRows()
    ensures exists trace, s ::
      (Runs(Start, trace, s) && RowsIn(s.log, 0, Ingest) == 10 && LiveOf(s.db, 0) == map[2 := 10, 3 := 10])
  {
    var s0 := TwoRewrites();
    var s1 := SecondConflicts(s0);
    var s2 := SecondCommits(s1);
    TwentyLive(s2.db);
    ReachedRuns(s2);
  }

  // ---------------------------------------------------------------- one staged row committed twice

  lemma StageReached(s: Sys, sid: StagedId, batch: BatchId, m: Manifest)
    requires Reached(s) && Stageable(s, sid, m)
    ensures Reached(StageStep(s, sid, batch, m))
  {
    ReachedStep(s, 0, StageRow(sid, batch, m));
  }

  lemma ListStep(s: Sys, c: ClientId, sid: StagedId) returns (s': Sys)
    requires Reached(s) && NoLocks(s) && At(s, c).Idle? && sid in s.db.staged
    ensures Reached(s') && NoLocks(s') && OnlyMoves(s, s', c) && s'.used == s.used
    ensures At(s', c) == Holding(map[sid := s.db.staged[sid].manifest])
  {
    ReachedStep(s, c, ListStaged({sid}));
    OtherQuietMoves(s, c, ListStaged({sid}));
    s' := Do(s, c, ListStaged({sid}));
    StillNoLocks(s, s', c);
  }

  /** Row 5 of extent 7 is staged. */
  lemma OneStaged() returns (s: Sys)
    ensures Reached(s) && NoLocks(s) && 0 in s.db.tables && s.used == {0} && s.db.extents == map[]
    ensures s.accepted == map[5 := Ten(7)] && s.minted == map[7 := Mint(Ten(7), Router(5))]
    ensures s.db.staged == map[5 := StagedRow(0, Ten(7))] && AddCount(s.log, 7) == 0
    ensures forall d :: At(s, d) == Idle
  {
    var s0 := Founded();
    StageReached(s0, 5, 0, Ten(7));
    s := StageStep(s0, 5, 0, Ten(7));
    forall d ensures At(s, d) == At(s0, d) {}
    AddCountAppend([], Created, 7);
    assert [] + [Created] == [Created];
    AddCountAppend([Created], Stage(5, StagedRow(0, Ten(7))), 7);
  }

  /** Clients 1 and 2 hold it. */
  lemma TwoHolders() returns (s: Sys)
    ensures Reached(s) && NoLocks(s) && 0 in s.db.tables && s.used == {0} && s.db.extents == map[]
    ensures s.accepted == map[5 := Ten(7)] && s.minted == map[7 := Mint(Ten(7), Router(5))] && AddCount(s.log, 7) == 0
    ensures At(s, 1) == Holding(map[5 := Ten(7)]) && At(s, 2) == Holding(map[5 := Ten(7)])
    ensures forall d :: d != 1 && d != 2 ==> At(s, d) == Idle
  {
    var s0 := OneStaged();
    var s1 := ListStep(s0, 1, 5);
    s := ListStep(s1, 2, 5);
  }

  /** Client 2 commits the row. */
  lemma FirstCommit() returns (s: Sys)
    ensures Reached(s) && NoLocks(s) && 0 in s.db.tables && s.used == {0, 1} && s.db.extents == map[7 := RowOf(Ten(7))]
    ensures s.accepted == map[5 := Ten(7)] && s.minted == map[7 := Mint(Ten(7), Router(5))] && AddCount(s.log, 7) == 1
    ensures At(s, 1) == Holding(map[5 := Ten(7)])
    ensures At(s, 2).Holding? && forall d :: d != 1 && d != 2 ==> At(s, d) == Idle
  {
    var s0 := TwoHolders();
    var op;
    s, op := GroupCommit(s0, 2, 0, 5, 1);
    RowsAppended(map[], Ten(7), op.now);
    AddedAgain(s0.log, op);
  }

  lemma AddedAgain(log: seq<Op>, op: Op)
    requires op.Commit? && op.added == [Ten(7)]
    ensures AddCount(log + [op], 7) == AddCount(log, 7) + 1
  {
    OneInsert(Ten(7));
    AddCountAppend(log, op, 7);
  }

  /** A retention run of client 3 begins. */
  lemma Expiring() returns (s: Sys)
    ensures Reached(s) && NoLocks(s) && 0 in s.db.tables && s.used == {0, 1} && s.db.extents == map[7 := RowOf(Ten(7))]
    ensures s.accepted == map[5 := Ten(7)] && AddCount(s.log, 7) == 1
    ensures At(s, 3).InTxn? && At(s, 3).txn == BegunTxn(s.db.tables[0], 0, [], {7})
    ensures At(s, 1) == Holding(map[5 := Ten(7)]) && At(s, 4) == Idle && forall d :: d != 3 ==> !At(s, d).InTxn?
  {
    var s0 := FirstCommit();
    var s1 := ExpireStep(s0, 3, 0, {7});
    s := BeginStep(s1, 3);
  }

  /** It commits. */
  lemma Expired() returns (s: Sys)
    ensures Reached(s) && NoLocks(s) && 0 in s.db.tables && s.used == {0, 1, 2}
    ensures s.db.extents == map[7 := Gone(RowOf(Ten(7)))] && s.accepted == map[5 := Ten(7)] && AddCount(s.log, 7) == 1
    ensures At(s, 1) == Holding(map[5 := Ten(7)]) && At(s, 4) == Idle && forall d :: !At(s, d).InTxn?
  {
    var s0 := Expiring();
    var op;
    s, op := DirectCommit(s0, 3, 2, 0);
    RowsRetired(s0.db.extents, 7);
    AddCountAppend(s0.log, op, 7);
  }

  lemma NoneInTxn(s: Sys, s': Sys, c: ClientId)
    requires (forall d :: !At(s, d).InTxn?) && !At(s', c).InTxn? && forall d :: d != c ==> At(s', d) == At(s, d)
    ensures forall d :: !At(s', d).InTxn?
  {}

  lemma CollectOne(s: Sys, c: ClientId, x: ExtentId) returns (s': Sys)
    requires Reached(s) && At(s, c).Idle? && x in s.db.extents && s.db.extents[x].deletedAt == Some(0)
    ensures Reached(s') && OnlyMoves(s, s', c) && s'.used == s.used && At(s', c).Collecting? && x in At(s', c).doomed
  {
    ReachedStep(s, c, Collect(1));
    OtherQuietMoves(s, c, Collect(1));
    s' := Do(s, c, Collect(1));
  }

  lemma PurgeReached(s: Sys, c: ClientId, x: ExtentId)
    requires Reached(s) && At(s, c).Collecting? && x in At(s, c).doomed && forall d :: !At(s, d).InTxn?
    ensures Reached(PurgeStep(s, x))
  {
    ReachedStep(s, c, PurgeRow(x));
  }

  /** Client 4 hard-deletes the expired row. */
  lemma Purged(s: Sys) returns (s': Sys)
    requires Reached(s) && NoLocks(s) && At(s, 4) == Idle && forall d :: !At(s, d).InTxn?
    requires s.db.extents == map[7 := Gone(RowOf(Ten(7)))]
    ensures Reached(s') && NoLocks(s') && s'.used == s.used && s'.accepted == s.accepted
    ensures s'.db == s.db.(extents := map[]) && s'.log == s.log + [Purge(7)] && At(s', 1) == At(s, 1)
  {
    var s1 := CollectOne(s, 4, 7);
    NoneInTxn(s, s1, 4);
    PurgeReached(s1, 4, 7);
    s' := PurgeStep(s1, 7);
    StillNoLocks(s, s', 4);
  }

  /** A committer that listed a row before it was committed, expired and
      hard-deleted commits it a second time: the primary key no longer objects. */
  lemma StaleListCommitsTwice()
    ensures exists trace, s ::
      (Runs(Start, trace, s) && 5 in s.accepted && 5 !in s.db.staged && AddCount(s.log, s.accepted[5].id) == 2)
  {
    var s0 := Expired();
    var s1 := Purged(s0);
    AddCountAppend(s0.log, Purge(7), 7);
    var s2, op := GroupCommit(s1, 1, 0, 5, 3);
    AddedAgain(s1.log, op);
    ReachedRuns(s2);
  }
}
