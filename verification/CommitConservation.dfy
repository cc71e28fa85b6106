/**
  Consequences of the ledger invariant over whole careful runs: an unchanged
  pointer means an unchanged live set, and conservation of rows.

  Conservation with rewrites rests on one more condition on single steps,
  `Balanced`: a transaction that removes extents and adds others begins on
  extents that are live and adds as many rows as those hold.
 */
module CommitConservation {
  import opened Catalog
  import opened CommitProtocol
  import opened CommitRuns
  import opened CommitStaging
  import opened CommitLedger

  // ---------------------------------------------------------------- the live set of a table

  /** Rows per live extent of a table. */
  function LiveOf(db: DB, t: TableId): map<ExtentId, nat> {
    map x | x in db.extents && db.extents[x].table == t && db.extents[x].Live() :: db.extents[x].rows
  }

  lemma PublishLeavesOthers(s: Sys, c: ClientId, t: TableId)
    requires Inv(s) && ReadyToPublish(s, c) && At(s, c).txn.table != t
    ensures LiveOf(PublishStep(s, c).db, t) == LiveOf(s.db, t)
  {
    var s', txn := PublishStep(s, c), At(s, c).txn;
    PublishedIds(s, c);
    PublishStepKeeps(s, c);
    forall x ensures x in LiveOf(s'.db, t) <==> x in LiveOf(s.db, t)
             ensures x in LiveOf(s.db, t) ==> LiveOf(s'.db, t)[x] == LiveOf(s.db, t)[x]
    {
      if x in txn.writes { assert x in s.minted && x in s'.db.extents && MintRow(s'.db.extents[x], s'.minted[x]); }
    }
  }

  lemma PurgeLeavesLive(s: Sys, c: ClientId, x: ExtentId, t: TableId)
    requires Safe(s) && Can(s, c, PurgeRow(x))
    ensures LiveOf(Apply(s.db, Purge(x)), t) == LiveOf(s.db, t)
  {
    assert ClientSafe(s, At(s, c));
  }

  /** Only a commit on `t` changes the live set of `t`. */
  lemma LiveUnlessPublished(s: Sys, c: ClientId, a: Action, t: TableId)
    requires Safe(s) && Can(s, c, a) && !(a.Publish? && At(s, c).txn.table == t)
    ensures LiveOf(Do(s, c, a).db, t) == LiveOf(s.db, t)
  {
    StepRefines(s, c, a);
    if a.Publish? { PublishLeavesOthers(s, c, t); }
    if a.PurgeRow? { PurgeLeavesLive(s, c, a.extent, t); }
  }

  lemma LiveFollowsPointer(s: Sys, c: ClientId, a: Action, t: TableId)
    requires Safe(s) && Can(s, c, a) && t in s.db.tables
    requires t in Do(s, c, a).db.tables && Do(s, c, a).db.tables[t].current == s.db.tables[t].current
    ensures LiveOf(Do(s, c, a).db, t) == LiveOf(s.db, t)
  {
    SerialWf(s.log);
    assert TableOk(s.db, t);
    assert ClientOk(s, At(s, c));
    LiveUnlessPublished(s, c, a, t);
  }

  lemma {:induction false} PointerMonotone(s: Sys, trace: seq<Event>, s': Sys, t: TableId)
    requires Safe(s) && CarefulRuns(s, trace, s') && t in s.db.tables
    ensures Safe(s') && t in s'.db.tables
    ensures s.db.tables[t].current in s.db.snaps && s'.db.tables[t].current in s'.db.snaps
    ensures forall x :: x in s.db.snaps ==> x in s'.db.snaps && s'.db.snaps[x] == s.db.snaps[x]
    ensures s.db.snaps[s.db.tables[t].current].number <= s'.db.snaps[s'.db.tables[t].current].number
    ensures s'.db.tables[t].current == s.db.tables[t].current ==> LiveOf(s'.db, t) == LiveOf(s.db, t)
    decreases |trace|
  {
    SerialWf(s.log);
    assert TableOk(s.db, t);
    if trace != [] {
      var c, a := trace[0].client, trace[0].action;
      var mid := Do(s, c, a);
      PointerOnlyAdvances(s, c, a, t);
      StepSafe(s, c, a);
      PointerMonotone(mid, trace[1..], s', t);
      if mid.db.tables[t].current == s.db.tables[t].current { LiveFollowsPointer(s, c, a, t); }
    }
  }

  /** Between any two points of a run, an unchanged current snapshot means an
      unchanged live set, whatever ran in between. */
  lemma SamePointerSameLive(before: seq<Event>, s: Sys, trace: seq<Event>, s': Sys, t: TableId)
    requires CarefulRuns(Start, before, s) && CarefulRuns(s, trace, s')
    requires t in s.db.tables && t in s'.db.tables && s'.db.tables[t].current == s.db.tables[t].current
    ensures LiveOf(s'.db, t) == LiveOf(s.db, t)
  {
    StartSafe();
    CarefulRunSafe(Start, before, s);
    PointerMonotone(s, trace, s', t);
  }

  // ---------------------------------------------------------------- totals

  ghost function Pick(m: map<ExtentId, nat>): ExtentId
    requires m != map[]
    ensures Pick(m) in m
  {
    assert m.Keys != {};
    var x :| x in m.Keys; x
  }

  ghost function Total(m: map<ExtentId, nat>): nat
    decreases |m|
  {
    if m == map[] then 0 else m[Pick(m)] + Total(m - {Pick(m)})
  }

  lemma {:induction false} TotalRemove(m: map<ExtentId, nat>, x: ExtentId)
    requires x in m
    ensures Total(m) == m[x] + Total(m - {x})
    decreases |m|
  {
    var y := Pick(m);
    if y != x {
      TotalRemove(m - {y}, x);
      TotalRemove(m - {x}, y);
      assert m - {y} - {x} == m - {x} - {y};
    }
  }

  lemma UnionRemove(m: map<ExtentId, nat>, n: map<ExtentId, nat>, x: ExtentId)
    requires x in n && x !in m
    ensures (m + n) - {x} == m + (n - {x})
  {
    var left, right := (m + n) - {x}, m + (n - {x});
    forall y ensures y in left <==> y in right
             ensures y in left ==> left[y] == right[y]
    {}
  }

  lemma {:induction false} TotalUnion(m: map<ExtentId, nat>, n: map<ExtentId, nat>)
    requires m.Keys !! n.Keys
    ensures Total(m + n) == Total(m) + Total(n)
    decreases |n|
  {
    if n == map[] {
      assert m + n == m;
    } else {
      var x := Pick(n);
      var rest := n - {x};
      assert |rest| < |n| by { assert rest.Keys == n.Keys - {x}; }
      TotalUnion(m, rest);
      TotalRemove(m + n, x);
      UnionRemove(m, n, x);
    }
  }

  function Restrict(m: map<ExtentId, nat>, xs: set<ExtentId>): map<ExtentId, nat> {
    map x | x in m && x in xs :: m[x]
  }

  lemma TotalSplit(m: map<ExtentId, nat>, xs: set<ExtentId>)
    ensures Total(m) == Total(m - xs) + Total(Restrict(m, xs))
  {
    TotalUnion(m - xs, Restrict(m, xs));
    assert (m - xs) + Restrict(m, xs) == m;
  }

  function SumRows(ms: seq<Manifest>): nat {
    if ms == [] then 0 else SumRows(ms[..|ms| - 1]) + ms[|ms| - 1].rows
  }

  function RowsMap(ms: seq<Manifest>): (m: map<ExtentId, nat>)
    ensures forall x :: x in m <==> x in Inserts(ms)
    ensures forall x :: x in m ==> m[x] == Inserts(ms)[x].rows
  {
    map x | x in Inserts(ms) :: Inserts(ms)[x].rows
  }

  lemma {:induction false} TotalAdded(ms: seq<Manifest>)
    requires DistinctIds(ms)
    ensures Total(RowsMap(ms)) == SumRows(ms)
    decreases |ms|
  {
    if ms == [] {
      assert RowsMap(ms) == map[];
    } else {
      var init, last := ms[..|ms| - 1], ms[|ms| - 1];
      TotalAdded(init);
      RowsMapStep(ms);
      TotalRemove(RowsMap(ms), last.id);
    }
  }

  lemma RowsMapStep(ms: seq<Manifest>)
    requires ms != [] && DistinctIds(ms)
    ensures var init, last := ms[..|ms| - 1], ms[|ms| - 1];
      && DistinctIds(init) && last.id in RowsMap(ms) && RowsMap(ms)[last.id] == last.rows
      && RowsMap(ms) - {last.id} == RowsMap(init)
  {
    var init, last := ms[..|ms| - 1], ms[|ms| - 1];
    IdsSplit(ms);
    assert !HasId(init, last.id);
    RowsMapInsert(ms, init, last);
  }

  lemma RowsMapInsert(ms: seq<Manifest>, init: seq<Manifest>, last: Manifest)
    requires Inserts(ms) == Inserts(init)[last.id := RowOf(last)] && last.id !in Inserts(init)
    ensures last.id in RowsMap(ms) && RowsMap(ms)[last.id] == last.rows && RowsMap(ms) - {last.id} == RowsMap(init)
  {}

  /** The live set a commit leaves. */
  lemma LiveAfterCommit(db: DB, op: Op)
    requires op.Commit? && Enabled(db, op)
    ensures LiveOf(Apply(db, op), op.table) == (LiveOf(db, op.table) + RowsMap(op.added)) - op.removed
  {
    var left, right := LiveOf(Apply(db, op), op.table), (LiveOf(db, op.table) + RowsMap(op.added)) - op.removed;
    forall x ensures x in left <==> x in right
             ensures x in left ==> left[x] == right[x]
    {
      if x in Inserts(op.added) { InsertedTable(op.added, op.table, x); }
    }
    assert left == right;
  }

  lemma {:induction false} InsertedTable(ms: seq<Manifest>, t: TableId, x: ExtentId)
    requires x in Inserts(ms) && forall i :: 0 <= i < |ms| ==> ms[i].table == t
    ensures Inserts(ms)[x].table == t
    decreases |ms|
  {
    if x != ms[|ms| - 1].id { InsertedTable(ms[..|ms| - 1], t, x); }
  }

  lemma AddedApart(db: DB, op: Op)
    requires op.Commit? && Enabled(db, op) && NoneBack(op.added, op.removed)
    ensures LiveOf(db, op.table).Keys !! RowsMap(op.added).Keys
    ensures RowsMap(op.added).Keys !! op.removed
  {
    forall x | x in RowsMap(op.added) ensures x !in LiveOf(db, op.table) && x !in op.removed {
      assert HasId(op.added, x);
    }
  }

  lemma RemoveFromLeft(m: map<ExtentId, nat>, n: map<ExtentId, nat>, xs: set<ExtentId>)
    requires n.Keys !! xs
    ensures (m + n) - xs == (m - xs) + n
  {}

  /** Exactly what a commit does to the row total of its table. */
  lemma TotalAfterCommit(db: DB, op: Op)
    requires op.Commit? && Enabled(db, op) && NoneBack(op.added, op.removed)
    ensures Total(LiveOf(Apply(db, op), op.table)) + Total(Restrict(LiveOf(db, op.table), op.removed))
         == Total(LiveOf(db, op.table)) + SumRows(op.added)
  {
    var live, news := LiveOf(db, op.table), RowsMap(op.added);
    LiveAfterCommit(db, op);
    AddedApart(db, op);
    RemoveFromLeft(live, news, op.removed);
    TotalUnion(live - op.removed, news);
    TotalSplit(live, op.removed);
    TotalAdded(op.added);
  }

  // ---------------------------------------------------------------- conservation

  /** What a commit is for a table's rows. */
  datatype Change = Ingest | Rewrite | Expiry | Elsewhere

  function ChangeOf(op: Op, t: TableId): Change {
    if !op.Commit? || op.table != t then Elsewhere
    else if op.removed == {} then Ingest
    else if op.added == [] then Expiry
    else Rewrite
  }

  /** Rows that commits of one kind added to a table. */
  ghost function RowsIn(log: seq<Op>, t: TableId, kind: Change): nat {
    if log == [] then 0
    else
      var op := log[|log| - 1];
      RowsIn(log[..|log| - 1], t, kind) + (if op.Commit? && ChangeOf(op, t) == kind then SumRows(op.added) else 0)
  }

  /** Rows of extents still live that commits of one kind retired. */
  ghost function RowsOut(log: seq<Op>, t: TableId, kind: Change): nat
    requires Serial(log)
  {
    if log == [] then 0
    else
      var init, op := log[..|log| - 1], log[|log| - 1];
      RowsOut(init, t, kind)
      + (if op.Commit? && ChangeOf(op, t) == kind then Total(Restrict(LiveOf(Replay(init), t), op.removed)) else 0)
  }

  lemma RowsAppend(log: seq<Op>, op: Op, t: TableId, kind: Change)
    requires Serial(log) && Enabled(Replay(log), op)
    ensures Serial(log + [op])
    ensures RowsIn(log + [op], t, kind) == RowsIn(log, t, kind)
      + (if op.Commit? && ChangeOf(op, t) == kind then SumRows(op.added) else 0)
    ensures RowsOut(log + [op], t, kind) == RowsOut(log, t, kind)
      + (if op.Commit? && ChangeOf(op, t) == kind then Total(Restrict(LiveOf(Replay(log), t), op.removed)) else 0)
  {
    SerialAppend(log, op);
    assert (log + [op])[..|log + [op]| - 1] == log;
  }

  /** The books of a table: live rows are the rows ingested and rewritten in,
      less those rewritten away and expired. */
  ghost predicate BooksOk(s: Sys, t: TableId)
    requires Serial(s.log)
  {
    Total(LiveOf(s.db, t)) + RowsOut(s.log, t, Rewrite) + RowsOut(s.log, t, Expiry)
      == RowsIn(s.log, t, Ingest) + RowsIn(s.log, t, Rewrite)
  }

  lemma IngestRetiresNothing(live: map<ExtentId, nat>)
    ensures Total(Restrict(live, {})) == 0
  {
    assert Restrict(live, {}) == map[];
  }

  /** One commit keeps the books. */
  lemma BooksAfterCommit(log: seq<Op>, op: Op)
    requires Serial(log) && op.Commit? && Enabled(Replay(log), op) && NoneBack(op.added, op.removed)
    ensures Serial(log + [op])
    ensures var t, db := op.table, Replay(log);
      Total(LiveOf(Apply(db, op), t)) - Total(LiveOf(db, t))
        + RowsOut(log + [op], t, Rewrite) + RowsOut(log + [op], t, Expiry)
        - RowsOut(log, t, Rewrite) - RowsOut(log, t, Expiry)
      == RowsIn(log + [op], t, Ingest) + RowsIn(log + [op], t, Rewrite)
        - RowsIn(log, t, Ingest) - RowsIn(log, t, Rewrite)
  {
    var t := op.table;
    TotalAfterCommit(Replay(log), op);
    RowsAppend(log, op, t, Ingest);
    RowsAppend(log, op, t, Rewrite);
    RowsAppend(log, op, t, Expiry);
    if op.removed == {} { IngestRetiresNothing(LiveOf(Replay(log), t)); }
  }

  lemma BooksAfterPublish(s: Sys, c: ClientId)
    requires Kept(s) && ReadyToPublish(s, c) && BooksOk(s, At(s, c).txn.table)
    ensures Serial(PublishStep(s, c).log) && BooksOk(PublishStep(s, c), At(s, c).txn.table)
  {
    assert ClientKept(s, c, At(s, c));
    PublishAtomic(s, c);
    BooksAfterCommit(s.log, OpOf(At(s, c).txn));
  }

  /** Any other operation leaves the books of `t` alone. */
  lemma BooksElsewhere(log: seq<Op>, op: Op, t: TableId)
    requires Serial(log) && Enabled(Replay(log), op) && ChangeOf(op, t) == Elsewhere
    ensures Serial(log + [op])
    ensures forall kind :: kind != Elsewhere ==>
      RowsIn(log + [op], t, kind) == RowsIn(log, t, kind) && RowsOut(log + [op], t, kind) == RowsOut(log, t, kind)
  {
    SerialAppend(log, op);
    forall kind: Change | kind != Elsewhere
      ensures RowsIn(log + [op], t, kind) == RowsIn(log, t, kind) && RowsOut(log + [op], t, kind) == RowsOut(log, t, kind)
    { RowsAppend(log, op, t, kind); }
  }

  lemma BooksUnlessPublished(s: Sys, c: ClientId, a: Action, t: TableId)
    requires Safe(s) && Can(s, c, a) && BooksOk(s, t) && !(a.Publish? && At(s, c).txn.table == t)
    ensures Serial(Do(s, c, a).log) && BooksOk(Do(s, c, a), t)
  {
    LiveUnlessPublished(s, c, a, t);
    LogUnlessPublished(s, c, a, t);
  }

  lemma LogUnlessPublished(s: Sys, c: ClientId, a: Action, t: TableId)
    requires Safe(s) && Can(s, c, a) && !(a.Publish? && At(s, c).txn.table == t)
    ensures Serial(Do(s, c, a).log)
    ensures forall kind :: kind != Elsewhere ==>
      RowsIn(Do(s, c, a).log, t, kind) == RowsIn(s.log, t, kind) && RowsOut(Do(s, c, a).log, t, kind) == RowsOut(s.log, t, kind)
  {
    StepRefines(s, c, a);
    if Published(s, c, a).Some? { BooksElsewhere(s.log, Published(s, c, a).value, t); }
  }

  lemma StepBooks(s: Sys, c: ClientId, a: Action, t: TableId)
    requires Safe(s) && Can(s, c, a) && BooksOk(s, t)
    ensures Serial(Do(s, c, a).log) && BooksOk(Do(s, c, a), t)
  {
    if a.Publish? && At(s, c).txn.table == t { BooksAfterPublish(s, c); } else { BooksUnlessPublished(s, c, a, t); }
  }

  lemma {:induction false} CarefulRunBooks(s: Sys, trace: seq<Event>, s': Sys, t: TableId)
    requires Safe(s) && BooksOk(s, t) && CarefulRuns(s, trace, s')
    ensures Serial(s'.log) && BooksOk(s', t)
    decreases |trace|
  {
    if trace != [] {
      var c, a := trace[0].client, trace[0].action;
      StepSafe(s, c, a);
      StepBooks(s, c, a, t);
      CarefulRunBooks(Do(s, c, a), trace[1..], s', t);
    }
  }

  /** Over every careful run the books of every table balance: live rows, plus
      those that rewrites and expiries found live and retired, are the rows
      ingested plus the rows rewrites put in. */
  lemma BooksBalance(trace: seq<Event>, s: Sys, t: TableId)
    requires CarefulRuns(Start, trace, s)
    ensures Serial(s.log)
    ensures Total(LiveOf(s.db, t)) + RowsOut(s.log, t, Rewrite) + RowsOut(s.log, t, Expiry)
         == RowsIn(s.log, t, Ingest) + RowsIn(s.log, t, Rewrite)
  {
    StartSafe();
    assert LiveOf(Start.db, t) == map[];
    CarefulRunBooks(Start, trace, s, t);
  }

  // ---------------------------------------------------------------- conservation under balanced rewrites

  /** A rewrite takes extents that are live at the parent it begins from and
      puts back as many rows. */
  ghost predicate EvenSwap(live: map<ExtentId, nat>, added: seq<Manifest>, removed: set<ExtentId>) {
    removed <= live.Keys && Total(Restrict(live, removed)) == SumRows(added)
  }

  ghost predicate Balanced(s: Sys, c: ClientId, a: Action)
    requires Can(s, c, a)
  {
    a.Begin? ==>
      var me := At(s, c);
      me.removed != {} && me.added != [] ==> EvenSwap(LiveOf(s.db, me.table), me.added, me.removed)
  }

  ghost predicate TxnBalanced(db: DB, client: Client) {
    client.InTxn? && client.txn.removed != {} && client.txn.added != [] && Unmoved(db, client.txn) ==>
      EvenSwap(LiveOf(db, client.txn.table), client.txn.added, client.txn.removed)
  }

  ghost predicate Conserved(s: Sys) {
    && Safe(s)
    && (forall c {:trigger At(s, c)} :: TxnBalanced(s.db, At(s, c)))
    && (forall t :: RowsOut(s.log, t, Rewrite) == RowsIn(s.log, t, Rewrite))
  }

  lemma BystanderBalanced(s: Sys, c: ClientId, a: Action, client: Client)
    requires Safe(s) && Can(s, c, a) && ClientOk(s, client) && TxnBalanced(s.db, client)
    ensures TxnBalanced(Do(s, c, a).db, client)
  {
    var s' := Do(s, c, a);
    if client.InTxn? && client.txn.removed != {} && Unmoved(s'.db, client.txn) {
      var t := client.txn.table;
      SerialWf(s.log);
      assert TableOk(s.db, t) && SnapOk(s.db, client.txn.parent);
      PointerOnlyAdvances(s, c, a, t);
      LiveFollowsPointer(s, c, a, t);
    }
  }

  lemma FreshClientBalanced(s: Sys, c: ClientId, a: Action)
    requires Can(s, c, a) && Balanced(s, c, a) && !TxnAction(a) && At(Do(s, c, a), c) != At(s, c)
    ensures TxnBalanced(s.db, At(Do(s, c, a), c))
  {}

  lemma StepperBalanced(s: Sys, c: ClientId, a: Action)
    requires Safe(s) && Can(s, c, a) && Balanced(s, c, a) && TxnBalanced(s.db, At(s, c))
    ensures TxnBalanced(Do(s, c, a).db, At(Do(s, c, a), c))
  {
    if TxnAction(a) {
      TxnActionShape(s, c, a);
    } else if At(Do(s, c, a), c) == At(s, c) {
      assert ClientOk(s, At(s, c));
      BystanderBalanced(s, c, a, At(s, c));
    } else {
      FreshClientBalanced(s, c, a);
      QuietOrDone(s, c, a);
    }
  }

  /** A step that moves its own client on leaves the rows, or the client no transaction. */
  lemma QuietOrDone(s: Sys, c: ClientId, a: Action)
    requires Can(s, c, a) && !TxnAction(a) && At(Do(s, c, a), c) != At(s, c)
    ensures Do(s, c, a).db == s.db || !At(Do(s, c, a), c).InTxn?
  {}

  lemma OthersStay(s: Sys, c: ClientId, a: Action, d: ClientId)
    requires Can(s, c, a) && d != c
    ensures At(Do(s, c, a), d) == At(s, d)
  {}

  lemma StepBalanced(s: Sys, c: ClientId, a: Action, d: ClientId)
    requires Conserved(s) && Can(s, c, a) && Balanced(s, c, a)
    ensures TxnBalanced(Do(s, c, a).db, At(Do(s, c, a), d))
  {
    assert TxnBalanced(s.db, At(s, d));
    if d == c {
      StepperBalanced(s, c, a);
    } else {
      assert ClientOk(s, At(s, d));
      OthersStay(s, c, a, d);
      BystanderBalanced(s, c, a, At(s, d));
    }
  }

  /** A commit rewrites as many rows in as it rewrites away. */
  lemma EvenAfterPublish(s: Sys, c: ClientId, t: TableId)
    requires Conserved(s) && ReadyToPublish(s, c)
    ensures Serial(PublishStep(s, c).log)
    ensures RowsOut(PublishStep(s, c).log, t, Rewrite) == RowsIn(PublishStep(s, c).log, t, Rewrite)
  {
    PublishAtomic(s, c);
    assert ClientOk(s, At(s, c));
    assert TxnBalanced(s.db, At(s, c));
    RowsAppend(s.log, OpOf(At(s, c).txn), t, Rewrite);
  }

  lemma StepEven(s: Sys, c: ClientId, a: Action, t: TableId)
    requires Conserved(s) && Can(s, c, a)
    ensures Serial(Do(s, c, a).log)
    ensures RowsOut(Do(s, c, a).log, t, Rewrite) == RowsIn(Do(s, c, a).log, t, Rewrite)
  {
    if a.Publish? {
      EvenAfterPublish(s, c, t);
    } else {
      StepRefines(s, c, a);
      if Published(s, c, a).Some? { BooksElsewhere(s.log, Published(s, c, a).value, t); }
    }
  }

  lemma StepConserves(s: Sys, c: ClientId, a: Action)
    requires Conserved(s) && Can(s, c, a) && Careful(s, a) && Balanced(s, c, a)
    ensures Conserved(Do(s, c, a))
  {
    var s' := Do(s, c, a);
    StepSafe(s, c, a);
    forall d ensures TxnBalanced(s'.db, At(s', d)) { StepBalanced(s, c, a, d); }
    forall t ensures RowsOut(s'.log, t, Rewrite) == RowsIn(s'.log, t, Rewrite) { StepEven(s, c, a, t); }
  }

  ghost predicate BalancedRuns(s: Sys, trace: seq<Event>, s': Sys)
    decreases |trace|
  {
    if trace == [] then s' == s
    else
      && Can(s, trace[0].client, trace[0].action)
      && Careful(s, trace[0].action) && Balanced(s, trace[0].client, trace[0].action)
      && BalancedRuns(Do(s, trace[0].client, trace[0].action), trace[1..], s')
  }

  lemma {:induction false} BalancedRunConserves(s: Sys, trace: seq<Event>, s': Sys)
    requires Conserved(s) && BalancedRuns(s, trace, s')
    ensures Conserved(s') && CarefulRuns(s, trace, s')
    decreases |trace|
  {
    if trace != [] {
      StepConserves(s, trace[0].client, trace[0].action);
      BalancedRunConserves(Do(s, trace[0].client, trace[0].action), trace[1..], s');
    }
  }

  /** Rows are conserved: whatever ingests, staged commits, rewrites, expiries,
      schema changes and collections interleave, the live rows of every table
      are the rows ingested into it less those expired. */
  lemma RowsAreConserved(trace: seq<Event>, s: Sys, t: TableId)
    requires BalancedRuns(Start, trace, s)
    ensures Serial(s.log)
    ensures Total(LiveOf(s.db, t)) + RowsOut(s.log, t, Expiry) == RowsIn(s.log, t, Ingest)
  {
    StartSafe();
    BalancedRunConserves(Start, trace, s);
    BooksBalance(trace, s, t);
  }

  // ---------------------------------------------------------------- when one rewrite conserves rows

  lemma {:induction false} ZeroTotal(m: map<ExtentId, nat>)
    ensures Total(m) == 0 <==> forall x :: x in m ==> m[x] == 0
    decreases |m|
  {
    if m != map[] {
      var y := Pick(m);
      ZeroTotal(m - {y});
      assert forall x :: x in m && x != y ==> x in m - {y};
    }
  }

  /** A rewrite that put back the rows it read from its sources (`read`)
      conserves the table's total exactly when every source that had rows is
      still live at the parent it commits on. */
  lemma RewriteConservesIffSourcesLive(db: DB, op: Op, read: map<ExtentId, nat>)
    requires op.Commit? && Enabled(db, op) && read.Keys == op.removed
    requires NoneBack(op.added, op.removed) && SumRows(op.added) == Total(read)
    requires forall x :: x in read && x in LiveOf(db, op.table) ==> read[x] == LiveOf(db, op.table)[x]
    ensures Total(LiveOf(Apply(db, op), op.table)) == Total(LiveOf(db, op.table))
      <==> forall x :: x in op.removed && x !in LiveOf(db, op.table) ==> read[x] == 0
  {
    var live := LiveOf(db, op.table);
    TotalAfterCommit(db, op);
    ReadSplit(live, op.removed, read);
  }

  /** What was read is what is still live plus what no longer is. */
  lemma ReadSplit(live: map<ExtentId, nat>, removed: set<ExtentId>, read: map<ExtentId, nat>)
    requires read.Keys == removed && forall x :: x in read && x in live ==> read[x] == live[x]
    ensures Total(read) == Total(Restrict(live, removed)) <==> forall x :: x in removed && x !in live ==> read[x] == 0
  {
    TotalSplit(read, live.Keys);
    assert Restrict(read, live.Keys) == Restrict(live, removed);
    ZeroTotal(read - live.Keys);
    assert forall x :: x in read - live.Keys <==> x in removed && x !in live;
  }
}
