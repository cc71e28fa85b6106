/**
  The catalog's relational state and its atomic operations.

  A `DB` holds the committed rows of the five tables the commit protocol
  touches.  An `Op` is one committed transaction, `Enabled` says when the
  database accepts it and `Apply` is its effect.  `Wf` is the invariant behind
  every statement about history: snapshots of a table form one chain that ends
  in the table's current pointer, and its schema rows form one chain of
  one-column extensions.
 */
module Catalog {
  import opened Options

  type TableId = nat
  type SnapId = nat
  type SchemaId = nat
  type ExtentId = nat
  type StagedId = nat
  type BatchId = nat
  type Time = nat

  /** The part of an `ExtentManifest` the protocol depends on. */
  datatype Manifest = Manifest(id: ExtentId, table: TableId, rows: nat)

  datatype Column = Column(name: string, ty: string, nullable: bool)

  datatype TableRow = TableRow(current: SnapId, schema: SchemaId)
  datatype SnapRow = SnapRow(table: TableId, parent: Option<SnapId>, number: nat, schema: SchemaId)
  datatype ExtentRow = ExtentRow(table: TableId, rows: nat, deletedAt: Option<Time>) {
    predicate Live() { deletedAt.None? }
  }
  datatype StagedRow = StagedRow(batch: BatchId, manifest: Manifest)
  datatype SchemaRow = SchemaRow(table: TableId, columns: seq<Column>)

  datatype DB = DB(
    tables: map<TableId, TableRow>,
    snaps: map<SnapId, SnapRow>,
    extents: map<ExtentId, ExtentRow>,
    staged: map<StagedId, StagedRow>,
    schemas: map<SchemaId, SchemaRow>)

  const EmptyDB := DB(map[], map[], map[], map[], map[])

  /** One committed transaction.  `Commit` covers both `SnapshotTxn::commit`
      (then `group` is empty) and `commit_staged_group` (then `removed` is). */
  datatype Op =
    | CreateTable(table: TableId, snap: SnapId, schema: SchemaId, columns: seq<Column>)
    | Commit(table: TableId, parent: SnapId, snap: SnapId, schema: SchemaId,
             added: seq<Manifest>, removed: set<ExtentId>, group: set<StagedId>, now: Time)
    | Alter(table: TableId, from: SchemaId, to: SchemaId, column: Column)
    | Stage(sid: StagedId, row: StagedRow)
    | Purge(extent: ExtentId)

  // ---------------------------------------------------------------- rows

  predicate DistinctIds(ms: seq<Manifest>) {
    forall i, j :: 0 <= i < j < |ms| ==> ms[i].id != ms[j].id
  }

  predicate DistinctNames(cs: seq<Column>) {
    forall i, j :: 0 <= i < j < |cs| ==> cs[i].name != cs[j].name
  }

  predicate HasColumn(cs: seq<Column>, name: string) {
    exists i :: 0 <= i < |cs| && cs[i].name == name
  }

  predicate HasId(ms: seq<Manifest>, x: ExtentId) {
    exists i :: 0 <= i < |ms| && ms[i].id == x
  }

  function RowOf(m: Manifest): ExtentRow { ExtentRow(m.table, m.rows, None) }

  /** The rows the `INSERT INTO extents` loop writes, in order. */
  function Inserts(ms: seq<Manifest>): (rows: map<ExtentId, ExtentRow>)
    ensures forall x :: x in rows <==> HasId(ms, x)
    ensures forall x :: x in rows ==> rows[x].Live()
    ensures DistinctIds(ms) ==> forall i :: 0 <= i < |ms| ==> ms[i].id in rows && rows[ms[i].id] == RowOf(ms[i])
  {
    if ms == [] then map[]
    else
      var init, last := ms[..|ms| - 1], ms[|ms| - 1];
      assert ms == init + [last];
      assert forall x :: HasId(ms, x) <==> HasId(init, x) || x == last.id by {
        assert ms[|ms| - 1] == last;
        assert forall i :: 0 <= i < |init| ==> ms[i] == init[i];
      }
      Inserts(init)[last.id := RowOf(last)]
  }

  function RetireRow(row: ExtentRow, hit: bool, now: Time): ExtentRow {
    if hit && row.Live() then row.(deletedAt := Some(now)) else row
  }

  /** `UPDATE extents SET deleted_at = now WHERE id IN removed AND deleted_at IS NULL`. */
  function Retire(rows: map<ExtentId, ExtentRow>, removed: set<ExtentId>, now: Time): map<ExtentId, ExtentRow> {
    map x | x in rows :: RetireRow(rows[x], x in removed, now)
  }

  predicate BatchStaged(db: DB, batch: BatchId) {
    exists sid :: sid in db.staged && db.staged[sid].batch == batch
  }

  /** The unique index on (table_id, sequence_number). */
  predicate NumberTaken(db: DB, table: TableId, number: nat) {
    exists x :: x in db.snaps && db.snaps[x].table == table && db.snaps[x].number == number
  }

  function Width(db: DB, s: SchemaId): nat {
    if s in db.schemas then |db.schemas[s].columns| else 0
  }

  predicate SchemaOf(db: DB, s: SchemaId, t: TableId) {
    s in db.schemas && db.schemas[s].table == t
  }

  // ---------------------------------------------------------------- operations

  /** When the database accepts an operation as one atomic transaction. */
  predicate Enabled(db: DB, op: Op) {
    match op
    case CreateTable(t, snap, schema, columns) =>
      t !in db.tables && snap !in db.snaps && schema !in db.schemas && DistinctNames(columns)
    case Commit(t, parent, snap, schema, added, removed, group, now) =>
      && t in db.tables && db.tables[t].current == parent && parent in db.snaps
      && snap !in db.snaps
      && SchemaOf(db, schema, t)
      && Width(db, db.snaps[parent].schema) <= Width(db, schema) <= Width(db, db.tables[t].schema)
      && DistinctIds(added)
      && (forall i :: 0 <= i < |added| ==> added[i].table == t && added[i].id !in db.extents)
      && (forall x :: x in removed && x in db.extents ==> db.extents[x].table == t)
    case Alter(t, from, to, column) =>
      && t in db.tables && db.tables[t].schema == from && from in db.schemas
      && to !in db.schemas && column.nullable && !HasColumn(db.schemas[from].columns, column.name)
    case Stage(sid, row) =>
      sid !in db.staged && !BatchStaged(db, row.batch)
    case Purge(x) => true
  }

  function CommitDb(db: DB, op: Op): DB
    requires op.Commit? && op.table in db.tables && op.parent in db.snaps
  {
    db.(tables := db.tables[op.table := db.tables[op.table].(current := op.snap)],
        snaps := db.snaps[op.snap := SnapRow(op.table, Some(op.parent), db.snaps[op.parent].number + 1, op.schema)],
        extents := Retire(db.extents + Inserts(op.added), op.removed, op.now),
        staged := db.staged - op.group)
  }

  function Apply(db: DB, op: Op): DB
    requires Enabled(db, op)
  {
    match op
    case CreateTable(t, snap, schema, columns) =>
      db.(tables := db.tables[t := TableRow(snap, schema)],
          snaps := db.snaps[snap := SnapRow(t, None, 0, schema)],
          schemas := db.schemas[schema := SchemaRow(t, columns)])
    case Commit(_, _, _, _, _, _, _, _) => CommitDb(db, op)
    case Alter(t, from, to, column) =>
      db.(tables := db.tables[t := db.tables[t].(schema := to)],
          schemas := db.schemas[to := SchemaRow(t, db.schemas[from].columns + [column])])
    case Stage(sid, row) => db.(staged := db.staged[sid := row])
    case Purge(x) => db.(extents := db.extents - {x})
  }

  // ---------------------------------------------------------------- invariant

  predicate TableOk(db: DB, t: TableId) {
    && t in db.tables
    && db.tables[t].current in db.snaps
    && db.snaps[db.tables[t].current].table == t
    && SchemaOf(db, db.tables[t].schema, t)
  }

  /** A snapshot row hangs off the snapshot just below it, no further ahead
      than the table's current one, and records a schema no older than its
      parent's and no newer than the table's. */
  predicate SnapOk(db: DB, x: SnapId)
    requires x in db.snaps
  {
    var row := db.snaps[x];
    && TableOk(db, row.table)
    && row.number <= db.snaps[db.tables[row.table].current].number
    && SchemaOf(db, row.schema, row.table)
    && Width(db, row.schema) <= Width(db, db.tables[row.table].schema)
    && (row.parent.None? <==> row.number == 0)
    && (row.parent.Some? ==>
        && row.parent.value in db.snaps
        && db.snaps[row.parent.value].table == row.table
        && db.snaps[row.parent.value].number + 1 == row.number
        && Width(db, db.snaps[row.parent.value].schema) <= Width(db, row.schema))
  }

  predicate SchemaOk(db: DB, s: SchemaId)
    requires s in db.schemas
  {
    && TableOk(db, db.schemas[s].table)
    && DistinctNames(db.schemas[s].columns)
    && |db.schemas[s].columns| <= Width(db, db.tables[db.schemas[s].table].schema)
  }

  /** Two snapshots of one table with one sequence number. */
  predicate SameSlot(db: DB, x: SnapId, y: SnapId) {
    && x in db.snaps && y in db.snaps
    && db.snaps[x].table == db.snaps[y].table && db.snaps[x].number == db.snaps[y].number
  }

  /** Of two schema rows of one table, the narrower is a prefix of the wider,
      and equal width means the same row. */
  predicate Nested(db: DB, a: SchemaId, b: SchemaId) {
    a in db.schemas && b in db.schemas && db.schemas[a].table == db.schemas[b].table
    && |db.schemas[a].columns| <= |db.schemas[b].columns| ==>
      && db.schemas[a].columns <= db.schemas[b].columns
      && (|db.schemas[a].columns| == |db.schemas[b].columns| ==> a == b)
  }

  ghost predicate Wf(db: DB) {
    && (forall t {:trigger TableOk(db, t)} :: t in db.tables ==> TableOk(db, t))
    && (forall x {:trigger SnapOk(db, x)} :: x in db.snaps ==> SnapOk(db, x))
    && (forall s {:trigger SchemaOk(db, s)} :: s in db.schemas ==> SchemaOk(db, s))
    && (forall x, y {:trigger SameSlot(db, x, y)} :: SameSlot(db, x, y) ==> x == y)
    && (forall a, b {:trigger Nested(db, a, b)} :: Nested(db, a, b))
  }

  lemma SnapAndParentOk(db: DB, x: SnapId)
    requires Wf(db) && x in db.snaps
    ensures SnapOk(db, x)
    ensures db.snaps[x].parent.Some? ==> SnapOk(db, db.snaps[x].parent.value)
  {
    assert SnapOk(db, x);
  }

  lemma CommitKeepsSnap(db: DB, op: Op, x: SnapId)
    requires Wf(db) && op.Commit? && Enabled(db, op) && x in Apply(db, op).snaps
    ensures SnapOk(Apply(db, op), x)
  {
    assert TableOk(db, op.table) && SnapOk(db, op.parent);
    if x != op.snap { SnapAndParentOk(db, x); }
  }

  /** The new snapshot is alone on its sequence number. */
  lemma CommitKeepsSlots(db: DB, op: Op, x: SnapId, y: SnapId)
    requires Wf(db) && op.Commit? && Enabled(db, op) && SameSlot(Apply(db, op), x, y)
    ensures x == y
  {
    assert TableOk(db, op.table) && SnapOk(db, op.parent);
    if x in db.snaps { assert SnapOk(db, x); }
    if y in db.snaps { assert SnapOk(db, y); }
    assert x in db.snaps && y in db.snaps ==> SameSlot(db, x, y);
  }

  lemma CommitKeepsWf(db: DB, op: Op)
    requires Wf(db) && op.Commit? && Enabled(db, op)
    ensures Wf(Apply(db, op))
  {
    var db' := Apply(db, op);
    assert TableOk(db, op.table) && SnapOk(db, op.parent);
    forall t | t in db'.tables ensures TableOk(db', t) { assert TableOk(db, t); }
    forall x | x in db'.snaps ensures SnapOk(db', x) { CommitKeepsSnap(db, op, x); }
    forall s | s in db'.schemas ensures SchemaOk(db', s) { assert SchemaOk(db, s); }
    forall x, y | SameSlot(db', x, y) ensures x == y { CommitKeepsSlots(db, op, x, y); }
    forall a, b ensures Nested(db', a, b) { assert Nested(db, a, b); }
  }

  lemma AlterKeepsNested(db: DB, op: Op, a: SchemaId, b: SchemaId)
    requires Wf(db) && op.Alter? && Enabled(db, op)
    ensures Nested(Apply(db, op), a, b)
  {
    assert TableOk(db, op.table) && SchemaOk(db, op.from);
    assert Nested(db, a, b);
    if a in db.schemas { assert SchemaOk(db, a) && Nested(db, a, op.from); }
    if b in db.schemas { assert SchemaOk(db, b); }
  }

  lemma AlterKeepsSchema(db: DB, op: Op, s: SchemaId)
    requires Wf(db) && op.Alter? && Enabled(db, op) && s in Apply(db, op).schemas
    ensures SchemaOk(Apply(db, op), s)
  {
    assert TableOk(db, op.table) && SchemaOk(db, op.from);
    if s != op.to { assert SchemaOk(db, s); }
  }

  lemma AlterKeepsSnap(db: DB, op: Op, x: SnapId)
    requires Wf(db) && op.Alter? && Enabled(db, op) && x in db.snaps
    ensures SnapOk(Apply(db, op), x)
  {
    assert TableOk(db, op.table) && SchemaOk(db, op.from);
    SnapAndParentOk(db, x);
  }

  lemma AlterKeepsWf(db: DB, op: Op)
    requires Wf(db) && op.Alter? && Enabled(db, op)
    ensures Wf(Apply(db, op))
  {
    var db' := Apply(db, op);
    forall t | t in db'.tables ensures TableOk(db', t) { assert TableOk(db, t); }
    forall x | x in db'.snaps ensures SnapOk(db', x) { AlterKeepsSnap(db, op, x); }
    forall s | s in db'.schemas ensures SchemaOk(db', s) { AlterKeepsSchema(db, op, s); }
    forall x, y | SameSlot(db', x, y) ensures x == y { assert SameSlot(db, x, y); }
    forall a, b ensures Nested(db', a, b) { AlterKeepsNested(db, op, a, b); }
  }

  lemma CreateKeepsSlots(db: DB, op: Op, x: SnapId, y: SnapId)
    requires Wf(db) && op.CreateTable? && Enabled(db, op) && SameSlot(Apply(db, op), x, y)
    ensures x == y
  {
    if x in db.snaps { assert SnapOk(db, x); }
    if y in db.snaps { assert SnapOk(db, y); }
    assert x in db.snaps && y in db.snaps ==> SameSlot(db, x, y);
  }

  lemma CreateKeepsNested(db: DB, op: Op, a: SchemaId, b: SchemaId)
    requires Wf(db) && op.CreateTable? && Enabled(db, op)
    ensures Nested(Apply(db, op), a, b)
  {
    assert Nested(db, a, b);
    if a in db.schemas { assert SchemaOk(db, a); }
    if b in db.schemas { assert SchemaOk(db, b); }
  }

  lemma CreateKeepsWf(db: DB, op: Op)
    requires Wf(db) && op.CreateTable? && Enabled(db, op)
    ensures Wf(Apply(db, op))
  {
    var db' := Apply(db, op);
    forall t | t in db'.tables ensures TableOk(db', t) { if t != op.table { assert TableOk(db, t); } }
    forall x | x in db'.snaps ensures SnapOk(db', x) { if x != op.snap { SnapAndParentOk(db, x); } }
    forall s | s in db'.schemas ensures SchemaOk(db', s) { if s != op.schema { assert SchemaOk(db, s); } }
    forall x, y | SameSlot(db', x, y) ensures x == y { CreateKeepsSlots(db, op, x, y); }
    forall a, b ensures Nested(db', a, b) { CreateKeepsNested(db, op, a, b); }
  }

  lemma RowsOnlyKeepsWf(db: DB, db': DB)
    requires Wf(db) && db'.tables == db.tables && db'.snaps == db.snaps && db'.schemas == db.schemas
    ensures Wf(db')
  {
    forall t | t in db'.tables ensures TableOk(db', t) { assert TableOk(db, t); }
    forall x | x in db'.snaps ensures SnapOk(db', x) { SnapAndParentOk(db, x); }
    forall s | s in db'.schemas ensures SchemaOk(db', s) { assert SchemaOk(db, s); }
    forall x, y | SameSlot(db', x, y) ensures x == y { assert SameSlot(db, x, y); }
    forall a, b ensures Nested(db', a, b) { assert Nested(db, a, b); }
  }

  /** Every accepted operation keeps the catalog well formed. */
  lemma ApplyKeepsWf(db: DB, op: Op)
    requires Wf(db) && Enabled(db, op)
    ensures Wf(Apply(db, op))
  {
    match op
    case CreateTable(_, _, _, _) => CreateKeepsWf(db, op);
    case Commit(_, _, _, _, _, _, _, _) => CommitKeepsWf(db, op);
    case Alter(_, _, _, _) => AlterKeepsWf(db, op);
    case Stage(_, _) => RowsOnlyKeepsWf(db, Apply(db, op));
    case Purge(_) => RowsOnlyKeepsWf(db, Apply(db, op));
  }

  // ---------------------------------------------------------------- serial runs

  /** The state a log leaves, or nothing when some operation was not accepted
      by the state left by the ones before it. */
  ghost function Outcome(log: seq<Op>): Option<DB> {
    if log == [] then Some(EmptyDB)
    else
      var before := Outcome(log[..|log| - 1]);
      if before.Some? && Enabled(before.value, log[|log| - 1])
      then Some(Apply(before.value, log[|log| - 1])) else None
  }

  ghost predicate Serial(log: seq<Op>) { Outcome(log).Some? }

  ghost function Replay(log: seq<Op>): DB
    requires Serial(log)
  { Outcome(log).value }

  lemma {:induction false} SerialWf(log: seq<Op>)
    requires Serial(log)
    ensures Wf(Replay(log))
    decreases |log|
  {
    if log != [] {
      SerialWf(log[..|log| - 1]);
      ApplyKeepsWf(Replay(log[..|log| - 1]), log[|log| - 1]);
    }
  }

  lemma SerialAppend(log: seq<Op>, op: Op)
    requires Serial(log) && Enabled(Replay(log), op)
    ensures Serial(log + [op]) && Replay(log + [op]) == Apply(Replay(log), op)
  {
    assert (log + [op])[..|log + [op]| - 1] == log;
  }

  // ---------------------------------------------------------------- history

  /** The ancestor of `x` that carries sequence number `n`. */
  ghost function AncestorAt(db: DB, x: SnapId, n: nat): SnapId
    requires Wf(db) && x in db.snaps && n <= db.snaps[x].number
    decreases db.snaps[x].number
  {
    assert SnapOk(db, x);
    if db.snaps[x].number == n then x else AncestorAt(db, db.snaps[x].parent.value, n)
  }

  lemma {:induction false} AncestorNumber(db: DB, x: SnapId, n: nat)
    requires Wf(db) && x in db.snaps && n <= db.snaps[x].number
    ensures AncestorAt(db, x, n) in db.snaps
    ensures db.snaps[AncestorAt(db, x, n)].number == n
    ensures db.snaps[AncestorAt(db, x, n)].table == db.snaps[x].table
    ensures Width(db, db.snaps[AncestorAt(db, x, n)].schema) <= Width(db, db.snaps[x].schema)
    decreases db.snaps[x].number
  {
    assert SnapOk(db, x);
    if db.snaps[x].number != n { AncestorNumber(db, db.snaps[x].parent.value, n); }
  }

  predicate Siblings(db: DB, x: SnapId, y: SnapId) {
    && x in db.snaps && y in db.snaps
    && db.snaps[x].table == db.snaps[y].table && db.snaps[x].parent == db.snaps[y].parent
  }

  /** Linear and complete history: walking parent links back from the current
      snapshot meets every snapshot of the table, one per sequence number down
      to the bootstrap, and no two snapshots share a parent. */
  lemma HistoryIsLinear(log: seq<Op>, t: TableId)
    requires Serial(log) && t in Replay(log).tables
    ensures Wf(Replay(log))
    ensures Replay(log).tables[t].current in Replay(log).snaps
    ensures var db := Replay(log); var cur := db.tables[t].current;
      forall x :: x in db.snaps && db.snaps[x].table == t ==>
        db.snaps[x].number <= db.snaps[cur].number && AncestorAt(db, cur, db.snaps[x].number) == x
    ensures var db := Replay(log); var cur := db.tables[t].current;
      forall n: nat :: n <= db.snaps[cur].number ==>
        var a := AncestorAt(db, cur, n); a in db.snaps && db.snaps[a].number == n && db.snaps[a].table == t
    ensures forall x, y :: Siblings(Replay(log), x, y) ==> x == y
  {
    SerialWf(log);
    var db := Replay(log);
    var cur := db.tables[t].current;
    assert TableOk(db, t);
    forall x | x in db.snaps && db.snaps[x].table == t
      ensures db.snaps[x].number <= db.snaps[cur].number && AncestorAt(db, cur, db.snaps[x].number) == x
    {
      assert SnapOk(db, x);
      AncestorNumber(db, cur, db.snaps[x].number);
      assert SameSlot(db, x, AncestorAt(db, cur, db.snaps[x].number));
    }
    forall n: nat | n <= db.snaps[cur].number
      ensures var a := AncestorAt(db, cur, n); a in db.snaps && db.snaps[a].number == n && db.snaps[a].table == t
    { AncestorNumber(db, cur, n); }
    forall x, y | Siblings(db, x, y) ensures x == y {
      assert SnapOk(db, x) && SnapOk(db, y) && SameSlot(db, x, y);
    }
  }

  /** Along any stretch of history the recorded schema only grows: an
      ancestor's columns are a prefix of its descendant's, and both are a
      prefix of the table's present columns. */
  lemma SchemasNeverGoBack(log: seq<Op>, x: SnapId, n: nat)
    requires Serial(log)
    requires x in Replay(log).snaps && n <= Replay(log).snaps[x].number
    ensures Wf(Replay(log))
    ensures var db := Replay(log); var a := AncestorAt(db, x, n);
      && a in db.snaps
      && db.snaps[a].schema in db.schemas && db.snaps[x].schema in db.schemas
      && db.snaps[x].table in db.tables
      && db.tables[db.snaps[x].table].schema in db.schemas
      && db.schemas[db.snaps[a].schema].columns <= db.schemas[db.snaps[x].schema].columns
      && db.schemas[db.snaps[x].schema].columns <= db.schemas[db.tables[db.snaps[x].table].schema].columns
  {
    SerialWf(log);
    var db := Replay(log);
    AncestorNumber(db, x, n);
    var a := AncestorAt(db, x, n);
    assert SnapOk(db, x) && SnapOk(db, a);
    var now := db.tables[db.snaps[x].table].schema;
    assert Nested(db, db.snaps[a].schema, db.snaps[x].schema) && Nested(db, db.snaps[x].schema, now);
  }

  /** The columns a log gives a table: those it was created with, then one per
      `Alter`, in log order. */
  ghost function ColumnsFrom(log: seq<Op>, t: TableId): seq<Column>
    decreases |log|
  {
    if log == [] then []
    else
      var before := ColumnsFrom(log[..|log| - 1], t);
      match log[|log| - 1]
      case CreateTable(u, _, _, columns) => if u == t then columns else before
      case Alter(u, _, _, column) => if u == t then before + [column] else before
      case Commit(_, _, _, _, _, _, _, _) => before
      case Stage(_, _) => before
      case Purge(_) => before
  }

  /** No concurrent alter is lost: the table's present schema is the created
      columns plus every committed alter, each fresh by name. */
  lemma {:induction false} NoAlterLost(log: seq<Op>, t: TableId)
    requires Serial(log) && t in Replay(log).tables
    ensures Replay(log).tables[t].schema in Replay(log).schemas
    ensures Replay(log).schemas[Replay(log).tables[t].schema].columns == ColumnsFrom(log, t)
    ensures DistinctNames(ColumnsFrom(log, t))
    decreases |log|
  {
    SerialWf(log);
    assert TableOk(Replay(log), t);
    assert SchemaOk(Replay(log), Replay(log).tables[t].schema);
    if log != [] {
      var init := log[..|log| - 1];
      if t in Replay(init).tables {
        NoAlterLost(init, t);
        SerialWf(init);
        assert TableOk(Replay(init), t);
      }
    }
  }
}
