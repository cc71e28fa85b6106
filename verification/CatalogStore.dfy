/**
  The catalog as its callers see it: an object whose methods update the rows in
  place, each proved against the atomic operations of `Catalog`.

  A transaction works on its own copy of the rows; returning an error before
  the last assignment is the implicit rollback.  Fresh ids and the clock are
  parameters.
 */
module CatalogStore {
  import opened Options
  import opened Catalog

  datatype Error = Conflict | Sql(reason: string)
  datatype Result<+T> = Ok(value: T) | Err(error: Error)

  /** The first `i` manifests clash neither with `rows` nor with each other. */
  predicate FreshUpTo(rows: map<ExtentId, ExtentRow>, added: seq<Manifest>, i: nat)
    requires i <= |added|
  {
    && (forall j :: 0 <= j < i ==> added[j].id !in rows)
    && (forall j, k :: 0 <= j < k < i ==> added[j].id != added[k].id)
  }

  predicate FreshIds(db: DB, added: seq<Manifest>) { FreshUpTo(db.extents, added, |added|) }

  /** What one `commit` decides, as a function of the rows it finds. */
  function CommitVerdict(db: DB, table: TableId, parent: SnapId, added: seq<Manifest>): Result<()> {
    if parent !in db.snaps then Err(Sql("parent snapshot not found"))
    else if NumberTaken(db, table, db.snaps[parent].number + 1) then Err(Conflict)
    else if !FreshIds(db, added) then Err(Sql("duplicate extent id"))
    else if table !in db.tables || db.tables[table].current != parent then Err(Conflict)
    else Ok(())
  }

  /** In a well-formed catalog the verdict is exact: a commit conflicts just
      when its parent is no longer the table's current snapshot. */
  lemma VerdictIsExact(db: DB, table: TableId, parent: SnapId, added: seq<Manifest>)
    requires Wf(db) && parent in db.snaps && db.snaps[parent].table == table
    ensures table in db.tables
    ensures var v := CommitVerdict(db, table, parent, added);
      && (v == Err(Conflict) <==> db.tables[table].current != parent)
      && (v == Ok(()) <==> db.tables[table].current == parent && FreshIds(db, added))
  {
    assert SnapOk(db, parent);
    var cur := db.tables[table].current;
    assert SnapOk(db, cur);
    if cur == parent {
      forall x | x in db.snaps && db.snaps[x].table == table ensures db.snaps[x].number != db.snaps[parent].number + 1 {
        assert SnapOk(db, x);
      }
    } else {
      if db.snaps[cur].number == db.snaps[parent].number { assert SameSlot(db, cur, parent); }
      AncestorNumber(db, cur, db.snaps[parent].number + 1);
    }
  }

  /** When a commit is let through, in terms of the rows. */
  lemma VerdictIs(db: DB, table: TableId, parent: SnapId, added: seq<Manifest>)
    ensures CommitVerdict(db, table, parent, added).Ok? <==>
      && parent in db.snaps && table in db.tables && db.tables[table].current == parent
      && (forall x :: x in db.snaps && db.snaps[x].table == table ==> db.snaps[x].number != db.snaps[parent].number + 1)
      && (forall i :: 0 <= i < |added| ==> added[i].id !in db.extents)
      && (forall i, j :: 0 <= i < j < |added| ==> added[i].id != added[j].id)
  {}

  lemma InsertsExtend(added: seq<Manifest>, i: nat)
    requires i < |added|
    ensures Inserts(added[..i + 1]) == Inserts(added[..i])[added[i].id := RowOf(added[i])]
  {
    var more := added[..i + 1];
    assert more[..|more| - 1] == added[..i] && more[|more| - 1] == added[i];
  }

  /** The primary key objects to row `i` exactly when it is the first clash. */
  lemma NextClash(rows: map<ExtentId, ExtentRow>, added: seq<Manifest>, i: nat)
    requires i < |added| && FreshUpTo(rows, added, i)
    ensures FreshUpTo(rows, added, i + 1) <==> added[i].id !in rows && !HasId(added[..i], added[i].id)
  {
    var done := added[..i];
    assert forall j :: 0 <= j < i ==> done[j] == added[j];
    if HasId(done, added[i].id) {
      var j :| 0 <= j < |done| && done[j].id == added[i].id;
      assert added[j].id == added[i].id;
    }
  }

  lemma UnionInsert(rows: map<ExtentId, ExtentRow>, more: map<ExtentId, ExtentRow>, x: ExtentId, row: ExtentRow)
    ensures (rows + more)[x := row] == rows + more[x := row]
  {}

  /** Inserts a transaction's extents one statement at a time; the primary key
      stops at the first clash. */
  method InsertExtents(rows: map<ExtentId, ExtentRow>, added: seq<Manifest>)
    returns (ok: bool, out: map<ExtentId, ExtentRow>)
    ensures ok <==> FreshUpTo(rows, added, |added|)
    ensures ok ==> out == rows + Inserts(added)
  {
    out := rows;
    for i := 0 to |added|
      invariant out == rows + Inserts(added[..i]) && FreshUpTo(rows, added, i)
    {
      InsertStep(rows, added, i);
      if added[i].id in out { return false, rows; }
      out := out[added[i].id := RowOf(added[i])];
    }
    assert added[..|added|] == added;
    ok := true;
  }

  /** One insert statement: it clashes, and then so does the whole list, or
      it extends what is inserted by one row. */
  lemma InsertStep(rows: map<ExtentId, ExtentRow>, added: seq<Manifest>, i: nat)
    requires i < |added| && FreshUpTo(rows, added, i)
    ensures var out := rows + Inserts(added[..i]);
      if added[i].id in out then !FreshUpTo(rows, added, |added|)
      else FreshUpTo(rows, added, i + 1) && out[added[i].id := RowOf(added[i])] == rows + Inserts(added[..i + 1])
  {
    NextClash(rows, added, i);
    InsertsExtend(added, i);
    UnionInsert(rows, Inserts(added[..i]), added[i].id, RowOf(added[i]));
  }

  predicate KnownColumn(db: DB, table: TableId, name: string) {
    && table in db.tables && db.tables[table].schema in db.schemas
    && HasColumn(db.schemas[db.tables[table].schema].columns, name)
  }

  class CatalogStore {
    var db: DB

    constructor ()
      ensures db == EmptyDB
    {
      db := EmptyDB;
    }

    method CreateTable(table: TableId, snap: SnapId, schema: SchemaId, columns: seq<Column>)
      requires table !in db.tables && snap !in db.snaps && schema !in db.schemas && DistinctNames(columns)
      modifies this
      ensures db == Apply(old(db), Op.CreateTable(table, snap, schema, columns))
      ensures db.tables == old(db).tables[table := TableRow(snap, schema)]
      ensures db.snaps == old(db).snaps[snap := SnapRow(table, None, 0, schema)]
      ensures db.schemas == old(db).schemas[schema := SchemaRow(table, columns)]
      ensures db.extents == old(db).extents && db.staged == old(db).staged
    {
      var tx := db;
      tx := tx.(schemas := tx.schemas[schema := SchemaRow(table, columns)]);
      tx := tx.(snaps := tx.snaps[snap := SnapRow(table, None, 0, schema)]);
      tx := tx.(tables := tx.tables[table := TableRow(snap, schema)]);
      db := tx;
    }

    /** `begin_snapshot`: reads the parent and the schema together. */
    method BeginSnapshot(table: TableId) returns (r: Result<SnapshotTxn>)
      ensures r.Ok? <==> table in db.tables
      ensures r.Ok? ==>
        && fresh(r.value) && r.value.table == table && r.value.added == [] && r.value.removed == []
        && r.value.parent == db.tables[table].current && r.value.schema == db.tables[table].schema
      ensures r.Err? ==> r.error.Sql?
    {
      if table !in db.tables { return Err(Sql("table not found")); }
      var txn := new SnapshotTxn(table, db.tables[table].current, db.tables[table].schema);
      return Ok(txn);
    }

    /** `commit_staged_group`: publishes staged manifests on top of whatever
        snapshot is current and destages them in the same transaction. */
    method CommitStagedGroup(table: TableId, stagedIds: set<StagedId>, manifests: seq<Manifest>, snap: SnapId)
      returns (r: Result<Option<SnapId>>)
      modifies this
      ensures manifests == [] ==> r == Ok(None) && db == old(db)
      ensures r.Err? ==> db == old(db)
      ensures r == Ok(Some(snap)) <==>
        manifests != [] && table in old(db).tables
        && CommitVerdict(old(db), table, old(db).tables[table].current, manifests).Ok?
      ensures r.Ok? && manifests != [] ==>
        && r == Ok(Some(snap)) && table in old(db).tables && old(db).tables[table].current in old(db).snaps
        && var parent := old(db).tables[table].current;
        db == CommitDb(old(db), Commit(table, parent, snap, old(db).snaps[parent].schema, manifests, {}, stagedIds, 0))
      ensures r == Err(Conflict) ==>
        table in old(db).tables && CommitVerdict(old(db), table, old(db).tables[table].current, manifests) == Err(Conflict)
      ensures r == Ok(Some(snap)) ==> forall x :: x in db.extents <==> x in old(db).extents || HasId(manifests, x)
      ensures r == Ok(Some(snap)) ==> forall x :: x in old(db).extents ==> db.extents[x] == old(db).extents[x]
      ensures r == Ok(Some(snap)) ==> forall i :: 0 <= i < |manifests| ==>
        && manifests[i].id in db.extents
        && db.extents[manifests[i].id] == ExtentRow(manifests[i].table, manifests[i].rows, None)
      ensures r == Ok(Some(snap)) ==>
        && table in old(db).tables
        && var parent := old(db).tables[table].current;
        && parent in old(db).snaps && db.tables == old(db).tables[table := old(db).tables[table].(current := snap)]
        && db.snaps == old(db).snaps[snap := SnapRow(table, Some(parent), old(db).snaps[parent].number + 1, old(db).snaps[parent].schema)]
      ensures r == Ok(Some(snap)) ==> forall sid :: sid in db.staged <==> sid in old(db).staged && sid !in stagedIds
      ensures r == Ok(Some(snap)) ==> forall sid :: sid in db.staged ==> db.staged[sid] == old(db).staged[sid]
    {
      if manifests == [] { return Ok(None); }
      if table !in db.tables { return Err(Sql("table not found")); }
      var parent := db.tables[table].current;
      if parent !in db.snaps { return Err(Sql("parent snapshot not found")); }
      var op := Op.Commit(table, parent, snap, db.snaps[parent].schema, manifests, {}, stagedIds, 0);
      var verdict, tx := RunGroup(db, op);
      if verdict.Err? { return Err(verdict.error); }
      CommitEffect(db, op);
      db := tx;
      return Ok(Some(snap));
    }

    /** `stage_extent`: idempotent per batch while the batch is staged. */
    method StageExtent(sid: StagedId, batch: BatchId, manifest: Manifest) returns (inserted: bool)
      requires sid !in db.staged
      modifies this
      ensures inserted <==> forall other :: other in old(db).staged ==> old(db).staged[other].batch != batch
      ensures db == if inserted then old(db).(staged := old(db).staged[sid := StagedRow(batch, manifest)]) else old(db)
      ensures inserted ==> Enabled(old(db), Stage(sid, StagedRow(batch, manifest)))
      ensures inserted ==> db == Apply(old(db), Stage(sid, StagedRow(batch, manifest)))
    {
      if BatchStaged(db, batch) { return false; }
      db := db.(staged := db.staged[sid := StagedRow(batch, manifest)]);
      return true;
    }

    /** `alter_table_add_column`. */
    method AddColumn(table: TableId, name: string, ty: string, to: SchemaId) returns (r: Result<SchemaId>)
      requires Wf(db) && to !in db.schemas
      modifies this
      ensures Wf(db)
      ensures r.Err? ==> db == old(db)
      ensures r.Ok? <==>
        table in old(db).tables && !KnownColumn(old(db), table, name)
      ensures r.Ok? ==> table in old(db).tables && var from := old(db).tables[table].schema; var op := Op.Alter(table, from, to, Column(name, ty, true));
        r == Ok(to) && Enabled(old(db), op) && db == Apply(old(db), op)
      ensures r.Ok? <==>
        && table in old(db).tables && old(db).tables[table].schema in old(db).schemas
        && forall i :: 0 <= i < |old(db).schemas[old(db).tables[table].schema].columns| ==>
             old(db).schemas[old(db).tables[table].schema].columns[i].name != name
      ensures r.Ok? ==>
        && table in old(db).tables && old(db).tables[table].schema in old(db).schemas
        && db.tables == old(db).tables[table := old(db).tables[table].(schema := to)]
        && db.schemas == old(db).schemas[to := SchemaRow(table,
             old(db).schemas[old(db).tables[table].schema].columns + [Column(name, ty, true)])]
        && db.snaps == old(db).snaps && db.extents == old(db).extents && db.staged == old(db).staged
    {
      var tx := db;
      if table !in tx.tables { return Err(Sql("table not found")); }
      assert TableOk(tx, table);
      var from := tx.tables[table].schema;
      var columns := tx.schemas[from].columns;
      if HasColumn(columns, name) { return Err(Sql("column already exists")); }
      tx := tx.(schemas := tx.schemas[to := SchemaRow(table, columns + [Column(name, ty, true)])]);
      if tx.tables[table].schema != from { return Err(Conflict); }
      tx := tx.(tables := tx.tables[table := tx.tables[table].(schema := to)]);
      ApplyKeepsWf(db, Op.Alter(table, from, to, Column(name, ty, true)));
      db := tx;
      return Ok(to);
    }

    /** `gc_candidates`: the soft-deleted extents older than `before`. */
    method GcCandidates(before: Time) returns (ids: set<ExtentId>)
      ensures forall x :: x in ids <==>
        x in db.extents && db.extents[x].deletedAt.Some? && db.extents[x].deletedAt.value < before
    {
      ids := set x | x in db.extents && db.extents[x].deletedAt.Some? && db.extents[x].deletedAt.value < before;
    }

    /** `delete_extent_rows`: by id alone, whatever the rows now say. */
    method DeleteExtentRows(ids: set<ExtentId>)
      modifies this
      ensures db == old(db).(extents := old(db).extents - ids)
    {
      if ids == {} {
        assert db.extents - ids == db.extents;
        return;
      }
      db := db.(extents := db.extents - ids);
    }
  }

  /** What a commit does to the rows, one by one: an extent that was there keeps
      all but its deletion time, which is the clock's exactly if the commit lists
      it and it had none; a new extent is its manifest. */
  lemma CommitEffect(db: DB, op: Op)
    requires op.Commit? && op.table in db.tables && op.parent in db.snaps && FreshIds(db, op.added)
    ensures var db' := CommitDb(db, op);
      && (forall x :: x in db'.extents <==> x in db.extents || HasId(op.added, x))
      && (forall x :: x in db.extents && (x !in op.removed || db.extents[x].deletedAt.Some?) ==> db'.extents[x] == db.extents[x])
      && (forall x :: x in db.extents && x in op.removed && db.extents[x].deletedAt == None ==>
            db'.extents[x] == db.extents[x].(deletedAt := Some(op.now)))
      && (forall i :: 0 <= i < |op.added| ==>
            && op.added[i].id in db'.extents && db'.extents[op.added[i].id].table == op.added[i].table
            && db'.extents[op.added[i].id].rows == op.added[i].rows
            && db'.extents[op.added[i].id].deletedAt == if op.added[i].id in op.removed then Some(op.now) else None)
  {
    assert DistinctIds(op.added);
    forall i | 0 <= i < |op.added| ensures HasId(op.added, op.added[i].id) {}
    forall x | x in db.extents ensures !HasId(op.added, x) {
      if HasId(op.added, x) { AddedIsNew(db, op.added, x); }
    }
  }

  /** What a direct commit leaves, row by row. */
  ghost predicate Landed(db: DB, db': DB, table: TableId, parent: SnapId, schema: SchemaId, added: seq<Manifest>,
                         removed: seq<ExtentId>, snap: SnapId, now: Time)
  {
    && (forall x :: x in db'.extents <==> x in db.extents || HasId(added, x))
    && (forall x :: x in db.extents && (x !in removed || db.extents[x].deletedAt.Some?) ==> db'.extents[x] == db.extents[x])
    && (forall x :: x in db.extents && x in removed && db.extents[x].deletedAt == None ==>
          db'.extents[x] == db.extents[x].(deletedAt := Some(now)))
    && (forall i :: 0 <= i < |added| ==>
          && added[i].id in db'.extents && db'.extents[added[i].id].table == added[i].table
          && db'.extents[added[i].id].rows == added[i].rows
          && db'.extents[added[i].id].deletedAt == if added[i].id in removed then Some(now) else None)
    && parent in db.snaps && table in db.tables && db'.tables == db.tables[table := db.tables[table].(current := snap)]
    && db'.snaps == db.snaps[snap := SnapRow(table, Some(parent), db.snaps[parent].number + 1, schema)]
    && db'.staged == db.staged && db'.schemas == db.schemas
  }

  lemma DirectEffect(db: DB, db': DB, op: Op, removed: seq<ExtentId>)
    requires op.Commit? && op.removed == Ids(removed) && op.group == {}
    requires CommitVerdict(db, op.table, op.parent, op.added).Ok? && db' == CommitDb(db, op)
    ensures Landed(db, db', op.table, op.parent, op.schema, op.added, removed, op.snap, op.now)
  {
    CommitEffect(db, op);
    assert forall x :: x in op.removed <==> x in removed;
    NothingDestaged(db.staged);
  }

  lemma AddedIsNew(db: DB, added: seq<Manifest>, x: ExtentId)
    requires FreshIds(db, added) && HasId(added, x)
    ensures x !in db.extents
  {
    var i :| 0 <= i < |added| && added[i].id == x;
  }

  lemma NothingRetired(rows: map<ExtentId, ExtentRow>, now: Time)
    ensures Retire(rows, {}, now) == rows
  {}

  lemma NothingDestaged(rows: map<StagedId, StagedRow>)
    ensures rows - {} == rows
  {}

  /** The statements of an accepted commit, run one after another, leave what
      the atomic operation leaves. */
  lemma StatementsMakeCommit(db: DB, op: Op, extents: map<ExtentId, ExtentRow>)
    requires op.Commit? && op.table in db.tables && op.parent in db.snaps && op.group == {}
    requires extents == Retire(db.extents + Inserts(op.added), op.removed, op.now)
    ensures db.(snaps := db.snaps[op.snap := SnapRow(op.table, Some(op.parent), db.snaps[op.parent].number + 1, op.schema)],
                extents := extents,
                tables := db.tables[op.table := db.tables[op.table].(current := op.snap)])
         == CommitDb(db, op)
  {
    NothingDestaged(db.staged);
  }

  /** The same for a staged commit, which also destages. */
  lemma StatementsMakeGroup(db: DB, op: Op, extents: map<ExtentId, ExtentRow>)
    requires op.Commit? && op.table in db.tables && op.parent in db.snaps && op.removed == {}
    requires extents == db.extents + Inserts(op.added)
    ensures db.(snaps := db.snaps[op.snap := SnapRow(op.table, Some(op.parent), db.snaps[op.parent].number + 1, op.schema)],
                extents := extents,
                tables := db.tables[op.table := db.tables[op.table].(current := op.snap)],
                staged := db.staged - op.group)
         == CommitDb(db, op)
  {
    NothingRetired(extents, op.now);
  }

  /** The statements of `commit_staged_group`, from the child row to destaging. */
  method RunGroup(db: DB, op: Op) returns (r: Result<()>, tx: DB)
    requires op.Commit? && op.removed == {}
    ensures r == CommitVerdict(db, op.table, op.parent, op.added)
    ensures r.Ok? ==> tx == CommitDb(db, op)
  {
    tx := db;
    if op.parent !in tx.snaps { return Err(Sql("parent snapshot not found")), db; }
    var number := tx.snaps[op.parent].number + 1;
    if NumberTaken(tx, op.table, number) { return Err(Conflict), db; }
    tx := tx.(snaps := tx.snaps[op.snap := SnapRow(op.table, Some(op.parent), number, op.schema)]);
    var inserted, extents := InsertExtents(tx.extents, op.added);
    if !inserted { return Err(Sql("duplicate extent id")), db; }
    tx := tx.(extents := extents);
    if op.table !in tx.tables || tx.tables[op.table].current != op.parent { return Err(Conflict), db; }
    tx := tx.(tables := tx.tables[op.table := tx.tables[op.table].(current := op.snap)]);
    tx := tx.(staged := tx.staged - op.group);
    StatementsMakeGroup(db, op, extents);
    return Ok(()), tx;
  }

  function Ids(extents: seq<ExtentId>): set<ExtentId> { set x | x in extents }

  /** `SnapshotTxn`: adds and removes gathered in memory, then one commit. */
  class SnapshotTxn {
    const table: TableId
    const parent: SnapId
    const schema: SchemaId
    var added: seq<Manifest>
    var removed: seq<ExtentId>

    constructor (table: TableId, parent: SnapId, schema: SchemaId)
      ensures this.table == table && this.parent == parent && this.schema == schema
      ensures added == [] && removed == []
    {
      this.table, this.parent, this.schema := table, parent, schema;
      added, removed := [], [];
    }

    method AddExtent(manifest: Manifest)
      modifies this
      ensures added == old(added) + [manifest] && removed == old(removed)
    {
      added := added + [manifest];
    }

    method RemoveExtents(extents: seq<ExtentId>)
      modifies this
      ensures removed == old(removed) + extents && added == old(added)
    {
      removed := removed + extents;
    }

    function AsOp(snap: SnapId, now: Time): Op
      reads this
    {
      Op.Commit(table, parent, snap, schema, added, Ids(removed), {}, now)
    }

    method Commit(catalog: CatalogStore, snap: SnapId, now: Time) returns (r: Result<SnapId>)
      modifies catalog
      ensures r.Ok? <==> CommitVerdict(old(catalog.db), table, parent, added).Ok?
      ensures r.Ok? ==> r == Ok(snap) && catalog.db == CommitDb(old(catalog.db), AsOp(snap, now))
      ensures r.Err? ==> catalog.db == old(catalog.db)
      ensures r.Err? ==> CommitVerdict(old(catalog.db), table, parent, added) == Err(r.error)
      ensures r.Ok? <==>
        && parent in old(catalog.db).snaps && table in old(catalog.db).tables && old(catalog.db).tables[table].current == parent
        && (forall x :: x in old(catalog.db).snaps && old(catalog.db).snaps[x].table == table ==>
              old(catalog.db).snaps[x].number != old(catalog.db).snaps[parent].number + 1)
        && (forall i :: 0 <= i < |added| ==> added[i].id !in old(catalog.db).extents)
        && (forall i, j :: 0 <= i < j < |added| ==> added[i].id != added[j].id)
      ensures r.Ok? ==> Landed(old(catalog.db), catalog.db, table, parent, schema, added, removed, snap, now)
    {
      var verdict, tx := RunCommit(catalog.db, AsOp(snap, now), removed);
      if verdict.Err? { return Err(verdict.error); }
      catalog.db := tx;
      return Ok(snap);
    }
  }

  /** The statements of `SnapshotTxn::commit` against the transaction's view. */
  method RunCommit(db: DB, op: Op, removed: seq<ExtentId>) returns (r: Result<()>, tx: DB)
    requires op.Commit? && op.removed == Ids(removed) && op.group == {}
    ensures r == CommitVerdict(db, op.table, op.parent, op.added)
    ensures r.Ok? ==> tx == CommitDb(db, op)
    ensures r.Ok? <==>
      && op.parent in db.snaps && op.table in db.tables && db.tables[op.table].current == op.parent
      && (forall x :: x in db.snaps && db.snaps[x].table == op.table ==> db.snaps[x].number != db.snaps[op.parent].number + 1)
      && (forall i :: 0 <= i < |op.added| ==> op.added[i].id !in db.extents)
      && (forall i, j :: 0 <= i < j < |op.added| ==> op.added[i].id != op.added[j].id)
    ensures r.Ok? ==> Landed(db, tx, op.table, op.parent, op.schema, op.added, removed, op.snap, op.now)
  {
    VerdictIs(db, op.table, op.parent, op.added);
    tx := db;
    if op.parent !in tx.snaps { return Err(Sql("parent snapshot not found")), db; }
    var number := tx.snaps[op.parent].number + 1;
    if NumberTaken(tx, op.table, number) { return Err(Conflict), db; }
    tx := tx.(snaps := tx.snaps[op.snap := SnapRow(op.table, Some(op.parent), number, op.schema)]);
    var inserted, extents := InsertExtents(tx.extents, op.added);
    if !inserted { return Err(Sql("duplicate extent id")), db; }
    if removed != [] {
      extents := Retire(extents, op.removed, op.now);
    } else {
      NothingRetired(extents, op.now);
      assert Ids(removed) == {};
    }
    tx := tx.(extents := extents);
    if op.table !in tx.tables || tx.tables[op.table].current != op.parent { return Err(Conflict), db; }
    tx := tx.(tables := tx.tables[op.table := tx.tables[op.table].(current := op.snap)]);
    StatementsMakeCommit(db, op, extents);
    DirectEffect(db, tx, op, removed);
    return Ok(()), tx;
  }
}
