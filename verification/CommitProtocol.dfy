/**
  The commit protocol at the granularity of its SQL statements.

  Any number of clients run at once: writers and compactors between
  `begin_snapshot` and `commit`, committers between `list_staged_extents` and
  the end of `commit_staged_group`, schema changes, and the collector between
  `gc_candidates` and `delete_extent_rows`.  A statement sees the committed
  rows and its own transaction's writes; a transaction's writes reach the
  committed rows only when it publishes.  Two kinds of row lock are kept: the
  `tables` row a compare-and-set has written, and the `extents` rows a
  transaction has written (a purge waits for those).  The other waits of the
  code (`FOR UPDATE` on the parent, a unique index entry of an unfinished
  transaction) only remove interleavings, so they are not modelled.
 */
module CommitProtocol {
  import opened Options
  import opened Catalog

  type ClientId = nat

  /** `Direct` is `SnapshotTxn::commit`, `Grouped` is `commit_staged_group`. */
  datatype Kind = Direct | Grouped

  /** The last statement a commit has finished. */
  datatype Pc = Begun | NumberRead | SnapIn | Retired | Swapped | Destaged {
    predicate HasNumber() { !Begun? }
    predicate HasSnap() { !Begun? && !NumberRead? }
    predicate HoldsTable() { Swapped? || Destaged? }
  }

  datatype Txn = Txn(
    kind: Kind, table: TableId, parent: SnapId, schema: SchemaId,
    added: seq<Manifest>, removed: set<ExtentId>, group: map<StagedId, Manifest>,
    pc: Pc, number: nat, snap: SnapId, inserted: nat, writes: map<ExtentId, ExtentRow>, now: Time)

  datatype AlterPc = SchemaRead | SchemaIn | SchemaSwapped
  datatype AlterTxn = AlterTxn(pc: AlterPc, table: TableId, from: SchemaId, read: seq<Column>,
                               column: Column, to: SchemaId)

  datatype Client =
    | Idle
    /** Extents written to the object store, not yet committed; a conflict returns here. */
    | Working(table: TableId, added: seq<Manifest>, removed: set<ExtentId>)
    /** Staged rows listed and not yet committed by this committer. */
    | Holding(rows: map<StagedId, Manifest>)
    | InTxn(txn: Txn, held: map<StagedId, Manifest>)
    | Altering(alter: AlterTxn)
    /** Ids `gc_candidates` returned. */
    | Collecting(doomed: set<ExtentId>)

  /** Who may commit a minted extent id: the writer that made it, or whichever
      committer finds its staged row. */
  datatype Owner = Writer(client: ClientId) | Router(sid: StagedId)
  datatype Mint = Mint(manifest: Manifest, owner: Owner)

  /** `minted`, `used`, `usedSchemas` and `accepted` record ids handed out so
      far (every id is a fresh uuid); `log` records published transactions. */
  datatype Sys = Sys(
    db: DB, clients: map<ClientId, Client>,
    minted: map<ExtentId, Mint>, used: set<SnapId>, usedSchemas: set<SchemaId>,
    accepted: map<StagedId, Manifest>, log: seq<Op>)

  const Start := Sys(EmptyDB, map[], map[], {}, {}, map[], [])

  function At(s: Sys, c: ClientId): Client { if c in s.clients then s.clients[c] else Idle }

  function Becomes(s: Sys, c: ClientId, client: Client): Sys { s.(clients := s.clients[c := client]) }

  function TableLock(client: Client): Option<TableId> {
    if client.InTxn? && client.txn.pc.HoldsTable() then Some(client.txn.table)
    else if client.Altering? && client.alter.pc.SchemaSwapped? then Some(client.alter.table)
    else None
  }

  ghost predicate TableFree(s: Sys, c: ClientId, t: TableId) {
    forall d :: d != c ==> TableLock(At(s, d)) != Some(t)
  }

  /** No transaction in flight has written row `x`. */
  ghost predicate RowFree(s: Sys, x: ExtentId) {
    forall d :: At(s, d).InTxn? ==> x !in At(s, d).txn.writes
  }

  /** Where a client lands when its transaction fails or is rolled back. */
  function AfterAbort(client: Client): Client
    requires client.InTxn?
  {
    if client.txn.kind.Direct? then Working(client.txn.table, client.txn.added, client.txn.removed)
    else Holding(client.held)
  }

  // ---------------------------------------------------------------- statements

  datatype Action =
    | Create(op: Op)
    | MakeExtents(table: TableId, added: seq<Manifest>, removed: set<ExtentId>)
    | Begin
    | ReadNumber
    | InsertSnap(snap: SnapId)
    | InsertExtent
    | SoftDelete(now: Time)
    | Swap
    | Destage
    | Publish
    | Fail
    | Quit
    | StageRow(sid: StagedId, batch: BatchId, manifest: Manifest)
    | ListStaged(rows: set<StagedId>)
    | BeginGroup(table: TableId, order: seq<StagedId>)
    | AlterRead(table: TableId, column: Column)
    | AlterInsert(to: SchemaId)
    | AlterSwap
    | AlterPublish
    | Collect(before: Time)
    | PurgeRow(extent: ExtentId)

  function Manifests(rows: map<StagedId, Manifest>, order: seq<StagedId>): (ms: seq<Manifest>)
    requires forall i :: 0 <= i < |order| ==> order[i] in rows
    ensures |ms| == |order| && forall i :: 0 <= i < |order| ==> ms[i] == rows[order[i]]
  {
    seq(|order|, i requires 0 <= i < |order| => rows[order[i]])
  }

  lemma IdsSplit(added: seq<Manifest>)
    requires added != []
    ensures var init, last := added[..|added| - 1], added[|added| - 1];
      && (forall i :: 0 <= i < |init| ==> init[i] == added[i])
      && (forall x :: HasId(added, x) <==> HasId(init, x) || x == last.id)
  {
    var init, last := added[..|added| - 1], added[|added| - 1];
    forall x ensures HasId(added, x) <==> HasId(init, x) || x == last.id {
      if HasId(init, x) {
        var i :| 0 <= i < |init| && init[i].id == x;
        assert added[i].id == x;
      }
    }
  }

  function Mints(added: seq<Manifest>, owner: Owner): (minted: map<ExtentId, Mint>)
    ensures forall x :: x in minted <==> HasId(added, x)
    ensures forall x :: x in minted ==> minted[x].manifest.id == x && minted[x].owner == owner
    ensures DistinctIds(added) ==>
      forall i :: 0 <= i < |added| ==> added[i].id in minted && minted[added[i].id] == Mint(added[i], owner)
  {
    if added == [] then map[]
    else
      var init, last := added[..|added| - 1], added[|added| - 1];
      IdsSplit(added);
      Mints(init, owner)[last.id := Mint(last, owner)]
  }

  ghost predicate Can(s: Sys, c: ClientId, a: Action) {
    var me := At(s, c);
    match a
    case Create(op) =>
      op.CreateTable? && Enabled(s.db, op) && op.snap !in s.used && op.schema !in s.usedSchemas
    case MakeExtents(t, added, removed) =>
      && me.Idle? && DistinctIds(added)
      && (forall i :: 0 <= i < |added| ==> added[i].id !in s.minted && added[i].table == t)
      && (forall x :: x in removed ==> x in s.minted && s.minted[x].manifest.table == t)
    case Begin => me.Working? && me.table in s.db.tables
    case ReadNumber => me.InTxn? && me.txn.pc.Begun? && me.txn.parent in s.db.snaps
    case InsertSnap(snap) => me.InTxn? && me.txn.pc.NumberRead? && snap !in s.used
    case InsertExtent => me.InTxn? && me.txn.pc.SnapIn? && me.txn.inserted < |me.txn.added|
    case SoftDelete(_) =>
      me.InTxn? && me.txn.kind.Direct? && me.txn.pc.SnapIn? && me.txn.inserted == |me.txn.added|
    case Swap =>
      && me.InTxn?
      && (if me.txn.kind.Direct? then me.txn.pc.Retired?
          else me.txn.pc.SnapIn? && me.txn.inserted == |me.txn.added|)
      && me.txn.table in s.db.tables && TableFree(s, c, me.txn.table)
    case Destage => me.InTxn? && me.txn.kind.Grouped? && me.txn.pc.Swapped?
    case Publish => ReadyToPublish(s, c)
    case Fail => me.InTxn? || me.Altering?
    case Quit => me.Working? || me.Holding? || me.Collecting?
    case StageRow(sid, _, manifest) =>
      sid !in s.accepted && sid !in s.db.staged && manifest.id !in s.minted
    case ListStaged(rows) => me.Idle? && rows <= s.db.staged.Keys
    case BeginGroup(t, order) =>
      && me.Holding? && t in s.db.tables && order != []
      && (forall i :: 0 <= i < |order| ==> order[i] in me.rows && me.rows[order[i]].table == t)
    case AlterRead(t, column) =>
      && me.Idle? && t in s.db.tables && s.db.tables[t].schema in s.db.schemas
      && column.nullable && !HasColumn(s.db.schemas[s.db.tables[t].schema].columns, column.name)
    case AlterInsert(to) => me.Altering? && me.alter.pc.SchemaRead? && to !in s.usedSchemas
    case AlterSwap =>
      && me.Altering? && me.alter.pc.SchemaIn?
      && me.alter.table in s.db.tables && TableFree(s, c, me.alter.table)
    case AlterPublish => ReadyToAlter(s, c)
    case Collect(_) => me.Idle?
    case PurgeRow(x) => me.Collecting? && x in me.doomed && RowFree(s, x)
  }

  /** A committed snapshot transaction: its private rows land together. */
  function PublishDb(db: DB, txn: Txn): DB
    requires txn.table in db.tables
  {
    db.(tables := db.tables[txn.table := db.tables[txn.table].(current := txn.snap)],
        snaps := db.snaps[txn.snap := SnapRow(txn.table, Some(txn.parent), txn.number + 1, txn.schema)],
        extents := db.extents + txn.writes,
        staged := db.staged - txn.group.Keys)
  }

  function OpOf(txn: Txn): Op {
    Commit(txn.table, txn.parent, txn.snap, txn.schema, txn.added, txn.removed, txn.group.Keys, txn.now)
  }

  function AlterDb(db: DB, alter: AlterTxn): DB
    requires alter.table in db.tables
  {
    db.(tables := db.tables[alter.table := db.tables[alter.table].(schema := alter.to)],
        schemas := db.schemas[alter.to := SchemaRow(alter.table, alter.read + [alter.column])])
  }

  predicate ReadyToPublish(s: Sys, c: ClientId) {
    var me := At(s, c);
    && me.InTxn? && me.txn.table in s.db.tables
    && (if me.txn.kind.Direct? then me.txn.pc.Swapped? else me.txn.pc.Destaged?)
  }

  /** `COMMIT`.  A committer keeps the rows of its other tables. */
  function PublishStep(s: Sys, c: ClientId): Sys
    requires ReadyToPublish(s, c)
  {
    var me := At(s, c);
    var next := if me.txn.kind.Direct? then Idle else Holding(me.held - me.txn.group.Keys);
    Becomes(s, c, next).(db := PublishDb(s.db, me.txn), log := s.log + [OpOf(me.txn)])
  }

  /** `INSERT INTO staged_extents ... ON CONFLICT DO NOTHING`: the extent is
      minted either way, its row is accepted only if the batch is not staged. */
  function StageStep(s: Sys, sid: StagedId, batch: BatchId, m: Manifest): Sys
    requires sid !in s.db.staged
  {
    var row := StagedRow(batch, m);
    if BatchStaged(s.db, batch) then s.(minted := s.minted[m.id := Mint(m, Router(sid))])
    else s.(db := Apply(s.db, Stage(sid, row)), log := s.log + [Stage(sid, row)],
            minted := s.minted[m.id := Mint(m, Router(sid))],
            accepted := s.accepted[sid := m])
  }

  function AlterOp(alter: AlterTxn): Op { Op.Alter(alter.table, alter.from, alter.to, alter.column) }

  predicate ReadyToAlter(s: Sys, c: ClientId) {
    var me := At(s, c);
    me.Altering? && me.alter.pc.SchemaSwapped? && me.alter.table in s.db.tables
  }

  function AlterStep(s: Sys, c: ClientId): Sys
    requires ReadyToAlter(s, c)
  {
    var alter := At(s, c).alter;
    Becomes(s, c, Idle).(db := AlterDb(s.db, alter), log := s.log + [AlterOp(alter)])
  }

  function CreateStep(s: Sys, op: Op): Sys
    requires op.CreateTable? && Enabled(s.db, op)
  {
    s.(db := Apply(s.db, op), log := s.log + [op],
       used := s.used + {op.snap}, usedSchemas := s.usedSchemas + {op.schema})
  }

  function PurgeStep(s: Sys, x: ExtentId): Sys {
    s.(db := s.db.(extents := s.db.extents - {x}), log := s.log + [Purge(x)])
  }

  function BegunTxn(row: TableRow, t: TableId, added: seq<Manifest>, removed: set<ExtentId>): Txn {
    Txn(Direct, t, row.current, row.schema, added, removed, map[], Begun, 0, 0, 0, map[], 0)
  }

  function GroupTxn(parent: SnapId, t: TableId, rows: map<StagedId, Manifest>, order: seq<StagedId>): Txn
    requires forall i :: 0 <= i < |order| ==> order[i] in rows
  {
    var group := map sid | sid in order :: rows[sid];
    Txn(Grouped, t, parent, 0, Manifests(rows, order), {}, group, Begun, 0, 0, 0, map[], 0)
  }

  /** The parent's number, and for a group the schema it records. */
  function NumberedTxn(parent: SnapRow, txn: Txn): Txn {
    txn.(pc := NumberRead, number := parent.number, schema := if txn.kind.Direct? then txn.schema else parent.schema)
  }

  function WorkStep(s: Sys, c: ClientId, t: TableId, added: seq<Manifest>, removed: set<ExtentId>): Sys {
    Becomes(s, c, Working(t, added, removed)).(minted := s.minted + Mints(added, Writer(c)))
  }

  function InsertRow(txn: Txn): Txn
    requires txn.inserted < |txn.added|
  {
    var m := txn.added[txn.inserted];
    txn.(inserted := txn.inserted + 1, writes := txn.writes[m.id := RowOf(m)])
  }

  /** `UPDATE extents SET deleted_at` on the rows this transaction sees. */
  function RetireRows(rows: map<ExtentId, ExtentRow>, txn: Txn, now: Time): Txn {
    var view := rows + txn.writes;
    var hits := map x | x in view && x in txn.removed && view[x].Live() :: view[x].(deletedAt := Some(now));
    txn.(pc := Retired, now := now, writes := txn.writes + hits)
  }

  function Do(s: Sys, c: ClientId, a: Action): Sys
    requires Can(s, c, a)
  {
    var me := At(s, c);
    match a
    case Create(op) =>
      CreateStep(s, op)
    case MakeExtents(t, added, removed) => WorkStep(s, c, t, added, removed)
    case Begin =>
      Becomes(s, c, InTxn(BegunTxn(s.db.tables[me.table], me.table, me.added, me.removed), map[]))
    case ReadNumber =>
      Becomes(s, c, me.(txn := NumberedTxn(s.db.snaps[me.txn.parent], me.txn)))
    case InsertSnap(snap) =>
      if NumberTaken(s.db, me.txn.table, me.txn.number + 1) then Becomes(s, c, AfterAbort(me))
      else Becomes(s, c, me.(txn := me.txn.(pc := SnapIn, snap := snap))).(used := s.used + {snap})
    case InsertExtent =>
      var m := me.txn.added[me.txn.inserted];
      if m.id in s.db.extents || m.id in me.txn.writes then Becomes(s, c, AfterAbort(me))
      else Becomes(s, c, me.(txn := InsertRow(me.txn)))
    case SoftDelete(now) => Becomes(s, c, me.(txn := RetireRows(s.db.extents, me.txn, now)))
    case Swap =>
      if s.db.tables[me.txn.table].current != me.txn.parent then Becomes(s, c, AfterAbort(me))
      else Becomes(s, c, me.(txn := me.txn.(pc := Swapped)))
    case Destage => Becomes(s, c, me.(txn := me.txn.(pc := Destaged)))
    case Publish => PublishStep(s, c)
    case Fail => Becomes(s, c, if me.InTxn? then AfterAbort(me) else Idle)
    case Quit => Becomes(s, c, Idle)
    case StageRow(sid, batch, m) => StageStep(s, sid, batch, m)
    case ListStaged(rows) =>
      Becomes(s, c, Holding(map sid | sid in rows :: s.db.staged[sid].manifest))
    case BeginGroup(t, order) =>
      Becomes(s, c, InTxn(GroupTxn(s.db.tables[t].current, t, me.rows, order), me.rows))
    case AlterRead(t, column) =>
      var from := s.db.tables[t].schema;
      Becomes(s, c, Altering(AlterTxn(SchemaRead, t, from, s.db.schemas[from].columns, column, 0)))
    case AlterInsert(to) =>
      Becomes(s, c, Altering(me.alter.(pc := SchemaIn, to := to))).(usedSchemas := s.usedSchemas + {to})
    case AlterSwap =>
      if s.db.tables[me.alter.table].schema != me.alter.from then Becomes(s, c, Idle)
      else Becomes(s, c, Altering(me.alter.(pc := SchemaSwapped)))
    case AlterPublish => AlterStep(s, c)
    case Collect(before) =>
      Becomes(s, c, Collecting(set x | x in s.db.extents && s.db.extents[x].deletedAt.Some?
                                       && s.db.extents[x].deletedAt.value < before))
    case PurgeRow(x) => PurgeStep(s, x)
  }

  // ---------------------------------------------------------------- invariant

  predicate MintedFor(minted: map<ExtentId, Mint>, m: Manifest, t: TableId) {
    m.id in minted && minted[m.id].manifest == m && m.table == t
  }

  predicate AllMintedFor(minted: map<ExtentId, Mint>, added: seq<Manifest>, removed: set<ExtentId>, t: TableId) {
    && (forall i :: 0 <= i < |added| ==> MintedFor(minted, added[i], t))
    && (forall x :: x in removed ==> x in minted && minted[x].manifest.table == t)
  }

  predicate Held(accepted: map<StagedId, Manifest>, rows: map<StagedId, Manifest>) {
    forall sid :: sid in rows ==> sid in accepted && accepted[sid] == rows[sid]
  }

  predicate Unmoved(db: DB, txn: Txn) {
    txn.table in db.tables && db.tables[txn.table].current == txn.parent
  }

  predicate SchemaFits(db: DB, txn: Txn) {
    && txn.table in db.tables && txn.parent in db.snaps && SchemaOf(db, txn.schema, txn.table)
    && Width(db, db.snaps[txn.parent].schema) <= Width(db, txn.schema) <= Width(db, db.tables[txn.table].schema)
  }

  predicate Settled(txn: Txn) {
    || txn.pc.Retired? || txn.pc.HoldsTable()
    || (txn.kind.Grouped? && txn.pc.SnapIn? && txn.inserted == |txn.added|)
  }

  /** Row `x` of the write set is what the whole transaction would leave there
      were it run at once against `rows`. */
  predicate WriteOk(rows: map<ExtentId, ExtentRow>, txn: Txn, x: ExtentId) {
    && (x in txn.writes <==> x in Inserts(txn.added) || (x in txn.removed && x in rows && rows[x].Live()))
    && (x in txn.writes ==>
        txn.writes[x] == RetireRow(if x in Inserts(txn.added) then Inserts(txn.added)[x] else rows[x],
                                   x in txn.removed, txn.now))
  }

  ghost predicate TxnRows(db: DB, txn: Txn) {
    && txn.inserted <= |txn.added|
    && (!txn.pc.HasSnap() ==> txn.inserted == 0)
    && DistinctIds(txn.added[..txn.inserted])
    && (!Settled(txn) ==> txn.writes == Inserts(txn.added[..txn.inserted]))
    && (Settled(txn) ==> txn.inserted == |txn.added|)
    && (Unmoved(db, txn) ==> forall i :: 0 <= i < txn.inserted ==> txn.added[i].id !in db.extents)
    && (Unmoved(db, txn) && Settled(txn) ==> forall x {:trigger WriteOk(db.extents, txn, x)} :: WriteOk(db.extents, txn, x))
  }

  ghost predicate TxnOk(db: DB, minted: map<ExtentId, Mint>, used: set<SnapId>, txn: Txn) {
    && txn.table in db.tables && txn.parent in db.snaps && db.snaps[txn.parent].table == txn.table
    && AllMintedFor(minted, txn.added, txn.removed, txn.table)
    && (txn.kind.Grouped? ==> txn.removed == {})
    && (txn.kind.Direct? || txn.pc.HasNumber() ==> SchemaFits(db, txn))
    && (txn.pc.HasNumber() ==> txn.number == db.snaps[txn.parent].number)
    && (txn.pc.HasSnap() ==> txn.snap in used && txn.snap !in db.snaps)
    && (txn.pc.HoldsTable() ==> Unmoved(db, txn))
    && TxnRows(db, txn)
  }

  predicate AlterOk(db: DB, usedSchemas: set<SchemaId>, alter: AlterTxn) {
    && alter.table in db.tables && SchemaOf(db, alter.from, alter.table)
    && alter.read == db.schemas[alter.from].columns
    && alter.column.nullable && !HasColumn(alter.read, alter.column.name)
    && (!alter.pc.SchemaRead? ==> alter.to in usedSchemas && alter.to !in db.schemas)
    && (alter.pc.SchemaSwapped? ==> db.tables[alter.table].schema == alter.from)
  }

  ghost predicate ClientOk(s: Sys, client: Client) {
    match client
    case Idle => true
    case Working(t, added, removed) => AllMintedFor(s.minted, added, removed, t)
    case Holding(rows) => Held(s.accepted, rows)
    case InTxn(txn, held) => TxnOk(s.db, s.minted, s.used, txn) && Held(s.accepted, held)
    case Altering(alter) => AlterOk(s.db, s.usedSchemas, alter)
    case Collecting(_) => true
  }

  function PrivateSnap(client: Client): Option<SnapId> {
    if client.InTxn? && client.txn.pc.HasSnap() then Some(client.txn.snap) else None
  }

  function PrivateSchema(client: Client): Option<SchemaId> {
    if client.Altering? && !client.alter.pc.SchemaRead? then Some(client.alter.to) else None
  }

  /** Two clients never hold one table lock, nor one uncommitted row id. */
  predicate Apart(a: Client, b: Client) {
    && (TableLock(a).Some? ==> TableLock(a) != TableLock(b))
    && (PrivateSnap(a).Some? ==> PrivateSnap(a) != PrivateSnap(b))
    && (PrivateSchema(a).Some? ==> PrivateSchema(a) != PrivateSchema(b))
  }

  predicate MintRow(row: ExtentRow, mint: Mint) {
    row.table == mint.manifest.table && row.rows == mint.manifest.rows
  }

  ghost predicate IdsOk(s: Sys) {
    && s.db.snaps.Keys <= s.used && s.db.schemas.Keys <= s.usedSchemas
    && (forall x :: x in s.db.extents ==> x in s.minted && MintRow(s.db.extents[x], s.minted[x]))
    && (forall sid :: sid in s.db.staged ==> sid in s.accepted && s.accepted[sid] == s.db.staged[sid].manifest)
    && (forall sid :: sid in s.accepted ==> MintedFor(s.minted, s.accepted[sid], s.accepted[sid].table))
    && (forall x :: x in s.minted ==> s.minted[x].manifest.id == x)
  }

  ghost predicate Inv(s: Sys) {
    && Serial(s.log) && s.db == Replay(s.log)
    && IdsOk(s)
    && (forall c {:trigger ClientOk(s, At(s, c))} :: ClientOk(s, At(s, c)))
    && (forall c, d {:trigger Apart(At(s, c), At(s, d))} :: c != d ==> Apart(At(s, c), At(s, d)))
  }

  // ---------------------------------------------------------------- what other clients may change

  /** The part of the database a transaction on table `t` relies on has only
      moved forward: rows that name history are kept, the current pointer is
      the same or brand new, and while it is the same no extent of `t` was
      added or restored and no live row in `kept` was lost. */
  ghost predicate Forward(db: DB, db': DB, t: TableId, mine: set<ExtentId>, kept: set<ExtentId>) {
    && t in db.tables && t in db'.tables
    && db'.tables[t].current in db'.snaps
    && (db'.tables[t].current == db.tables[t].current || db'.tables[t].current !in db.snaps)
    && (forall x :: x in db.snaps ==> x in db'.snaps && db'.snaps[x] == db.snaps[x])
    && (forall x :: x in db.schemas ==> x in db'.schemas && db'.schemas[x] == db.schemas[x])
    && Width(db, db.tables[t].schema) <= Width(db', db'.tables[t].schema)
    && (db'.tables[t].current == db.tables[t].current ==>
        && (forall x :: x in mine && x in db'.extents ==> x in db.extents && db.extents[x] == db'.extents[x])
        && (forall x :: x in kept && x in db.extents && db.extents[x].Live() ==> x in db'.extents))
  }

  /** The extent ids a transaction names. */
  function Named(txn: Txn): set<ExtentId> {
    txn.removed + set i | 0 <= i < |txn.added| :: txn.added[i].id
  }

  lemma TxnStaysOk(db: DB, db': DB, minted: map<ExtentId, Mint>, minted': map<ExtentId, Mint>,
                   used: set<SnapId>, used': set<SnapId>, txn: Txn)
    requires Wf(db) && Wf(db') && TxnOk(db, minted, used, txn)
    requires forall x :: x in minted ==> x in minted' && minted'[x] == minted[x]
    requires used <= used'
    requires Forward(db, db', txn.table, Named(txn), txn.writes.Keys)
    requires txn.pc.HasSnap() ==> txn.snap !in db'.snaps
    requires txn.pc.HoldsTable() ==> db'.tables[txn.table].current == db.tables[txn.table].current
    ensures TxnOk(db', minted', used', txn)
  {
    assert SnapOk(db, txn.parent);
    if Unmoved(db', txn) {
      assert Unmoved(db, txn);
      assert forall i :: 0 <= i < txn.inserted ==> txn.added[i].id in Named(txn);
      if Settled(txn) {
        forall x ensures WriteOk(db'.extents, txn, x) {
          assert WriteOk(db.extents, txn, x);
          assert x in txn.removed ==> x in Named(txn);
          if x in Inserts(txn.added) { assert x in Named(txn); }
        }
      }
    }
  }

  /** What a settled transaction publishes is what the atomic operation does
      to the rows committed at that moment. */
  lemma PublishIsAtomic(db: DB, minted: map<ExtentId, Mint>, used: set<SnapId>, txn: Txn)
    requires Wf(db) && TxnOk(db, minted, used, txn) && txn.pc.HoldsTable()
    requires forall x :: x in db.extents ==> x in minted && db.extents[x].table == minted[x].manifest.table
    ensures Enabled(db, OpOf(txn))
    ensures PublishDb(db, txn) == Apply(db, OpOf(txn))
  {
    assert txn.added[..txn.inserted] == txn.added;
    PublishedWrites(db, txn);
    PublishEnabled(db, minted, used, txn);
  }

  lemma PublishEnabled(db: DB, minted: map<ExtentId, Mint>, used: set<SnapId>, txn: Txn)
    requires Wf(db) && TxnOk(db, minted, used, txn) && txn.pc.HoldsTable()
    requires forall x :: x in db.extents ==> x in minted && db.extents[x].table == minted[x].manifest.table
    ensures Enabled(db, OpOf(txn))
  {
    assert txn.added[..txn.inserted] == txn.added;
  }

  lemma PublishedWrites(db: DB, txn: Txn)
    requires forall x {:trigger WriteOk(db.extents, txn, x)} :: WriteOk(db.extents, txn, x)
    ensures db.extents + txn.writes == Retire(db.extents + Inserts(txn.added), txn.removed, txn.now)
  {
    var extents := db.extents + txn.writes;
    var atomic := Retire(db.extents + Inserts(txn.added), txn.removed, txn.now);
    forall x ensures x in extents <==> x in atomic
             ensures x in extents ==> extents[x] == atomic[x]
    {
      assert WriteOk(db.extents, txn, x);
    }
  }

  // ---------------------------------------------------------------- steps that only move one client

  ghost predicate Grows(s: Sys, s': Sys) {
    && (forall x :: x in s.minted ==> x in s'.minted && s'.minted[x] == s.minted[x])
    && s.used <= s'.used && s.usedSchemas <= s'.usedSchemas
    && (forall sid :: sid in s.accepted ==> sid in s'.accepted && s'.accepted[sid] == s.accepted[sid])
  }

  /** A client that is not stepping keeps its invariant while the database
      stands still. */
  lemma BystanderSameDb(s: Sys, s': Sys, client: Client)
    requires ClientOk(s, client) && Grows(s, s') && s'.db == s.db
    ensures ClientOk(s', client)
  {}

  lemma LocalStep(s: Sys, s': Sys, c: ClientId)
    requires Inv(s) && Grows(s, s') && s'.db == s.db && s'.log == s.log && IdsOk(s')
    requires forall d :: d != c ==> At(s', d) == At(s, d)
    requires ClientOk(s', At(s', c))
    requires forall d :: d != c ==> Apart(At(s', c), At(s, d))
    ensures Inv(s')
  {
    forall d ensures ClientOk(s', At(s', d)) {
      if d != c {
        assert ClientOk(s, At(s, d));
        BystanderSameDb(s, s', At(s, d));
      }
    }
    forall d, e | d != e ensures Apart(At(s', d), At(s', e)) {
      assert Apart(At(s, d), At(s, e));
      assert Apart(At(s', c), At(s, d)) || d == c;
      assert Apart(At(s', c), At(s, e)) || e == c;
    }
  }

  /** A client that keeps its locks and private ids stays apart from others. */
  lemma SameLocks(s: Sys, c: ClientId, client: Client)
    requires Inv(s) && TableLock(client) == TableLock(At(s, c))
    requires PrivateSnap(client) == PrivateSnap(At(s, c)) && PrivateSchema(client) == PrivateSchema(At(s, c))
    ensures forall d :: d != c ==> Apart(client, At(s, d))
  {
    forall d | d != c ensures Apart(client, At(s, d)) { assert Apart(At(s, c), At(s, d)); }
  }

  lemma TxnMoves(s: Sys, c: ClientId, txn: Txn)
    requires Inv(s) && At(s, c).InTxn? && TxnOk(s.db, s.minted, s.used, txn)
    requires forall d :: d != c ==> Apart(At(s, c).(txn := txn), At(s, d))
    ensures Inv(Becomes(s, c, At(s, c).(txn := txn)))
  {
    assert ClientOk(s, At(s, c));
    LocalStep(s, Becomes(s, c, At(s, c).(txn := txn)), c);
  }

  lemma BegunOk(db: DB, minted: map<ExtentId, Mint>, used: set<SnapId>, t: TableId,
                added: seq<Manifest>, removed: set<ExtentId>)
    requires Wf(db) && t in db.tables && AllMintedFor(minted, added, removed, t)
    ensures TxnOk(db, minted, used, BegunTxn(db.tables[t], t, added, removed))
  {
    assert TableOk(db, t) && SnapOk(db, db.tables[t].current);
    assert added[..0] == [];
  }

  lemma BeginKeeps(s: Sys, c: ClientId)
    requires Inv(s) && Can(s, c, Begin)
    ensures Inv(Do(s, c, Begin))
  {
    var me := At(s, c);
    assert ClientOk(s, me);
    SerialWf(s.log);
    BegunOk(s.db, s.minted, s.used, me.table, me.added, me.removed);
    LocalStep(s, Do(s, c, Begin), c);
  }

  lemma NumberedOk(db: DB, minted: map<ExtentId, Mint>, used: set<SnapId>, txn: Txn)
    requires Wf(db) && TxnOk(db, minted, used, txn) && txn.pc.Begun?
    ensures TxnOk(db, minted, used, NumberedTxn(db.snaps[txn.parent], txn))
  {
    assert SnapOk(db, txn.parent);
  }

  lemma ReadNumberKeeps(s: Sys, c: ClientId)
    requires Inv(s) && Can(s, c, ReadNumber)
    ensures Inv(Do(s, c, ReadNumber))
  {
    var txn := At(s, c).txn;
    assert ClientOk(s, At(s, c));
    SerialWf(s.log);
    NumberedOk(s.db, s.minted, s.used, txn);
    SameLocks(s, c, At(s, c).(txn := NumberedTxn(s.db.snaps[txn.parent], txn)));
    TxnMoves(s, c, NumberedTxn(s.db.snaps[txn.parent], txn));
  }

  lemma AbortKeeps(s: Sys, c: ClientId)
    requires Inv(s) && At(s, c).InTxn?
    ensures Inv(Becomes(s, c, AfterAbort(At(s, c))))
  {
    assert ClientOk(s, At(s, c));
    LocalStep(s, Becomes(s, c, AfterAbort(At(s, c))), c);
  }

  lemma SnapInOk(db: DB, minted: map<ExtentId, Mint>, used: set<SnapId>, txn: Txn, snap: SnapId)
    requires TxnOk(db, minted, used, txn) && txn.pc.NumberRead? && snap !in db.snaps
    ensures TxnOk(db, minted, used + {snap}, txn.(pc := SnapIn, snap := snap))
  {
    var txn' := txn.(pc := SnapIn, snap := snap);
    assert txn.added[..0] == [];
    if Settled(txn') { InsertsSettle(db.extents, txn'); }
  }

  lemma SnapInKeeps(s: Sys, c: ClientId, snap: SnapId)
    requires Inv(s) && At(s, c).InTxn? && At(s, c).txn.pc.NumberRead? && snap !in s.used
    ensures Inv(Becomes(s, c, At(s, c).(txn := At(s, c).txn.(pc := SnapIn, snap := snap))).(used := s.used + {snap}))
  {
    var client := At(s, c).(txn := At(s, c).txn.(pc := SnapIn, snap := snap));
    assert ClientOk(s, At(s, c));
    SnapInOk(s.db, s.minted, s.used, At(s, c).txn, snap);
    forall d | d != c ensures Apart(client, At(s, d)) {
      assert Apart(At(s, c), At(s, d)) && ClientOk(s, At(s, d));
    }
    LocalStep(s, Becomes(s, c, client).(used := s.used + {snap}), c);
  }

  lemma InsertSnapKeeps(s: Sys, c: ClientId, snap: SnapId)
    requires Inv(s) && Can(s, c, InsertSnap(snap))
    ensures Inv(Do(s, c, InsertSnap(snap)))
  {
    AbortKeeps(s, c);
    SnapInKeeps(s, c, snap);
  }

  lemma InsertRowIds(txn: Txn)
    requires txn.inserted < |txn.added| && DistinctIds(txn.added[..txn.inserted])
    requires txn.writes == Inserts(txn.added[..txn.inserted])
    requires txn.added[txn.inserted].id !in txn.writes
    ensures DistinctIds(txn.added[..txn.inserted + 1])
    ensures InsertRow(txn).writes == Inserts(txn.added[..txn.inserted + 1])
  {
    var before, after := txn.added[..txn.inserted], txn.added[..txn.inserted + 1];
    assert after[..|after| - 1] == before && after[|after| - 1] == txn.added[txn.inserted];
    IdsStayDistinct(before, after);
  }

  lemma IdsStayDistinct(before: seq<Manifest>, after: seq<Manifest>)
    requires after != [] && before == after[..|after| - 1] && DistinctIds(before)
    requires after[|after| - 1].id !in Inserts(before)
    ensures DistinctIds(after)
  {
    var last := after[|after| - 1];
    assert after == before + [last] && !HasId(before, last.id);
    forall i | 0 <= i < |before| ensures before[i].id != last.id { HasIdAt(before, i); }
    OneMoreId(before, last);
  }

  lemma HasIdAt(ms: seq<Manifest>, i: nat)
    requires i < |ms|
    ensures HasId(ms, ms[i].id)
  {}

  lemma OneMoreId(before: seq<Manifest>, last: Manifest)
    requires DistinctIds(before) && forall i :: 0 <= i < |before| ==> before[i].id != last.id
    ensures DistinctIds(before + [last])
  {}

  /** With nothing to remove, the inserted rows are the whole write set. */
  lemma InsertsSettle(rows: map<ExtentId, ExtentRow>, txn: Txn)
    requires txn.removed == {} && txn.writes == Inserts(txn.added)
    ensures forall x {:trigger WriteOk(rows, txn, x)} :: WriteOk(rows, txn, x)
  {}

  lemma InsertRowOk(db: DB, txn: Txn)
    requires TxnRows(db, txn) && txn.pc.SnapIn? && txn.inserted < |txn.added|
    requires txn.kind.Grouped? ==> txn.removed == {}
    requires txn.added[txn.inserted].id !in db.extents && txn.added[txn.inserted].id !in txn.writes
    ensures TxnRows(db, InsertRow(txn))
  {
    var txn' := InsertRow(txn);
    InsertRowIds(txn);
    if Unmoved(db, txn') {
      assert Unmoved(db, txn);
      forall i | 0 <= i < txn'.inserted ensures txn'.added[i].id !in db.extents {
        assert i < txn.inserted || i == txn.inserted;
      }
    }
    if Settled(txn') {
      assert txn'.added == txn.added[..txn.inserted + 1];
      InsertsSettle(db.extents, txn');
    }
  }

  lemma InsertExtentKeeps(s: Sys, c: ClientId)
    requires Inv(s) && Can(s, c, InsertExtent)
    ensures Inv(Do(s, c, InsertExtent))
  {
    AbortKeeps(s, c);
    var txn := At(s, c).txn;
    if txn.added[txn.inserted].id !in s.db.extents && txn.added[txn.inserted].id !in txn.writes {
      RowInKeeps(s, c);
    }
  }

  lemma RowInKeeps(s: Sys, c: ClientId)
    requires Inv(s) && At(s, c).InTxn? && At(s, c).txn.pc.SnapIn? && At(s, c).txn.inserted < |At(s, c).txn.added|
    requires var txn := At(s, c).txn;
      txn.added[txn.inserted].id !in s.db.extents && txn.added[txn.inserted].id !in txn.writes
    ensures Inv(Becomes(s, c, At(s, c).(txn := InsertRow(At(s, c).txn))))
  {
    var txn := At(s, c).txn;
    assert ClientOk(s, At(s, c));
    InsertRowOk(s.db, txn);
    SameLocks(s, c, At(s, c).(txn := InsertRow(txn)));
    TxnMoves(s, c, InsertRow(txn));
  }

  lemma RetiredWrites(rows: map<ExtentId, ExtentRow>, txn: Txn, now: Time)
    requires txn.writes == Inserts(txn.added)
    requires forall i :: 0 <= i < |txn.added| ==> txn.added[i].id !in rows
    ensures var txn' := RetireRows(rows, txn, now); forall x {:trigger WriteOk(rows, txn', x)} :: WriteOk(rows, txn', x)
  {
    forall x ensures WriteOk(rows, RetireRows(rows, txn, now), x) {
      assert HasId(txn.added, x) ==> x !in rows;
    }
  }

  lemma RetiredRows(db: DB, txn: Txn, now: Time)
    requires TxnRows(db, txn) && txn.kind.Direct? && txn.pc.SnapIn? && txn.inserted == |txn.added|
    ensures TxnRows(db, RetireRows(db.extents, txn, now))
  {
    assert txn.added[..txn.inserted] == txn.added;
    if Unmoved(db, txn) { RetiredWrites(db.extents, txn, now); }
  }

  lemma RetiredOk(db: DB, minted: map<ExtentId, Mint>, used: set<SnapId>, txn: Txn, now: Time)
    requires TxnOk(db, minted, used, txn) && txn.kind.Direct? && txn.pc.SnapIn? && txn.inserted == |txn.added|
    ensures TxnOk(db, minted, used, RetireRows(db.extents, txn, now))
  {
    RetiredRows(db, txn, now);
  }

  lemma SoftDeleteKeeps(s: Sys, c: ClientId, now: Time)
    requires Inv(s) && Can(s, c, SoftDelete(now))
    ensures Inv(Do(s, c, SoftDelete(now)))
  {
    var txn := At(s, c).txn;
    assert ClientOk(s, At(s, c));
    RetiredOk(s.db, s.minted, s.used, txn, now);
    SameLocks(s, c, At(s, c).(txn := RetireRows(s.db.extents, txn, now)));
    TxnMoves(s, c, RetireRows(s.db.extents, txn, now));
  }

  /** A settled transaction on an unmoved parent may advance to `pc`. */
  lemma AdvancedOk(db: DB, minted: map<ExtentId, Mint>, used: set<SnapId>, txn: Txn, pc: Pc)
    requires TxnOk(db, minted, used, txn) && Settled(txn) && txn.pc.HasSnap() && Unmoved(db, txn) && pc.HoldsTable()
    ensures TxnOk(db, minted, used, txn.(pc := pc))
  {
    forall x ensures WriteOk(db.extents, txn.(pc := pc), x) { assert WriteOk(db.extents, txn, x); }
  }

  lemma SwappedKeeps(s: Sys, c: ClientId)
    requires Inv(s) && At(s, c).InTxn? && Settled(At(s, c).txn) && At(s, c).txn.pc.HasSnap()
    requires Unmoved(s.db, At(s, c).txn) && TableFree(s, c, At(s, c).txn.table)
    ensures Inv(Becomes(s, c, At(s, c).(txn := At(s, c).txn.(pc := Swapped))))
  {
    var client := At(s, c).(txn := At(s, c).txn.(pc := Swapped));
    assert ClientOk(s, At(s, c));
    AdvancedOk(s.db, s.minted, s.used, At(s, c).txn, Swapped);
    forall d | d != c ensures Apart(client, At(s, d)) { assert Apart(At(s, c), At(s, d)); }
    TxnMoves(s, c, client.txn);
  }

  lemma SwapKeeps(s: Sys, c: ClientId)
    requires Inv(s) && Can(s, c, Swap)
    ensures Inv(Do(s, c, Swap))
  {
    AbortKeeps(s, c);
    if Unmoved(s.db, At(s, c).txn) { SwappedKeeps(s, c); }
  }

  lemma DestageKeeps(s: Sys, c: ClientId)
    requires Inv(s) && Can(s, c, Destage)
    ensures Inv(Do(s, c, Destage))
  {
    var txn := At(s, c).txn;
    assert ClientOk(s, At(s, c));
    AdvancedOk(s.db, s.minted, s.used, txn, Destaged);
    SameLocks(s, c, At(s, c).(txn := txn.(pc := Destaged)));
    TxnMoves(s, c, txn.(pc := Destaged));
  }

  lemma NewWork(s: Sys, c: ClientId, t: TableId, added: seq<Manifest>, removed: set<ExtentId>)
    requires Inv(s) && DistinctIds(added)
    requires forall i :: 0 <= i < |added| ==> added[i].id !in s.minted && added[i].table == t
    requires forall x :: x in removed ==> x in s.minted && s.minted[x].manifest.table == t
    ensures Inv(WorkStep(s, c, t, added, removed))
  {
    var s' := WorkStep(s, c, t, added, removed);
    MintingGrows(s, s', added, Writer(c));
    MintedWork(s.minted, added, removed, t, Writer(c));
    LocalStep(s, s', c);
  }

  lemma MakeExtentsKeeps(s: Sys, c: ClientId, t: TableId, added: seq<Manifest>, removed: set<ExtentId>)
    requires Inv(s) && Can(s, c, MakeExtents(t, added, removed))
    ensures Inv(Do(s, c, MakeExtents(t, added, removed)))
  {
    NewWork(s, c, t, added, removed);
  }

  lemma MintedWork(minted: map<ExtentId, Mint>, added: seq<Manifest>, removed: set<ExtentId>, t: TableId, owner: Owner)
    requires DistinctIds(added)
    requires forall i :: 0 <= i < |added| ==> added[i].table == t
    requires forall x :: x in removed ==> x in minted && minted[x].manifest.table == t && !HasId(added, x)
    ensures AllMintedFor(minted + Mints(added, owner), added, removed, t)
  {}

  lemma MintingGrows(s: Sys, s': Sys, added: seq<Manifest>, owner: Owner)
    requires IdsOk(s) && (forall i :: 0 <= i < |added| ==> added[i].id !in s.minted)
    requires s'.minted == s.minted + Mints(added, owner)
    requires s'.db == s.db && s'.accepted == s.accepted && s'.used == s.used && s'.usedSchemas == s.usedSchemas
    ensures Grows(s, s') && IdsOk(s')
  {
    assert forall x :: x in s.minted ==> !HasId(added, x);
  }

  lemma ToIdleKeeps(s: Sys, c: ClientId)
    requires Inv(s)
    ensures Inv(Becomes(s, c, Idle))
  {
    LocalStep(s, Becomes(s, c, Idle), c);
  }

  lemma ListStagedKeeps(s: Sys, c: ClientId, rows: set<StagedId>)
    requires Inv(s) && Can(s, c, ListStaged(rows))
    ensures Inv(Do(s, c, ListStaged(rows)))
  {
    LocalStep(s, Do(s, c, ListStaged(rows)), c);
  }

  lemma BeginGroupKeeps(s: Sys, c: ClientId, t: TableId, order: seq<StagedId>)
    requires Inv(s) && Can(s, c, BeginGroup(t, order))
    ensures Inv(Do(s, c, BeginGroup(t, order)))
  {
    var s' := Do(s, c, BeginGroup(t, order));
    var txn := At(s', c).txn;
    assert ClientOk(s, At(s, c));
    SerialWf(s.log);
    assert TableOk(s.db, t);
    assert txn.added[..0] == [] && !Settled(txn);
    LocalStep(s, s', c);
  }

  lemma AlterReadKeeps(s: Sys, c: ClientId, t: TableId, column: Column)
    requires Inv(s) && Can(s, c, AlterRead(t, column))
    ensures Inv(Do(s, c, AlterRead(t, column)))
  {
    SerialWf(s.log);
    assert TableOk(s.db, t);
    LocalStep(s, Do(s, c, AlterRead(t, column)), c);
  }

  lemma AlterInsertKeeps(s: Sys, c: ClientId, to: SchemaId)
    requires Inv(s) && Can(s, c, AlterInsert(to))
    ensures Inv(Do(s, c, AlterInsert(to)))
  {
    var s' := Do(s, c, AlterInsert(to));
    assert ClientOk(s, At(s, c));
    forall d | d != c ensures Apart(At(s', c), At(s, d)) {
      assert Apart(At(s, c), At(s, d));
      assert ClientOk(s, At(s, d));
    }
    LocalStep(s, s', c);
  }

  lemma AlterSwapKeeps(s: Sys, c: ClientId)
    requires Inv(s) && Can(s, c, AlterSwap)
    ensures Inv(Do(s, c, AlterSwap))
  {
    assert ClientOk(s, At(s, c));
    if s.db.tables[At(s, c).alter.table].schema != At(s, c).alter.from {
      ToIdleKeeps(s, c);
    } else {
      var s' := Do(s, c, AlterSwap);
      forall d | d != c ensures Apart(At(s', c), At(s, d)) { assert Apart(At(s, c), At(s, d)); }
      LocalStep(s, s', c);
    }
  }

  lemma CollectKeeps(s: Sys, c: ClientId, before: Time)
    requires Inv(s) && Can(s, c, Collect(before))
    ensures Inv(Do(s, c, Collect(before)))
  {
    LocalStep(s, Do(s, c, Collect(before)), c);
  }

  // ---------------------------------------------------------------- steps that change the committed rows

  /** What a bystander asks of a change to the committed rows. */
  ghost predicate Tolerates(db: DB, db': DB, client: Client) {
    && (client.InTxn? ==>
        var txn := client.txn;
        && Forward(db, db', txn.table, Named(txn), txn.writes.Keys)
        && (txn.pc.HasSnap() ==> txn.snap !in db'.snaps)
        && (txn.pc.HoldsTable() ==> db'.tables[txn.table].current == db.tables[txn.table].current))
    && (client.Altering? ==>
        && client.alter.table in db'.tables
        && (forall x :: x in db.schemas ==> x in db'.schemas && db'.schemas[x] == db.schemas[x])
        && (!client.alter.pc.SchemaRead? ==> client.alter.to !in db'.schemas)
        && (client.alter.pc.SchemaSwapped? && client.alter.table in db.tables ==>
            db'.tables[client.alter.table].schema == db.tables[client.alter.table].schema))
  }

  lemma BystanderStaysOk(s: Sys, s': Sys, client: Client)
    requires ClientOk(s, client) && Grows(s, s') && Wf(s.db) && Wf(s'.db)
    requires Tolerates(s.db, s'.db, client)
    ensures ClientOk(s', client)
  {
    if client.InTxn? {
      TxnStaysOk(s.db, s'.db, s.minted, s'.minted, s.used, s'.used, client.txn);
    }
  }

  lemma SharedStep(s: Sys, s': Sys, c: ClientId, op: Op)
    requires Inv(s) && Grows(s, s') && IdsOk(s')
    requires Enabled(s.db, op) && s'.db == Apply(s.db, op) && s'.log == s.log + [op]
    requires forall d :: d != c ==> At(s', d) == At(s, d) && Tolerates(s.db, s'.db, At(s, d))
    requires At(s', c) == At(s, c) ==> Tolerates(s.db, s'.db, At(s, c))
    requires At(s', c) != At(s, c) ==> At(s', c).Idle? || At(s', c).Holding?
    requires At(s', c) != At(s, c) && At(s', c).Holding? ==> Held(s'.accepted, At(s', c).rows)
    ensures Inv(s')
  {
    SerialWf(s.log);
    ApplyKeepsWf(s.db, op);
    SerialAppend(s.log, op);
    forall d ensures ClientOk(s', At(s', d)) {
      assert ClientOk(s, At(s, d));
      if d != c || At(s', c) == At(s, c) { BystanderStaysOk(s, s', At(s, d)); }
    }
    StayApart(s, s', c);
  }

  /** A client that goes idle or back to holding rows gives up its locks and private ids. */
  lemma StayApart(s: Sys, s': Sys, c: ClientId)
    requires forall d, e {:trigger Apart(At(s, d), At(s, e))} :: d != e ==> Apart(At(s, d), At(s, e))
    requires forall d :: d != c ==> At(s', d) == At(s, d)
    requires At(s', c) == At(s, c) || At(s', c).Idle? || At(s', c).Holding?
    ensures forall d, e {:trigger Apart(At(s', d), At(s', e))} :: d != e ==> Apart(At(s', d), At(s', e))
  {
    forall d, e | d != e ensures Apart(At(s', d), At(s', e)) {
      assert Apart(At(s, d), At(s, e));
    }
  }

  lemma CreateTolerated(s: Sys, op: Op, client: Client)
    requires Wf(s.db) && IdsOk(s) && ClientOk(s, client)
    requires op.CreateTable? && Enabled(s.db, op) && op.snap !in s.used && op.schema !in s.usedSchemas
    ensures Tolerates(s.db, Apply(s.db, op), client)
  {
    if client.InTxn? { assert TableOk(s.db, client.txn.table); }
  }

  lemma CreateStepKeeps(s: Sys, c: ClientId, op: Op)
    requires Inv(s) && op.CreateTable? && Enabled(s.db, op) && op.snap !in s.used && op.schema !in s.usedSchemas
    ensures Inv(CreateStep(s, op))
  {
    SerialWf(s.log);
    forall d ensures Tolerates(s.db, Apply(s.db, op), At(s, d)) {
      assert ClientOk(s, At(s, d));
      CreateTolerated(s, op, At(s, d));
    }
    SharedStep(s, CreateStep(s, op), c, op);
  }

  lemma CreateKeeps(s: Sys, c: ClientId, op: Op)
    requires Inv(s) && Can(s, c, Create(op))
    ensures Inv(Do(s, c, Create(op)))
  {
    CreateStepKeeps(s, c, op);
  }

  predicate Stageable(s: Sys, sid: StagedId, m: Manifest) {
    sid !in s.accepted && sid !in s.db.staged && m.id !in s.minted
  }

  lemma MintedOnly(s: Sys, m: Manifest, owner: Owner)
    requires IdsOk(s) && m.id !in s.minted
    ensures var s' := s.(minted := s.minted[m.id := Mint(m, owner)]); Grows(s, s') && IdsOk(s')
  {}

  lemma AcceptedToo(s: Sys, sid: StagedId, batch: BatchId, m: Manifest)
    requires IdsOk(s) && sid !in s.accepted && MintedFor(s.minted, m, m.table)
    ensures var s' := s.(db := s.db.(staged := s.db.staged[sid := StagedRow(batch, m)]),
                         accepted := s.accepted[sid := m], log := s.log + [Stage(sid, StagedRow(batch, m))]);
      Grows(s, s') && IdsOk(s')
  {}

  lemma StageStepIds(s: Sys, sid: StagedId, batch: BatchId, m: Manifest)
    requires IdsOk(s) && Stageable(s, sid, m)
    ensures Grows(s, StageStep(s, sid, batch, m)) && IdsOk(StageStep(s, sid, batch, m))
  {
    MintedOnly(s, m, Router(sid));
    AcceptedToo(s.(minted := s.minted[m.id := Mint(m, Router(sid))]), sid, batch, m);
  }

  lemma StageTolerated(s: Sys, sid: StagedId, row: StagedRow, client: Client)
    requires Wf(s.db) && ClientOk(s, client) && Enabled(s.db, Stage(sid, row))
    ensures Tolerates(s.db, Apply(s.db, Stage(sid, row)), client)
  {
    if client.InTxn? { assert TableOk(s.db, client.txn.table); }
  }

  lemma RefusedStageKeeps(s: Sys, c: ClientId, sid: StagedId, batch: BatchId, m: Manifest)
    requires Inv(s) && Stageable(s, sid, m) && BatchStaged(s.db, batch)
    ensures Inv(StageStep(s, sid, batch, m))
  {
    var s' := StageStep(s, sid, batch, m);
    StageStepIds(s, sid, batch, m);
    assert ClientOk(s, At(s, c));
    BystanderSameDb(s, s', At(s, c));
    SameLocks(s, c, At(s, c));
    LocalStep(s, s', c);
  }

  lemma AcceptedStageKeeps(s: Sys, c: ClientId, sid: StagedId, batch: BatchId, m: Manifest)
    requires Inv(s) && Stageable(s, sid, m) && !BatchStaged(s.db, batch)
    ensures Inv(StageStep(s, sid, batch, m))
  {
    var op := Stage(sid, StagedRow(batch, m));
    StageStepIds(s, sid, batch, m);
    SerialWf(s.log);
    forall d ensures Tolerates(s.db, Apply(s.db, op), At(s, d)) {
      assert ClientOk(s, At(s, d));
      StageTolerated(s, sid, StagedRow(batch, m), At(s, d));
    }
    SharedStep(s, StageStep(s, sid, batch, m), c, op);
  }

  lemma StageRowKeeps(s: Sys, c: ClientId, sid: StagedId, batch: BatchId, m: Manifest)
    requires Inv(s) && Stageable(s, sid, m)
    ensures Inv(StageStep(s, sid, batch, m))
  {
    if BatchStaged(s.db, batch) { RefusedStageKeeps(s, c, sid, batch, m); } else { AcceptedStageKeeps(s, c, sid, batch, m); }
  }

  lemma PurgeTolerated(s: Sys, x: ExtentId, client: Client)
    requires Wf(s.db) && ClientOk(s, client) && (client.InTxn? ==> x !in client.txn.writes)
    ensures Tolerates(s.db, s.db.(extents := s.db.extents - {x}), client)
  {
    if client.InTxn? { assert TableOk(s.db, client.txn.table); }
  }

  lemma PurgeStepKeeps(s: Sys, c: ClientId, x: ExtentId)
    requires Inv(s) && RowFree(s, x)
    ensures Inv(PurgeStep(s, x))
  {
    SerialWf(s.log);
    forall d ensures Tolerates(s.db, PurgeStep(s, x).db, At(s, d)) {
      assert ClientOk(s, At(s, d));
      PurgeTolerated(s, x, At(s, d));
    }
    SharedStep(s, PurgeStep(s, x), c, Purge(x));
  }

  lemma PurgeRowKeeps(s: Sys, c: ClientId, x: ExtentId)
    requires Inv(s) && Can(s, c, PurgeRow(x))
    ensures Inv(Do(s, c, PurgeRow(x)))
  {
    PurgeStepKeeps(s, c, x);
  }

  lemma AlterIsAtomic(s: Sys, c: ClientId)
    requires Inv(s) && ReadyToAlter(s, c)
    ensures var op := AlterOp(At(s, c).alter); Enabled(s.db, op) && AlterDb(s.db, At(s, c).alter) == Apply(s.db, op)
  {
    assert ClientOk(s, At(s, c));
  }

  lemma AlterTolerated(s: Sys, alter: AlterTxn, client: Client)
    requires Wf(s.db) && Enabled(s.db, AlterOp(alter)) && ClientOk(s, client)
    requires AlterDb(s.db, alter) == Apply(s.db, AlterOp(alter))
    requires TableLock(client) != Some(alter.table) && PrivateSchema(client) != Some(alter.to)
    ensures Tolerates(s.db, AlterDb(s.db, alter), client)
  {
    assert SchemaOk(s.db, alter.from);
    if client.InTxn? { assert TableOk(s.db, client.txn.table); }
  }

  lemma AlterPublishKeeps(s: Sys, c: ClientId)
    requires Inv(s) && ReadyToAlter(s, c)
    ensures Inv(AlterStep(s, c))
  {
    var alter := At(s, c).alter;
    assert ClientOk(s, At(s, c));
    SerialWf(s.log);
    AlterIsAtomic(s, c);
    forall d | d != c ensures Tolerates(s.db, AlterDb(s.db, alter), At(s, d)) {
      assert ClientOk(s, At(s, d));
      assert Apart(At(s, c), At(s, d));
      AlterTolerated(s, alter, At(s, d));
    }
    AlterIds(s, c);
    SharedStep(s, AlterStep(s, c), c, AlterOp(alter));
  }

  lemma AlterIds(s: Sys, c: ClientId)
    requires Inv(s) && ReadyToAlter(s, c)
    ensures Grows(s, AlterStep(s, c)) && IdsOk(AlterStep(s, c))
  {
    assert ClientOk(s, At(s, c));
  }

  lemma PublishAtomic(s: Sys, c: ClientId)
    requires Inv(s) && ReadyToPublish(s, c)
    ensures Enabled(s.db, OpOf(At(s, c).txn))
    ensures PublishDb(s.db, At(s, c).txn) == Apply(s.db, OpOf(At(s, c).txn))
  {
    assert ClientOk(s, At(s, c));
    SerialWf(s.log);
    PublishIsAtomic(s.db, s.minted, s.used, At(s, c).txn);
  }

  lemma PublishToleratedByAll(s: Sys, c: ClientId)
    requires Inv(s) && ReadyToPublish(s, c)
    ensures forall d :: d != c ==> Tolerates(s.db, PublishDb(s.db, At(s, c).txn), At(s, d))
  {
    forall d | d != c ensures Tolerates(s.db, PublishDb(s.db, At(s, c).txn), At(s, d)) {
      PublishTolerated(s, c, d);
    }
  }

  lemma PublishStepKeeps(s: Sys, c: ClientId)
    requires Inv(s) && ReadyToPublish(s, c)
    ensures Inv(PublishStep(s, c))
    ensures Enabled(s.db, OpOf(At(s, c).txn)) && PublishStep(s, c).db == Apply(s.db, OpOf(At(s, c).txn))
  {
    PublishAtomic(s, c);
    PublishedIds(s, c);
    PublishToleratedByAll(s, c);
    PublisherAfter(s, c);
    SharedStep(s, PublishStep(s, c), c, OpOf(At(s, c).txn));
  }

  lemma PublisherAfter(s: Sys, c: ClientId)
    requires Inv(s) && ReadyToPublish(s, c)
    ensures var s' := PublishStep(s, c);
      && Grows(s, s') && (forall d :: d != c ==> At(s', d) == At(s, d)) && At(s', c) != At(s, c)
      && (At(s', c).Idle? || (At(s', c).Holding? && Held(s'.accepted, At(s', c).rows)))
  {
    assert ClientOk(s, At(s, c));
  }

  /** A published row carries an id minted for the transaction's table. */
  lemma PublishedIds(s: Sys, c: ClientId)
    requires Inv(s) && ReadyToPublish(s, c)
    ensures IdsOk(PublishStep(s, c))
    ensures forall x :: x in At(s, c).txn.writes ==> x in s.minted && s.minted[x].manifest.table == At(s, c).txn.table
  {
    var txn := At(s, c).txn;
    assert ClientOk(s, At(s, c));
    assert txn.added[..txn.inserted] == txn.added;
    forall x | x in txn.writes
      ensures x in s.minted && s.minted[x].manifest.table == txn.table && MintRow(txn.writes[x], s.minted[x])
    {
      assert WriteOk(s.db.extents, txn, x);
      if x in Inserts(txn.added) { assert HasId(txn.added, x); }
    }
  }

  /** A commit to one table leaves the extents another table's transaction names. */
  lemma PublishElsewhere(s: Sys, c: ClientId, other: Txn)
    requires Inv(s) && ReadyToPublish(s, c) && other.table != At(s, c).txn.table
    requires AllMintedFor(s.minted, other.added, other.removed, other.table)
    ensures forall x :: x in Named(other) ==> x !in At(s, c).txn.writes
  {
    PublishedIds(s, c);
    forall x | x in Named(other) ensures x in s.minted && s.minted[x].manifest.table == other.table {}
  }

  lemma PublishForward(s: Sys, c: ClientId, other: Txn)
    requires Inv(s) && ReadyToPublish(s, c) && TxnOk(s.db, s.minted, s.used, other)
    requires At(s, c).txn.snap !in s.db.snaps
    ensures Forward(s.db, PublishDb(s.db, At(s, c).txn), other.table, Named(other), other.writes.Keys)
  {
    SerialWf(s.log);
    assert TableOk(s.db, other.table);
    if other.table != At(s, c).txn.table { PublishElsewhere(s, c, other); }
  }

  lemma PublishTolerated(s: Sys, c: ClientId, d: ClientId)
    requires Inv(s) && ReadyToPublish(s, c) && d != c
    ensures Tolerates(s.db, PublishDb(s.db, At(s, c).txn), At(s, d))
  {
    assert ClientOk(s, At(s, c)) && ClientOk(s, At(s, d));
    assert Apart(At(s, c), At(s, d));
    if At(s, d).InTxn? { PublishForward(s, c, At(s, d).txn); }
  }

  lemma PublishKeeps(s: Sys, c: ClientId)
    requires Inv(s) && Can(s, c, Publish)
    ensures Inv(Do(s, c, Publish))
    ensures Enabled(s.db, OpOf(At(s, c).txn)) && Do(s, c, Publish).db == Apply(s.db, OpOf(At(s, c).txn))
  {
    PublishStepKeeps(s, c);
  }
}
