/** What a vault plan depends on, what it keeps, and why planning again from
    its own manifest changes nothing. */
module VaultFacts {
  import opened Options
  import opened BrainTypes
  import opened Text
  import opened VaultPaths
  import opened VaultLinks
  import opened Vault
  import S = Sorting

  // ---------------------------------------------------------------- order of the inputs

  lemma {:induction false} SameNeighboursSameFiles(cfg: BrainConfig, env: Env, rows: map<string, NoteRow>, paths: map<string, string>,
                                                   a: seq<EdgeRow>, b: seq<EdgeRow>, ids: seq<string>)
    requires paths.Keys == rows.Keys && forall id :: id in ids ==> id in rows
    requires forall id :: Neighbours(id, rows.Keys, a) == Neighbours(id, rows.Keys, b)
    ensures NoteFiles(cfg, env, rows, paths, a, ids) == NoteFiles(cfg, env, rows, paths, b, ids)
  {
    if ids != [] {
      var k := |ids| - 1;
      SameNeighboursSameFiles(cfg, env, rows, paths, a, b, ids[..k]);
      assert Neighbours(ids[k], rows.Keys, a) == Neighbours(ids[k], rows.Keys, b);
    }
  }

  lemma SamePlan(cfg: BrainConfig, env: Env, rows: map<string, NoteRow>, prior: map<string, string>, a: seq<EdgeRow>, b: seq<EdgeRow>)
    requires forall id :: Neighbours(id, rows.Keys, a) == Neighbours(id, rows.Keys, b)
    ensures PlanRows(cfg, env, rows, prior, a) == PlanRows(cfg, env, rows, prior, b)
  {
    var ids := Ordered(rows.Keys);
    OrderedIs(rows.Keys);
    var wishes := Wishes(cfg, rows, ids, prior);
    if Assign(wishes).Ok? {
      PathsAreSound(wishes);
      var paths := Zip(ids, Assign(wishes).value);
      assert paths.Keys == rows.Keys;
      SameNeighboursSameFiles(cfg, env, rows, paths, a, b, ids);
    }
  }

  /** A plan depends only on the set of included rows and the set of edges:
      the same inputs in any order, edges repeated at will, give the same bytes. */
  lemma OrderIsIrrelevant(cfg: BrainConfig, env: Env, prior: Manifest, nodes: seq<NoteRow>, nodes': seq<NoteRow>,
                          edges: seq<EdgeRow>, edges': seq<EdgeRow>)
    requires DistinctIds(nodes) && DistinctIds(nodes')
    requires forall r :: Included(cfg, r) ==> (r in nodes <==> r in nodes')
    requires forall e :: e in edges <==> e in edges'
    ensures Plan(cfg, env, prior, nodes, edges) == Plan(cfg, env, prior, nodes', edges')
  {
    RowOrderIsIrrelevant(cfg, nodes, nodes');
    var rows := ById(cfg, nodes);
    forall id ensures Neighbours(id, rows.Keys, S.Sort(edges, EdgeLeq)) == Neighbours(id, rows.Keys, S.Sort(edges', EdgeLeq)) {
      EdgeOrderIsIrrelevant(id, rows.Keys, edges, edges');
    }
    SamePlan(cfg, env, rows, PathsById(prior.entries), S.Sort(edges, EdgeLeq), S.Sort(edges', EdgeLeq));
  }

  // ---------------------------------------------------------------- the manifest of a plan

  ghost predicate NoIds(entries: seq<ManifestEntry>) { forall e :: e in entries ==> e.memoryId.None? }

  lemma {:induction false} UnnamedAddNothing(a: seq<ManifestEntry>, b: seq<ManifestEntry>)
    requires NoIds(b)
    ensures PathsById(a + b) == PathsById(a)
  {
    if b == [] {
      assert a + b == a;
    } else {
      var k := |b| - 1;
      assert (a + b)[..|a| + k] == a + b[..k];
      assert b[k] in b;
      UnnamedAddNothing(a, b[..k]);
    }
  }

  ghost predicate AllDifferent(s: seq<string>) { forall i, j :: 0 <= i < j < |s| ==> s[i] != s[j] }

  /** The restriction of a map to some keys. */
  function Only(m: map<string, string>, ids: seq<string>): map<string, string> { map id | id in m && id in ids :: m[id] }

  lemma {:induction false} NoteEntriesView(paths: map<string, string>, ids: seq<string>)
    requires forall id :: id in ids ==> id in paths
    ensures PathsById(NoteEntries(paths, ids)) == Only(paths, ids)
    ensures |NoteEntries(paths, ids)| == |ids|
    ensures forall e :: e in NoteEntries(paths, ids) <==> exists id :: id in ids && e == ManifestEntry(paths[id], Some(id))
  {
    if ids != [] {
      var k := |ids| - 1;
      NoteEntriesView(paths, ids[..k]);
      var init, last := NoteEntries(paths, ids[..k]), ManifestEntry(paths[ids[k]], Some(ids[k]));
      assert (init + [last])[..|init|] == init;
      assert ids == ids[..k] + [ids[k]];
    }
  }

  /** The manifest records exactly the assigned paths. */
  lemma ManifestRecordsPaths(pages: seq<VaultFile>, paths: map<string, string>, ids: seq<string>)
    requires forall id :: id in ids <==> id in paths
    ensures PathsById(ManifestOf(pages, paths, ids).entries) == paths
  {
    var notes, rest := NoteEntries(paths, ids), PageEntries(pages) + [ManifestEntry(MANIFEST_PATH, None)];
    UnnamedAddNothing(notes, rest);
    assert ManifestOf(pages, paths, ids).entries == notes + rest;
    NoteEntriesView(paths, ids);
    assert Only(paths, ids) == paths;
  }

  ghost predicate Injective(m: map<string, string>) {
    forall a, b :: a in m && b in m && m[a] == m[b] ==> a == b
  }

  lemma ManifestIsOneToOne(pages: seq<VaultFile>, paths: map<string, string>, ids: seq<string>)
    requires (forall id :: id in ids <==> id in paths) && Injective(paths)
    ensures OneToOne(ManifestOf(pages, paths, ids).entries)
  {
    NoteEntriesView(paths, ids);
    var m := ManifestOf(pages, paths, ids);
    forall e | e in m.entries && e.memoryId.Some?
      ensures e.memoryId.value in paths && e.path == paths[e.memoryId.value]
    {
      assert e in NoteEntries(paths, ids);
    }
  }

  // ---------------------------------------------------------------- the paths of a plan

  /** `other` comes before `id` and holds `path`. */
  predicate HeldLower(paths: map<string, string>, id: string, path: string) {
    exists other :: other in paths && other != id && StrLeq(other, id) && paths[other] == path
  }

  ghost predicate PathsOk(cfg: BrainConfig, rows: map<string, NoteRow>, prior: map<string, string>, paths: map<string, string>) {
    && paths.Keys == rows.Keys && Injective(paths)
    && (forall id :: id in paths ==> ValidPath(paths[id]))
    && (forall id :: id in paths ==>
          (paths[id] == NotePath(cfg, rows[id], prior) <==> !HeldLower(paths, id, NotePath(cfg, rows[id], prior))))
  }

  lemma ZipIsInjective(ids: seq<string>, assigned0: seq<string>)
    requires |ids| == |assigned0| && AllDifferent(ids) && AllDifferent(assigned0)
    ensures Injective(Zip(ids, assigned0))
  {
    var m := Zip(ids, assigned0);
    forall a, b | a in m && b in m && m[a] == m[b] ensures a == b {
      var i :| 0 <= i < |ids| && ids[i] == a;
      var j :| 0 <= j < |ids| && ids[j] == b;
      ZipAt(ids, assigned0, i);
      ZipAt(ids, assigned0, j);
    }
  }

  lemma EarlierIsLower(ids: seq<string>, got: seq<string>, i: nat, path: string)
    requires |got| == |ids| && AllDifferent(ids) && S.Ascending(ids, StrLeq) && i < |ids| && path in got[..i]
    ensures HeldLower(Zip(ids, got), ids[i], path)
  {
    var j :| 0 <= j < i && got[j] == path;
    ZipAt(ids, got, j);
    assert ids[j] in Zip(ids, got) && ids[j] != ids[i] && StrLeq(ids[j], ids[i]);
  }

  lemma LowerComesFirst(ids: seq<string>, j: nat, i: nat)
    requires AllDifferent(ids) && S.Ascending(ids, StrLeq) && i < |ids| && j < |ids| && j != i && StrLeq(ids[j], ids[i])
    ensures j < i
  {
    StrTotal(ids[i], ids[j]);
  }

  lemma LowerIsEarlier(ids: seq<string>, got: seq<string>, i: nat, path: string)
    requires |got| == |ids| && AllDifferent(ids) && S.Ascending(ids, StrLeq) && i < |ids|
    requires HeldLower(Zip(ids, got), ids[i], path)
    ensures path in got[..i]
  {
    var m := Zip(ids, got);
    var other :| other in m && other != ids[i] && StrLeq(other, ids[i]) && m[other] == path;
    var j :| 0 <= j < |ids| && ids[j] == other;
    ZipAt(ids, got, j);
    LowerComesFirst(ids, j, i);
    assert got[..i][j] == path;
  }

  /** The `i`-th note of an assignment. */
  lemma OnePath(ids: seq<string>, wishes: seq<string>, i: nat)
    requires |wishes| == |ids| && AllDifferent(ids) && S.Ascending(ids, StrLeq) && i < |ids| && Assign(wishes).Ok?
    ensures var got := Assign(wishes).value;
      |got| == |ids| && var m := Zip(ids, got); var p := m[ids[i]];
      ValidPath(p) && (p == wishes[i] <==> !HeldLower(m, ids[i], wishes[i]))
  {
    PathsAreSound(wishes);
    var got := Assign(wishes).value;
    ZipAt(ids, got, i);
    if wishes[i] in got[..i] { EarlierIsLower(ids, got, i, wishes[i]); }
    if HeldLower(Zip(ids, got), ids[i], wishes[i]) { LowerIsEarlier(ids, got, i, wishes[i]); }
  }

  lemma OnePathOf(cfg: BrainConfig, rows: map<string, NoteRow>, prior: map<string, string>,
                  ids: seq<string>, wishes: seq<string>, id: string)
    requires (forall i :: i in ids <==> i in rows) && wishes == Wishes(cfg, rows, ids, prior) && id in rows
    requires AllDifferent(ids) && S.Ascending(ids, StrLeq) && Assign(wishes).Ok?
    ensures |Assign(wishes).value| == |ids|
    ensures var m := Zip(ids, Assign(wishes).value);
      ValidPath(m[id]) && (m[id] == NotePath(cfg, rows[id], prior) <==> !HeldLower(m, id, NotePath(cfg, rows[id], prior)))
  {
    var i :| 0 <= i < |ids| && ids[i] == id;
    OnePath(ids, wishes, i);
  }

  // ---------------------------------------------------------------- the assigned paths by id

  ghost function OrderedOf(rows: map<string, NoteRow>): (ids: seq<string>)
    ensures forall id :: id in ids <==> id in rows
    ensures AllDifferent(ids) && S.Ascending(ids, StrLeq)
  {
    OrderedIs(rows.Keys);
    Distinct(rows.Keys);
    Ordered(rows.Keys)
  }

  ghost predicate CanPlan(cfg: BrainConfig, rows: map<string, NoteRow>, prior: map<string, string>) {
    Assign(Wishes(cfg, rows, OrderedOf(rows), prior)).Ok?
  }

  ghost function PathsFor(cfg: BrainConfig, rows: map<string, NoteRow>, prior: map<string, string>): (m: map<string, string>)
    requires CanPlan(cfg, rows, prior)
    ensures m.Keys == rows.Keys
  {
    var wishes := Wishes(cfg, rows, OrderedOf(rows), prior);
    PathsAreSound(wishes);
    Zip(OrderedOf(rows), Assign(wishes).value)
  }

  lemma PlanIs(cfg: BrainConfig, env: Env, rows: map<string, NoteRow>, prior: map<string, string>, sorted: seq<EdgeRow>)
    ensures PlanRows(cfg, env, rows, prior, sorted).Ok? <==> CanPlan(cfg, rows, prior)
    ensures CanPlan(cfg, rows, prior) ==>
      PlanRows(cfg, env, rows, prior, sorted) == Ok(PlanWith(cfg, env, rows, PathsFor(cfg, rows, prior), sorted, OrderedOf(rows)))
  {}

  lemma PathsForIsInjective(cfg: BrainConfig, rows: map<string, NoteRow>, prior: map<string, string>)
    requires CanPlan(cfg, rows, prior)
    ensures Injective(PathsFor(cfg, rows, prior))
  {
    var wishes := Wishes(cfg, rows, OrderedOf(rows), prior);
    PathsAreSound(wishes);
    ZipIsInjective(OrderedOf(rows), Assign(wishes).value);
  }

  lemma PathsForIsOk(cfg: BrainConfig, rows: map<string, NoteRow>, prior: map<string, string>)
    requires CanPlan(cfg, rows, prior)
    ensures PathsOk(cfg, rows, prior, PathsFor(cfg, rows, prior))
  {
    PathsForIsInjective(cfg, rows, prior);
    var m := PathsFor(cfg, rows, prior);
    forall id | id in m
      ensures ValidPath(m[id]) && (m[id] == NotePath(cfg, rows[id], prior) <==> !HeldLower(m, id, NotePath(cfg, rows[id], prior)))
    {
      OnePathOf(cfg, rows, prior, OrderedOf(rows), Wishes(cfg, rows, OrderedOf(rows), prior), id);
    }
  }

  lemma ManifestOfPlan(cfg: BrainConfig, env: Env, rows: map<string, NoteRow>, prior: map<string, string>, sorted: seq<EdgeRow>)
    requires CanPlan(cfg, rows, prior)
    ensures PlanRows(cfg, env, rows, prior, sorted).Ok?
    ensures var m := PlanRows(cfg, env, rows, prior, sorted).value.manifest;
      OneToOne(m.entries) && PathsById(m.entries) == PathsFor(cfg, rows, prior)
  {
    PlanIs(cfg, env, rows, prior, sorted);
    PathsForIsInjective(cfg, rows, prior);
    var ids, paths := OrderedOf(rows), PathsFor(cfg, rows, prior);
    var pages := Pages(cfg, env, RowsInOrder(rows, ids), paths);
    ManifestRecordsPaths(pages, paths, ids);
    ManifestIsOneToOne(pages, paths, ids);
  }

  /** A plan gives every included memory its own valid path, and a memory keeps
      the path it had exactly when no lower id took it. */
  lemma PlannedPaths(cfg: BrainConfig, env: Env, prior: Manifest, nodes: seq<NoteRow>, edges: seq<EdgeRow>)
    requires Plan(cfg, env, prior, nodes, edges).Ok?
    ensures var m := Plan(cfg, env, prior, nodes, edges).value.manifest;
      OneToOne(m.entries) && PathsOk(cfg, ById(cfg, nodes), PathsById(prior.entries), PathsById(m.entries))
  {
    var rows, before := ById(cfg, nodes), PathsById(prior.entries);
    PlanIs(cfg, env, rows, before, S.Sort(edges, EdgeLeq));
    PathsForIsOk(cfg, rows, before);
    ManifestOfPlan(cfg, env, rows, before, S.Sort(edges, EdgeLeq));
  }

  // ---------------------------------------------------------------- planning again

  ghost predicate KeyedById(rows: map<string, NoteRow>) { forall id :: id in rows ==> rows[id].id == id }

  lemma WishesOfZip(cfg: BrainConfig, rows: map<string, NoteRow>, ids: seq<string>, got: seq<string>)
    requires KeyedById(rows) && (forall id :: id in ids ==> id in rows) && AllDifferent(ids) && |got| == |ids|
    ensures Wishes(cfg, rows, ids, Zip(ids, got)) == got
  {
    var prior := Zip(ids, got);
    forall i | 0 <= i < |ids| ensures NotePath(cfg, rows[ids[i]], prior) == got[i] {
      ZipAt(ids, got, i);
      assert ids[i] in ids;
    }
  }

  lemma GrantedAgain(cfg: BrainConfig, rows: map<string, NoteRow>, prior: map<string, string>)
    requires KeyedById(rows) && CanPlan(cfg, rows, prior)
    ensures var paths := PathsFor(cfg, rows, prior);
      CanPlan(cfg, rows, paths) && PathsFor(cfg, rows, paths) == paths
  {
    var ids := OrderedOf(rows);
    var wishes := Wishes(cfg, rows, ids, prior);
    PathsAreSound(wishes);
    WishesOfZip(cfg, rows, ids, Assign(wishes).value);
    AssignIdle(Assign(wishes).value);
  }

  lemma PlanRowsAgain(cfg: BrainConfig, env: Env, rows: map<string, NoteRow>, prior: map<string, string>, sorted: seq<EdgeRow>)
    requires KeyedById(rows) && CanPlan(cfg, rows, prior)
    ensures PlanRows(cfg, env, rows, PathsFor(cfg, rows, prior), sorted) == PlanRows(cfg, env, rows, prior, sorted)
  {
    GrantedAgain(cfg, rows, prior);
    PlanIs(cfg, env, rows, prior, sorted);
    PlanIs(cfg, env, rows, PathsFor(cfg, rows, prior), sorted);
  }

  /** The fixed point: planning again from the manifest just produced, however
      its entries were reordered on disk, gives the same files and manifest. */
  lemma PlanIsFixedPoint(cfg: BrainConfig, env: Env, prior: Manifest, again: Manifest, nodes: seq<NoteRow>, edges: seq<EdgeRow>)
    requires Plan(cfg, env, prior, nodes, edges).Ok?
    requires forall e :: e in again.entries <==> e in Plan(cfg, env, prior, nodes, edges).value.manifest.entries
    ensures Plan(cfg, env, again, nodes, edges) == Plan(cfg, env, prior, nodes, edges)
  {
    var rows, before, sorted := ById(cfg, nodes), PathsById(prior.entries), S.Sort(edges, EdgeLeq);
    PlanIs(cfg, env, rows, before, sorted);
    ManifestOfPlan(cfg, env, rows, before, sorted);
    var m := PlanRows(cfg, env, rows, before, sorted).value.manifest;
    ViewsIgnoreOrder(m.entries, again.entries);
    PlanRowsAgain(cfg, env, rows, before, sorted);
  }

  // ---------------------------------------------------------------- when planning ends

  /** A note's path can be settled: it has a `.md`, or no lower id wants it. */
  predicate Plannable(cfg: BrainConfig, rows: map<string, NoteRow>, prior: map<string, string>, id: string)
    requires id in rows
  {
    var path := NotePath(cfg, rows[id], prior);
    ValidPath(path) && (HasMd(path) || !WantedLower(cfg, rows, prior, id, path))
  }

  /** A lower id wants `path`. */
  predicate WantedLower(cfg: BrainConfig, rows: map<string, NoteRow>, prior: map<string, string>, id: string, path: string) {
    exists other :: other in rows && other != id && StrLeq(other, id) && NotePath(cfg, rows[other], prior) == path
  }

  lemma EarlierIsWanted(cfg: BrainConfig, rows: map<string, NoteRow>, prior: map<string, string>, ids: seq<string>, i: nat, path: string)
    requires (forall id :: id in ids <==> id in rows) && AllDifferent(ids) && S.Ascending(ids, StrLeq) && i < |ids|
    requires path in Wishes(cfg, rows, ids, prior)[..i]
    ensures WantedLower(cfg, rows, prior, ids[i], path)
  {
    var wishes := Wishes(cfg, rows, ids, prior);
    var j :| 0 <= j < i && wishes[j] == path;
    var other := ids[j];
    assert other in ids && other != ids[i] && StrLeq(other, ids[i]) && NotePath(cfg, rows[other], prior) == path;
  }

  lemma WantedIsEarlier(cfg: BrainConfig, rows: map<string, NoteRow>, prior: map<string, string>, ids: seq<string>, i: nat, path: string)
    requires (forall id :: id in ids <==> id in rows) && AllDifferent(ids) && S.Ascending(ids, StrLeq) && i < |ids|
    requires WantedLower(cfg, rows, prior, ids[i], path)
    ensures path in Wishes(cfg, rows, ids, prior)[..i]
  {
    var wishes := Wishes(cfg, rows, ids, prior);
    var other :| other in rows && other != ids[i] && StrLeq(other, ids[i]) && NotePath(cfg, rows[other], prior) == path;
    var j :| 0 <= j < |ids| && ids[j] == other;
    LowerComesFirst(ids, j, i);
    assert wishes[..i][j] == path;
  }

  lemma WantedLowerIff(cfg: BrainConfig, rows: map<string, NoteRow>, prior: map<string, string>, ids: seq<string>, i: nat, path: string)
    requires (forall id :: id in ids <==> id in rows) && AllDifferent(ids) && S.Ascending(ids, StrLeq) && i < |ids|
    ensures path in Wishes(cfg, rows, ids, prior)[..i] <==> WantedLower(cfg, rows, prior, ids[i], path)
  {
    if path in Wishes(cfg, rows, ids, prior)[..i] { EarlierIsWanted(cfg, rows, prior, ids, i, path); }
    if WantedLower(cfg, rows, prior, ids[i], path) { WantedIsEarlier(cfg, rows, prior, ids, i, path); }
  }

  /** Planning ends with a plan exactly when every included memory's path can
      be settled; a memory without a prior path never stands in the way. */
  lemma PlanEndsIff(cfg: BrainConfig, env: Env, prior: Manifest, nodes: seq<NoteRow>, edges: seq<EdgeRow>)
    ensures var rows, before := ById(cfg, nodes), PathsById(prior.entries);
      Plan(cfg, env, prior, nodes, edges).Ok? <==> forall id :: id in rows ==> Plannable(cfg, rows, before, id)
  {
    PlanOkIff(cfg, env, prior, nodes, edges);
    CanPlanIff(cfg, ById(cfg, nodes), PathsById(prior.entries));
  }

  lemma PlanOkIff(cfg: BrainConfig, env: Env, prior: Manifest, nodes: seq<NoteRow>, edges: seq<EdgeRow>)
    ensures Plan(cfg, env, prior, nodes, edges).Ok? <==> CanPlan(cfg, ById(cfg, nodes), PathsById(prior.entries))
  {
    PlanIs(cfg, env, ById(cfg, nodes), PathsById(prior.entries), S.Sort(edges, EdgeLeq));
  }

  lemma CanPlanIff(cfg: BrainConfig, rows: map<string, NoteRow>, prior: map<string, string>)
    ensures CanPlan(cfg, rows, prior) <==> forall id :: id in rows ==> Plannable(cfg, rows, prior, id)
  {
    var ids := OrderedOf(rows);
    var wishes := Wishes(cfg, rows, ids, prior);
    AssignEndsIff(wishes);
    forall i | 0 <= i < |ids| ensures ids[i] in rows && (CanSettle(wishes, i) <==> Plannable(cfg, rows, prior, ids[i])) {
      assert ids[i] in ids;
      WantedLowerIff(cfg, rows, prior, ids, i, wishes[i]);
    }
    SameForAll(cfg, rows, prior, ids, wishes);
  }

  lemma SameForAll(cfg: BrainConfig, rows: map<string, NoteRow>, prior: map<string, string>, ids: seq<string>, wishes: seq<string>)
    requires (forall id :: id in ids <==> id in rows) && |wishes| == |ids|
    requires forall i :: 0 <= i < |ids| ==> ids[i] in rows && (CanSettle(wishes, i) <==> Plannable(cfg, rows, prior, ids[i]))
    ensures (forall i :: 0 <= i < |wishes| ==> CanSettle(wishes, i)) <==> (forall id :: id in rows ==> Plannable(cfg, rows, prior, id))
  {
    if forall i :: 0 <= i < |wishes| ==> CanSettle(wishes, i) {
      forall id | id in rows ensures Plannable(cfg, rows, prior, id) {
        var i :| 0 <= i < |ids| && ids[i] == id;
        assert CanSettle(wishes, i);
      }
    }
  }

  /** Two memories that both keep the path `n`: the suffix loop never ends. */
  lemma TwoKeepersGetStuck(cfg: BrainConfig, env: Env, a: NoteRow, b: NoteRow, edges: seq<EdgeRow>)
    requires Included(cfg, a) && Included(cfg, b) && a.id != b.id
    ensures var prior := Manifest(CURRENT_VERSION, [ManifestEntry("n", Some(a.id)), ManifestEntry("n", Some(b.id))]);
      Plan(cfg, env, prior, [a, b], edges) == Stuck("n")
  {
    var prior := map[a.id := "n", b.id := "n"];
    var rows := map[a.id := a, b.id := b];
    TwoEntries("n", a.id, b.id);
    TwoRows(cfg, a, b);
    BothKept(cfg, rows, prior, "n");
    NIsBare();
    AssignTwice("n");
  }

  lemma TwoRows(cfg: BrainConfig, a: NoteRow, b: NoteRow)
    requires Included(cfg, a) && Included(cfg, b) && a.id != b.id
    ensures ById(cfg, [a, b]) == map[a.id := a, b.id := b]
  {
    assert [a, b][..1] == [a] && [a][..0] == [];
    assert ById(cfg, [a]) == map[a.id := a];
  }

  lemma TwoEntries(path: string, a: string, b: string)
    ensures PathsById([ManifestEntry(path, Some(a)), ManifestEntry(path, Some(b))]) == map[a := path, b := path]
  {
    var one := [ManifestEntry(path, Some(a))];
    var two := [ManifestEntry(path, Some(a)), ManifestEntry(path, Some(b))];
    assert one[..0] == [] && two[..1] == one;
    assert PathsById(one) == map[a := path];
  }

  /** Two rows that both keep one path wish for it twice. */
  lemma BothKept(cfg: BrainConfig, rows: map<string, NoteRow>, prior: map<string, string>, path: string)
    requires |rows| == 2 && prior.Keys == rows.Keys && KeyedById(rows) && forall id :: id in prior ==> prior[id] == path
    ensures Wishes(cfg, rows, OrderedOf(rows), prior) == [path, path]
  {
    OrderedIs(rows.Keys);
    assert |rows.Keys| == |rows|;
    var ids := OrderedOf(rows);
    forall i | 0 <= i < |ids| ensures NotePath(cfg, rows[ids[i]], prior) == path { assert ids[i] in ids; }
  }

  lemma Blocked(path: string, taken: set<string>)
    requires path in taken && !HasMd(path)
    ensures Settle(path, taken, 1).None?
  {}

  lemma AssignTwice(path: string)
    requires ValidPath(path) && !HasMd(path)
    ensures Assign([path, path]) == Stuck(path)
  {
    var two, one := [path, path], [path];
    assert two[..1] == one;
    AssignIdle(one);
    Blocked(path, Taken(one));
    AssignStep(two, 1, one);
  }

  lemma NIsBare()
    ensures ValidPath("n") && !HasMd("n")
  {
    SplitPrefix("n", "", '/');
    assert "n" + "" == "n" && Split("", '/') == [""];
    assert Split("n", '/') == ["n"];
  }
}
