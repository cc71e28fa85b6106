/**
  Vault planning: memory rows and edges become the files one export commits.
  The generated map-of-content pages and the JSON and UTF-8 codecs are
  parameters; everything else follows the planner step by step.
 */
module Vault {
  import opened Options
  import opened BrainTypes
  import opened Text
  import opened VaultPaths
  import opened VaultLinks
  import G = GitTree
  import N = Notes
  import S = Sorting

  const MANIFEST_PATH := ".pensieve/manifest.json"
  const CURRENT_VERSION := 1

  datatype Env = Env(
    fmt: N.Formats, utf8: string -> Bytes, json: Manifest -> Bytes, parse: Bytes -> Option<Manifest>,
    readme: BrainConfig -> string, contributing: BrainConfig -> string,
    index: (BrainConfig, seq<NoteRow>, map<string, string>) -> string,
    realmIndexes: (BrainConfig, seq<NoteRow>, map<string, string>) -> seq<(string, string)>)

  datatype VaultPlan = VaultPlan(files: seq<VaultFile>, manifest: Manifest, noteCount: nat)

  // ---------------------------------------------------------------- which rows

  predicate Included(cfg: BrainConfig, row: NoteRow) {
    var f := cfg.filters;
    && row.status in f.statuses
    && (f.memoryTypes.Some? ==> row.memoryType in f.memoryTypes.value)
    && (f.minImportance.Some? ==> row.importance >= f.minImportance.value)
    && (row.invalidAt.Some? ==> f.includeInvalidated)
  }

  /** The included rows by id; the first row of an id wins. */
  function ById(cfg: BrainConfig, nodes: seq<NoteRow>): (m: map<string, NoteRow>)
    ensures forall id :: id in m ==> m[id] in nodes && Included(cfg, m[id]) && m[id].id == id
    ensures forall r :: r in nodes && Included(cfg, r) ==> r.id in m
  {
    if nodes == [] then map[]
    else
      var m, last := ById(cfg, nodes[..|nodes| - 1]), nodes[|nodes| - 1];
      assert nodes == nodes[..|nodes| - 1] + [last];
      if Included(cfg, last) && last.id !in m then m[last.id := last] else m
  }

  method IndexRows(cfg: BrainConfig, nodes: seq<NoteRow>) returns (byId: map<string, NoteRow>)
    ensures byId == ById(cfg, nodes)
  {
    byId := map[];
    for i := 0 to |nodes|
      invariant byId == ById(cfg, nodes[..i])
    {
      assert nodes[..i + 1][..i] == nodes[..i];
      if Included(cfg, nodes[i]) && nodes[i].id !in byId {
        byId := byId[nodes[i].id := nodes[i]];
      }
    }
    assert nodes[..|nodes|] == nodes;
  }

  ghost predicate DistinctIds(nodes: seq<NoteRow>) {
    forall a, b :: a in nodes && b in nodes && a.id == b.id ==> a == b
  }

  /** Only the set of included rows matters. */
  lemma RowOrderIsIrrelevant(cfg: BrainConfig, a: seq<NoteRow>, b: seq<NoteRow>)
    requires DistinctIds(a) && DistinctIds(b)
    requires forall r :: Included(cfg, r) ==> (r in a <==> r in b)
    ensures ById(cfg, a) == ById(cfg, b)
  {
    var m, k := ById(cfg, a), ById(cfg, b);
    forall id | id in m ensures id in k && k[id] == m[id] { assert m[id] in b; }
    forall id | id in k ensures id in m { assert k[id] in a; }
  }

  // ---------------------------------------------------------------- paths

  function Zip(ids: seq<string>, paths: seq<string>): (m: map<string, string>)
    requires |ids| == |paths|
    ensures forall id :: id in m <==> id in ids
  {
    if ids == [] then map[]
    else
      var k := |ids| - 1;
      assert ids == ids[..k] + [ids[k]];
      Zip(ids[..k], paths[..k])[ids[k] := paths[k]]
  }

  lemma {:induction false} ZipAt(ids: seq<string>, paths: seq<string>, i: nat)
    requires |ids| == |paths| && i < |ids|
    requires forall j, k :: 0 <= j < k < |ids| ==> ids[j] != ids[k]
    ensures Zip(ids, paths)[ids[i]] == paths[i]
  {
    var k := |ids| - 1;
    if i < k {
      assert ids[..k][i] == ids[i] && paths[..k][i] == paths[i] && ids[i] != ids[k];
      ZipAt(ids[..k], paths[..k], i);
      assert Zip(ids, paths) == Zip(ids[..k], paths[..k])[ids[k] := paths[k]];
    }
  }

  function Wishes(cfg: BrainConfig, rows: map<string, NoteRow>, ids: seq<string>, prior: map<string, string>): seq<string>
    requires forall id :: id in ids ==> id in rows
  {
    seq(|ids|, i requires 0 <= i < |ids| => NotePath(cfg, rows[ids[i]], prior))
  }

  /** The suffix loop; `None` where `plan_vault` would loop forever. */
  method SettlePath(wish: string, taken: set<string>) returns (r: Option<string>)
    ensures r == Settle(wish, taken, 1)
  {
    var path, n := wish, 1;
    while path in taken
      invariant Settle(path, taken, n) == Settle(wish, taken, 1)
      decreases |AtLeast(taken, |path|)|
    {
      if !HasMd(path) { return None; }
      BumpGrows(path, n + 1);
      FewerAhead(taken, path, Bump(path, n + 1));
      n := n + 1;
      path := Bump(path, n);
    }
    r := Some(path);
  }

  /** Paths in id order, each note its own. */
  method PlanPaths(cfg: BrainConfig, rows: map<string, NoteRow>, ids: seq<string>, prior: map<string, string>)
    returns (r: Outcome<map<string, string>>)
    requires (forall id :: id in ids ==> id in rows) && forall i, j :: 0 <= i < j < |ids| ==> ids[i] != ids[j]
    ensures var outcome := Assign(Wishes(cfg, rows, ids, prior));
      && (outcome.Ok? ==> |outcome.value| == |ids| && r == Ok(Zip(ids, outcome.value)))
      && (outcome.InvalidPath? ==> r == InvalidPath(outcome.path))
      && (outcome.Stuck? ==> r == Stuck(outcome.path))
  {
    var paths: map<string, string>, taken: set<string> := map[], {};
    ghost var done: seq<string> := [];
    ghost var wishes := Wishes(cfg, rows, ids, prior);
    for i := 0 to |ids|
      invariant |done| == i && Assign(wishes[..i]) == Ok(done)
      invariant taken == Taken(done) && paths == Zip(ids[..i], done)
    {
      AssignStep(wishes, i, done);
      var wish := NotePath(cfg, rows[ids[i]], prior);
      if !ValidPath(wish) { return InvalidPath(wish); }
      var path := SettlePath(wish, taken);
      if path.None? { return Stuck(wish); }
      ZipStep(ids, done, i, path.value);
      taken := taken + {path.value};
      paths := paths[ids[i] := path.value];
      done := done + [path.value];
    }
    assert wishes[..|ids|] == wishes && ids[..|ids|] == ids;
    r := Ok(paths);
  }

  lemma ZipStep(ids: seq<string>, done: seq<string>, i: nat, path: string)
    requires i < |ids| && |done| == i
    ensures Zip(ids[..i + 1], done + [path]) == Zip(ids[..i], done)[ids[i] := path]
    ensures Taken(done + [path]) == Taken(done) + {path}
  {
    assert ids[..i + 1][..i] == ids[..i] && (done + [path])[..i] == done;
  }

  /** One more wish; a failure there is the result of the whole. */
  lemma AssignStep(wishes: seq<string>, i: nat, done: seq<string>)
    requires i < |wishes| && Assign(wishes[..i]) == Ok(done)
    ensures var wish := wishes[i];
      if !ValidPath(wish) then Assign(wishes) == InvalidPath(wish)
      else if Settle(wish, Taken(done), 1).None? then Assign(wishes) == Stuck(wish)
      else Assign(wishes[..i + 1]) == Ok(done + [Settle(wish, Taken(done), 1).value])
  {
    assert wishes[..i + 1][..i] == wishes[..i];
    if !Assign(wishes[..i + 1]).Ok? { BadStays(wishes, i + 1); }
  }

  /** A failure is final. */
  lemma {:induction false} BadStays(wishes: seq<string>, k: nat)
    requires 0 < k <= |wishes| && !Assign(wishes[..k]).Ok?
    ensures Assign(wishes) == Assign(wishes[..k])
    decreases |wishes|
  {
    if k == |wishes| {
      assert wishes[..k] == wishes;
    } else {
      var init := wishes[..|wishes| - 1];
      assert init[..k] == wishes[..k];
      BadStays(init, k);
    }
  }

  // ---------------------------------------------------------------- files

  function NoteFile(cfg: BrainConfig, env: Env, rows: map<string, NoteRow>, paths: map<string, string>,
                    sorted: seq<EdgeRow>, id: string): VaultFile
    requires paths.Keys == rows.Keys && id in rows
  {
    var links := Rendered(LinksTo(Neighbours(id, rows.Keys, sorted), rows, paths));
    VaultFile(paths[id], env.utf8(N.RenderNote(rows[id], links, cfg.filters.redact, env.fmt)))
  }

  function NoteFiles(cfg: BrainConfig, env: Env, rows: map<string, NoteRow>, paths: map<string, string>,
                     sorted: seq<EdgeRow>, ids: seq<string>): seq<VaultFile>
    requires paths.Keys == rows.Keys && forall id :: id in ids ==> id in rows
  {
    if ids == [] then []
    else
      var k := |ids| - 1;
      NoteFiles(cfg, env, rows, paths, sorted, ids[..k]) + [NoteFile(cfg, env, rows, paths, sorted, ids[k])]
  }

  function NoteEntries(paths: map<string, string>, ids: seq<string>): seq<ManifestEntry>
    requires forall id :: id in ids ==> id in paths
  {
    if ids == [] then []
    else
      var k := |ids| - 1;
      NoteEntries(paths, ids[..k]) + [ManifestEntry(paths[ids[k]], Some(ids[k]))]
  }

  function RowsInOrder(rows: map<string, NoteRow>, ids: seq<string>): seq<NoteRow>
    requires forall id :: id in ids ==> id in rows
  {
    seq(|ids|, i requires 0 <= i < |ids| => rows[ids[i]])
  }

  function RealmFile(env: Env, page: (string, string)): VaultFile {
    VaultFile("notes/" + SanitizeRealm(page.0) + "/index.md", env.utf8(page.1))
  }

  /** The pages nobody edits. */
  function Pages(cfg: BrainConfig, env: Env, rows: seq<NoteRow>, paths: map<string, string>): seq<VaultFile> {
    var realms := env.realmIndexes(cfg, rows, paths);
    [VaultFile("README.md", env.utf8(env.readme(cfg))),
     VaultFile("CONTRIBUTING.md", env.utf8(env.contributing(cfg))),
     VaultFile("index.md", env.utf8(env.index(cfg, rows, paths)))]
    + seq(|realms|, i requires 0 <= i < |realms| => RealmFile(env, realms[i]))
  }

  function PageEntries(files: seq<VaultFile>): seq<ManifestEntry> {
    seq(|files|, i requires 0 <= i < |files| => ManifestEntry(files[i].path, None))
  }

  predicate EntryLeq(a: ManifestEntry, b: ManifestEntry) { StrLeq(a.path, b.path) }

  /** The manifest as its bytes record it. */
  function InPathOrder(m: Manifest): Manifest { Manifest(m.version, S.Sort(m.entries, EntryLeq)) }

  function ManifestBytes(env: Env, m: Manifest): Bytes { env.json(InPathOrder(m)) }

  function ManifestOf(pages: seq<VaultFile>, paths: map<string, string>, ids: seq<string>): Manifest
    requires forall id :: id in ids ==> id in paths
  {
    Manifest(CURRENT_VERSION, NoteEntries(paths, ids) + PageEntries(pages) + [ManifestEntry(MANIFEST_PATH, None)])
  }

  function PlanWith(cfg: BrainConfig, env: Env, rows: map<string, NoteRow>, paths: map<string, string>,
                    sorted: seq<EdgeRow>, ids: seq<string>): VaultPlan
    requires paths.Keys == rows.Keys && forall id :: id in ids ==> id in rows
  {
    var pages := Pages(cfg, env, RowsInOrder(rows, ids), paths);
    var manifest := ManifestOf(pages, paths, ids);
    var files := NoteFiles(cfg, env, rows, paths, sorted, ids) + pages + [VaultFile(MANIFEST_PATH, ManifestBytes(env, manifest))];
    VaultPlan(S.Sort(files, G.FileLeq), manifest, |ids|)
  }

  /** The notes once the wished-for paths are settled. */
  function PlanIds(cfg: BrainConfig, env: Env, rows: map<string, NoteRow>, prior: map<string, string>,
                   sorted: seq<EdgeRow>, ids: seq<string>): Outcome<VaultPlan>
    requires forall id :: id in ids <==> id in rows
  {
    match Assign(Wishes(cfg, rows, ids, prior))
    case Ok(paths) =>
      PathsAreSound(Wishes(cfg, rows, ids, prior));
      assert Zip(ids, paths).Keys == rows.Keys;
      Ok(PlanWith(cfg, env, rows, Zip(ids, paths), sorted, ids))
    case InvalidPath(p) => InvalidPath(p)
    case Stuck(p) => Stuck(p)
  }

  /** The plan as a function of the rows by id, the prior paths and the edges. */
  ghost function PlanRows(cfg: BrainConfig, env: Env, rows: map<string, NoteRow>, prior: map<string, string>,
                          sorted: seq<EdgeRow>): Outcome<VaultPlan>
  {
    OrderedIs(rows.Keys);
    PlanIds(cfg, env, rows, prior, sorted, Ordered(rows.Keys))
  }

  ghost function Plan(cfg: BrainConfig, env: Env, prior: Manifest, nodes: seq<NoteRow>, edges: seq<EdgeRow>): Outcome<VaultPlan> {
    PlanRows(cfg, env, ById(cfg, nodes), PathsById(prior.entries), S.Sort(edges, EdgeLeq))
  }

  method RenderOne(cfg: BrainConfig, env: Env, rows: map<string, NoteRow>, paths: map<string, string>,
                   ghost sorted: seq<EdgeRow>, related: map<string, seq<RelatedLink>>, id: string)
    returns (file: VaultFile)
    requires paths.Keys == rows.Keys && id in rows
    requires Of(related, id) == LinksTo(Neighbours(id, rows.Keys, sorted), rows, paths)
    ensures file == NoteFile(cfg, env, rows, paths, sorted, id)
  {
    var rel := S.Sort(Of(related, id), LinkLeq);
    rel := S.Dedup(rel, SameKey);
    if |rel| > RELATED_CAP { rel := rel[..RELATED_CAP]; }
    file := VaultFile(paths[id], env.utf8(N.RenderNote(rows[id], rel, cfg.filters.redact, env.fmt)));
  }

  lemma NotesStep(cfg: BrainConfig, env: Env, rows: map<string, NoteRow>, paths: map<string, string>,
                  sorted: seq<EdgeRow>, ids: seq<string>, i: nat)
    requires paths.Keys == rows.Keys && (forall id :: id in ids ==> id in rows) && i < |ids|
    ensures NoteFiles(cfg, env, rows, paths, sorted, ids[..i + 1])
      == NoteFiles(cfg, env, rows, paths, sorted, ids[..i]) + [NoteFile(cfg, env, rows, paths, sorted, ids[i])]
    ensures NoteEntries(paths, ids[..i + 1]) == NoteEntries(paths, ids[..i]) + [ManifestEntry(paths[ids[i]], Some(ids[i]))]
  {
    assert ids[..i + 1][..i] == ids[..i];
  }

  method RenderNotes(cfg: BrainConfig, env: Env, rows: map<string, NoteRow>, paths: map<string, string>,
                     ghost sorted: seq<EdgeRow>, related: map<string, seq<RelatedLink>>, ids: seq<string>)
    returns (files: seq<VaultFile>, entries: seq<ManifestEntry>)
    requires paths.Keys == rows.Keys && forall id :: id in ids ==> id in rows
    requires forall id {:trigger Of(related, id)} :: Of(related, id) == LinksTo(Neighbours(id, rows.Keys, sorted), rows, paths)
    ensures files == NoteFiles(cfg, env, rows, paths, sorted, ids) && entries == NoteEntries(paths, ids)
  {
    files, entries := [], [];
    for i := 0 to |ids|
      invariant files == NoteFiles(cfg, env, rows, paths, sorted, ids[..i])
      invariant entries == NoteEntries(paths, ids[..i])
    {
      NotesStep(cfg, env, rows, paths, sorted, ids, i);
      var file := RenderOne(cfg, env, rows, paths, sorted, related, ids[i]);
      files := files + [file];
      entries := entries + [ManifestEntry(paths[ids[i]], Some(ids[i]))];
    }
    assert ids[..|ids|] == ids;
  }

  method PlanNotes(cfg: BrainConfig, env: Env, rows: map<string, NoteRow>, prior: map<string, string>,
                   edges: seq<EdgeRow>, ids: seq<string>) returns (r: Outcome<VaultPlan>)
    requires (forall id :: id in ids <==> id in rows) && forall i, j :: 0 <= i < j < |ids| ==> ids[i] != ids[j]
    ensures r == PlanIds(cfg, env, rows, prior, S.Sort(edges, EdgeLeq), ids)
  {
    var planned := PlanPaths(cfg, rows, ids, prior);
    match planned
    case InvalidPath(p) => return InvalidPath(p);
    case Stuck(p) => return Stuck(p);
    case Ok(paths) =>
      assert paths.Keys == rows.Keys;
      var plan := Finish(cfg, env, rows, paths, edges, ids);
      r := Ok(plan);
  }

  method PlanVault(cfg: BrainConfig, env: Env, prior: Manifest, nodes: seq<NoteRow>, edges: seq<EdgeRow>)
    returns (r: Outcome<VaultPlan>)
    ensures r == Plan(cfg, env, prior, nodes, edges)
  {
    var rows := IndexRows(cfg, nodes);
    var ids := InOrder(rows.Keys);
    OrderedIs(rows.Keys);
    Distinct(rows.Keys);
    r := PlanNotes(cfg, env, rows, PathsById(prior.entries), edges, ids);
  }

  /** Notes, pages and manifest once every note has its path. */
  method Finish(cfg: BrainConfig, env: Env, rows: map<string, NoteRow>, paths: map<string, string>,
                edges: seq<EdgeRow>, ids: seq<string>) returns (plan: VaultPlan)
    requires paths.Keys == rows.Keys && forall id :: id in ids ==> id in rows
    ensures plan == PlanWith(cfg, env, rows, paths, S.Sort(edges, EdgeLeq), ids)
  {
    var related := CollectLinks(edges, rows, paths);
    var files, entries := RenderNotes(cfg, env, rows, paths, S.Sort(edges, EdgeLeq), related, ids);
    var pages := Pages(cfg, env, RowsInOrder(rows, ids), paths);
    files := files + pages;
    entries := entries + PageEntries(pages) + [ManifestEntry(MANIFEST_PATH, None)];
    var manifest := Manifest(CURRENT_VERSION, entries);
    files := files + [VaultFile(MANIFEST_PATH, ManifestBytes(env, manifest))];
    plan := VaultPlan(S.Sort(files, G.FileLeq), manifest, |ids|);
  }

  lemma Distinct(keys: set<string>)
    ensures var ids := Ordered(keys); forall i, j :: 0 <= i < j < |ids| ==> ids[i] != ids[j]
  {
    OrderedIs(keys);
    StrOrder();
  }
}
