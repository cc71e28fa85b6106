/** A second export of unchanged memory, and runs of exports and pushes. */
module ExportRuns {
  import opened Options
  import opened BrainTypes
  import opened GitTree
  import opened Export
  import opened ExportFacts
  import L = VaultLinks
  import V = Vault
  import F = VaultFacts
  import P = VaultPaths
  import S = Sorting
  import T = Text

  // ---------------------------------------------------------------- the next pass reads its own manifest

  lemma SameEntries(m: Manifest)
    ensures forall e :: e in V.InPathOrder(m).entries <==> e in m.entries
  {
    T.StrOrder();
    forall a, b, c | S.Chain(V.EntryLeq, a, b, c) ensures V.EntryLeq(a, c) { assert S.Chain(T.StrLeq, a.path, b.path, c.path); }
    S.SortHas(m.entries, V.EntryLeq);
  }

  /** The manifest a later pass finds: the one just written, or none. */
  lemma NextPrior(cfg: BrainConfig, env: V.Env, seeds: Seeds, head: Option<Tree>, nodes: seq<NoteRow>, edges: seq<EdgeRow>)
    requires CodecOk(env) && NextTree(cfg, env, seeds, head, nodes, edges).Some?
    ensures var next := NextTree(cfg, env, seeds, head, nodes, edges).value;
      var plan := V.Plan(cfg, env, PriorManifest(env, head), nodes, edges).value;
      PriorManifest(env, Some(next)) == if V.MANIFEST_PATH in next then V.InPathOrder(plan.manifest) else EmptyManifest
  {
    var next := NextTree(cfg, env, seeds, head, nodes, edges).value;
    TreeIsExact(cfg, env, seeds, head, nodes, edges);
    PlanFacts(cfg, env, PriorManifest(env, head), nodes, edges);
  }

  /** Whatever the next manifest owns was just planned. */
  lemma NextOwns(cfg: BrainConfig, env: V.Env, seeds: Seeds, head: Option<Tree>, nodes: seq<NoteRow>, edges: seq<EdgeRow>)
    requires CodecOk(env) && NextTree(cfg, env, seeds, head, nodes, edges).Some?
    ensures var next := NextTree(cfg, env, seeds, head, nodes, edges).value;
      var plan := V.Plan(cfg, env, PriorManifest(env, head), nodes, edges).value;
      OwnedPaths(PriorManifest(env, Some(next)).entries) <= PathsOf(plan.files)
  {
    var plan := V.Plan(cfg, env, PriorManifest(env, head), nodes, edges).value;
    NextPrior(cfg, env, seeds, head, nodes, edges);
    PlanFacts(cfg, env, PriorManifest(env, head), nodes, edges);
    SameEntries(plan.manifest);
  }

  // ---------------------------------------------------------------- the second export

  lemma TopsKept(all: set<string>, fewer: set<string>)
    requires Tops(all) <= fewer <= all
    ensures Tops(fewer) == Tops(all)
  {
    forall p | p in Tops(fewer) ensures p in Tops(all) {
      if Covered(all, p) {
        var q := TopAbove(all, p);
      }
    }
  }

  /** No planned file lies inside the manifest's own path. */
  ghost predicate ManifestClear(planned: set<string>) { !Covered(planned, V.MANIFEST_PATH) }

  lemma SeedsClear(seeds: Seeds)
    ensures !Covered(PathsOf(SeedFiles(seeds)), V.MANIFEST_PATH)
  {
    forall q | q in PathsOf(SeedFiles(seeds)) ensures !Under(V.MANIFEST_PATH, q) {
      assert q[1] == 'o' || q[1] == 'g' || q[1] == 'n';
      assert (V.MANIFEST_PATH + "/")[1] == 'p';
    }
  }

  /** The second pass plans the same files. */
  lemma PlansAgain(cfg: BrainConfig, env: V.Env, seeds: Seeds, head: Option<Tree>, nodes: seq<NoteRow>, edges: seq<EdgeRow>)
    requires CodecOk(env) && (head.Some? ==> IsTree(head.value)) && NextTree(cfg, env, seeds, head, nodes, edges).Some?
    requires ManifestClear(PathsOf(V.Plan(cfg, env, PriorManifest(env, head), nodes, edges).value.files))
    ensures V.Plan(cfg, env, PriorManifest(env, NextTree(cfg, env, seeds, head, nodes, edges)), nodes, edges)
      == V.Plan(cfg, env, PriorManifest(env, head), nodes, edges)
  {
    var prior := PriorManifest(env, head);
    var plan := V.Plan(cfg, env, prior, nodes, edges).value;
    var next := NextTree(cfg, env, seeds, head, nodes, edges).value;
    NextPrior(cfg, env, seeds, head, nodes, edges);
    PlanFacts(cfg, env, prior, nodes, edges);
    if V.MANIFEST_PATH in next {
      SameEntries(plan.manifest);
      F.PlanIsFixedPoint(cfg, env, prior, V.InPathOrder(plan.manifest), nodes, edges);
    } else {
      TreeIsExact(cfg, env, seeds, head, nodes, edges);
      NoManifestBefore(env, seeds, head, PathsOf(plan.files), Ingested(cfg, nodes));
    }
  }

  /** A manifest that is displaced was not in HEAD to begin with. */
  lemma NoManifestBefore(env: V.Env, seeds: Seeds, head: Option<Tree>, planned: set<string>, ingested: set<string>)
    requires (head.Some? ==> IsTree(head.value)) && ManifestClear(planned) && V.MANIFEST_PATH in planned
    requires V.MANIFEST_PATH !in Tops(planned + Kept(env, seeds, head, planned, ingested))
    ensures PriorManifest(env, head) == EmptyManifest
  {
    SeedsClear(seeds);
    var kept := Kept(env, seeds, head, planned, ingested);
    assert Covered(planned + kept, V.MANIFEST_PATH);
    var q :| q in planned + kept && Under(V.MANIFEST_PATH, q);
    assert q in kept;
    assert head.None? ==> q in PathsOf(SeedFiles(seeds));
    assert head.Some? ==> q in head.value;
  }

  /** No path carried over or seeded has become a memory. */
  ghost predicate NoneIngested(next: Tree, planned: set<string>, ingested: set<string>) {
    forall p :: p in next && p !in planned ==> p !in ingested
  }

  lemma SecondPaths(env: V.Env, seeds: Seeds, head: Option<Tree>, planned: set<string>, ingested: set<string>, next: Tree)
    requires next.Keys == Tops(planned + Kept(env, seeds, head, planned, ingested))
    requires OwnedPaths(PriorManifest(env, Some(next)).entries) <= planned
    ensures Preserved(env, next, planned, ingested) == next.Keys - planned - ingested
    ensures NoneIngested(next, planned, ingested) ==> Tops(planned + Preserved(env, next, planned, ingested)) == next.Keys
  {
    var again := Preserved(env, next, planned, ingested);
    assert again == next.Keys - planned - ingested;
    if NoneIngested(next, planned, ingested) {
      assert next.Keys <= planned + again;
      TopsKept(planned + Kept(env, seeds, head, planned, ingested), planned + again);
    }
  }

  lemma SecondWritten(env: V.Env, seeds: Seeds, head: Option<Tree>, planned: seq<VaultFile>, ingested: set<string>, next: Tree)
    requires next == Written(FilesOf(env, seeds, head, planned, ingested))
    requires OwnedPaths(PriorManifest(env, Some(next)).entries) <= PathsOf(planned)
    ensures Written(FilesOf(env, seeds, Some(next), planned, ingested)) == next <==> NoneIngested(next, PathsOf(planned), ingested)
  {
    var again := Written(FilesOf(env, seeds, Some(next), planned, ingested));
    TreeOf(env, seeds, head, planned, ingested, next);
    TreeOf(env, seeds, Some(next), planned, ingested, again);
    SecondPaths(env, seeds, head, PathsOf(planned), ingested, next);
    if NoneIngested(next, PathsOf(planned), ingested) {
      SameTrees(planned, next, again);
    } else {
      var p :| p in next && p !in PathsOf(planned) && p in ingested;
      assert p !in again;
    }
  }

  lemma SameTrees(planned: seq<VaultFile>, next: Tree, again: Tree)
    requires again.Keys == next.Keys
    requires forall p :: p in next && p in PathsOf(planned) ==> LastBytes(planned, p) == Some(next[p])
    requires forall p :: p in again && p in PathsOf(planned) ==> LastBytes(planned, p) == Some(again[p])
    requires forall p :: p in again && p !in PathsOf(planned) ==> p in next && again[p] == next[p]
    ensures again == next
  {
    forall p | p in next ensures p in again && again[p] == next[p] {
      assert p in again;
    }
  }

  /** Exporting unchanged memory again gives the same tree, so the pass is a
      no-op, exactly when no path the first one carried over or seeded had
      already become a memory. */
  lemma SecondExport(cfg: BrainConfig, env: V.Env, seeds: Seeds, head: Option<Tree>, nodes: seq<NoteRow>, edges: seq<EdgeRow>)
    requires CodecOk(env) && (head.Some? ==> IsTree(head.value)) && NextTree(cfg, env, seeds, head, nodes, edges).Some?
    requires ManifestClear(PathsOf(V.Plan(cfg, env, PriorManifest(env, head), nodes, edges).value.files))
    ensures var next := NextTree(cfg, env, seeds, head, nodes, edges);
      var planned := PathsOf(V.Plan(cfg, env, PriorManifest(env, head), nodes, edges).value.files);
      NextTree(cfg, env, seeds, next, nodes, edges) == next <==> NoneIngested(next.value, planned, Ingested(cfg, nodes))
  {
    var next := NextTree(cfg, env, seeds, head, nodes, edges);
    var plan := V.Plan(cfg, env, PriorManifest(env, head), nodes, edges).value;
    PlansAgain(cfg, env, seeds, head, nodes, edges);
    NextOwns(cfg, env, seeds, head, nodes, edges);
    SecondWritten(env, seeds, head, plan.files, Ingested(cfg, nodes), next.value);
  }

  /** After the first run every pass over unchanged memory is a no-op. */
  lemma LaterExportIsNoop(cfg: BrainConfig, env: V.Env, seeds: Seeds, head: Tree, nodes: seq<NoteRow>, edges: seq<EdgeRow>)
    requires CodecOk(env) && IsTree(head) && NextTree(cfg, env, seeds, Some(head), nodes, edges).Some?
    requires ManifestClear(PathsOf(V.Plan(cfg, env, PriorManifest(env, Some(head)), nodes, edges).value.files))
    ensures var next := NextTree(cfg, env, seeds, Some(head), nodes, edges); NextTree(cfg, env, seeds, next, nodes, edges) == next
  {
    SecondExport(cfg, env, seeds, Some(head), nodes, edges);
    TreeIsExact(cfg, env, seeds, Some(head), nodes, edges);
  }

  // ---------------------------------------------------------------- the first run

  /** The first character of a path survives every suffix. */
  lemma {:induction false} SettleKeepsFirst(path: string, taken: set<string>, n: nat)
    requires path != "" && path[0] != '.' && P.Settle(path, taken, n).Some?
    ensures P.Settle(path, taken, n).value != "" && P.Settle(path, taken, n).value[0] == path[0]
    decreases |P.AtLeast(taken, |path|)|
  {
    if path in taken {
      P.BumpGrows(path, n + 1);
      P.FewerAhead(taken, path, P.Bump(path, n + 1));
      SettleKeepsFirst(P.Bump(path, n + 1), taken, n + 1);
    }
  }

  predicate NoteStart(path: string) { path != "" && path[0] in "wen" }

  lemma {:induction false} AssignKeepsFirst(wishes: seq<string>)
    requires P.Assign(wishes).Ok? && forall w :: w in wishes ==> NoteStart(w)
    ensures forall p :: p in P.Assign(wishes).value ==> NoteStart(p)
  {
    if wishes != [] {
      var init, wish := wishes[..|wishes| - 1], wishes[|wishes| - 1];
      assert wish in wishes;
      AssignKeepsFirst(init);
      SettleKeepsFirst(wish, P.Taken(P.Assign(init).value), 1);
    }
  }

  lemma MintedStart(cfg: BrainConfig, row: NoteRow)
    ensures NoteStart(P.Minted(cfg, row))
  {
    var folders := P.Folders(cfg, row);
    assert folders[0][0] in "wen";
  }

  /** What a plan without prior paths can write. */
  predicate FreshPath(path: string) {
    NoteStart(path) || path in ["README.md", "CONTRIBUTING.md", "index.md", V.MANIFEST_PATH]
  }

  /** None of it is a seed, or lies inside one. */
  lemma FreshMissesSeeds(path: string, seed: string)
    requires FreshPath(path)
    requires seed in [".obsidian/app.json", ".obsidian/graph.json", ".gitignore", "inbox/README.md"]
    ensures path != seed && !Under(seed, path)
  {
    var inside := seed + "/";
    assert seed[0] == 'i' || seed[0] == '.';
    assert inside[0] == seed[0] && inside[1] == seed[1] && inside[2] == seed[2];
    assert seed[0] == 'i' ==> seed[2] == 'b';
    assert seed[0] == '.' ==> seed[1] != 'p';
    assert "index.md"[2] == 'd' && V.MANIFEST_PATH[1] == 'p';
  }

  lemma PagesAreFresh(cfg: BrainConfig, env: V.Env, rows: seq<NoteRow>, paths: map<string, string>)
    ensures forall q :: q in PathsOf(V.Pages(cfg, env, rows, paths)) ==> FreshPath(q)
  {
    var pages := V.Pages(cfg, env, rows, paths);
    forall i | 0 <= i < |pages| ensures FreshPath(pages[i].path) {
      if i >= 3 {
        var page := env.realmIndexes(cfg, rows, paths)[i - 3];
        assert pages[i] == V.RealmFile(env, page);
        assert pages[i].path[0] == 'n';
      }
    }
  }

  lemma ManifestIsFresh(pages: seq<VaultFile>, paths: map<string, string>, ids: seq<string>)
    requires forall id :: id in ids ==> id in paths && NoteStart(paths[id])
    requires forall q :: q in PathsOf(pages) ==> FreshPath(q)
    ensures forall q :: q in OwnedPaths(V.ManifestOf(pages, paths, ids).entries) ==> FreshPath(q)
  {
    F.NoteEntriesView(paths, ids);
    var notes, rest := V.NoteEntries(paths, ids), V.PageEntries(pages);
    forall i | 0 <= i < |rest| ensures FreshPath(rest[i].path) { assert pages[i] in pages; }
    forall e | e in notes ensures FreshPath(e.path) {}
    assert V.ManifestOf(pages, paths, ids).entries == notes + rest + [ManifestEntry(V.MANIFEST_PATH, None)];
  }

  lemma NotesStartWell(cfg: BrainConfig, rows: map<string, NoteRow>)
    requires F.CanPlan(cfg, rows, map[])
    ensures forall id :: id in rows ==> NoteStart(F.PathsFor(cfg, rows, map[])[id])
  {
    var ids := F.OrderedOf(rows);
    var wishes := V.Wishes(cfg, rows, ids, map[]);
    forall i | 0 <= i < |wishes| ensures NoteStart(wishes[i]) { MintedStart(cfg, rows[ids[i]]); }
    AssignKeepsFirst(wishes);
    P.PathsAreSound(wishes);
    forall id | id in rows ensures NoteStart(F.PathsFor(cfg, rows, map[])[id]) {
      var i :| 0 <= i < |ids| && ids[i] == id;
      V.ZipAt(ids, P.Assign(wishes).value, i);
    }
  }

  lemma FirstPlanIsFresh(cfg: BrainConfig, env: V.Env, nodes: seq<NoteRow>, edges: seq<EdgeRow>)
    requires V.Plan(cfg, env, EmptyManifest, nodes, edges).Ok?
    ensures forall q :: q in PathsOf(V.Plan(cfg, env, EmptyManifest, nodes, edges).value.files) ==> FreshPath(q)
  {
    var rows, sorted := V.ById(cfg, nodes), S.Sort(edges, L.EdgeLeq);
    F.PlanIs(cfg, env, rows, map[], sorted);
    NotesStartWell(cfg, rows);
    var ids, paths := F.OrderedOf(rows), F.PathsFor(cfg, rows, map[]);
    PagesAreFresh(cfg, env, V.RowsInOrder(rows, ids), paths);
    ManifestIsFresh(V.Pages(cfg, env, V.RowsInOrder(rows, ids), paths), paths, ids);
    OwnedIsPlanned(cfg, env, rows, paths, sorted, ids);
  }

  /** The first run writes every seed, untouched by the plan. */
  lemma SeedsAreWritten(planned: set<string>, seeds: Seeds)
    requires forall q :: q in planned ==> FreshPath(q)
    ensures forall p :: p in PathsOf(SeedFiles(seeds)) ==> p !in planned && p in Tops(planned + PathsOf(SeedFiles(seeds)))
  {
    forall p | p in PathsOf(SeedFiles(seeds))
      ensures p !in planned && !Covered(planned + PathsOf(SeedFiles(seeds)), p)
    {
      forall q | q in planned ensures q != p && !Under(p, q) { FreshMissesSeeds(q, p); }
      forall q | q in PathsOf(SeedFiles(seeds)) ensures !Under(p, q) { SeedsApart(p, q); }
    }
  }

  lemma SeedsApart(p: string, q: string)
    requires p in [".obsidian/app.json", ".obsidian/graph.json", ".gitignore", "inbox/README.md"]
    requires q in [".obsidian/app.json", ".obsidian/graph.json", ".gitignore", "inbox/README.md"]
    ensures !Under(p, q)
  {
    var inside := p + "/";
    assert inside[0] == p[0] && inside[1] == p[1] && inside[10] == (if |p| == 10 then '/' else p[10]);
  }

  lemma SeedsLast(planned: seq<VaultFile>, seeds: Seeds, p: string)
    requires p !in PathsOf(planned)
    ensures LastBytes(planned + NotGenerated(SeedFiles(seeds), PathsOf(planned)), p) == LastBytes(SeedFiles(seeds), p)
  {
    var all := SeedFiles(seeds);
    LastBytesAppend(planned, NotGenerated(all, PathsOf(planned)), p);
    LastBytesIs(planned, p);
    KeepsLast(all, PathsOf(planned), p);
  }

  lemma {:induction false} KeepsLast(files: seq<VaultFile>, generated: set<string>, p: string)
    requires p !in generated
    ensures LastBytes(NotGenerated(files, generated), p) == LastBytes(files, p)
  {
    if files != [] {
      KeepsLast(files[1..], generated, p);
      assert files == [files[0]] + files[1..];
      LastBytesAppend([files[0]], files[1..], p);
      var front := if files[0].path in generated then [] else [files[0]];
      LastBytesAppend(front, NotGenerated(files[1..], generated), p);
      assert [files[0]][..0] == [];
    }
  }

  lemma FourLast(a: VaultFile, b: VaultFile, c: VaultFile, d: VaultFile)
    requires a.path != b.path && a.path != c.path && a.path != d.path && b.path != c.path && b.path != d.path && c.path != d.path
    ensures LastBytes([a, b, c, d], a.path) == Some(a.bytes) && LastBytes([a, b, c, d], b.path) == Some(b.bytes)
    ensures LastBytes([a, b, c, d], c.path) == Some(c.bytes) && LastBytes([a, b, c, d], d.path) == Some(d.bytes)
  {
    forall p ensures LastBytes([a, b, c, d], p) ==
      if d.path == p then Some(d.bytes) else if c.path == p then Some(c.bytes)
      else if b.path == p then Some(b.bytes) else if a.path == p then Some(a.bytes) else None
    {
      LastOf([], a, p);
      LastOf([a], b, p);
      LastOf([a, b], c, p);
      LastOf([a, b, c], d, p);
      assert [] + [a] == [a] && [a] + [b] == [a, b] && [a, b] + [c] == [a, b, c] && [a, b, c] + [d] == [a, b, c, d];
    }
  }

  lemma SeedBytes(seeds: Seeds)
    ensures LastBytes(SeedFiles(seeds), ".obsidian/app.json") == Some(seeds.appJson)
    ensures LastBytes(SeedFiles(seeds), ".obsidian/graph.json") == Some(seeds.graphJson)
    ensures LastBytes(SeedFiles(seeds), ".gitignore") == Some(seeds.gitignore)
    ensures LastBytes(SeedFiles(seeds), "inbox/README.md") == Some(seeds.inboxReadme)
  {
    assert |".obsidian/app.json"| == 18 && |".obsidian/graph.json"| == 20 && |".gitignore"| == 10 && |"inbox/README.md"| == 15;
    FourLast(VaultFile(".obsidian/app.json", seeds.appJson), VaultFile(".obsidian/graph.json", seeds.graphJson),
             VaultFile(".gitignore", seeds.gitignore), VaultFile("inbox/README.md", seeds.inboxReadme));
  }

  /** A first run seeds the four once-only files, with their contents. */
  lemma FirstTreeHasSeeds(cfg: BrainConfig, env: V.Env, seeds: Seeds, nodes: seq<NoteRow>, edges: seq<EdgeRow>)
    requires NextTree(cfg, env, seeds, None, nodes, edges).Some?
    ensures var next := NextTree(cfg, env, seeds, None, nodes, edges).value;
      && ".obsidian/app.json" in next && next[".obsidian/app.json"] == seeds.appJson
      && ".obsidian/graph.json" in next && next[".obsidian/graph.json"] == seeds.graphJson
      && ".gitignore" in next && next[".gitignore"] == seeds.gitignore
      && "inbox/README.md" in next && next["inbox/README.md"] == seeds.inboxReadme
  {
    var next := NextTree(cfg, env, seeds, None, nodes, edges).value;
    var planned := V.Plan(cfg, env, EmptyManifest, nodes, edges).value.files;
    FirstPlanIsFresh(cfg, env, nodes, edges);
    SeedBytes(seeds);
    SeedInTree(env, seeds, planned, Ingested(cfg, nodes), next, ".obsidian/app.json");
    SeedInTree(env, seeds, planned, Ingested(cfg, nodes), next, ".obsidian/graph.json");
    SeedInTree(env, seeds, planned, Ingested(cfg, nodes), next, ".gitignore");
    SeedInTree(env, seeds, planned, Ingested(cfg, nodes), next, "inbox/README.md");
  }

  lemma SeedInTree(env: V.Env, seeds: Seeds, planned: seq<VaultFile>, ingested: set<string>, next: Tree, p: string)
    requires next == Written(FilesOf(env, seeds, None, planned, ingested))
    requires forall q :: q in PathsOf(planned) ==> FreshPath(q)
    requires LastBytes(SeedFiles(seeds), p).Some?
    ensures p in next && Some(next[p]) == LastBytes(SeedFiles(seeds), p)
  {
    LastBytesIs(SeedFiles(seeds), p);
    SeedsAreWritten(PathsOf(planned), seeds);
    TreeOf(env, seeds, None, planned, ingested, next);
    assert PathsOf(planned) + Kept(env, seeds, None, PathsOf(planned), ingested) == PathsOf(planned) + PathsOf(SeedFiles(seeds));
    WrittenIs(FilesOf(env, seeds, None, planned, ingested), p);
    SeedsLast(planned, seeds, p);
  }

  /** The export after a first run over the same memory is a no-op exactly when
      no seed's path has become a memory. */
  lemma FirstExportIsStableIff(cfg: BrainConfig, env: V.Env, seeds: Seeds, nodes: seq<NoteRow>, edges: seq<EdgeRow>)
    requires CodecOk(env) && NextTree(cfg, env, seeds, None, nodes, edges).Some?
    ensures var next := NextTree(cfg, env, seeds, None, nodes, edges);
      NextTree(cfg, env, seeds, next, nodes, edges) == next <==> PathsOf(SeedFiles(seeds)) !! Ingested(cfg, nodes)
  {
    var next := NextTree(cfg, env, seeds, None, nodes, edges);
    var planned := PathsOf(V.Plan(cfg, env, EmptyManifest, nodes, edges).value.files);
    FirstPlanIsFresh(cfg, env, nodes, edges);
    FreshIsClear(planned);
    SeedsAreWritten(planned, seeds);
    TreeIsExact(cfg, env, seeds, None, nodes, edges);
    SecondExport(cfg, env, seeds, None, nodes, edges);
    assert planned + Kept(env, seeds, None, planned, Ingested(cfg, nodes)) == planned + PathsOf(SeedFiles(seeds));
  }

  lemma FreshIsClear(planned: set<string>)
    requires forall q :: q in planned ==> FreshPath(q)
    ensures ManifestClear(planned)
  {
    forall q | q in planned ensures !Under(V.MANIFEST_PATH, q) {
      assert (V.MANIFEST_PATH + "/")[0] == '.';
    }
  }

  // ---------------------------------------------------------------- runs of exports and pushes

  datatype Event = Exported(nodes: seq<NoteRow>, edges: seq<EdgeRow>) | Pushed(tree: Tree)

  /** A failed export leaves the branch alone. */
  ghost function After(cfg: BrainConfig, env: V.Env, seeds: Seeds, head: Tree, e: Event): Tree {
    match e
    case Pushed(t) => t
    case Exported(nodes, edges) =>
      var next := NextTree(cfg, env, seeds, Some(head), nodes, edges);
      if next.Some? then next.value else head
  }

  /** The event does not touch user file `p`: an export neither plans it nor
      anything inside it, nor has it become a memory; a push has it, and
      leaves the manifest as it was. */
  ghost predicate Spares(cfg: BrainConfig, env: V.Env, head: Tree, e: Event, p: string) {
    match e
    case Exported(nodes, edges) =>
      var plan := V.Plan(cfg, env, PriorManifest(env, Some(head)), nodes, edges);
      plan.Ok? ==> p !in PathsOf(plan.value.files) && !Covered(PathsOf(plan.value.files), p) && p !in Ingested(cfg, nodes)
    case Pushed(t) => IsTree(t) && p in t && PriorManifest(env, Some(t)) == PriorManifest(env, Some(head))
  }

  /** A user file of HEAD: there, and not the exporter's. */
  ghost predicate Holds(env: V.Env, head: Tree, p: string) {
    IsTree(head) && p in head && p !in OwnedPaths(PriorManifest(env, Some(head)).entries)
  }

  lemma EventKeepsFile(cfg: BrainConfig, env: V.Env, seeds: Seeds, head: Tree, e: Event, p: string)
    requires CodecOk(env) && Holds(env, head, p) && Spares(cfg, env, head, e, p)
    ensures Holds(env, After(cfg, env, seeds, head, e), p)
    ensures e.Exported? ==> After(cfg, env, seeds, head, e)[p] == head[p]
  {
    if e.Exported? && NextTree(cfg, env, seeds, Some(head), e.nodes, e.edges).Some? {
      UserFileStaysIff(cfg, env, seeds, head, e.nodes, e.edges, p);
      NextOwns(cfg, env, seeds, Some(head), e.nodes, e.edges);
      TreeIsExact(cfg, env, seeds, Some(head), e.nodes, e.edges);
    }
  }

  ghost function AfterAll(cfg: BrainConfig, env: V.Env, seeds: Seeds, head: Tree, events: seq<Event>): Tree
    decreases |events|
  {
    if events == [] then head else AfterAll(cfg, env, seeds, After(cfg, env, seeds, head, events[0]), events[1..])
  }

  ghost predicate AllSpare(cfg: BrainConfig, env: V.Env, seeds: Seeds, head: Tree, events: seq<Event>, p: string)
    decreases |events|
  {
    events == [] || (Spares(cfg, env, head, events[0], p) && AllSpare(cfg, env, seeds, After(cfg, env, seeds, head, events[0]), events[1..], p))
  }

  /** What users last made of the file. */
  function LastPushed(events: seq<Event>, p: string, bytes: Bytes): Bytes {
    if events == [] then bytes
    else if events[|events| - 1].Pushed? && p in events[|events| - 1].tree then events[|events| - 1].tree[p]
    else LastPushed(events[..|events| - 1], p, bytes)
  }

  /** User files survive whole runs: over any run of exports and of pushes that
      leave the manifest alone, a file never planned, never covered and never
      ingested is there at the end, as users last pushed it. */
  lemma {:induction false} UserFilesSurvive(cfg: BrainConfig, env: V.Env, seeds: Seeds, head: Tree, events: seq<Event>, p: string)
    requires CodecOk(env) && Holds(env, head, p) && AllSpare(cfg, env, seeds, head, events, p)
    ensures var end := AfterAll(cfg, env, seeds, head, events);
      Holds(env, end, p) && end[p] == LastPushed(events, p, head[p])
    decreases |events|
  {
    if events != [] {
      var next := After(cfg, env, seeds, head, events[0]);
      EventKeepsFile(cfg, env, seeds, head, events[0], p);
      UserFilesSurvive(cfg, env, seeds, next, events[1..], p);
      PushedFirst(events, p, head[p], next[p]);
    }
  }

  lemma {:induction false} PushedFirst(events: seq<Event>, p: string, before: Bytes, after: Bytes)
    requires events != []
    requires after == if events[0].Pushed? && p in events[0].tree then events[0].tree[p] else before
    ensures LastPushed(events, p, before) == LastPushed(events[1..], p, after)
    decreases |events|
  {
    if |events| > 1 {
      var init, rest := events[..|events| - 1], events[1..];
      assert rest[|rest| - 1] == events[|events| - 1] && rest[..|rest| - 1] == init[1..];
      PushedFirst(init, p, before, after);
    } else {
      assert events[..0] == [] && events[1..] == [];
    }
  }
}
