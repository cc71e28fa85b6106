/**
  What exports keep: the exact tree of one pass, when a second pass changes
  nothing, and that user files survive whole runs.
 */
module ExportFacts {
  import opened Options
  import opened BrainTypes
  import opened GitTree
  import opened Export
  import L = VaultLinks
  import V = Vault
  import F = VaultFacts
  import S = Sorting
  import T = Text

  // ---------------------------------------------------------------- the files of a plan

  /** The manifest names exactly the planned files, and is what a reader finds. */
  lemma OwnedIsPlanned(cfg: BrainConfig, env: V.Env, rows: map<string, NoteRow>, paths: map<string, string>,
                       sorted: seq<EdgeRow>, ids: seq<string>)
    requires paths.Keys == rows.Keys && forall id :: id in ids ==> id in rows
    ensures var plan := V.PlanWith(cfg, env, rows, paths, sorted, ids);
      && OwnedPaths(plan.manifest.entries) == PathsOf(plan.files) && V.MANIFEST_PATH in PathsOf(plan.files)
      && LastBytes(plan.files, V.MANIFEST_PATH) == Some(V.ManifestBytes(env, plan.manifest))
  {
    var pages := V.Pages(cfg, env, V.RowsInOrder(rows, ids), paths);
    var manifest := V.ManifestOf(pages, paths, ids);
    var notes := V.NoteFiles(cfg, env, rows, paths, sorted, ids);
    var last := VaultFile(V.MANIFEST_PATH, V.ManifestBytes(env, manifest));
    NotePathsMatch(cfg, env, rows, paths, sorted, ids);
    FilesMatch(notes, pages, V.NoteEntries(paths, ids), last);
  }

  lemma {:induction false} NotePathsMatch(cfg: BrainConfig, env: V.Env, rows: map<string, NoteRow>, paths: map<string, string>,
                                          sorted: seq<EdgeRow>, ids: seq<string>)
    requires paths.Keys == rows.Keys && forall id :: id in ids ==> id in rows
    ensures PathsOf(V.NoteFiles(cfg, env, rows, paths, sorted, ids)) == OwnedPaths(V.NoteEntries(paths, ids))
  {
    if ids != [] {
      var k := |ids| - 1;
      NotePathsMatch(cfg, env, rows, paths, sorted, ids[..k]);
      AddFile(V.NoteFiles(cfg, env, rows, paths, sorted, ids[..k]), V.NoteFile(cfg, env, rows, paths, sorted, ids[k]));
      AddEntry(V.NoteEntries(paths, ids[..k]), ManifestEntry(paths[ids[k]], Some(ids[k])));
    }
  }

  lemma AddFile(files: seq<VaultFile>, f: VaultFile)
    ensures PathsOf(files + [f]) == PathsOf(files) + {f.path}
  {}

  lemma AddEntry(entries: seq<ManifestEntry>, e: ManifestEntry)
    ensures OwnedPaths(entries + [e]) == OwnedPaths(entries) + {e.path}
  {}

  lemma FilesMatch(notes: seq<VaultFile>, pages: seq<VaultFile>, entries: seq<ManifestEntry>, last: VaultFile)
    requires PathsOf(notes) == OwnedPaths(entries)
    ensures var files, all := S.Sort(notes + pages + [last], FileLeq), entries + V.PageEntries(pages) + [ManifestEntry(last.path, None)];
      PathsOf(files) == OwnedPaths(all) && last.path in PathsOf(files) && LastBytes(files, last.path) == Some(last.bytes)
  {
    var files := notes + pages + [last];
    FileOrder();
    S.SortHas(files, FileLeq);
    assert PathsOf(S.Sort(files, FileLeq)) == PathsOf(files);
    SortKeepsLast(files, last.path);
    assert PathsOf(pages) == OwnedPaths(V.PageEntries(pages)) by {
      forall i | 0 <= i < |pages| ensures pages[i].path in OwnedPaths(V.PageEntries(pages)) {
        assert V.PageEntries(pages)[i] in V.PageEntries(pages);
      }
    }
    AddFile(notes + pages, last);
    AddEntry(entries + V.PageEntries(pages), ManifestEntry(last.path, None));
    assert PathsOf(notes + pages) == PathsOf(notes) + PathsOf(pages);
    assert OwnedPaths(entries + V.PageEntries(pages)) == OwnedPaths(entries) + OwnedPaths(V.PageEntries(pages));
  }

  /** The JSON codec gives back what it printed. */
  ghost predicate CodecOk(env: V.Env) { forall m :: env.parse(env.json(m)) == Some(m) }

  lemma PlanFacts(cfg: BrainConfig, env: V.Env, prior: Manifest, nodes: seq<NoteRow>, edges: seq<EdgeRow>)
    requires V.Plan(cfg, env, prior, nodes, edges).Ok?
    ensures var plan := V.Plan(cfg, env, prior, nodes, edges).value;
      && OwnedPaths(plan.manifest.entries) == PathsOf(plan.files) && V.MANIFEST_PATH in PathsOf(plan.files)
      && LastBytes(plan.files, V.MANIFEST_PATH) == Some(V.ManifestBytes(env, plan.manifest))
  {
    var rows, before, sorted := V.ById(cfg, nodes), PathsById(prior.entries), S.Sort(edges, L.EdgeLeq);
    F.PlanIs(cfg, env, rows, before, sorted);
    OwnedIsPlanned(cfg, env, rows, F.PathsFor(cfg, rows, before), sorted, F.OrderedOf(rows));
  }

  // ---------------------------------------------------------------- the exact tree

  /** The paths nothing else of the set lies inside of. */
  function Tops(paths: set<string>): set<string> { set p | p in paths && !Covered(paths, p) }

  lemma WrittenKeys(files: seq<VaultFile>)
    ensures Written(files).Keys == Tops(PathsOf(files))
  {
    forall p ensures p in Written(files) <==> p in Tops(PathsOf(files)) { WrittenIs(files, p); }
  }

  /** Everything one pass writes: planned, carried over, or seeded. */
  function Kept(env: V.Env, seeds: Seeds, head: Option<Tree>, planned: set<string>, ingested: set<string>): set<string> {
    if head.Some? then Preserved(env, head.value, planned, ingested) else PathsOf(SeedFiles(seeds)) - planned
  }

  lemma {:induction false} NotGeneratedIs(files: seq<VaultFile>, generated: set<string>)
    ensures PathsOf(NotGenerated(files, generated)) == PathsOf(files) - generated
  {
    if files != [] {
      NotGeneratedIs(files[1..], generated);
      assert files == [files[0]] + files[1..];
      assert PathsOf(files) == {files[0].path} + PathsOf(files[1..]);
      var rest := NotGenerated(files[1..], generated);
      assert PathsOf([files[0]] + rest) == {files[0].path} + PathsOf(rest);
      assert [] + rest == rest;
    }
  }

  lemma {:induction false} FilesAtIs(t: Tree, paths: seq<string>, p: string)
    requires forall q :: q in paths ==> q in t
    ensures LastBytes(FilesAt(t, paths), p) == if p in paths then Some(t[p]) else None
  {
    if paths != [] {
      var k := |paths| - 1;
      assert paths == paths[..k] + [paths[k]];
      FilesAtAppend(t, paths[..k], paths[k]);
      FilesAtIs(t, paths[..k], p);
      LastBytesAppend(FilesAt(t, paths[..k]), [VaultFile(paths[k], t[paths[k]])], p);
      assert [VaultFile(paths[k], t[paths[k]])][..0] == [];
    }
  }

  lemma PathsJoin(a: seq<VaultFile>, b: seq<VaultFile>)
    ensures PathsOf(a + b) == PathsOf(a) + PathsOf(b)
  {}

  lemma FilesOfAre(env: V.Env, seeds: Seeds, head: Option<Tree>, planned: seq<VaultFile>, ingested: set<string>)
    ensures PathsOf(FilesOf(env, seeds, head, planned, ingested))
      == PathsOf(planned) + Kept(env, seeds, head, PathsOf(planned), ingested)
  {
    match head
    case None =>
      NotGeneratedIs(SeedFiles(seeds), PathsOf(planned));
      PathsJoin(planned, NotGenerated(SeedFiles(seeds), PathsOf(planned)));
    case Some(t) =>
      var kept := Preserved(env, t, PathsOf(planned), ingested);
      T.OrderedIs(kept);
      PathsJoin(planned, FilesAt(t, T.Ordered(kept)));
      FilesAtPaths(t, T.Ordered(kept), kept);
  }

  lemma FilesAtPaths(t: Tree, paths: seq<string>, kept: set<string>)
    requires (forall q :: q in paths ==> q in t) && forall p :: p in paths <==> p in kept
    ensures PathsOf(FilesAt(t, paths)) == kept
  {
    forall p ensures p in PathsOf(FilesAt(t, paths)) <==> p in kept {
      FilesAtIs(t, paths, p);
      LastBytesIs(FilesAt(t, paths), p);
    }
  }

  lemma KeptBytes(env: V.Env, seeds: Seeds, t: Tree, planned: seq<VaultFile>, ingested: set<string>, p: string)
    requires p in PathsOf(planned) || p in Preserved(env, t, PathsOf(planned), ingested)
    ensures LastBytes(FilesOf(env, seeds, Some(t), planned, ingested), p)
      == if p in PathsOf(planned) then LastBytes(planned, p) else Some(t[p])
  {
    var kept := Preserved(env, t, PathsOf(planned), ingested);
    T.OrderedIs(kept);
    LastBytesAppend(planned, FilesAt(t, T.Ordered(kept)), p);
    FilesAtIs(t, T.Ordered(kept), p);
  }

  lemma PlannedBytes(env: V.Env, seeds: Seeds, head: Option<Tree>, planned: seq<VaultFile>, ingested: set<string>, p: string)
    requires p in PathsOf(planned)
    ensures LastBytes(FilesOf(env, seeds, head, planned, ingested), p) == LastBytes(planned, p)
  {
    match head
    case Some(t) => KeptBytes(env, seeds, t, planned, ingested, p);
    case None =>
      var rest := NotGenerated(SeedFiles(seeds), PathsOf(planned));
      NotGeneratedIs(SeedFiles(seeds), PathsOf(planned));
      LastBytesAppend(planned, rest, p);
      LastBytesIs(rest, p);
  }

  /** The tree after a pass: the written paths that no written path lies
      inside of, with the planned bytes, or the bytes HEAD had. */
  lemma TreeIsExact(cfg: BrainConfig, env: V.Env, seeds: Seeds, head: Option<Tree>, nodes: seq<NoteRow>, edges: seq<EdgeRow>)
    requires NextTree(cfg, env, seeds, head, nodes, edges).Some?
    ensures var planned, next := V.Plan(cfg, env, PriorManifest(env, head), nodes, edges).value.files, NextTree(cfg, env, seeds, head, nodes, edges).value;
      && IsTree(next)
      && next.Keys == Tops(PathsOf(planned) + Kept(env, seeds, head, PathsOf(planned), Ingested(cfg, nodes)))
      && (forall p :: p in next && p in PathsOf(planned) ==> LastBytes(planned, p) == Some(next[p]))
      && (head.Some? ==> forall p :: p in next && p !in PathsOf(planned) ==> p in head.value && next[p] == head.value[p])
  {
    var planned, next := V.Plan(cfg, env, PriorManifest(env, head), nodes, edges).value.files, NextTree(cfg, env, seeds, head, nodes, edges).value;
    TreeOf(env, seeds, head, planned, Ingested(cfg, nodes), next);
  }

  lemma TreeOf(env: V.Env, seeds: Seeds, head: Option<Tree>, planned: seq<VaultFile>, ingested: set<string>, next: Tree)
    requires next == Written(FilesOf(env, seeds, head, planned, ingested))
    ensures IsTree(next) && next.Keys == Tops(PathsOf(planned) + Kept(env, seeds, head, PathsOf(planned), ingested))
    ensures forall p :: p in next && p in PathsOf(planned) ==> LastBytes(planned, p) == Some(next[p])
    ensures head.Some? ==> forall p :: p in next && p !in PathsOf(planned) ==> p in head.value && next[p] == head.value[p]
  {
    var files := FilesOf(env, seeds, head, planned, ingested);
    ImportIsTree(files);
    WrittenKeys(files);
    FilesOfAre(env, seeds, head, planned, ingested);
    forall p | p in next && p in PathsOf(planned) ensures LastBytes(planned, p) == Some(next[p]) {
      WrittenIs(files, p);
      PlannedBytes(env, seeds, head, planned, ingested, p);
    }
    if head.Some? {
      forall p | p in next && p !in PathsOf(planned) ensures p in head.value && next[p] == head.value[p] {
        WrittenIs(files, p);
        KeptBytes(env, seeds, head.value, planned, ingested, p);
      }
    }
  }

  /** A file in HEAD that is not owned, planned nor ingested stays, with its
      bytes, exactly when no planned file lies inside its path. */
  lemma UserFileStaysIff(cfg: BrainConfig, env: V.Env, seeds: Seeds, head: Tree, nodes: seq<NoteRow>, edges: seq<EdgeRow>, p: string)
    requires IsTree(head) && NextTree(cfg, env, seeds, Some(head), nodes, edges).Some?
    requires p in head && p !in OwnedPaths(PriorManifest(env, Some(head)).entries) && p !in Ingested(cfg, nodes)
    requires p !in PathsOf(V.Plan(cfg, env, PriorManifest(env, Some(head)), nodes, edges).value.files)
    ensures var next := NextTree(cfg, env, seeds, Some(head), nodes, edges).value;
      && (p in next <==> !Covered(PathsOf(V.Plan(cfg, env, PriorManifest(env, Some(head)), nodes, edges).value.files), p))
      && (p in next ==> next[p] == head[p])
  {
    TreeIsExact(cfg, env, seeds, Some(head), nodes, edges);
    var planned := PathsOf(V.Plan(cfg, env, PriorManifest(env, Some(head)), nodes, edges).value.files);
    var kept := Preserved(env, head, planned, Ingested(cfg, nodes));
    assert Covered(planned + kept, p) <==> Covered(planned, p);
  }

  // ---------------------------------------------------------------- re-filed files

  /** Some row was born from the pushed file at `path`: its key names the brain
      and the path. */
  ghost predicate BornFrom(cfg: BrainConfig, nodes: seq<NoteRow>, path: string) {
    exists n :: n in nodes && n.topicKey == Some("brain:" + cfg.name + ":" + path)
  }

  lemma IngestedIff(cfg: BrainConfig, nodes: seq<NoteRow>, path: string)
    ensures path in Ingested(cfg, nodes) <==> BornFrom(cfg, nodes, path)
  {
    var prefix := "brain:" + cfg.name + ":";
    forall n | n in nodes && n.topicKey.Some? && prefix <= n.topicKey.value
      ensures n.topicKey.value == prefix + n.topicKey.value[|prefix|..]
    {}
    if BornFrom(cfg, nodes, path) {
      var n :| n in nodes && n.topicKey == Some("brain:" + cfg.name + ":" + path);
      assert (prefix + path)[|prefix|..] == path && prefix <= prefix + path;
    }
  }

  /** A file in HEAD that is neither owned nor planned is in the next tree, as
      it was, exactly when no row was born from it and no planned file lies
      inside its path: what has become a memory is re-filed, not kept twice. */
  lemma PushedFileStaysIff(cfg: BrainConfig, env: V.Env, seeds: Seeds, head: Tree, nodes: seq<NoteRow>, edges: seq<EdgeRow>, path: string)
    requires IsTree(head) && NextTree(cfg, env, seeds, Some(head), nodes, edges).Some?
    requires path in head && path !in OwnedPaths(PriorManifest(env, Some(head)).entries)
    requires path !in PathsOf(V.Plan(cfg, env, PriorManifest(env, Some(head)), nodes, edges).value.files)
    ensures var next := NextTree(cfg, env, seeds, Some(head), nodes, edges).value;
      && (path in next <==> !BornFrom(cfg, nodes, path)
                            && !Covered(PathsOf(V.Plan(cfg, env, PriorManifest(env, Some(head)), nodes, edges).value.files), path))
      && (path in next ==> next[path] == head[path])
  {
    IngestedIff(cfg, nodes, path);
    TreeIsExact(cfg, env, seeds, Some(head), nodes, edges);
    if !BornFrom(cfg, nodes, path) { UserFileStaysIff(cfg, env, seeds, head, nodes, edges, path); }
  }
}
