/**
  Exports settle: over any run that begins with a first export, exporting
  unchanged memory a second time is a no-op.  What has to be shown is that no
  note ever comes to lie inside the manifest's own path, which would displace
  the manifest from the tree.
 */
module ExportSettles {
  import opened Options
  import opened BrainTypes
  import opened GitTree
  import opened Export
  import opened ExportFacts
  import opened ExportRuns
  import L = VaultLinks
  import V = Vault
  import F = VaultFacts
  import P = VaultPaths
  import S = Sorting

  // ---------------------------------------------------------------- suffixes never lead inside

  /** A replacement makes no beginning that was not there, unless it holds the
      first character of what is put in. */
  lemma {:induction false} ReplaceKeepsPrefix(s: string, ext: string, x: string)
    requires ext != "" && ext[0] !in x && x <= P.ReplaceMd(s, ext)
    ensures x <= s
    decreases |s|
  {
    if x != "" && |s| >= 3 {
      assert x[0] in x;
      if s[..3] != ".md" {
        assert P.ReplaceMd(s, ext)[1..] == P.ReplaceMd(s[1..], ext);
        assert x[1..] <= P.ReplaceMd(s[1..], ext);
        ReplaceKeepsPrefix(s[1..], ext, x[1..]);
        assert s == [s[0]] + s[1..] && x == [x[0]] + x[1..];
      }
    }
  }

  predicate Inside(path: string) { Under(V.MANIFEST_PATH, path) }

  lemma BumpStaysOutside(path: string, n: nat)
    requires !Inside(path)
    ensures !Inside(P.Bump(path, n))
  {
    if Inside(P.Bump(path, n)) {
      assert P.Suffix(n)[0] == '-' && '-' !in V.MANIFEST_PATH + "/";
      ReplaceKeepsPrefix(path, P.Suffix(n), V.MANIFEST_PATH + "/");
    }
  }

  lemma {:induction false} SettleStaysOutside(path: string, taken: set<string>, n: nat)
    requires !Inside(path) && P.Settle(path, taken, n).Some?
    ensures !Inside(P.Settle(path, taken, n).value)
    decreases |P.AtLeast(taken, |path|)|
  {
    if path in taken {
      P.BumpGrows(path, n + 1);
      P.FewerAhead(taken, path, P.Bump(path, n + 1));
      BumpStaysOutside(path, n + 1);
      SettleStaysOutside(P.Bump(path, n + 1), taken, n + 1);
    }
  }

  lemma {:induction false} AssignStaysOutside(wishes: seq<string>)
    requires P.Assign(wishes).Ok? && forall w :: w in wishes ==> !Inside(w)
    ensures forall p :: p in P.Assign(wishes).value ==> !Inside(p)
  {
    if wishes != [] {
      var init, wish := wishes[..|wishes| - 1], wishes[|wishes| - 1];
      assert wish in wishes;
      AssignStaysOutside(init);
      SettleStaysOutside(wish, P.Taken(P.Assign(init).value), 1);
    }
  }

  // ---------------------------------------------------------------- plans from a clear manifest

  /** No recorded note path lies inside the manifest's own. */
  ghost predicate ClearPaths(prior: map<string, string>) { forall id :: id in prior ==> !Inside(prior[id]) }

  ghost predicate ClearManifest(m: Manifest) { ClearPaths(PathsById(m.entries)) }

  lemma FreshIsOutside(path: string)
    requires FreshPath(path)
    ensures !Inside(path)
  {
    assert (V.MANIFEST_PATH + "/")[0] == '.';
  }

  lemma WishIsOutside(cfg: BrainConfig, row: NoteRow, prior: map<string, string>)
    requires ClearPaths(prior)
    ensures !Inside(P.NotePath(cfg, row, prior))
  {
    MintedStart(cfg, row);
    FreshIsOutside(P.Minted(cfg, row));
  }

  lemma NotesStayOutside(cfg: BrainConfig, rows: map<string, NoteRow>, prior: map<string, string>)
    requires F.CanPlan(cfg, rows, prior) && ClearPaths(prior)
    ensures ClearPaths(F.PathsFor(cfg, rows, prior))
  {
    var ids := F.OrderedOf(rows);
    var wishes := V.Wishes(cfg, rows, ids, prior);
    forall i | 0 <= i < |wishes| ensures !Inside(wishes[i]) { WishIsOutside(cfg, rows[ids[i]], prior); }
    AssignStaysOutside(wishes);
    P.PathsAreSound(wishes);
    forall id | id in rows ensures !Inside(F.PathsFor(cfg, rows, prior)[id]) {
      var i :| 0 <= i < |ids| && ids[i] == id;
      V.ZipAt(ids, P.Assign(wishes).value, i);
    }
  }

  lemma EntriesOutside(pages: seq<VaultFile>, paths: map<string, string>, ids: seq<string>)
    requires (forall id :: id in ids ==> id in paths) && ClearPaths(paths)
    requires forall q :: q in PathsOf(pages) ==> FreshPath(q)
    ensures forall q :: q in OwnedPaths(V.ManifestOf(pages, paths, ids).entries) ==> !Inside(q)
  {
    F.NoteEntriesView(paths, ids);
    var notes, rest := V.NoteEntries(paths, ids), V.PageEntries(pages);
    forall i | 0 <= i < |rest| ensures !Inside(rest[i].path) {
      assert pages[i] in pages;
      FreshIsOutside(pages[i].path);
    }
    FreshIsOutside(V.MANIFEST_PATH);
    assert V.ManifestOf(pages, paths, ids).entries == notes + rest + [ManifestEntry(V.MANIFEST_PATH, None)];
  }

  /** A plan made from a clear manifest keeps the manifest's path clear, and
      records a clear manifest again. */
  lemma PlanStaysClear(cfg: BrainConfig, env: V.Env, prior: Manifest, nodes: seq<NoteRow>, edges: seq<EdgeRow>)
    requires V.Plan(cfg, env, prior, nodes, edges).Ok? && ClearManifest(prior)
    ensures var plan := V.Plan(cfg, env, prior, nodes, edges).value;
      ManifestClear(PathsOf(plan.files)) && ClearManifest(plan.manifest) && OneToOne(plan.manifest.entries)
  {
    var rows, before, sorted := V.ById(cfg, nodes), PathsById(prior.entries), S.Sort(edges, L.EdgeLeq);
    F.PlanIs(cfg, env, rows, before, sorted);
    NotesStayOutside(cfg, rows, before);
    var ids, paths := F.OrderedOf(rows), F.PathsFor(cfg, rows, before);
    PagesAreFresh(cfg, env, V.RowsInOrder(rows, ids), paths);
    EntriesOutside(V.Pages(cfg, env, V.RowsInOrder(rows, ids), paths), paths, ids);
    OwnedIsPlanned(cfg, env, rows, paths, sorted, ids);
    F.ManifestOfPlan(cfg, env, rows, before, sorted);
  }

  // ---------------------------------------------------------------- runs

  /** An export of a clear HEAD leaves a clear HEAD. */
  lemma ExportStaysClear(cfg: BrainConfig, env: V.Env, seeds: Seeds, head: Option<Tree>, nodes: seq<NoteRow>, edges: seq<EdgeRow>)
    requires CodecOk(env) && ClearManifest(PriorManifest(env, head)) && NextTree(cfg, env, seeds, head, nodes, edges).Some?
    ensures ClearManifest(PriorManifest(env, NextTree(cfg, env, seeds, head, nodes, edges)))
    ensures IsTree(NextTree(cfg, env, seeds, head, nodes, edges).value)
  {
    var plan := V.Plan(cfg, env, PriorManifest(env, head), nodes, edges).value;
    PlanStaysClear(cfg, env, PriorManifest(env, head), nodes, edges);
    TreeIsExact(cfg, env, seeds, head, nodes, edges);
    NextPrior(cfg, env, seeds, head, nodes, edges);
    SameEntries(plan.manifest);
    ViewsIgnoreOrder(plan.manifest.entries, V.InPathOrder(plan.manifest).entries);
  }

  /** Pushes are trees that leave the manifest as it was. */
  ghost predicate LeavesManifest(env: V.Env, head: Tree, e: Event) {
    e.Pushed? ==> IsTree(e.tree) && PriorManifest(env, Some(e.tree)) == PriorManifest(env, Some(head))
  }

  ghost predicate AllLeaveManifest(cfg: BrainConfig, env: V.Env, seeds: Seeds, head: Tree, events: seq<Event>)
    decreases |events|
  {
    events == [] || (LeavesManifest(env, head, events[0]) && AllLeaveManifest(cfg, env, seeds, After(cfg, env, seeds, head, events[0]), events[1..]))
  }

  lemma {:induction false} RunStaysClear(cfg: BrainConfig, env: V.Env, seeds: Seeds, head: Tree, events: seq<Event>)
    requires CodecOk(env) && IsTree(head) && ClearManifest(PriorManifest(env, Some(head)))
    requires AllLeaveManifest(cfg, env, seeds, head, events)
    ensures var end := AfterAll(cfg, env, seeds, head, events); IsTree(end) && ClearManifest(PriorManifest(env, Some(end)))
    decreases |events|
  {
    if events != [] {
      var e, next := events[0], After(cfg, env, seeds, head, events[0]);
      if e.Exported? && NextTree(cfg, env, seeds, Some(head), e.nodes, e.edges).Some? {
        ExportStaysClear(cfg, env, seeds, Some(head), e.nodes, e.edges);
      }
      RunStaysClear(cfg, env, seeds, next, events[1..]);
    }
  }

  /** After a first export, whatever memory was exported since and whatever
      pushes left the manifest alone, exporting any memory and then exporting
      it once more gives the same tree: the second pass is a no-op. */
  lemma ExportsSettle(cfg: BrainConfig, env: V.Env, seeds: Seeds, nodes0: seq<NoteRow>, edges0: seq<EdgeRow>,
                      events: seq<Event>, nodes: seq<NoteRow>, edges: seq<EdgeRow>)
    requires CodecOk(env) && NextTree(cfg, env, seeds, None, nodes0, edges0).Some?
    requires AllLeaveManifest(cfg, env, seeds, NextTree(cfg, env, seeds, None, nodes0, edges0).value, events)
    ensures var head := AfterAll(cfg, env, seeds, NextTree(cfg, env, seeds, None, nodes0, edges0).value, events);
      var next := NextTree(cfg, env, seeds, Some(head), nodes, edges);
      next.Some? ==> NextTree(cfg, env, seeds, next, nodes, edges) == next
  {
    var first := NextTree(cfg, env, seeds, None, nodes0, edges0).value;
    ExportStaysClear(cfg, env, seeds, None, nodes0, edges0);
    RunStaysClear(cfg, env, seeds, first, events);
    var head := AfterAll(cfg, env, seeds, first, events);
    if NextTree(cfg, env, seeds, Some(head), nodes, edges).Some? {
      PlanStaysClear(cfg, env, PriorManifest(env, Some(head)), nodes, edges);
      LaterExportIsNoop(cfg, env, seeds, head, nodes, edges);
    }
  }
}
