/**
  What the planned files hold: the note of every included memory, rendered with
  the brain's own redaction setting and the links its edges give it.
 */
module VaultContents {
  import opened Options
  import opened BrainTypes
  import opened GitTree
  import L = VaultLinks
  import N = Notes
  import V = Vault
  import F = VaultFacts
  import P = VaultPaths
  import I = Ingest
  import S = Sorting
  import T = Text

  // ---------------------------------------------------------------- the links of a note

  /** Edge `e` joins the two notes, in either direction. */
  predicate Joins(e: EdgeRow, id: string, other: string) {
    (L.Bare(e.src) == id && L.Bare(e.dst) == other) || (L.Bare(e.dst) == id && L.Bare(e.src) == other)
  }

  /** The link that edge `e` gives a note to `other`. */
  predicate LinkOf(l: RelatedLink, e: EdgeRow, other: string, rows: map<string, NoteRow>, paths: map<string, string>) {
    && other in rows && other in paths && l.edgeType == e.edgeType
    && l.target == L.WithoutMd(paths[other]) && l.title == rows[other].title
  }

  /** In order of edge type, then target. */
  predicate Upto(a: RelatedLink, ty: string, target: string) {
    if a.edgeType == ty then T.StrLeq(a.target, target) else T.StrLeq(a.edgeType, ty)
  }

  /** At most eight links in order of type and target, each from an edge to
      another included note; and every such edge has one with its target and
      type, or there are eight that come before it. */
  ghost predicate LinksAre(related: seq<RelatedLink>, id: string, rows: map<string, NoteRow>, paths: map<string, string>, edges: seq<EdgeRow>) {
    && |related| <= 8
    && (forall i, j :: 0 <= i < j < |related| ==> Upto(related[i], related[j].edgeType, related[j].target))
    && (forall l :: l in related ==> exists e, other :: e in edges && other != id && Joins(e, id, other) && LinkOf(l, e, other, rows, paths))
    && (forall e, other :: e in edges && other != id && other in rows && other in paths && Joins(e, id, other) ==>
          || (exists l :: l in related && l.edgeType == e.edgeType && l.target == L.WithoutMd(paths[other]))
          || (|related| == 8 && forall l :: l in related ==> Upto(l, e.edgeType, L.WithoutMd(paths[other]))))
  }

  lemma NeighbourIff(id: string, n: L.Neighbour, ids: set<string>, edges: seq<EdgeRow>)
    requires id in ids
    ensures n in L.Neighbours(id, ids, S.Sort(edges, L.EdgeLeq)) <==>
      n.0 in ids && n.0 != id && exists e :: e in edges && e.edgeType == n.1 && Joins(e, id, n.0)
  {
    var sorted := S.Sort(edges, L.EdgeLeq);
    L.EdgeOrder();
    S.SortHas(edges, L.EdgeLeq);
    L.NeighboursAreLinked(id, ids, sorted, n);
    if n in L.Neighbours(id, ids, sorted) {
      var e :| e in sorted && L.NeighbourOf(id, ids, e) == Some(n);
      NeighbourOfIff(id, n, ids, e);
    } else if n.0 in ids && n.0 != id {
      forall e | e in edges && e.edgeType == n.1 ensures !Joins(e, id, n.0) { NeighbourOfIff(id, n, ids, e); }
    }
  }

  lemma NeighbourOfIff(id: string, n: L.Neighbour, ids: set<string>, e: EdgeRow)
    requires id in ids
    ensures L.NeighbourOf(id, ids, e) == Some(n) <==> n.0 in ids && n.0 != id && e.edgeType == n.1 && Joins(e, id, n.0)
  {}

  lemma RenderedLinksAre(id: string, rows: map<string, NoteRow>, paths: map<string, string>, edges: seq<EdgeRow>)
    requires paths.Keys == rows.Keys && id in rows
    ensures LinksAre(L.Rendered(L.LinksTo(L.Neighbours(id, rows.Keys, S.Sort(edges, L.EdgeLeq)), rows, paths)), id, rows, paths, edges)
  {
    var ns := L.Neighbours(id, rows.Keys, S.Sort(edges, L.EdgeLeq));
    var related := L.Rendered(L.LinksTo(ns, rows, paths));
    var full := L.FirstEight(ns, rows, paths);
    forall l | l in related
      ensures exists e, other :: e in edges && other != id && Joins(e, id, other) && LinkOf(l, e, other, rows, paths)
    {
      assert l in full;
      var n :| n in ns && l == L.LinkTo(n, rows, paths);
      NeighbourIff(id, n, rows.Keys, edges);
      var e :| e in edges && e.edgeType == n.1 && Joins(e, id, n.0);
      assert LinkOf(l, e, n.0, rows, paths);
    }
    forall i, j | 0 <= i < j < |related| ensures Upto(related[i], related[j].edgeType, related[j].target) {
      assert L.LinkLeq(full[i], full[j]);
    }
    forall e, other | e in edges && other != id && other in rows && other in paths && Joins(e, id, other)
      ensures || (exists l :: l in related && l.edgeType == e.edgeType && l.target == L.WithoutMd(paths[other]))
              || (|related| == 8 && forall l :: l in related ==> Upto(l, e.edgeType, L.WithoutMd(paths[other])))
    {
      NeighbourIff(id, (other, e.edgeType), rows.Keys, edges);
      ListedOrLater(L.LinkTo((other, e.edgeType), rows, paths), full, related);
    }
  }

  lemma ListedOrLater(link: RelatedLink, full: seq<RelatedLink>, related: seq<RelatedLink>)
    requires S.Ascending(full, L.LinkLeq) && S.Covered(link, full, L.SameKey)
    requires related == if |full| > 8 then full[..8] else full
    ensures || (exists l :: l in related && l.edgeType == link.edgeType && l.target == link.target)
            || (|related| == 8 && forall l :: l in related ==> Upto(l, link.edgeType, link.target))
  {
    var i :| 0 <= i < |full| && L.SameKey(full[i], link);
    if i < |related| {
      assert related[i] in related;
    } else {
      forall l | l in related ensures Upto(l, link.edgeType, link.target) {
        var k :| 0 <= k < |related| && related[k] == l;
        assert L.LinkLeq(full[k], full[i]);
      }
    }
  }

  // ---------------------------------------------------------------- the file of a note

  /** `bytes` are a memory's note: its row rendered with the brain's redaction
      setting and with the links its edges give it. */
  ghost predicate IsNoteOf(bytes: Bytes, cfg: BrainConfig, env: V.Env, rows: map<string, NoteRow>, paths: map<string, string>,
                           edges: seq<EdgeRow>, id: string)
    requires id in rows
  {
    exists related :: LinksAre(related, id, rows, paths, edges)
      && bytes == env.utf8(N.RenderNote(rows[id], related, cfg.filters.redact, env.fmt))
  }

  lemma NoteFileIs(cfg: BrainConfig, env: V.Env, rows: map<string, NoteRow>, paths: map<string, string>, edges: seq<EdgeRow>, id: string)
    requires paths.Keys == rows.Keys && id in rows
    ensures var f := V.NoteFile(cfg, env, rows, paths, S.Sort(edges, L.EdgeLeq), id);
      f.path == paths[id] && IsNoteOf(f.bytes, cfg, env, rows, paths, edges, id)
  {
    RenderedLinksAre(id, rows, paths, edges);
  }

  /** Among the notes, the last file at a note's path is that note. */
  lemma {:induction false} NotesHold(cfg: BrainConfig, env: V.Env, rows: map<string, NoteRow>, paths: map<string, string>,
                                     sorted: seq<EdgeRow>, ids: seq<string>, id: string)
    requires paths.Keys == rows.Keys && F.Injective(paths) && (forall x :: x in ids ==> x in rows) && id in ids
    ensures LastBytes(V.NoteFiles(cfg, env, rows, paths, sorted, ids), paths[id])
      == Some(V.NoteFile(cfg, env, rows, paths, sorted, id).bytes)
  {
    var k := |ids| - 1;
    assert ids == ids[..k] + [ids[k]];
    LastOf(V.NoteFiles(cfg, env, rows, paths, sorted, ids[..k]), V.NoteFile(cfg, env, rows, paths, sorted, ids[k]), paths[id]);
    NoteFileAt(cfg, env, rows, paths, sorted, ids[k]);
    if ids[k] != id { NotesHold(cfg, env, rows, paths, sorted, ids[..k], id); }
  }

  lemma NoteFileAt(cfg: BrainConfig, env: V.Env, rows: map<string, NoteRow>, paths: map<string, string>, sorted: seq<EdgeRow>, id: string)
    requires paths.Keys == rows.Keys && id in rows
    ensures V.NoteFile(cfg, env, rows, paths, sorted, id).path == paths[id]
  {}

  /** The generated pages and the manifest are no note paths. */
  lemma PagesAreUnheard(cfg: BrainConfig, env: V.Env, rows: seq<NoteRow>, paths: map<string, string>)
    ensures forall q :: q in PathsOf(V.Pages(cfg, env, rows, paths)) ==> !I.IsNotePath(q)
    ensures !I.IsNotePath(V.MANIFEST_PATH)
  {
    var pages := V.Pages(cfg, env, rows, paths);
    forall i | 0 <= i < |pages| ensures !I.IsNotePath(pages[i].path) {
      if i >= 3 {
        var page := env.realmIndexes(cfg, rows, paths)[i - 3];
        RealmPageEnds(P.SanitizeRealm(page.0));
      }
    }
    assert ".pensieve/" <= V.MANIFEST_PATH;
  }

  lemma RealmPageEnds(realm: string)
    ensures I.EndsWith("notes/" + realm + "/index.md", "/index.md")
  {}

  /** What is written last at a note path is a note. */
  lemma RestIsElsewhere(notes: seq<VaultFile>, rest: seq<VaultFile>, path: string)
    requires path !in PathsOf(rest)
    ensures LastBytes(notes + rest, path) == LastBytes(notes, path)
  {
    LastBytesAppend(notes, rest, path);
    LastBytesIs(rest, path);
  }

  lemma PlanHolds(cfg: BrainConfig, env: V.Env, rows: map<string, NoteRow>, paths: map<string, string>, edges: seq<EdgeRow>,
                  ids: seq<string>, id: string)
    requires paths.Keys == rows.Keys && F.Injective(paths) && (forall x :: x in ids <==> x in rows) && id in rows
    requires I.IsNotePath(paths[id])
    ensures var files := V.PlanWith(cfg, env, rows, paths, S.Sort(edges, L.EdgeLeq), ids).files;
      LastBytes(files, paths[id]).Some? && IsNoteOf(LastBytes(files, paths[id]).value, cfg, env, rows, paths, edges, id)
  {
    var sorted := S.Sort(edges, L.EdgeLeq);
    var notes, pages := V.NoteFiles(cfg, env, rows, paths, sorted, ids), V.Pages(cfg, env, V.RowsInOrder(rows, ids), paths);
    var last := VaultFile(V.MANIFEST_PATH, V.ManifestBytes(env, V.ManifestOf(pages, paths, ids)));
    PagesAreUnheard(cfg, env, V.RowsInOrder(rows, ids), paths);
    OthersElsewhere(notes, pages, last, paths[id]);
    NotesHold(cfg, env, rows, paths, sorted, ids, id);
    NoteFileIs(cfg, env, rows, paths, edges, id);
  }

  lemma OthersElsewhere(notes: seq<VaultFile>, pages: seq<VaultFile>, last: VaultFile, path: string)
    requires path !in PathsOf(pages) && path != last.path
    ensures LastBytes(S.Sort(notes + pages + [last], FileLeq), path) == LastBytes(notes, path)
  {
    SortKeepsLast(notes + pages + [last], path);
    LastOf(notes + pages, last, path);
    RestIsElsewhere(notes, pages, path);
  }

  /** The plan writes, at the path the manifest records for an included memory,
      that memory's note. */
  lemma PlannedNote(cfg: BrainConfig, env: V.Env, prior: Manifest, nodes: seq<NoteRow>, edges: seq<EdgeRow>, id: string)
    requires V.Plan(cfg, env, prior, nodes, edges).Ok? && id in V.ById(cfg, nodes)
    ensures var plan := V.Plan(cfg, env, prior, nodes, edges).value; var paths := PathsById(plan.manifest.entries);
      && id in paths && paths.Keys == V.ById(cfg, nodes).Keys && OneToOne(plan.manifest.entries)
      && (I.IsNotePath(paths[id]) ==>
            && LastBytes(plan.files, paths[id]).Some?
            && IsNoteOf(LastBytes(plan.files, paths[id]).value, cfg, env, V.ById(cfg, nodes), paths, edges, id))
  {
    var rows, before, sorted := V.ById(cfg, nodes), PathsById(prior.entries), S.Sort(edges, L.EdgeLeq);
    F.PlanIs(cfg, env, rows, before, sorted);
    F.ManifestOfPlan(cfg, env, rows, before, sorted);
    F.PathsForIsInjective(cfg, rows, before);
    if I.IsNotePath(F.PathsFor(cfg, rows, before)[id]) {
      PlanHolds(cfg, env, rows, F.PathsFor(cfg, rows, before), edges, F.OrderedOf(rows), id);
    }
  }

  /** The pages a plan writes beside the notes: the three top-level ones, an
      index for each realm, and the manifest. */
  lemma PlannedPages(cfg: BrainConfig, env: V.Env, prior: Manifest, nodes: seq<NoteRow>, edges: seq<EdgeRow>)
    requires V.Plan(cfg, env, prior, nodes, edges).Ok?
    ensures var plan := V.Plan(cfg, env, prior, nodes, edges).value;
      var paths := PathsById(plan.manifest.entries);
      var rows := V.RowsInOrder(V.ById(cfg, nodes), F.OrderedOf(V.ById(cfg, nodes)));
      && VaultFile("README.md", env.utf8(env.readme(cfg))) in plan.files
      && VaultFile("CONTRIBUTING.md", env.utf8(env.contributing(cfg))) in plan.files
      && VaultFile("index.md", env.utf8(env.index(cfg, rows, paths))) in plan.files
      && (forall page :: page in env.realmIndexes(cfg, rows, paths) ==>
            VaultFile("notes/" + P.SanitizeRealm(page.0) + "/index.md", env.utf8(page.1)) in plan.files)
      && plan.manifest.version == 1 && plan.noteCount == |V.ById(cfg, nodes)|
  {
    var rows, before, sorted := V.ById(cfg, nodes), PathsById(prior.entries), S.Sort(edges, L.EdgeLeq);
    F.PlanIs(cfg, env, rows, before, sorted);
    F.ManifestOfPlan(cfg, env, rows, before, sorted);
    var ids, paths := F.OrderedOf(rows), F.PathsFor(cfg, rows, before);
    T.OrderedIs(rows.Keys);
    PagesIn(cfg, env, rows, paths, sorted, ids);
  }

  lemma PagesIn(cfg: BrainConfig, env: V.Env, rows: map<string, NoteRow>, paths: map<string, string>, sorted: seq<EdgeRow>, ids: seq<string>)
    requires paths.Keys == rows.Keys && forall x :: x in ids ==> x in rows
    ensures var files, inOrder := V.PlanWith(cfg, env, rows, paths, sorted, ids).files, V.RowsInOrder(rows, ids);
      && VaultFile("README.md", env.utf8(env.readme(cfg))) in files
      && VaultFile("CONTRIBUTING.md", env.utf8(env.contributing(cfg))) in files
      && VaultFile("index.md", env.utf8(env.index(cfg, inOrder, paths))) in files
      && forall page :: page in env.realmIndexes(cfg, inOrder, paths) ==>
           VaultFile("notes/" + P.SanitizeRealm(page.0) + "/index.md", env.utf8(page.1)) in files
  {
    var inOrder := V.RowsInOrder(rows, ids);
    var pages, realms := V.Pages(cfg, env, inOrder, paths), env.realmIndexes(cfg, inOrder, paths);
    var all := V.NoteFiles(cfg, env, rows, paths, sorted, ids) + pages
      + [VaultFile(V.MANIFEST_PATH, V.ManifestBytes(env, V.ManifestOf(pages, paths, ids)))];
    FileOrder();
    S.SortHas(all, FileLeq);
    assert pages[0] in all && pages[1] in all && pages[2] in all;
    forall page | page in realms
      ensures VaultFile("notes/" + P.SanitizeRealm(page.0) + "/index.md", env.utf8(page.1)) in all
    {
      var i :| 0 <= i < |realms| && realms[i] == page;
      assert pages[3 + i] == V.RealmFile(env, page) && pages[3 + i] in all;
    }
  }

  // ---------------------------------------------------------------- which rows are planned

  /** The brain's filters, clause by clause. */
  lemma IncludedMeans(cfg: BrainConfig, row: NoteRow)
    ensures V.Included(cfg, row) <==>
      && row.status in cfg.filters.statuses
      && (cfg.filters.memoryTypes == None || row.memoryType in cfg.filters.memoryTypes.value)
      && (cfg.filters.minImportance == None || row.importance >= cfg.filters.minImportance.value)
      && (row.invalidAt == None || cfg.filters.includeInvalidated)
  {}

  /** An id is planned for the first of its rows that passes the filters. */
  lemma {:induction false} FirstRowWins(cfg: BrainConfig, nodes: seq<NoteRow>, k: nat)
    requires k < |nodes| && V.Included(cfg, nodes[k])
    requires forall j :: 0 <= j < k && nodes[j].id == nodes[k].id ==> !V.Included(cfg, nodes[j])
    ensures nodes[k].id in V.ById(cfg, nodes) && V.ById(cfg, nodes)[nodes[k].id] == nodes[k]
    decreases |nodes|
  {
    var init := nodes[..|nodes| - 1];
    if k < |init| {
      forall j | 0 <= j < k && init[j].id == init[k].id ensures !V.Included(cfg, init[j]) { assert nodes[j] == init[j]; }
      FirstRowWins(cfg, init, k);
    } else {
      ByIdNeeds(cfg, init, nodes[k].id);
    }
  }

  lemma ByIdNeeds(cfg: BrainConfig, nodes: seq<NoteRow>, id: string)
    ensures id in V.ById(cfg, nodes) ==> exists j :: 0 <= j < |nodes| && nodes[j].id == id && V.Included(cfg, nodes[j])
  {
    if id in V.ById(cfg, nodes) {
      var row := V.ById(cfg, nodes)[id];
      assert row in nodes && V.Included(cfg, row);
      var j :| 0 <= j < |nodes| && nodes[j] == row;
    }
  }
}
