/**
  Export and push as one loop: what is read from an exported tree, what becomes
  of an exported file that is pushed back, and what becomes of a pushed file
  that is exported.
 */
module PushLoop {
  import opened Options
  import opened BrainTypes
  import opened GitTree
  import opened Export
  import opened ExportFacts
  import opened ExportRuns
  import opened Ingest
  import opened Text
  import opened TextFacts
  import C = VaultContents
  import D = Redaction
  import N = Notes
  import R = NoteRoundTrip
  import V = Vault

  // ---------------------------------------------------------------- reading an exported tree

  /** A note that the format can carry, and a YAML reader that finds its id and
      its title; every link line the vault can hold is free of the end marker. */
  ghost predicate Carried(cfg: BrainConfig, env: V.Env, rows: map<string, NoteRow>, paths: map<string, string>, edges: seq<EdgeRow>,
                          yaml: N.YamlReader, id: string)
    requires id in rows
  {
    var row, redact := rows[id], cfg.filters.redact;
    && row.id == id && R.OneLineFront(row, redact, env.fmt) && R.Carries(row.title, N.Content(row, redact), N.RELATED_BEGIN)
    && R.ReadsBack(N.FrontLines(row, redact, env.fmt), id, row.title, yaml)
    && (row.title != "" || N.Content(row, redact) != "")
    && forall e, other, l :: e in edges && C.LinkOf(l, e, other, rows, paths) ==> Free(N.LinkLine(l), N.RELATED_END)
  }

  /** The next tree holds, at the path its manifest records for an included
      memory, that memory's note. */
  lemma TreeHoldsNote(cfg: BrainConfig, env: V.Env, seeds: Seeds, head: Option<Tree>, nodes: seq<NoteRow>, edges: seq<EdgeRow>, id: string)
    requires NextTree(cfg, env, seeds, head, nodes, edges).Some? && id in V.ById(cfg, nodes)
    ensures var next := NextTree(cfg, env, seeds, head, nodes, edges).value;
      var paths := PathsById(V.Plan(cfg, env, PriorManifest(env, head), nodes, edges).value.manifest.entries);
      && id in paths
      && (IsNotePath(paths[id]) && paths[id] in next ==>
            C.IsNoteOf(next[paths[id]], cfg, env, V.ById(cfg, nodes), paths, edges, id))
  {
    C.PlannedNote(cfg, env, PriorManifest(env, head), nodes, edges, id);
    TreeIsExact(cfg, env, seeds, head, nodes, edges);
    var plan := V.Plan(cfg, env, PriorManifest(env, head), nodes, edges).value;
    var path := PathsById(plan.manifest.entries)[id];
    LastBytesIs(plan.files, path);
  }

  lemma NoteReads(cfg: BrainConfig, env: V.Env, rows: map<string, NoteRow>, paths: map<string, string>, edges: seq<EdgeRow>,
                  yaml: N.YamlReader, id: string, related: seq<RelatedLink>)
    requires id in rows && Carried(cfg, env, rows, paths, edges, yaml, id) && C.LinksAre(related, id, rows, paths, edges)
    ensures R.Renderable(rows[id], related, cfg.filters.redact, env.fmt)
    ensures var note := N.ParseNote(N.RenderNote(rows[id], related, cfg.filters.redact, env.fmt), yaml);
      note.memoryId == Some(id) && note.title == Some(rows[id].title) && note.body == N.Content(rows[id], cfg.filters.redact)
  {
    forall i | 0 <= i < |related| ensures Free(N.LinkLine(related[i]), N.RELATED_END) { assert related[i] in related; }
    R.NoteRoundTrips(rows[id], related, cfg.filters.redact, env.fmt, yaml);
  }

  /** Reading an exported note back gives the memory's id, its title and its
      content under the brain's redaction setting. */
  lemma ExportedNoteReads(cfg: BrainConfig, env: V.Env, seeds: Seeds, head: Option<Tree>, nodes: seq<NoteRow>, edges: seq<EdgeRow>,
                          id: string, decode: Bytes -> Option<string>, yaml: N.YamlReader)
    requires NextTree(cfg, env, seeds, head, nodes, edges).Some? && id in V.ById(cfg, nodes)
    requires forall text :: decode(env.utf8(text)) == Some(text)
    requires var paths := PathsById(V.Plan(cfg, env, PriorManifest(env, head), nodes, edges).value.manifest.entries);
      && id in paths && IsNotePath(paths[id]) && paths[id] in NextTree(cfg, env, seeds, head, nodes, edges).value
      && Carried(cfg, env, V.ById(cfg, nodes), paths, edges, yaml, id)
    ensures var next := NextTree(cfg, env, seeds, head, nodes, edges).value;
      var path := PathsById(V.Plan(cfg, env, PriorManifest(env, head), nodes, edges).value.manifest.entries)[id];
      && decode(next[path]).Some?
      && var note := N.ParseNote(decode(next[path]).value, yaml);
         note.memoryId == Some(id) && note.title == Some(V.ById(cfg, nodes)[id].title)
         && note.body == N.Content(V.ById(cfg, nodes)[id], cfg.filters.redact)
  {
    var next := NextTree(cfg, env, seeds, head, nodes, edges).value;
    var rows, paths := V.ById(cfg, nodes), PathsById(V.Plan(cfg, env, PriorManifest(env, head), nodes, edges).value.manifest.entries);
    TreeHoldsNote(cfg, env, seeds, head, nodes, edges, id);
    var related :| C.LinksAre(related, id, rows, paths, edges)
      && next[paths[id]] == env.utf8(N.RenderNote(rows[id], related, cfg.filters.redact, env.fmt));
    NoteReads(cfg, env, rows, paths, edges, yaml, id, related);
  }

  // ---------------------------------------------------------------- redaction in the tree

  lemma TrimIsInside(s: string, pat: string)
    requires Free(s, pat)
    ensures Free(Trim(s), pat)
  {
    var t := TrimStart(s);
    TrimStartSlices(s);
    forall k ensures !At(t, k, pat) {
      if At(t, k, pat) {
        assert s[|s| - |t|..|s|] == t;
        AtInside(s, |s| - |t|, |s|, k, pat);
      }
    }
    var u := TrimEnd(t);
    forall k ensures !At(u, k, pat) {
      if At(u, k, pat) {
        assert t[0..|u|] == u;
        AtInside(t, 0, |u|, k, pat);
      }
    }
  }

  /** With redaction on, the body read from an exported note holds no opening
      marker, as long as no two kept stretches of the content meet in one. */
  lemma ExportedBodyIsRedacted(cfg: BrainConfig, env: V.Env, seeds: Seeds, head: Option<Tree>, nodes: seq<NoteRow>, edges: seq<EdgeRow>,
                               id: string, decode: Bytes -> Option<string>, yaml: N.YamlReader)
    requires NextTree(cfg, env, seeds, head, nodes, edges).Some? && id in V.ById(cfg, nodes)
    requires forall text :: decode(env.utf8(text)) == Some(text)
    requires var paths := PathsById(V.Plan(cfg, env, PriorManifest(env, head), nodes, edges).value.manifest.entries);
      && id in paths && IsNotePath(paths[id]) && paths[id] in NextTree(cfg, env, seeds, head, nodes, edges).value
      && Carried(cfg, env, V.ById(cfg, nodes), paths, edges, yaml, id)
    requires cfg.filters.redact
    requires !D.Seam(D.Outside(V.ById(cfg, nodes)[id].content, "<private>", "</private>"), "<private>")
    ensures var next := NextTree(cfg, env, seeds, head, nodes, edges).value;
      var path := PathsById(V.Plan(cfg, env, PriorManifest(env, head), nodes, edges).value.manifest.entries)[id];
      decode(next[path]).Some? && Free(N.ParseNote(decode(next[path]).value, yaml).body, "<private>")
  {
    ExportedNoteReads(cfg, env, seeds, head, nodes, edges, id, decode, yaml);
    var content := V.ById(cfg, nodes)[id].content;
    D.RedactedIsFreeIff(content, "<private>", "</private>");
    TrimIsInside(N.StripPrivate(content), "<private>");
  }

  // ---------------------------------------------------------------- an exported note pushed back

  lemma OneToOneInOrder(m: Manifest)
    requires OneToOne(m.entries)
    ensures OneToOne(V.InPathOrder(m).entries)
    ensures PathsById(V.InPathOrder(m).entries) == PathsById(m.entries)
  {
    SameEntries(m);
    ViewsIgnoreOrder(m.entries, V.InPathOrder(m).entries);
  }

  /** An exported note pushed back as it is in the tree is one update of its
      memory, with its title and content and no warning; who owns which path is
      read from the manifest in that tree. */
  lemma ExportedTreeComesHome(cfg: BrainConfig, env: V.Env, seeds: Seeds, head: Option<Tree>, nodes: seq<NoteRow>, edges: seq<EdgeRow>,
                              id: string, reader: Reader, kind: ChangeKind)
    requires CodecOk(env) && NextTree(cfg, env, seeds, head, nodes, edges).Some? && id in V.ById(cfg, nodes) && !kind.Deleted?
    requires forall text :: reader.decode(env.utf8(text)) == Some(text)
    requires V.MANIFEST_PATH in NextTree(cfg, env, seeds, head, nodes, edges).value
    requires var next := NextTree(cfg, env, seeds, head, nodes, edges).value;
      var paths := PathsById(PriorManifest(env, Some(next)).entries);
      && id in paths && IsNotePath(paths[id]) && paths[id] in next && reader.blob(paths[id]) == Some(next[paths[id]])
      && Carried(cfg, env, V.ById(cfg, nodes), paths, edges, reader.yaml, id)
    ensures var m := PriorManifest(env, NextTree(cfg, env, seeds, head, nodes, edges));
      var path := PathsById(m.entries)[id]; var row := V.ById(cfg, nodes)[id];
      var plan := PlanAll(cfg, [Change(kind, path)], reader, IdsByPath(m.entries));
      && |plan.ops| == 1 && plan.warnings == [] && plan.ops[0].UpdateExisting?
      && plan.ops[0].memoryId == id && plan.ops[0].relPath == path
      && plan.ops[0].note.title == Some(row.title) && plan.ops[0].note.body == N.Content(row, cfg.filters.redact)
  {
    var next := NextTree(cfg, env, seeds, head, nodes, edges).value;
    var plan := V.Plan(cfg, env, PriorManifest(env, head), nodes, edges).value;
    var rows, m := V.ById(cfg, nodes), V.InPathOrder(plan.manifest);
    NextPrior(cfg, env, seeds, head, nodes, edges);
    C.PlannedNote(cfg, env, PriorManifest(env, head), nodes, edges, id);
    OneToOneInOrder(plan.manifest);
    var paths := PathsById(m.entries);
    TreeHoldsNote(cfg, env, seeds, head, nodes, edges, id);
    var related :| C.LinksAre(related, id, rows, paths, edges)
      && next[paths[id]] == env.utf8(N.RenderNote(rows[id], related, cfg.filters.redact, env.fmt));
    NoteReads(cfg, env, rows, paths, edges, reader.yaml, id, related);
    ExportedNoteComesHome(cfg, m, rows[id], related, env.fmt, env.utf8, reader, kind);
  }

  // ---------------------------------------------------------------- a pushed file exported

  /** What a push plans to create is keyed by the brain and the path. */
  lemma {:induction false} CreatedKeys(cfg: BrainConfig, changes: seq<Change>, reader: Reader, prior: map<string, string>)
    ensures forall op :: op in PlanAll(cfg, changes, reader, prior).ops && op.CreateNew? ==>
      op.topicKey == "brain:" + cfg.name + ":" + op.relPath
  {
    if changes != [] { CreatedKeys(cfg, changes[..|changes| - 1], reader, prior); }
  }

  /** The loop closes: once a push has planned a new memory for a file, any
      export over rows that include one with its key re-files it, whatever else
      happened between: the pushed file itself is no longer carried over. */
  lemma PushedFileIsRefiled(cfg: BrainConfig, env: V.Env, seeds: Seeds, head: Tree, nodes: seq<NoteRow>, edges: seq<EdgeRow>,
                            changes: seq<Change>, reader: Reader, prior: map<string, string>, op: IngestOp)
    requires IsTree(head) && NextTree(cfg, env, seeds, Some(head), nodes, edges).Some?
    requires op in PlanAll(cfg, changes, reader, prior).ops && op.CreateNew?
    requires exists n :: n in nodes && n.topicKey == Some(op.topicKey)
    requires op.relPath in head && op.relPath !in OwnedPaths(PriorManifest(env, Some(head)).entries)
    requires op.relPath !in PathsOf(V.Plan(cfg, env, PriorManifest(env, Some(head)), nodes, edges).value.files)
    ensures op.relPath !in NextTree(cfg, env, seeds, Some(head), nodes, edges).value
  {
    CreatedKeys(cfg, changes, reader, prior);
    assert BornFrom(cfg, nodes, op.relPath);
    PushedFileStaysIff(cfg, env, seeds, head, nodes, edges, op.relPath);
  }
}
