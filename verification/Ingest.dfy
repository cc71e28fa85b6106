/**
  Push ingest: a pushed diff becomes memory operations.  Reading blobs, UTF-8
  and YAML are parameters.
 */
module Ingest {
  import opened Options
  import opened BrainTypes
  import opened Text
  import opened TextFacts
  import N = Notes
  import R = NoteRoundTrip
  import P = VaultPaths

  datatype ChangeKind = Added | Modified | Deleted

  datatype Change = Change(kind: ChangeKind, path: string)

  datatype IngestOp =
    | UpdateExisting(memoryId: string, relPath: string, note: N.ParsedNote)
    | CreateNew(topicKey: string, realm: string, relPath: string, note: N.ParsedNote)
    | ArchiveDeleted(memoryId: string, relPath: string)

  datatype IngestPlan = IngestPlan(ops: seq<IngestOp>, warnings: seq<string>)

  /** The new tip's blobs, and how their bytes are read. */
  datatype Reader = Reader(blob: string -> Option<Bytes>, decode: Bytes -> Option<string>, yaml: N.YamlReader)

  predicate EndsWith(s: string, end: string) { |s| >= |end| && s[|s| - |end|..] == end }

  predicate IsNotePath(path: string) {
    && EndsWith(path, ".md") && !(".pensieve/" <= path) && !(".obsidian/" <= path)
    && path != "README.md" && path != "CONTRIBUTING.md" && path != "index.md" && path != "inbox/README.md"
    && !EndsWith(path, "/index.md")
  }

  function RealmForPath(cfg: BrainConfig, path: string): string {
    var rest := if "notes/" <= path then path[6..] else "";
    var slash := Find(rest, "/");
    if cfg.layout.ByRealm? && slash.Some? && rest[..slash.value] != "index.md" && rest[..slash.value] != "" then rest[..slash.value]
    else if cfg.realms.Realms? && cfg.realms.names != [] then cfg.realms.names[0]
    else "default"
  }

  function TopicKey(brain: string, path: string): string { "brain:" + brain + ":" + path }

  const NO_MEMORY := ": deleted file had no exported memory"
  const UNREADABLE := ": unreadable at new tip, skipped"
  const NOT_UTF8 := ": not UTF-8, skipped"
  const FOREIGN_ID := ": pensieve_memory_id does not match the exported note; keeping original identity"
  const ID_REMOVED := ": pensieve_memory_id removed by edit; keeping original identity"

  /** What one change asks for. */
  function PlanChange(cfg: BrainConfig, c: Change, reader: Reader, prior: map<string, string>): IngestPlan {
    if !IsNotePath(c.path) then IngestPlan([], [])
    else if c.kind.Deleted? then
      if c.path in prior then IngestPlan([ArchiveDeleted(prior[c.path], c.path)], []) else IngestPlan([], [c.path + NO_MEMORY])
    else if reader.blob(c.path).None? then IngestPlan([], [c.path + UNREADABLE])
    else if reader.decode(reader.blob(c.path).value).None? then IngestPlan([], [c.path + NOT_UTF8])
    else PlanNote(cfg, c.path, N.ParseNote(reader.decode(reader.blob(c.path).value).value, reader.yaml), prior)
  }

  function PlanNote(cfg: BrainConfig, path: string, note: N.ParsedNote, prior: map<string, string>): IngestPlan {
    if path in prior then
      IngestPlan([UpdateExisting(prior[path], path, note)],
                 if note.memoryId == Some(prior[path]) then [] else if note.memoryId.Some? then [path + FOREIGN_ID] else [path + ID_REMOVED])
    else if note.memoryId.Some? then IngestPlan([UpdateExisting(note.memoryId.value, path, note)], [])
    else
      IngestPlan([CreateNew(TopicKey(cfg.name, path), if note.realm.Some? then note.realm.value else RealmForPath(cfg, path), path, note)], [])
  }

  /** All changes in order. */
  function PlanAll(cfg: BrainConfig, changes: seq<Change>, reader: Reader, prior: map<string, string>): IngestPlan {
    if changes == [] then IngestPlan([], [])
    else
      var before, last := PlanAll(cfg, changes[..|changes| - 1], reader, prior), PlanChange(cfg, changes[|changes| - 1], reader, prior);
      IngestPlan(before.ops + last.ops, before.warnings + last.warnings)
  }

  method PlanPushIngest(cfg: BrainConfig, changes: seq<Change>, reader: Reader, prior: map<string, string>) returns (plan: IngestPlan)
    ensures plan == PlanAll(cfg, changes, reader, prior)
  {
    plan := IngestPlan([], []);
    for i := 0 to |changes|
      invariant plan == PlanAll(cfg, changes[..i], reader, prior)
    {
      assert changes[..i + 1][..i] == changes[..i];
      var one := PlanOneChange(cfg, changes[i], reader, prior);
      plan := IngestPlan(plan.ops + one.ops, plan.warnings + one.warnings);
    }
    assert changes[..|changes|] == changes;
  }

  /** The loop body, with its early exits and its four-way match on who the
      note claims to be and who lives at its path. */
  method PlanOneChange(cfg: BrainConfig, c: Change, reader: Reader, prior: map<string, string>) returns (plan: IngestPlan)
    ensures plan == PlanChange(cfg, c, reader, prior)
  {
    var path := c.path;
    if !IsNotePath(path) { return IngestPlan([], []); }
    if c.kind == Deleted {
      if path in prior { return IngestPlan([ArchiveDeleted(prior[path], path)], []); }
      return IngestPlan([], [path + NO_MEMORY]);
    }
    var bytes := reader.blob(path);
    if bytes.None? { return IngestPlan([], [path + UNREADABLE]); }
    var text := reader.decode(bytes.value);
    if text.None? { return IngestPlan([], [path + NOT_UTF8]); }
    var note := N.ParseNote(text.value, reader.yaml);
    var known := if path in prior then Some(prior[path]) else None;
    match (note.memoryId, known)
    case (Some(claimed), Some(id)) =>
      if claimed == id { return IngestPlan([UpdateExisting(id, path, note)], []); }
      return IngestPlan([UpdateExisting(id, path, note)], [path + FOREIGN_ID]);
    case (Some(claimed), None) =>
      return IngestPlan([UpdateExisting(claimed, path, note)], []);
    case (None, None) =>
      var realm := if note.realm.Some? then note.realm.value else RealmForPath(cfg, path);
      return IngestPlan([CreateNew(TopicKey(cfg.name, path), realm, path, note)], []);
    case (None, Some(id)) =>
      return IngestPlan([UpdateExisting(id, path, note)], [path + ID_REMOVED]);
  }

  // ---------------------------------------------------------------- what each change asks for

  /** The note at the new tip, if it can be read. */
  function NoteAt(path: string, reader: Reader): Option<N.ParsedNote> {
    if reader.blob(path).None? || reader.decode(reader.blob(path).value).None? then None
    else Some(N.ParseNote(reader.decode(reader.blob(path).value).value, reader.yaml))
  }

  lemma OneIs(cfg: BrainConfig, c: Change, reader: Reader, prior: map<string, string>)
    ensures PlanAll(cfg, [c], reader, prior) == PlanChange(cfg, c, reader, prior)
  {
    assert [c][..0] == [];
    var p := PlanChange(cfg, c, reader, prior);
    assert [] + p.ops == p.ops && [] + p.warnings == p.warnings;
  }

  /** A readable note at a path nothing was exported to: the id it claims is
      trusted, and a note that claims none becomes a new memory under the key
      of its path. */
  lemma NewPathPlans(cfg: BrainConfig, c: Change, reader: Reader, prior: map<string, string>)
    requires IsNotePath(c.path) && !c.kind.Deleted? && c.path !in prior && NoteAt(c.path, reader).Some?
    ensures var note, plan := NoteAt(c.path, reader).value, PlanAll(cfg, [c], reader, prior);
      && (note.memoryId.Some? ==> plan == IngestPlan([UpdateExisting(note.memoryId.value, c.path, note)], []))
      && (note.memoryId.None? && note.realm.Some? ==>
            plan == IngestPlan([CreateNew("brain:" + cfg.name + ":" + c.path, note.realm.value, c.path, note)], []))
      && (note.memoryId.None? && note.realm.None? ==>
            plan == IngestPlan([CreateNew("brain:" + cfg.name + ":" + c.path, RealmForPath(cfg, c.path), c.path, note)], []))
  {
    OneIs(cfg, c, reader, prior);
  }

  /** A readable note at an exported path updates the memory exported there,
      with a warning when the file claims another id or none. */
  lemma KnownPathPlans(cfg: BrainConfig, c: Change, reader: Reader, prior: map<string, string>)
    requires IsNotePath(c.path) && !c.kind.Deleted? && c.path in prior && NoteAt(c.path, reader).Some?
    ensures var note, plan := NoteAt(c.path, reader).value, PlanAll(cfg, [c], reader, prior);
      && plan.ops == [UpdateExisting(prior[c.path], c.path, note)]
      && (note.memoryId == Some(prior[c.path]) ==> plan.warnings == [])
      && (note.memoryId.Some? && note.memoryId.value != prior[c.path] ==>
            plan.warnings == [c.path + ": pensieve_memory_id does not match the exported note; keeping original identity"])
      && (note.memoryId.None? ==> plan.warnings == [c.path + ": pensieve_memory_id removed by edit; keeping original identity"])
  {
    OneIs(cfg, c, reader, prior);
  }

  /** Everything else plans nothing but the archiving of a deleted export, and
      says why. */
  lemma OtherwisePlans(cfg: BrainConfig, c: Change, reader: Reader, prior: map<string, string>)
    requires !IsNotePath(c.path) || c.kind.Deleted? || NoteAt(c.path, reader).None?
    ensures var plan := PlanAll(cfg, [c], reader, prior);
      && (!IsNotePath(c.path) ==> plan == IngestPlan([], []))
      && (IsNotePath(c.path) && c.kind.Deleted? && c.path in prior ==>
            plan == IngestPlan([ArchiveDeleted(prior[c.path], c.path)], []))
      && (IsNotePath(c.path) && c.kind.Deleted? && c.path !in prior ==>
            plan == IngestPlan([], [c.path + ": deleted file had no exported memory"]))
      && (IsNotePath(c.path) && !c.kind.Deleted? && reader.blob(c.path).None? ==>
            plan == IngestPlan([], [c.path + ": unreadable at new tip, skipped"]))
      && (IsNotePath(c.path) && !c.kind.Deleted? && reader.blob(c.path).Some? ==>
            plan == IngestPlan([], [c.path + ": not UTF-8, skipped"]))
  {
    OneIs(cfg, c, reader, prior);
  }

  /** The ops about one path. */
  function OnPath(ops: seq<IngestOp>, path: string): seq<IngestOp> {
    if ops == [] then []
    else OnPath(ops[..|ops| - 1], path) + (if ops[|ops| - 1].relPath == path then [ops[|ops| - 1]] else [])
  }

  lemma {:induction false} OnPathJoin(a: seq<IngestOp>, b: seq<IngestOp>, path: string)
    ensures OnPath(a + b, path) == OnPath(a, path) + OnPath(b, path)
  {
    if b == [] {
      assert a + b == a;
    } else {
      var k := |b| - 1;
      assert (a + b)[..|a| + k] == a + b[..k];
      OnPathJoin(a, b[..k], path);
    }
  }

  /** Each path of a push gets the ops its own change asks for, whatever else
      the push changes. */
  lemma {:induction false} PathGetsItsOps(cfg: BrainConfig, changes: seq<Change>, reader: Reader, prior: map<string, string>, i: nat)
    requires i < |changes| && forall j, k :: 0 <= j < k < |changes| ==> changes[j].path != changes[k].path
    ensures OnPath(PlanAll(cfg, changes, reader, prior).ops, changes[i].path) == PlanAll(cfg, [changes[i]], reader, prior).ops
  {
    var k := |changes| - 1;
    var init, last := changes[..k], PlanChange(cfg, changes[k], reader, prior);
    OnPathJoin(PlanAll(cfg, init, reader, prior).ops, last.ops, changes[i].path);
    OneIs(cfg, changes[k], reader, prior);
    OneChangeKeepsIdentity(cfg, changes[k], reader, prior);
    if i < k {
      PathGetsItsOps(cfg, init, reader, prior, i);
      OffPath(last.ops, changes[i].path);
    } else {
      OpsComeFromPaths(cfg, init, reader, prior);
      OffPath(PlanAll(cfg, init, reader, prior).ops, changes[k].path);
      AllOnPath(last.ops, changes[k].path);
    }
  }

  lemma {:induction false} OpsComeFromPaths(cfg: BrainConfig, changes: seq<Change>, reader: Reader, prior: map<string, string>)
    ensures forall op :: op in PlanAll(cfg, changes, reader, prior).ops ==> exists c :: c in changes && c.path == op.relPath
  {
    OpsKeepIdentity(cfg, changes, reader, prior);
    forall op | op in PlanAll(cfg, changes, reader, prior).ops ensures exists c :: c in changes && c.path == op.relPath {
      assert Caused(op, changes);
    }
  }

  lemma {:induction false} OffPath(ops: seq<IngestOp>, path: string)
    requires forall op :: op in ops ==> op.relPath != path
    ensures OnPath(ops, path) == []
  {
    if ops != [] { OffPath(ops[..|ops| - 1], path); }
  }

  lemma {:induction false} AllOnPath(ops: seq<IngestOp>, path: string)
    requires forall op :: op in ops ==> op.relPath == path
    ensures OnPath(ops, path) == ops
  {
    if ops != [] {
      AllOnPath(ops[..|ops| - 1], path);
      assert ops == ops[..|ops| - 1] + [ops[|ops| - 1]];
    }
  }

  /** Which files count: markdown, outside the two tool folders, and none of
      the pages that are generated or seeded. */
  lemma HeardIff(path: string)
    ensures IsNotePath(path) <==>
      && (exists p :: path == p + ".md") && !(exists p :: path == p + "/index.md")
      && !(exists p :: path == ".pensieve/" + p) && !(exists p :: path == ".obsidian/" + p)
      && path !in ["README.md", "CONTRIBUTING.md", "index.md", "inbox/README.md"]
  {
    EndsMeans(path, ".md");
    EndsMeans(path, "/index.md");
    StartsMeans(path, ".pensieve/");
    StartsMeans(path, ".obsidian/");
  }

  lemma EndsMeans(s: string, end: string)
    ensures EndsWith(s, end) <==> exists p :: s == p + end
  {
    if EndsWith(s, end) { assert s == s[..|s| - |end|] + end; }
  }

  lemma StartsMeans(s: string, start: string)
    ensures start <= s <==> exists p :: s == start + p
  {
    if start <= s { assert s == start + s[|start|..]; }
  }

  /** Below `notes/` the folder names the realm, in the layout by realm. */
  lemma RealmIsFolder(cfg: BrainConfig, realm: string, rest: string)
    requires cfg.layout.ByRealm? && realm != "" && realm != "index.md" && '/' !in realm
    ensures RealmForPath(cfg, "notes/" + (realm + "/" + rest)) == realm
  {
    var path := "notes/" + (realm + "/" + rest);
    assert "notes/" <= path && path[6..] == realm + "/" + rest;
    FirstAt(realm, '/', rest);
    assert (realm + "/" + rest)[..|realm|] == realm;
  }

  /** Anywhere else it is the brain's first realm, or the default one. */
  lemma RealmOtherwise(cfg: BrainConfig, path: string)
    requires !cfg.layout.ByRealm? || !("notes/" <= path)
    ensures RealmForPath(cfg, path) == if cfg.realms.Realms? && cfg.realms.names != [] then cfg.realms.names[0] else "default"
  {}

  // ---------------------------------------------------------------- identity

  /** The op is about the memory exported at its path. */
  predicate KeepsIdentity(op: IngestOp, prior: map<string, string>) {
    op.relPath in prior ==> !op.CreateNew? && op.memoryId == prior[op.relPath]
  }

  /** The op comes from a change of the push, an archive from a deletion. */
  ghost predicate Caused(op: IngestOp, changes: seq<Change>) {
    exists c :: c in changes && c.path == op.relPath && (op.ArchiveDeleted? <==> c.kind.Deleted?)
  }

  lemma NoteKeepsIdentity(cfg: BrainConfig, path: string, note: N.ParsedNote, prior: map<string, string>)
    ensures |PlanNote(cfg, path, note, prior).ops| == 1
    ensures var op := PlanNote(cfg, path, note, prior).ops[0];
      KeepsIdentity(op, prior) && op.relPath == path && !op.ArchiveDeleted?
  {}

  lemma OneChangeKeepsIdentity(cfg: BrainConfig, c: Change, reader: Reader, prior: map<string, string>)
    ensures forall op :: op in PlanChange(cfg, c, reader, prior).ops ==>
      KeepsIdentity(op, prior) && IsNotePath(c.path) && op.relPath == c.path && (op.ArchiveDeleted? <==> c.kind.Deleted?)
  {
    if IsNotePath(c.path) && !c.kind.Deleted? && reader.blob(c.path).Some? && reader.decode(reader.blob(c.path).value).Some? {
      NoteKeepsIdentity(cfg, c.path, N.ParseNote(reader.decode(reader.blob(c.path).value).value, reader.yaml), prior);
    }
  }

  /** Every op planned on an exported path targets the memory exported there,
      whatever id the pushed file claims; no op ever touches anything but a
      note path; and nothing is planned for a path the push did not change. */
  lemma {:induction false} OpsKeepIdentity(cfg: BrainConfig, changes: seq<Change>, reader: Reader, prior: map<string, string>)
    ensures forall op :: op in PlanAll(cfg, changes, reader, prior).ops ==>
      KeepsIdentity(op, prior) && IsNotePath(op.relPath) && Caused(op, changes)
  {
    if changes != [] {
      var init, last := changes[..|changes| - 1], changes[|changes| - 1];
      OpsKeepIdentity(cfg, init, reader, prior);
      OneChangeKeepsIdentity(cfg, last, reader, prior);
      forall op | op in PlanAll(cfg, changes, reader, prior).ops
        ensures KeepsIdentity(op, prior) && IsNotePath(op.relPath) && Caused(op, changes)
      {
        if op in PlanAll(cfg, init, reader, prior).ops {
          var c :| c in init && c.path == op.relPath && (op.ArchiveDeleted? <==> c.kind.Deleted?);
          assert c in changes;
        } else {
          assert op in PlanChange(cfg, last, reader, prior).ops && last in changes;
        }
      }
    }
  }

  /** Removing an exported note archives its memory and nothing else. */
  lemma DeletionArchives(cfg: BrainConfig, m: Manifest, id: string, reader: Reader)
    requires OneToOne(m.entries) && id in PathsById(m.entries) && IsNotePath(PathsById(m.entries)[id])
    ensures var path := PathsById(m.entries)[id];
      PlanAll(cfg, [Change(Deleted, path)], reader, IdsByPath(m.entries)) == IngestPlan([ArchiveDeleted(id, path)], [])
  {
    ViewsAreInverse(m);
    var c := Change(Deleted, PathsById(m.entries)[id]);
    assert [c][..0] == [];
  }

  // ---------------------------------------------------------------- the whole round trip

  /** A memory's exported file, pushed back as it was exported, is an update of
      that very memory with its own title and content, and no warning. */
  lemma ExportedNoteComesHome(cfg: BrainConfig, m: Manifest, row: NoteRow, related: seq<RelatedLink>, fmt: N.Formats,
                              utf8: string -> Bytes, reader: Reader, kind: ChangeKind)
    requires OneToOne(m.entries) && row.id in PathsById(m.entries) && !kind.Deleted?
    requires var path, text := PathsById(m.entries)[row.id], N.RenderNote(row, related, cfg.filters.redact, fmt);
      IsNotePath(path) && reader.blob(path) == Some(utf8(text)) && reader.decode(utf8(text)) == Some(text)
    requires R.Renderable(row, related, cfg.filters.redact, fmt)
    requires R.ReadsBack(N.FrontLines(row, cfg.filters.redact, fmt), row.id, row.title, reader.yaml)
    requires row.title != "" || N.Content(row, cfg.filters.redact) != ""
    ensures var path := PathsById(m.entries)[row.id];
      var plan := PlanAll(cfg, [Change(kind, path)], reader, IdsByPath(m.entries));
      && |plan.ops| == 1 && plan.warnings == [] && plan.ops[0].UpdateExisting?
      && plan.ops[0].memoryId == row.id && plan.ops[0].relPath == path
      && plan.ops[0].note.title == Some(row.title) && plan.ops[0].note.body == N.Content(row, cfg.filters.redact)
  {
    ViewsAreInverse(m);
    R.NoteRoundTrips(row, related, cfg.filters.redact, fmt, reader.yaml);
    var path := PathsById(m.entries)[row.id];
    var note := N.ParseNote(N.RenderNote(row, related, cfg.filters.redact, fmt), reader.yaml);
    OneChange(cfg, Change(kind, path), reader, IdsByPath(m.entries), note);
  }

  /** Renames are safe: when an exported file is moved, the deletion archives
      its memory and the file at the new path, in the same push, updates that
      very memory with the title and content it had. */
  lemma MovedNoteKeepsMemory(cfg: BrainConfig, m: Manifest, row: NoteRow, related: seq<RelatedLink>, fmt: N.Formats,
                             utf8: string -> Bytes, reader: Reader, changes: seq<Change>, i: nat, j: nat)
    requires OneToOne(m.entries) && row.id in PathsById(m.entries) && i < |changes| && j < |changes|
    requires forall x, y :: 0 <= x < y < |changes| ==> changes[x].path != changes[y].path
    requires changes[i] == Change(Deleted, PathsById(m.entries)[row.id]) && IsNotePath(changes[i].path)
    requires !changes[j].kind.Deleted? && IsNotePath(changes[j].path) && changes[j].path !in IdsByPath(m.entries)
    requires var text := N.RenderNote(row, related, cfg.filters.redact, fmt);
      reader.blob(changes[j].path) == Some(utf8(text)) && reader.decode(utf8(text)) == Some(text)
    requires R.Renderable(row, related, cfg.filters.redact, fmt)
    requires R.ReadsBack(N.FrontLines(row, cfg.filters.redact, fmt), row.id, row.title, reader.yaml)
    requires row.title != "" || N.Content(row, cfg.filters.redact) != ""
    ensures var ops := PlanAll(cfg, changes, reader, IdsByPath(m.entries)).ops;
      && OnPath(ops, changes[i].path) == [ArchiveDeleted(row.id, changes[i].path)]
      && |OnPath(ops, changes[j].path)| == 1
      && var op := OnPath(ops, changes[j].path)[0];
         && op.UpdateExisting? && op.memoryId == row.id
         && op.note.title == Some(row.title) && op.note.body == N.Content(row, cfg.filters.redact)
  {
    var prior := IdsByPath(m.entries);
    ViewsAreInverse(m);
    R.NoteRoundTrips(row, related, cfg.filters.redact, fmt, reader.yaml);
    PathGetsItsOps(cfg, changes, reader, prior, i);
    PathGetsItsOps(cfg, changes, reader, prior, j);
    OtherwisePlans(cfg, changes[i], reader, prior);
    NewPathPlans(cfg, changes[j], reader, prior);
  }

  lemma OneChange(cfg: BrainConfig, c: Change, reader: Reader, prior: map<string, string>, note: N.ParsedNote)
    requires IsNotePath(c.path) && !c.kind.Deleted? && reader.blob(c.path).Some?
    requires var text := reader.decode(reader.blob(c.path).value); text.Some? && note == N.ParseNote(text.value, reader.yaml)
    ensures PlanAll(cfg, [c], reader, prior) == PlanNote(cfg, c.path, note, prior)
  {
    assert [c][..0] == [];
    var p := PlanNote(cfg, c.path, note, prior);
    assert [] + p.ops == p.ops && [] + p.warnings == p.warnings;
  }

  // ---------------------------------------------------------------- which exported notes are heard

  lemma {:induction false} UnderEnds(folders: seq<string>, name: string)
    requires folders != []
    ensures EndsWith(P.Under(folders, name), "/" + name)
  {
    var path := P.Under(folders, name);
    if |folders| == 1 {
      assert folders[1..] == [];
      assert path == folders[0] + ("/" + name);
    } else {
      UnderEnds(folders[1..], name);
      var rest := P.Under(folders[1..], name);
      assert path[|folders[0]| + 1..] == rest;
      assert path[|path| - |name| - 1..] == rest[|rest| - |name| - 1..];
    }
  }

  /** A path below one of the note folders is none of the fixed files. */
  lemma BelowNoteFolders(path: string, folder: string)
    requires folder + "/" <= path && folder in ["wiki", "entities", "notes"]
    ensures !(".pensieve/" <= path) && !(".obsidian/" <= path)
    ensures path != "README.md" && path != "CONTRIBUTING.md" && path != "index.md" && path != "inbox/README.md"
  {
    assert path[0] == folder[0] && path[1] == folder[1];
  }

  lemma FirstFolder(cfg: BrainConfig, row: NoteRow)
    ensures P.Folders(cfg, row) != [] && P.Folders(cfg, row)[0] in ["wiki", "entities", "notes"]
    ensures P.Folders(cfg, row)[0] + "/" <= P.Minted(cfg, row)
  {}

  /** An edit of a newly minted note reaches its memory unless the note is the
      wiki page whose slug is `index`: that path is taken for a generated page. */
  lemma MintedIsHeardIff(cfg: BrainConfig, row: NoteRow)
    requires '/' !in row.id
    ensures IsNotePath(P.Minted(cfg, row)) <==> P.WikiSlug(cfg, row) != Some("index")
  {
    var folders, stem := P.Folders(cfg, row), P.Stem(cfg, row);
    var path := P.Minted(cfg, row);
    P.StemIsPlain(cfg, row);
    FirstFolder(cfg, row);
    UnderEnds(folders, stem + ".md");
    MdEnding(path, stem);
    IndexEnding(path, stem);
    BelowNoteFolders(path, folders[0]);
    if P.WikiSlug(cfg, row).None? { StemHasDash(row.title, row.id); }
  }

  /** The wiki page of a brain with topic `index` is such a note. */
  lemma IndexPageIsUnheard(cfg: BrainConfig, row: NoteRow)
    requires '/' !in row.id && ':' !in cfg.name && row.topicKey == Some(P.WIKI_PREFIX + (cfg.name + ":" + "index"))
    ensures P.WikiSlug(cfg, row) == Some("index") && !IsNotePath(P.Minted(cfg, row))
  {
    var rest := cfg.name + ":" + "index";
    var key := row.topicKey.value;
    assert P.WIKI_PREFIX <= key && key[|P.WIKI_PREFIX|..] == rest;
    FirstAt(cfg.name, ':', "index");
    assert rest[..|cfg.name|] == cfg.name && rest[|cfg.name| + 1..] == "index";
    IndexSlug();
    MintedIsHeardIff(cfg, row);
  }

  lemma SlugStep(s: string, c: char)
    requires 'a' <= c <= 'z' && N.RawSlug(s) == s
    ensures N.RawSlug(s + [c]) == s + [c]
  {
    assert (s + [c])[..|s|] == s;
  }

  lemma IndexSlug()
    ensures N.TitleSlug("index") == "index"
  {
    SlugStep("", 'i');
    SlugStep("" + ['i'], 'n');
    SlugStep("" + ['i'] + ['n'], 'd');
    SlugStep("" + ['i'] + ['n'] + ['d'], 'e');
    SlugStep("" + ['i'] + ['n'] + ['d'] + ['e'], 'x');
    assert "" + ['i'] + ['n'] + ['d'] + ['e'] + ['x'] == "index";
  }

  lemma MdEnding(path: string, stem: string)
    requires EndsWith(path, "/" + (stem + ".md"))
    ensures EndsWith(path, ".md")
  {
    var end := "/" + (stem + ".md");
    assert end[|end| - 3..] == ".md";
    assert path[|path| - 3..] == path[|path| - |end|..][|end| - 3..];
  }

  /** What follows the last slash is one thing only. */
  lemma LastPiece(path: string, a: string, b: string)
    requires EndsWith(path, "/" + a) && EndsWith(path, "/" + b) && '/' !in b && |a| <= |b|
    ensures a == b
  {
    var tail := path[|path| - |b| - 1..];
    assert forall i :: 0 <= i < |b| ==> path[|path| - |b| + i] == tail[i + 1] == b[i];
    assert path[|path| - |a| - 1..][0] == '/';
    assert a == path[|path| - |a|..];
  }

  lemma IndexEnding(path: string, stem: string)
    requires EndsWith(path, "/" + (stem + ".md")) && '/' !in stem
    ensures EndsWith(path, "/index.md") <==> stem == "index"
  {
    assert "/index.md" == "/" + "index.md" && "index" + ".md" == "index.md";
    if EndsWith(path, "/index.md") {
      if |stem| >= 5 { LastPiece(path, "index.md", stem + ".md"); } else { LastPiece(path, stem + ".md", "index.md"); }
      assert stem == (stem + ".md")[..|stem|] && "index.md"[..5] == "index";
    }
  }

  lemma StemHasDash(title: string, id: string)
    ensures N.NoteStem(title, id) != "index"
  {
    var slug, id8 := N.PortableSlug(N.ShortSlug(title)), N.Id8(id);
    assert (slug + "-" + id8)[|slug|] == '-';
    assert '-' !in "index";
  }
}
