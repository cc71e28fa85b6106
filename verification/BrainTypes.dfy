/**
  Data shapes of the brain vault: memory rows, graph edges, planned files and
  the manifest that records which paths the exporter owns.
 */
module BrainTypes {
  import opened Options

  newtype byte = b: int | 0 <= b < 256

  type Bytes = seq<byte>

  datatype NoteRow = NoteRow(
    id: string, realm: string, memoryType: string, title: string, content: string, tags: string,
    importance: real, status: string, createdAt: string, updatedAt: string,
    validAt: Option<string>, invalidAt: Option<string>, topicKey: Option<string>)

  datatype EdgeRow = EdgeRow(src: string, dst: string, edgeType: string)

  datatype RelatedLink = RelatedLink(target: string, title: string, edgeType: string)

  datatype VaultFile = VaultFile(path: string, bytes: Bytes)

  datatype RealmSelector = All | Realms(names: seq<string>)

  datatype Layout = Flat | ByRealm

  datatype Filters = Filters(memoryTypes: Option<seq<string>>, statuses: seq<string>, minImportance: Option<real>,
                             redact: bool, includeInvalidated: bool)

  datatype BrainConfig = BrainConfig(name: string, realms: RealmSelector, layout: Layout, filters: Filters)

  // ---------------------------------------------------------------- manifest

  datatype ManifestEntry = ManifestEntry(path: string, memoryId: Option<string>)

  datatype Manifest = Manifest(version: nat, entries: seq<ManifestEntry>)

  const EmptyManifest := Manifest(0, [])

  /** `memory_id -> path`; a later entry overwrites an earlier one. */
  function PathsById(entries: seq<ManifestEntry>): map<string, string> {
    if entries == [] then map[]
    else
      var last := entries[|entries| - 1];
      var m := PathsById(entries[..|entries| - 1]);
      if last.memoryId.Some? then m[last.memoryId.value := last.path] else m
  }

  /** `path -> memory_id`, likewise. */
  function IdsByPath(entries: seq<ManifestEntry>): map<string, string> {
    if entries == [] then map[]
    else
      var last := entries[|entries| - 1];
      var m := IdsByPath(entries[..|entries| - 1]);
      if last.memoryId.Some? then m[last.path := last.memoryId.value] else m
  }

  function OwnedPaths(entries: seq<ManifestEntry>): set<string> { set e | e in entries :: e.path }

  /** Different note entries share neither an id nor a path. */
  predicate OneToOne(entries: seq<ManifestEntry>) {
    forall e, f :: e in entries && f in entries && SharesKey(e, f) ==> e == f
  }

  predicate SharesKey(e: ManifestEntry, f: ManifestEntry) {
    e.memoryId.Some? && f.memoryId.Some? && (e.memoryId == f.memoryId || e.path == f.path)
  }

  predicate Notes(entries: seq<ManifestEntry>, id: string, path: string) {
    ManifestEntry(path, Some(id)) in entries
  }

  lemma {:induction false} PathsByIdIs(entries: seq<ManifestEntry>, id: string, path: string)
    requires OneToOne(entries)
    ensures Notes(entries, id, path) <==> (id in PathsById(entries) && PathsById(entries)[id] == path)
  {
    if entries != [] {
      var init, last := entries[..|entries| - 1], entries[|entries| - 1];
      assert entries == init + [last];
      var e := ManifestEntry(path, Some(id));
      assert e in entries && SharesKey(e, last) ==> e == last;
      PathsByIdIs(init, id, path);
    }
  }

  lemma {:induction false} IdsByPathIs(entries: seq<ManifestEntry>, id: string, path: string)
    requires OneToOne(entries)
    ensures Notes(entries, id, path) <==> (path in IdsByPath(entries) && IdsByPath(entries)[path] == id)
  {
    if entries != [] {
      var init, last := entries[..|entries| - 1], entries[|entries| - 1];
      assert entries == init + [last];
      var e := ManifestEntry(path, Some(id));
      assert e in entries && SharesKey(e, last) ==> e == last;
      IdsByPathIs(init, id, path);
    }
  }

  /** The two views of a manifest undo each other. */
  lemma ViewsAreInverse(m: Manifest)
    requires OneToOne(m.entries)
    ensures var byId, byPath := PathsById(m.entries), IdsByPath(m.entries);
      && (forall id :: id in byId ==> byId[id] in byPath && byPath[byId[id]] == id)
      && (forall p :: p in byPath ==> byPath[p] in byId && byId[byPath[p]] == p)
  {
    var byId, byPath := PathsById(m.entries), IdsByPath(m.entries);
    forall id | id in byId ensures byId[id] in byPath && byPath[byId[id]] == id {
      PathsByIdIs(m.entries, id, byId[id]);
      IdsByPathIs(m.entries, id, byId[id]);
    }
    forall p | p in byPath ensures byPath[p] in byId && byId[byPath[p]] == p {
      PathsByIdIs(m.entries, byPath[p], p);
      IdsByPathIs(m.entries, byPath[p], p);
    }
  }

  /** Only the set of entries matters to either view. */
  lemma ViewsIgnoreOrder(a: seq<ManifestEntry>, b: seq<ManifestEntry>)
    requires OneToOne(a) && OneToOne(b) && forall e :: e in a <==> e in b
    ensures PathsById(a) == PathsById(b) && IdsByPath(a) == IdsByPath(b) && OwnedPaths(a) == OwnedPaths(b)
  {
    forall id, p ensures Notes(a, id, p) <==> Notes(b, id, p) {}
    forall id ensures id in PathsById(a) <==> id in PathsById(b) {
      if id in PathsById(a) { PathsByIdIs(a, id, PathsById(a)[id]); PathsByIdIs(b, id, PathsById(a)[id]); }
      if id in PathsById(b) { PathsByIdIs(b, id, PathsById(b)[id]); PathsByIdIs(a, id, PathsById(b)[id]); }
    }
    forall id | id in PathsById(a) ensures PathsById(b)[id] == PathsById(a)[id] {
      PathsByIdIs(a, id, PathsById(a)[id]);
      PathsByIdIs(b, id, PathsById(a)[id]);
    }
    forall p ensures p in IdsByPath(a) <==> p in IdsByPath(b) {
      if p in IdsByPath(a) { IdsByPathIs(a, IdsByPath(a)[p], p); IdsByPathIs(b, IdsByPath(a)[p], p); }
      if p in IdsByPath(b) { IdsByPathIs(b, IdsByPath(b)[p], p); IdsByPathIs(a, IdsByPath(b)[p], p); }
    }
    forall p | p in IdsByPath(a) ensures IdsByPath(b)[p] == IdsByPath(a)[p] {
      IdsByPathIs(a, IdsByPath(a)[p], p);
      IdsByPathIs(b, IdsByPath(a)[p], p);
    }
  }
}
