/**
  One export pass: plan the vault, carry over every file the exporter does not
  own, and publish the whole tree as one commit, or none if nothing changed.
 */
module Export {
  import opened Options
  import opened BrainTypes
  import opened GitTree
  import V = Vault
  import P = VaultPaths
  import S = Sorting
  import T = Text

  // ---------------------------------------------------------------- what goes into the tree

  /** A missing branch, or a missing or unreadable manifest, counts as empty. */
  function PriorManifest(env: V.Env, head: Option<Tree>): Manifest {
    if head.Some? && V.MANIFEST_PATH in head.value && env.parse(head.value[V.MANIFEST_PATH]).Some?
    then env.parse(head.value[V.MANIFEST_PATH]).value
    else EmptyManifest
  }

  const TOPIC_PREFIX := "brain:"

  /** Paths whose pushed file already became a memory, over all rows. */
  function Ingested(cfg: BrainConfig, nodes: seq<NoteRow>): set<string> {
    var prefix := TOPIC_PREFIX + cfg.name + ":";
    set n | n in nodes && n.topicKey.Some? && prefix <= n.topicKey.value :: n.topicKey.value[|prefix|..]
  }

  /** The once-only files; the contents are parameters. */
  datatype Seeds = Seeds(appJson: Bytes, graphJson: Bytes, gitignore: Bytes, inboxReadme: Bytes)

  function SeedFiles(seeds: Seeds): seq<VaultFile> {
    [VaultFile(".obsidian/app.json", seeds.appJson), VaultFile(".obsidian/graph.json", seeds.graphJson),
     VaultFile(".gitignore", seeds.gitignore), VaultFile("inbox/README.md", seeds.inboxReadme)]
  }

  /** The paths of HEAD to carry over. */
  function Preserved(env: V.Env, head: Tree, generated: set<string>, ingested: set<string>): set<string> {
    head.Keys - OwnedPaths(PriorManifest(env, Some(head)).entries) - generated - ingested
  }

  function FilesAt(t: Tree, paths: seq<string>): seq<VaultFile>
    requires forall p :: p in paths ==> p in t
  {
    seq(|paths|, i requires 0 <= i < |paths| => VaultFile(paths[i], t[paths[i]]))
  }

  function NotGenerated(files: seq<VaultFile>, generated: set<string>): seq<VaultFile> {
    if files == [] then []
    else (if files[0].path in generated then [] else [files[0]]) + NotGenerated(files[1..], generated)
  }

  /** Planned files, then what HEAD keeps, then the seeds of a first run. */
  ghost function FilesOf(env: V.Env, seeds: Seeds, head: Option<Tree>, planned: seq<VaultFile>, ingested: set<string>): seq<VaultFile> {
    match head
    case None => planned + NotGenerated(SeedFiles(seeds), PathsOf(planned))
    case Some(t) =>
      var kept := Preserved(env, t, PathsOf(planned), ingested);
      T.OrderedIs(kept);
      planned + FilesAt(t, T.Ordered(kept))
  }

  /** The tree of the next commit; `None` when planning fails. */
  ghost function NextTree(cfg: BrainConfig, env: V.Env, seeds: Seeds, head: Option<Tree>, nodes: seq<NoteRow>, edges: seq<EdgeRow>): Option<Tree> {
    var plan := V.Plan(cfg, env, PriorManifest(env, head), nodes, edges);
    if plan.Ok? then Some(Written(FilesOf(env, seeds, head, plan.value.files, Ingested(cfg, nodes)))) else None
  }

  /** The paths to carry over, in tree order. */
  function Carried(paths: seq<string>, drop: set<string>): (r: seq<string>)
    ensures forall p :: p in r <==> p in paths && p !in drop
  {
    if paths == [] then []
    else
      var k := |paths| - 1;
      assert paths == paths[..k] + [paths[k]];
      Carried(paths[..k], drop) + (if paths[k] in drop then [] else [paths[k]])
  }

  lemma {:induction false} CarriedAscends(paths: seq<string>, drop: set<string>)
    requires S.Ascending(paths, T.StrLeq)
    ensures S.Ascending(Carried(paths, drop), T.StrLeq)
  {
    if paths != [] {
      var k := |paths| - 1;
      CarriedAscends(paths[..k], drop);
      var r := Carried(paths[..k], drop);
      forall i | 0 <= i < |r| ensures T.StrLeq(r[i], paths[k]) && !T.StrLeq(paths[k], r[i]) {
        assert r[i] in r;
        var j :| 0 <= j < k && paths[j] == r[i];
      }
    }
  }

  lemma CarriedIsOrdered(keys: set<string>, drop: set<string>)
    ensures Carried(T.Ordered(keys), drop) == T.Ordered(keys - drop)
  {
    T.OrderedIs(keys);
    T.OrderedIs(keys - drop);
    T.StrOrder();
    CarriedAscends(T.Ordered(keys), drop);
    S.AscendingUnique(Carried(T.Ordered(keys), drop), T.Ordered(keys - drop), T.StrLeq);
  }

  lemma FilesAtAppend(t: Tree, paths: seq<string>, p: string)
    requires p in t && forall q :: q in paths ==> q in t
    ensures FilesAt(t, paths + [p]) == FilesAt(t, paths) + [VaultFile(p, t[p])]
  {}

  lemma CarriedStep(paths: seq<string>, drop: set<string>, i: nat)
    requires i < |paths|
    ensures Carried(paths[..i + 1], drop) == if paths[i] in drop then Carried(paths[..i], drop) else Carried(paths[..i], drop) + [paths[i]]
  {
    assert paths[..i + 1][..i] == paths[..i];
  }

  method CarryPaths(head: Tree, paths: seq<string>, owned: set<string>, generated: set<string>, ingested: set<string>)
    returns (files: seq<VaultFile>, preserved: nat)
    requires forall p :: p in paths ==> p in head
    ensures var kept := Carried(paths, owned + generated + ingested);
      files == FilesAt(head, kept) && preserved == |kept|
  {
    files, preserved := [], 0;
    ghost var drop := owned + generated + ingested;
    ghost var kept: seq<string> := [];
    for i := 0 to |paths|
      invariant kept == Carried(paths[..i], drop) && (forall p :: p in kept ==> p in head)
      invariant files == FilesAt(head, kept) && preserved == |kept|
    {
      CarriedStep(paths, drop, i);
      var path := paths[i];
      if path in owned || path in generated || path in ingested { continue; }
      FilesAtAppend(head, kept, path);
      files := files + [VaultFile(path, head[path])];
      preserved := preserved + 1;
      kept := kept + [path];
    }
    assert paths[..|paths|] == paths;
  }

  lemma CarriedIsPreserved(env: V.Env, head: Tree, owned: set<string>, generated: set<string>, ingested: set<string>)
    requires owned == OwnedPaths(PriorManifest(env, Some(head)).entries)
    ensures var kept := Preserved(env, head, generated, ingested);
      Carried(T.Ordered(head.Keys), owned + generated + ingested) == T.Ordered(kept) && |T.Ordered(kept)| == |kept|
  {
    var drop := owned + generated + ingested;
    CarriedIsOrdered(head.Keys, drop);
    assert head.Keys - drop == Preserved(env, head, generated, ingested);
    T.OrderedIs(head.Keys - drop);
  }

  /** The loop over HEAD's paths. */
  method CarryOver(env: V.Env, head: Tree, planned: seq<VaultFile>, ingested: set<string>, ghost seeds: Seeds)
    returns (files: seq<VaultFile>, preserved: nat)
    ensures files == FilesOf(env, seeds, Some(head), planned, ingested)
    ensures preserved == |Preserved(env, head, PathsOf(planned), ingested)|
  {
    var owned, generated := OwnedPaths(PriorManifest(env, Some(head)).entries), PathsOf(planned);
    var paths := T.InOrder(head.Keys);
    T.OrderedIs(head.Keys);
    var carried;
    carried, preserved := CarryPaths(head, paths, owned, generated, ingested);
    files := planned + carried;
    CarriedIsPreserved(env, head, owned, generated, ingested);
  }

  /** The planned files, and behind them HEAD's or the seeds of a first run. */
  method AddKept(env: V.Env, seeds: Seeds, head: Option<Tree>, planned: seq<VaultFile>, ingested: set<string>)
    returns (files: seq<VaultFile>)
    ensures files == FilesOf(env, seeds, head, planned, ingested)
  {
    if head.Some? {
      var preserved;
      files, preserved := CarryOver(env, head.value, planned, ingested, seeds);
    } else {
      files := planned + NotGenerated(SeedFiles(seeds), PathsOf(planned));
    }
  }

  // ---------------------------------------------------------------- the repository

  datatype Commit = Commit(tree: Tree, parent: Option<nat>)

  predicate ParentsBelow(commits: seq<Commit>) {
    forall i :: 0 <= i < |commits| && commits[i].parent.Some? ==> commits[i].parent.value < i
  }

  /** `tip` is `base` or has it among its ancestors. */
  predicate Contains(commits: seq<Commit>, tip: nat, base: nat)
    requires ParentsBelow(commits) && tip < |commits|
    decreases tip
  {
    tip == base || (commits[tip].parent.Some? && Contains(commits, commits[tip].parent.value, base))
  }

  /** `git fast-import` without `--force`: the parent must exist, and a branch
      that is there already moves only to a commit that contains its tip. */
  predicate Importable(commits: seq<Commit>, branch: Option<nat>, parent: Option<nat>)
    requires ParentsBelow(commits)
  {
    && (parent.Some? ==> parent.value < |commits|)
    && (branch.Some? ==> parent.Some? && Contains(commits, parent.value, branch.value))
  }

  class GitRepo {
    var commits: seq<Commit>
    var branch: Option<nat>

    ghost predicate Valid() reads this {
      (branch.Some? ==> branch.value < |commits|) && ParentsBelow(commits)
    }

    ghost function Head(): Option<Tree>
      reads this
      requires Valid()
    {
      if branch.Some? then Some(commits[branch.value].tree) else None
    }

    constructor ()
      ensures Valid() && branch == None && commits == []
    {
      commits := [];
      branch := None;
    }

    /** `git update-ref <ref> <new> <old>`. */
    method UpdateRefCas(to: nat, from: nat) returns (ok: bool)
      requires Valid() && to < |commits|
      modifies this`branch
      ensures Valid() && ok == (old(branch) == Some(from))
      ensures branch == if ok then Some(to) else old(branch)
    {
      ok := branch == Some(from);
      if ok { branch := Some(to); }
    }

    /** Import the full tree as a child of `parent`; when the tree is the
        parent's own, put the branch on the parent.  `None` is git's error; the
        commit may have been written by then, but the branch has not moved. */
    method FastImportCommit(files: seq<VaultFile>, parent: Option<nat>) returns (r: Option<(nat, bool)>)
      requires Valid()
      modifies this
      ensures Valid() && old(commits) <= commits
      ensures r.Some? <==> Importable(old(commits), old(branch), parent)
      ensures r.None? ==> branch == old(branch)
      ensures r.Some? ==> branch == Some(r.value.0) && Head() == Some(Import(files))
      ensures r.Some? ==> (r.value.1 <==> parent.Some? && old(commits)[parent.value].tree == Import(files))
      ensures r.Some? && r.value.1 ==> branch == parent
      ensures r.Some? && !r.value.1 ==> commits == old(commits) + [Commit(Import(files), parent)] && branch == Some(|old(commits)|)
    {
      if parent.Some? && parent.value >= |commits| { return None; }
      var tree: Tree := map[];
      for i := 0 to |files|
        invariant tree == Import(files[..i])
        invariant commits == old(commits) && branch == old(branch)
      {
        assert files[..i + 1][..i] == files[..i];
        tree := Put(tree, files[i]);
      }
      assert files[..|files|] == files;
      var moves := branch.None? || (parent.Some? && Contains(commits, parent.value, branch.value));
      commits := commits + [Commit(tree, parent)];
      if !moves { return None; }
      var imported := |commits| - 1;
      branch := Some(imported);
      if parent.Some? && commits[imported].tree == commits[parent.value].tree {
        var ok := UpdateRefCas(parent.value, imported);
        return Some((parent.value, true));
      }
      return Some((imported, false));
    }

    /** One export pass over the branch. */
    method RunExport(cfg: BrainConfig, env: V.Env, seeds: Seeds, nodes: seq<NoteRow>, edges: seq<EdgeRow>)
      returns (r: P.Outcome<bool>)
      requires Valid()
      modifies this
      ensures Valid()
      ensures var next := NextTree(cfg, env, seeds, old(Head()), nodes, edges);
        if next.None? then !r.Ok? && branch == old(branch) && commits == old(commits)
        else && r == P.Ok(old(Head()) == next) && Head() == next
             && (old(Head()) == next ==> branch == old(branch))
    {
      var head := branch;
      var tree := if head.Some? then Some(commits[head.value].tree) else None;
      var plan := V.PlanVault(cfg, env, PriorManifest(env, tree), nodes, edges);
      match plan
      case InvalidPath(p) => return P.InvalidPath(p);
      case Stuck(p) => return P.Stuck(p);
      case Ok(vault) =>
        var files := AddKept(env, seeds, tree, vault.files, Ingested(cfg, nodes));
        var outcome := FastImportCommit(S.Sort(files, FileLeq), head);
        r := P.Ok(outcome.value.1);
    }
  }
}
