/**
  A commit's tree as a map from path to bytes, and what a full-state import
  makes of a list of files.  A path cannot be a file and a folder at once:
  writing one displaces the other, as git does.
 */
module GitTree {
  import opened Options
  import opened BrainTypes
  import opened Text
  import S = Sorting
  import Sets

  type Tree = map<string, Bytes>

  /** `q` lies inside the folder `p`. */
  predicate Under(p: string, q: string) { p + "/" <= q }

  predicate FileLeq(a: VaultFile, b: VaultFile) { StrLeq(a.path, b.path) }

  function Put(t: Tree, f: VaultFile): Tree {
    (map q | q in t && !Under(f.path, q) && !Under(q, f.path) :: t[q])[f.path := f.bytes]
  }

  /** `deleteall`, then one `M` command per file in order. */
  function Import(files: seq<VaultFile>): Tree {
    if files == [] then map[] else Put(Import(files[..|files| - 1]), files[|files| - 1])
  }

  function PathsOf(files: seq<VaultFile>): set<string> { set f | f in files :: f.path }

  /** The bytes a path is last given. */
  function LastBytes(files: seq<VaultFile>, path: string): Option<Bytes> {
    if files == [] then None
    else if files[|files| - 1].path == path then Some(files[|files| - 1].bytes)
    else LastBytes(files[..|files| - 1], path)
  }

  lemma {:induction false} LastBytesIs(files: seq<VaultFile>, path: string)
    ensures LastBytes(files, path).Some? <==> path in PathsOf(files)
  {
    if files != [] {
      var init, last := files[..|files| - 1], files[|files| - 1];
      LastBytesIs(init, path);
      assert files == init + [last];
      assert PathsOf(files) == PathsOf(init) + {last.path};
    }
  }

  /** Something is written inside `p`. */
  predicate Covered(paths: set<string>, p: string) { exists q :: q in paths && Under(p, q) }

  lemma UnderIsAfter(p: string, q: string)
    requires Under(p, q)
    ensures StrLeq(p, q) && !StrLeq(q, p)
  {
    assert p < q;
    PrefixFirst(p, q);
  }

  /** A sorted import keeps, of each path written, the last bytes, and exactly
      the paths that no other written path lies inside of. */
  lemma {:induction false} ImportIs(files: seq<VaultFile>, p: string)
    requires S.Sorted(files, FileLeq)
    ensures p in Import(files) <==> p in PathsOf(files) && !Covered(PathsOf(files), p)
    ensures p in Import(files) ==> LastBytes(files, p) == Some(Import(files)[p])
  {
    if files != [] {
      var init, last := files[..|files| - 1], files[|files| - 1];
      ImportIs(init, p);
      assert files == init + [last];
      assert PathsOf(files) == PathsOf(init) + {last.path};
      LastIsTop(files);
      assert Covered(PathsOf(files), p) <==> Covered(PathsOf(init), p) || Under(p, last.path);
    }
  }

  lemma LastIsTop(files: seq<VaultFile>)
    requires files != [] && S.Sorted(files, FileLeq)
    ensures forall q :: q in PathsOf(files) ==> !Under(files[|files| - 1].path, q)
    ensures !Covered(PathsOf(files), files[|files| - 1].path)
  {
    var last := files[|files| - 1];
    forall q | q in PathsOf(files) ensures !Under(last.path, q) {
      var i :| 0 <= i < |files| && files[i].path == q;
      StrOrder();
      assert StrLeq(q, last.path);
      if Under(last.path, q) { UnderIsAfter(last.path, q); }
    }
  }

  // ---------------------------------------------------------------- order

  lemma FileOrder()
    ensures S.TotalOrder(FileLeq)
  {
    StrOrder();
    forall a, b, c | S.Chain(FileLeq, a, b, c) ensures FileLeq(a, c) { assert S.Chain(StrLeq, a.path, b.path, c.path); }
  }

  lemma LastOf(files: seq<VaultFile>, f: VaultFile, path: string)
    ensures LastBytes(files + [f], path) == if f.path == path then Some(f.bytes) else LastBytes(files, path)
  {
    assert (files + [f])[..|files|] == files;
  }

  lemma {:induction false} LastBytesAppend(a: seq<VaultFile>, b: seq<VaultFile>, p: string)
    ensures LastBytes(a + b, p) == if LastBytes(b, p).Some? then LastBytes(b, p) else LastBytes(a, p)
  {
    if b == [] {
      assert a + b == a;
    } else {
      assert (a + b)[..|a + b| - 1] == a + b[..|b| - 1];
      LastBytesAppend(a, b[..|b| - 1], p);
    }
  }

  lemma {:induction false} InsertLast(x: VaultFile, s: seq<VaultFile>, p: string)
    ensures LastBytes(S.Insert(x, s, FileLeq), p) == LastBytes([x] + s, p)
  {
    if s != [] && !FileLeq(x, s[0]) {
      InsertLast(x, s[1..], p);
      var r := S.Insert(x, s[1..], FileLeq);
      LastBytesAppend([s[0]], r, p);
      LastBytesAppend([x], s[1..], p);
      assert [x] + s == [x, s[0]] + s[1..];
      LastBytesAppend([x, s[0]], s[1..], p);
      StrOrder();
      assert x.path != s[0].path;
      TwoFiles(x, s[0], p);
      assert LastBytes([s[0]] + r, p) == if LastBytes(r, p).Some? then LastBytes(r, p) else LastBytes([s[0]], p);
    }
  }

  lemma TwoFiles(x: VaultFile, y: VaultFile, p: string)
    ensures LastBytes([x, y], p) == if y.path == p then Some(y.bytes) else LastBytes([x], p)
    ensures LastBytes([x], p) == if x.path == p then Some(x.bytes) else None
  {
    assert [x, y][..1] == [x] && [x][..0] == [];
  }

  /** Sorting by path is stable, so the last bytes of a path stay the last. */
  lemma {:induction false} SortKeepsLast(s: seq<VaultFile>, p: string)
    ensures LastBytes(S.Sort(s, FileLeq), p) == LastBytes(s, p)
  {
    if s != [] {
      SortKeepsLast(s[1..], p);
      InsertLast(s[0], S.Sort(s[1..], FileLeq), p);
      LastBytesAppend([s[0]], S.Sort(s[1..], FileLeq), p);
      LastBytesAppend([s[0]], s[1..], p);
      assert s == [s[0]] + s[1..];
    }
  }

  /** What a list of files means, sorted first. */
  function Written(files: seq<VaultFile>): Tree { Import(S.Sort(files, FileLeq)) }

  lemma WrittenIs(files: seq<VaultFile>, p: string)
    ensures p in Written(files) <==> p in PathsOf(files) && !Covered(PathsOf(files), p)
    ensures p in Written(files) ==> LastBytes(files, p) == Some(Written(files)[p])
  {
    FileOrder();
    S.SortSorts(files, FileLeq);
    S.SortHas(files, FileLeq);
    ImportIs(S.Sort(files, FileLeq), p);
    SortKeepsLast(files, p);
    assert PathsOf(S.Sort(files, FileLeq)) == PathsOf(files);
  }

  // ---------------------------------------------------------------- trees

  /** No path lies inside another. */
  ghost predicate IsTree(t: Tree) { forall p, q :: p in t && q in t ==> !Under(p, q) }

  lemma ImportIsTree(files: seq<VaultFile>)
    ensures IsTree(Written(files))
  {
    forall p, q | p in Written(files) && q in Written(files) ensures !Under(p, q) {
      WrittenIs(files, p);
      WrittenIs(files, q);
    }
  }

  /** Above every path of a finite set lies one that nothing is inside of. */
  lemma {:induction false} TopAbove(paths: set<string>, p: string) returns (q: string)
    requires p in paths
    ensures q in paths && !Covered(paths, q) && (q == p || Under(p, q))
    decreases |Longer(paths, |p|)|
  {
    if !Covered(paths, p) {
      q := p;
    } else {
      var r :| r in paths && Under(p, r);
      assert |r| > |p|;
      LongerShrinks(paths, p, r);
      q := TopAbove(paths, r);
      if q != r { UnderTrans(p, r, q); }
    }
  }

  lemma UnderTrans(p: string, q: string, r: string)
    requires Under(p, q) && Under(q, r)
    ensures Under(p, r)
  {}

  function Longer(paths: set<string>, k: nat): set<string> { set x | x in paths && |x| > k }

  lemma LongerShrinks(paths: set<string>, p: string, r: string)
    requires r in paths && |r| > |p|
    ensures |Longer(paths, |r|)| < |Longer(paths, |p|)|
  {
    var a, b := Longer(paths, |p|), Longer(paths, |r|);
    assert b <= a - {r};
    Sets.SubsetSize(b, a - {r});
  }
}
