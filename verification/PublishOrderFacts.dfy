/** What a completed layering means, and when there is none. */
module PublishOrderFacts {
  import Sets
  import opened PublishOrder

  /** One crate needs another, both to be published. */
  predicate Needs(ws: Workspace, crates: set<string>, a: string, b: string) { a in crates && b in crates && b in Deps(ws, a) }

  /** A dependency chain among the crates to publish. */
  predicate IsChain(ws: Workspace, crates: set<string>, p: seq<string>) {
    p != [] && p[0] in crates && forall i :: 0 <= i < |p| - 1 ==> Needs(ws, crates, p[i], p[i + 1])
  }

  ghost predicate HasCycle(ws: Workspace, crates: set<string>) {
    exists p :: IsChain(ws, crates, p) && Needs(ws, crates, p[|p| - 1], p[0])
  }

  // ---------------------------------------------------------------- layer numbers

  lemma {:induction false} DoneGrows(layers: seq<seq<string>>, j: nat, k: nat)
    requires j <= k <= |layers|
    ensures DoneAfter(layers[..j]) <= DoneAfter(layers[..k])
    ensures forall i :: j <= i < k ==> Members(layers[i]) <= DoneAfter(layers[..k])
    decreases k
  {
    if j < k {
      assert layers[..k][..k - 1] == layers[..k - 1];
      DoneGrows(layers, j, k - 1);
    }
  }

  /** Everything done is in one of the layers. */
  lemma {:induction false} InSomeLayer(layers: seq<seq<string>>, k: nat, n: string) returns (i: nat)
    requires k <= |layers| && n in DoneAfter(layers[..k])
    ensures i < k && n in Members(layers[i])
    decreases k
  {
    assert layers[..k][..k - 1] == layers[..k - 1];
    if n in Members(layers[k - 1]) { i := k - 1; } else { i := InSomeLayer(layers, k - 1, n); }
  }

  /** A crate's needs are in strictly earlier layers. */
  lemma NeedIsEarlier(ws: Workspace, crates: set<string>, layers: seq<seq<string>>, i: nat, a: string, b: string) returns (j: nat)
    requires Layered(ws, crates, layers) && i < |layers| && a in Members(layers[i]) && Needs(ws, crates, a, b)
    ensures j < i && b in Members(layers[j])
  {
    assert IsLayer(ws, crates, layers[..i], layers[i]);
    assert b in Deps(ws, a) * crates;
    j := InSomeLayer(layers, i, b);
  }

  /** No crate is in two layers. */
  lemma OneLayer(ws: Workspace, crates: set<string>, layers: seq<seq<string>>, i: nat, j: nat, n: string)
    requires Layered(ws, crates, layers) && i < |layers| && j < |layers| && n in Members(layers[i]) && n in Members(layers[j])
    ensures i == j
  {
    if i < j { LaterIsNew(ws, crates, layers, i, j, n); }
    if j < i { LaterIsNew(ws, crates, layers, j, i, n); }
  }

  lemma LaterIsNew(ws: Workspace, crates: set<string>, layers: seq<seq<string>>, i: nat, j: nat, n: string)
    requires Layered(ws, crates, layers) && i < j < |layers| && n in Members(layers[i])
    ensures n !in Members(layers[j])
  {
    assert IsLayer(ws, crates, layers[..j], layers[j]);
    DoneGrows(layers, i, j);
  }

  predicate InLayer(layers: seq<seq<string>>, i: nat, n: string) { i < |layers| && n in Members(layers[i]) }

  /** The layers are a partition of the crates, each need strictly earlier. */
  lemma LayersPartition(ws: Workspace, crates: set<string>, layers: seq<seq<string>>)
    requires Complete(ws, crates, layers)
    ensures forall n :: n in crates <==> exists i :: InLayer(layers, i, n)
    ensures forall i, j, n :: InLayer(layers, i, n) && InLayer(layers, j, n) ==> i == j
    ensures forall i, j, a, b :: InLayer(layers, i, a) && InLayer(layers, j, b) && Needs(ws, crates, a, b) ==> j < i
  {
    assert layers[..|layers|] == layers;
    forall n | n in crates ensures exists i :: InLayer(layers, i, n) {
      var i := InSomeLayer(layers, |layers|, n);
      assert InLayer(layers, i, n);
    }
    forall i, n | InLayer(layers, i, n) ensures n in crates {
      DoneGrows(layers, i, |layers|);
    }
    forall i, j, n | InLayer(layers, i, n) && InLayer(layers, j, n) ensures i == j {
      OneLayer(ws, crates, layers, i, j, n);
    }
    forall i, j, a, b | InLayer(layers, i, a) && InLayer(layers, j, b) && Needs(ws, crates, a, b) ensures j < i {
      var k := NeedIsEarlier(ws, crates, layers, i, a, b);
      OneLayer(ws, crates, layers, j, k, b);
    }
  }

  // ---------------------------------------------------------------- longest chains

  lemma {:induction false} ChainFits(ws: Workspace, crates: set<string>, layers: seq<seq<string>>, i: nat, p: seq<string>)
    requires Layered(ws, crates, layers) && i < |layers| && IsChain(ws, crates, p) && p[0] in Members(layers[i])
    ensures |p| <= i + 1
    decreases i
  {
    if |p| > 1 {
      assert Needs(ws, crates, p[0], p[1]);
      var j := NeedIsEarlier(ws, crates, layers, i, p[0], p[1]);
      assert IsChain(ws, crates, p[1..]);
      ChainFits(ws, crates, layers, j, p[1..]);
    }
  }

  /** In every layer but the first, a crate needs one of the layer before. */
  lemma NeedsPrevious(ws: Workspace, crates: set<string>, layers: seq<seq<string>>, i: nat, n: string) returns (d: string)
    requires Layered(ws, crates, layers) && 0 < i < |layers| && n in Members(layers[i])
    ensures d in Members(layers[i - 1]) && Needs(ws, crates, n, d)
  {
    assert IsLayer(ws, crates, layers[..i], layers[i]) && IsLayer(ws, crates, layers[..i - 1], layers[i - 1]);
    assert layers[..i][..i - 1] == layers[..i - 1];
    var earlier := DoneAfter(layers[..i - 1]);
    assert n !in Ready(ws, crates, earlier);
    d :| d in Deps(ws, n) * crates && d !in earlier;
  }

  lemma {:induction false} LongChain(ws: Workspace, crates: set<string>, layers: seq<seq<string>>, i: nat, n: string) returns (p: seq<string>)
    requires Layered(ws, crates, layers) && i < |layers| && n in Members(layers[i])
    ensures IsChain(ws, crates, p) && p[0] == n && |p| == i + 1
    decreases i
  {
    assert IsLayer(ws, crates, layers[..i], layers[i]);
    if i == 0 {
      p := [n];
    } else {
      var d := NeedsPrevious(ws, crates, layers, i, n);
      var q := LongChain(ws, crates, layers, i - 1, d);
      p := [n] + q;
    }
  }

  ghost predicate ChainFrom(ws: Workspace, crates: set<string>, n: string, k: nat) {
    exists p :: IsChain(ws, crates, p) && p[0] == n && |p| == k
  }

  /** A crate's layer number is the length of its longest dependency chain. */
  lemma LayerIsLongestChain(ws: Workspace, crates: set<string>, layers: seq<seq<string>>, i: nat, n: string)
    requires Layered(ws, crates, layers) && i < |layers| && n in Members(layers[i])
    ensures ChainFrom(ws, crates, n, i + 1) && forall k :: k > i + 1 ==> !ChainFrom(ws, crates, n, k)
  {
    var p := LongChain(ws, crates, layers, i, n);
    forall k | k > i + 1 ensures !ChainFrom(ws, crates, n, k) {
      if ChainFrom(ws, crates, n, k) {
        var q :| IsChain(ws, crates, q) && q[0] == n && |q| == k;
        ChainFits(ws, crates, layers, i, q);
      }
    }
  }

  // ---------------------------------------------------------------- cycles

  /** Along a chain the layer numbers fall. */
  lemma {:induction false} ChainFalls(ws: Workspace, crates: set<string>, layers: seq<seq<string>>, p: seq<string>, i: nat) returns (j: nat)
    requires Layered(ws, crates, layers) && IsChain(ws, crates, p) && i < |layers| && p[0] in Members(layers[i])
    ensures j <= i && p[|p| - 1] in Members(layers[j])
    decreases |p|
  {
    if |p| == 1 {
      j := i;
    } else {
      assert Needs(ws, crates, p[0], p[1]);
      var k := NeedIsEarlier(ws, crates, layers, i, p[0], p[1]);
      assert IsChain(ws, crates, p[1..]);
      j := ChainFalls(ws, crates, layers, p[1..], k);
    }
  }

  lemma CompleteHasNoCycle(ws: Workspace, crates: set<string>, layers: seq<seq<string>>)
    requires Complete(ws, crates, layers)
    ensures !HasCycle(ws, crates)
  {
    assert layers[..|layers|] == layers;
    forall p | IsChain(ws, crates, p) ensures !Needs(ws, crates, p[|p| - 1], p[0]) {
      if Needs(ws, crates, p[|p| - 1], p[0]) {
        var i := InSomeLayer(layers, |layers|, p[0]);
        var j := ChainFalls(ws, crates, layers, p, i);
        var k := NeedIsEarlier(ws, crates, layers, j, p[|p| - 1], p[0]);
        OneLayer(ws, crates, layers, i, k, p[0]);
      }
    }
  }

  /** Where every crate left needs another one left, chains go on for ever. */
  lemma {:induction false} WalkOn(ws: Workspace, crates: set<string>, left: set<string>, n: string, k: nat) returns (p: seq<string>)
    requires left <= crates && n in left && forall m :: m in left ==> Deps(ws, m) * left != {}
    ensures IsChain(ws, crates, p) && |p| == k + 1 && (forall i :: 0 <= i < |p| ==> p[i] in left) && p[0] == n
    decreases k
  {
    if k == 0 {
      p := [n];
    } else {
      var d :| d in Deps(ws, n) * left;
      var q := WalkOn(ws, crates, left, d, k - 1);
      p := [n] + q;
    }
  }

  predicate AllDistinct(p: seq<string>) { forall a, b :: 0 <= a < b < |p| ==> p[a] != p[b] }

  /** More places than names: some name comes twice. */
  lemma Pigeonhole(p: seq<string>, names: set<string>)
    requires |p| > |names| && forall k :: 0 <= k < |p| ==> p[k] in names
    ensures !AllDistinct(p)
  {
    if AllDistinct(p) {
      DistinctSize(p);
      Sets.SubsetSize(Members(p), names);
    }
  }

  lemma {:induction false} DistinctSize(p: seq<string>)
    requires AllDistinct(p)
    ensures |Members(p)| == |p|
  {
    if p != [] {
      var init, last := p[..|p| - 1], p[|p| - 1];
      DistinctSize(init);
      assert p == init + [last];
      assert Members(p) == Members(init) + {last};
    }
  }

  /** A chain that comes back to a crate closes a cycle. */
  lemma ReturnClosesCycle(ws: Workspace, crates: set<string>, p: seq<string>)
    requires IsChain(ws, crates, p) && !AllDistinct(p)
    ensures HasCycle(ws, crates)
  {
    var i, j :| 0 <= i < j < |p| && p[i] == p[j];
    var q := p[i..j];
    assert Needs(ws, crates, p[j - 1], p[j]);
    assert q[0] == p[i] && q[|q| - 1] == p[j - 1];
    StretchIsChain(ws, crates, p, i, j);
  }

  lemma StretchIsChain(ws: Workspace, crates: set<string>, p: seq<string>, i: nat, j: nat)
    requires IsChain(ws, crates, p) && i < j < |p|
    ensures IsChain(ws, crates, p[i..j])
  {
    var q := p[i..j];
    forall k | 0 <= k < |q| - 1 ensures Needs(ws, crates, q[k], q[k + 1]) {
      assert q[k] == p[i + k] && q[k + 1] == p[i + k + 1];
    }
    assert Needs(ws, crates, p[i], p[i + 1]);
  }

  lemma LeftNeedsLeft(ws: Workspace, crates: set<string>, done: set<string>, m: string)
    requires Ready(ws, crates, done) == {} && m in crates && m !in done
    ensures Deps(ws, m) * (crates - done) != {}
  {
    assert m !in Ready(ws, crates, done);
    var d :| d in Deps(ws, m) * crates && d !in done;
    assert d in Deps(ws, m) * (crates - done);
  }

  lemma StuckHasCycle(ws: Workspace, crates: set<string>, layers: seq<seq<string>>, stuck: seq<string>)
    requires StuckAt(ws, crates, layers, stuck)
    ensures HasCycle(ws, crates)
  {
    var done := DoneAfter(layers);
    var left := crates - done;
    forall m | m in left ensures Deps(ws, m) * left != {} { LeftNeedsLeft(ws, crates, done, m); }
    var n :| n in left;
    var p := WalkOn(ws, crates, left, n, |left|);
    Pigeonhole(p, left);
    ReturnClosesCycle(ws, crates, p);
  }

  /** The script raises its cycle error exactly when the crates to publish have
      a dependency cycle among them; otherwise it returns a complete layering. */
  method PublishOrLocateCycle(ws: Workspace, root: string) returns (r: Result, ghost crates: set<string>)
    ensures r.MissingRoot? <==> root !in ws
    ensures root in ws ==> IsScope(ws, root, crates) && (r.Cycle? <==> HasCycle(ws, crates))
    ensures r.Layers? ==> Complete(ws, crates, r.layers)
  {
    ghost var layers;
    r, crates, layers := PublishLayers(ws, root);
    if r.Layers? { CompleteHasNoCycle(ws, crates, layers); }
    if r.Cycle? { StuckHasCycle(ws, crates, layers, r.stuck); }
  }

  // ---------------------------------------------------------------- the flat list

  function Flat(layers: seq<seq<string>>): seq<string> {
    if layers == [] then [] else Flat(layers[..|layers| - 1]) + layers[|layers| - 1]
  }

  lemma {:induction false} FlatHas(layers: seq<seq<string>>)
    ensures forall n :: n in Flat(layers) <==> n in DoneAfter(layers)
  {
    if layers != [] { FlatHas(layers[..|layers| - 1]); }
  }

  /** In the printed list every crate comes after all it needs. */
  lemma {:induction false} FlatIsOrdered(ws: Workspace, crates: set<string>, layers: seq<seq<string>>, a: string, b: string, i: nat)
    requires Layered(ws, crates, layers) && i < |Flat(layers)| && Flat(layers)[i] == a && Needs(ws, crates, a, b)
    ensures exists j :: 0 <= j < i && Flat(layers)[j] == b
  {
    var k := |layers| - 1;
    var init := layers[..k];
    var before := Flat(init);
    assert Layered(ws, crates, init) by {
      forall x | 0 <= x < |init| ensures IsLayer(ws, crates, init[..x], init[x]) {
        assert init[..x] == layers[..x] && IsLayer(ws, crates, layers[..x], layers[x]);
      }
    }
    if i < |before| {
      FlatIsOrdered(ws, crates, init, a, b, i);
      var j :| 0 <= j < i && before[j] == b;
      assert Flat(layers)[j] == b;
    } else {
      assert IsLayer(ws, crates, init, layers[k]) && a in Members(layers[k]);
      assert b in Deps(ws, a) * crates;
      FlatHas(init);
      var j :| 0 <= j < |before| && before[j] == b;
      assert Flat(layers)[j] == b;
    }
  }
}
