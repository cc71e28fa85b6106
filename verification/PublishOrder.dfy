/**
  The publish order of a workspace: everything the root crate needs, grouped so
  that each crate comes after all its dependencies.
 */
module PublishOrder {
  import opened Options
  import S = Sorting
  import Sets
  import T = Text

  datatype Dep = Dep(name: string, kind: Option<string>)

  /** `publish` is the registry list; an empty one means never publish. */
  datatype Package = Package(publish: Option<seq<string>>, dependencies: seq<Dep>)

  type Workspace = map<string, Package>

  datatype Result = Layers(layers: seq<seq<string>>) | MissingRoot | Cycle(stuck: seq<string>)

  /** Workspace-internal dependencies that are not for development or builds. */
  function Deps(ws: Workspace, n: string): set<string> {
    if n in ws then set d | d in ws[n].dependencies && d.name in ws && d.kind.None? :: d.name else {}
  }

  function Unpublishable(ws: Workspace): set<string> { set n | n in ws && ws[n].publish == Some([]) }

  /** A crate waits for the workspace members it names as plain dependencies,
      not for its development or build dependencies. */
  lemma DepsMeans(ws: Workspace, n: string, d: string)
    ensures d in Deps(ws, n) <==> n in ws && d in ws && Dep(d, None) in ws[n].dependencies
  {
    if d in Deps(ws, n) {
      var dep :| dep in ws[n].dependencies && dep.name in ws && dep.kind.None? && dep.name == d;
      assert dep == Dep(d, None);
    }
  }

  lemma UnpublishableMeans(ws: Workspace, n: string)
    ensures n in Unpublishable(ws) <==> n in ws && ws[n].publish == Some([])
  {}

  // ---------------------------------------------------------------- paths

  /** Each crate depends on the next. */
  predicate IsPath(ws: Workspace, p: seq<string>) {
    p != [] && forall i :: 0 <= i < |p| - 1 ==> p[i + 1] in Deps(ws, p[i])
  }

  ghost predicate Reaches(ws: Workspace, a: string, b: string) {
    exists p :: IsPath(ws, p) && p[0] == a && p[|p| - 1] == b
  }

  lemma ReachesSelf(ws: Workspace, a: string)
    ensures Reaches(ws, a, a)
  {
    assert IsPath(ws, [a]) && [a][0] == a && [a][|[a]| - 1] == a;
  }

  lemma ReachesDep(ws: Workspace, a: string, b: string, c: string)
    requires Reaches(ws, a, b) && c in Deps(ws, b)
    ensures Reaches(ws, a, c)
  {
    var p :| IsPath(ws, p) && p[0] == a && p[|p| - 1] == b;
    var q := p + [c];
    assert IsPath(ws, q) && q[0] == a && q[|q| - 1] == c;
  }

  /** A set that holds its members' dependencies holds what they reach. */
  lemma {:induction false} ClosedHolds(ws: Workspace, closed: set<string>, p: seq<string>)
    requires (forall n :: n in closed ==> Deps(ws, n) <= closed) && IsPath(ws, p) && p[0] in closed
    ensures p[|p| - 1] in closed
    decreases |p|
  {
    if |p| > 1 {
      assert p[1] in Deps(ws, p[0]);
      ClosedHolds(ws, closed, p[1..]);
    }
  }

  /** Every dependency of a visited crate is visited or still on the stack. */
  ghost predicate Frontier(ws: Workspace, closure: set<string>, stack: seq<string>) {
    forall n, d :: n in closure && d in Deps(ws, n) ==> d in closure || d in stack
  }

  lemma VisitKeepsFrontier(ws: Workspace, closure: set<string>, stack: seq<string>, n: string, more: seq<string>)
    requires Frontier(ws, closure, stack + [n]) && forall d :: d in Deps(ws, n) ==> d in more
    ensures Frontier(ws, closure + {n}, stack + more)
  {
    forall m, d | m in closure + {n} && d in Deps(ws, m) ensures d in closure + {n} || d in stack + more {
      assert m in closure ==> d in closure || d in stack + [n];
    }
  }

  lemma SkipKeepsFrontier(ws: Workspace, closure: set<string>, stack: seq<string>, n: string)
    requires Frontier(ws, closure, stack + [n]) && n in closure
    ensures Frontier(ws, closure, stack)
  {
    forall m, d | m in closure && d in Deps(ws, m) ensures d in closure || d in stack {
      assert d in closure || d in stack + [n];
    }
  }

  method Elements(s: set<string>) returns (r: seq<string>)
    ensures forall x :: x in r <==> x in s
  {
    r := [];
    var rest := s;
    while rest != {}
      invariant forall x :: x in s <==> x in rest || x in r
      decreases |rest|
    {
      var x :| x in rest;
      rest := rest - {x};
      r := r + [x];
    }
  }

  /** The stack-driven search from the root; dependencies come in any order. */
  method Closure(ws: Workspace, root: string) returns (closure: set<string>)
    requires root in ws
    ensures forall n :: n in closure <==> Reaches(ws, root, n)
  {
    closure := {};
    var stack := [root];
    ReachesSelf(ws, root);
    while stack != []
      invariant closure <= ws.Keys && (forall n :: n in stack ==> n in ws && Reaches(ws, root, n))
      invariant forall n :: n in closure ==> Reaches(ws, root, n)
      invariant Frontier(ws, closure, stack)
      invariant root in closure || root in stack
      decreases |ws.Keys - closure|, |stack|
    {
      var n := stack[|stack| - 1];
      assert stack == stack[..|stack| - 1] + [n];
      stack := stack[..|stack| - 1];
      if n in closure {
        SkipKeepsFrontier(ws, closure, stack, n);
        continue;
      }
      var more := Elements(Deps(ws, n));
      VisitKeepsFrontier(ws, closure, stack, n, more);
      VisitReaches(ws, root, n, more);
      VisitShrinks(ws.Keys, closure, n);
      closure := closure + {n};
      stack := stack + more;
    }
    ClosedIsReach(ws, root, closure);
  }

  lemma VisitReaches(ws: Workspace, root: string, n: string, more: seq<string>)
    requires Reaches(ws, root, n) && forall d :: d in more ==> d in Deps(ws, n)
    ensures forall d :: d in more ==> d in ws && Reaches(ws, root, d)
  {
    forall d | d in more ensures d in ws && Reaches(ws, root, d) { ReachesDep(ws, root, n, d); }
  }

  lemma VisitShrinks(all: set<string>, closure: set<string>, n: string)
    requires n in all && n !in closure
    ensures |all - (closure + {n})| < |all - closure|
  {
    assert all - (closure + {n}) == all - closure - {n};
  }

  lemma ClosedIsReach(ws: Workspace, root: string, closure: set<string>)
    requires Frontier(ws, closure, []) && root in closure && forall n :: n in closure ==> Reaches(ws, root, n)
    ensures forall n :: n in closure <==> Reaches(ws, root, n)
  {
    forall n | Reaches(ws, root, n) ensures n in closure {
      var p :| IsPath(ws, p) && p[0] == root && p[|p| - 1] == n;
      ClosedHolds(ws, closure, p);
    }
  }

  // ---------------------------------------------------------------- layers

  /** The crates whose needed dependencies are all done. */
  function Ready(ws: Workspace, crates: set<string>, done: set<string>): set<string> {
    set n | n in crates && n !in done && Deps(ws, n) * crates <= done
  }

  function Members(layer: seq<string>): set<string> { set n | n in layer }

  function DoneAfter(layers: seq<seq<string>>): set<string> {
    if layers == [] then {} else DoneAfter(layers[..|layers| - 1]) + Members(layers[|layers| - 1])
  }

  /** Each layer lists, in name order, what was ready when it was its turn. */
  ghost predicate Layered(ws: Workspace, crates: set<string>, layers: seq<seq<string>>) {
    forall k :: 0 <= k < |layers| ==> IsLayer(ws, crates, layers[..k], layers[k])
  }

  predicate IsLayer(ws: Workspace, crates: set<string>, before: seq<seq<string>>, layer: seq<string>) {
    layer != [] && S.Ascending(layer, T.StrLeq) && Members(layer) == Ready(ws, crates, DoneAfter(before))
  }

  /** What the script publishes: reachable from the root and publishable. */
  ghost predicate IsScope(ws: Workspace, root: string, crates: set<string>) {
    forall n :: n in crates <==> Reaches(ws, root, n) && n !in Unpublishable(ws)
  }

  ghost predicate Complete(ws: Workspace, crates: set<string>, layers: seq<seq<string>>) {
    Layered(ws, crates, layers) && DoneAfter(layers) == crates
  }

  /** Layering got nowhere: something is left and nothing is ready. */
  ghost predicate StuckAt(ws: Workspace, crates: set<string>, layers: seq<seq<string>>, stuck: seq<string>) {
    && Layered(ws, crates, layers) && DoneAfter(layers) < crates && Ready(ws, crates, DoneAfter(layers)) == {}
    && S.Ascending(stuck, T.StrLeq) && Members(stuck) == crates - DoneAfter(layers)
  }

  lemma InOrderLists(s: set<string>)
    ensures S.Ascending(T.Ordered(s), T.StrLeq) && Members(T.Ordered(s)) == s
  {
    T.OrderedIs(s);
  }

  /** Listing a non-empty ready set is a layer, and leaves less to do. */
  lemma NextLayer(ws: Workspace, crates: set<string>, layers: seq<seq<string>>, layer: seq<string>)
    requires Layered(ws, crates, layers) && DoneAfter(layers) <= crates && layer != []
    requires layer == T.Ordered(Ready(ws, crates, DoneAfter(layers)))
    ensures Layered(ws, crates, layers + [layer]) && DoneAfter(layers + [layer]) == DoneAfter(layers) + Members(layer)
    ensures DoneAfter(layers + [layer]) <= crates
    ensures |crates - DoneAfter(layers + [layer])| < |crates - DoneAfter(layers)|
  {
    InOrderLists(Ready(ws, crates, DoneAfter(layers)));
    assert IsLayer(ws, crates, layers, layer);
    LayeredAppend(ws, crates, layers, layer);
    assert layer[0] in Members(layer);
    LessLeft(crates, DoneAfter(layers), Members(layer), layer[0]);
  }

  lemma LessLeft(crates: set<string>, done: set<string>, more: set<string>, n: string)
    requires n in more && n in crates && n !in done
    ensures |crates - (done + more)| < |crates - done|
  {
    Sets.SubsetSize(crates - (done + more), crates - done - {n});
  }

  lemma LayeredAppend(ws: Workspace, crates: set<string>, layers: seq<seq<string>>, layer: seq<string>)
    requires Layered(ws, crates, layers) && IsLayer(ws, crates, layers, layer)
    ensures Layered(ws, crates, layers + [layer])
    ensures DoneAfter(layers + [layer]) == DoneAfter(layers) + Members(layer)
  {
    var more := layers + [layer];
    forall k | 0 <= k < |more| ensures IsLayer(ws, crates, more[..k], more[k]) {
      if k < |layers| { assert more[..k] == layers[..k]; } else { assert more[..k] == layers; }
    }
    assert more[..|layers|] == layers;
  }

  /** The Kahn loop. */
  method Layering(ws: Workspace, crates: set<string>) returns (r: Result, ghost layers: seq<seq<string>>)
    ensures !r.MissingRoot? && (r.Layers? ==> r.layers == layers && Complete(ws, crates, layers))
    ensures r.Cycle? ==> StuckAt(ws, crates, layers, r.stuck)
  {
    var out: seq<seq<string>>, done: set<string> := [], {};
    layers := out;
    while done != crates
      invariant layers == out && Layered(ws, crates, out) && done == DoneAfter(out) && done <= crates
      decreases |crates - done|
    {
      var ready := set n | n in crates && n !in done && Deps(ws, n) * crates <= done;
      assert ready == Ready(ws, crates, done);
      var layer := T.InOrder(ready);
      InOrderLists(ready);
      if layer == [] {
        var stuck := T.InOrder(crates - done);
        InOrderLists(crates - done);
        assert Members([]) == {};
        return Cycle(stuck), out;
      }
      NextLayer(ws, crates, out, layer);
      out := out + [layer];
      done := done + set n | n in layer;
      layers := out;
    }
    r := Layers(out);
  }

  /** The whole script, up to printing. */
  method PublishLayers(ws: Workspace, root: string) returns (r: Result, ghost crates: set<string>, ghost layers: seq<seq<string>>)
    ensures r.MissingRoot? <==> root !in ws
    ensures root in ws ==> IsScope(ws, root, crates)
    ensures r.Layers? ==> r.layers == layers && Complete(ws, crates, layers)
    ensures r.Cycle? ==> StuckAt(ws, crates, layers, r.stuck)
  {
    crates, layers := {}, [];
    if root !in ws { return MissingRoot, {}, []; }
    var closure := Closure(ws, root);
    closure := closure - Unpublishable(ws);
    crates := closure;
    r, layers := Layering(ws, closure);
  }
}
