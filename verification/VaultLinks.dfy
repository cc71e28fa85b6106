/**
  Related links: from the edges among included notes to the short sorted list
  under each note.
 */
module VaultLinks {
  import opened Options
  import opened BrainTypes
  import opened Text
  import S = Sorting

  const RELATED_CAP := 8

  function Bare(nodeId: string): string { if "memory:" <= nodeId then nodeId[7..] else nodeId }

  /** Node ids may carry the prefix or not. */
  lemma BareIs(id: string)
    ensures Bare("memory:" + id) == id
    ensures !("memory:" <= id) ==> Bare(id) == id
  {
    assert ("memory:" + id)[7..] == id;
  }

  /** Another note and the type of the edge between. */
  type Neighbour = (string, string)

  // ---------------------------------------------------------------- orders

  /** Lexicographic on two keys. */
  predicate PairLeq(a: (string, string), b: (string, string)) {
    if a.0 == b.0 then StrLeq(a.1, b.1) else StrLeq(a.0, b.0)
  }

  predicate EdgeLeq(a: EdgeRow, b: EdgeRow) {
    if a.src == b.src then PairLeq((a.dst, a.edgeType), (b.dst, b.edgeType)) else StrLeq(a.src, b.src)
  }

  function LinkKey(l: RelatedLink): (string, string) { (l.edgeType, l.target) }

  predicate LinkLeq(a: RelatedLink, b: RelatedLink) { PairLeq(LinkKey(a), LinkKey(b)) }

  lemma PairFacts(a: (string, string), b: (string, string), c: (string, string))
    ensures PairLeq(a, b) || PairLeq(b, a)
    ensures PairLeq(a, b) && PairLeq(b, a) ==> a == b
    ensures PairLeq(a, b) && PairLeq(b, c) ==> PairLeq(a, c)
  {
    StrTotal(a.0, b.0);
    StrTotal(a.1, b.1);
    StrTotal(b.0, c.0);
    if PairLeq(a, b) && PairLeq(b, c) {
      if a.0 == b.0 == c.0 { StrTrans(a.1, b.1, c.1); } else { StrTrans(a.0, b.0, c.0); }
    }
  }

  lemma EdgeFacts(a: EdgeRow, b: EdgeRow, c: EdgeRow)
    ensures EdgeLeq(a, b) || EdgeLeq(b, a)
    ensures EdgeLeq(a, b) && EdgeLeq(b, a) ==> a == b
    ensures EdgeLeq(a, b) && EdgeLeq(b, c) ==> EdgeLeq(a, c)
  {
    StrTotal(a.src, b.src);
    StrTotal(b.src, c.src);
    PairFacts((a.dst, a.edgeType), (b.dst, b.edgeType), (c.dst, c.edgeType));
    if EdgeLeq(a, b) && EdgeLeq(b, c) {
      if a.src != b.src || b.src != c.src { StrTrans(a.src, b.src, c.src); }
    }
  }

  lemma EdgeOrder()
    ensures S.TotalOrder(EdgeLeq)
    ensures forall a, b {:trigger EdgeLeq(a, b), EdgeLeq(b, a)} :: EdgeLeq(a, b) && EdgeLeq(b, a) ==> a == b
  {
    forall a, b ensures EdgeLeq(a, b) || EdgeLeq(b, a) { EdgeFacts(a, b, a); }
    forall a, b | EdgeLeq(a, b) && EdgeLeq(b, a) ensures a == b { EdgeFacts(a, b, a); }
    forall a, b, c | S.Chain(EdgeLeq, a, b, c) ensures EdgeLeq(a, c) { EdgeFacts(a, b, c); }
  }

  lemma LinkOrder()
    ensures S.TotalOrder(LinkLeq) && S.SameIsTie(LinkLeq, SameKey)
  {
    forall a, b ensures SameKey(a, b) <==> LinkLeq(a, b) && LinkLeq(b, a) {
      PairFacts(LinkKey(a), LinkKey(b), LinkKey(a));
    }
    forall a, b ensures LinkLeq(a, b) || LinkLeq(b, a) { PairFacts(LinkKey(a), LinkKey(b), LinkKey(a)); }
    forall a, b, c | S.Chain(LinkLeq, a, b, c) ensures LinkLeq(a, c) { PairFacts(LinkKey(a), LinkKey(b), LinkKey(c)); }
  }

  // ---------------------------------------------------------------- neighbours

  /** What one edge says about `from`, if both ends are included and differ. */
  function NeighbourOf(from: string, ids: set<string>, e: EdgeRow): Option<Neighbour> {
    var src, dst := Bare(e.src), Bare(e.dst);
    if src == dst || src !in ids || dst !in ids then None
    else if src == from then Some((dst, e.edgeType))
    else if dst == from then Some((src, e.edgeType))
    else None
  }

  /** The neighbours of a note in the order their edges come, each once. */
  function Neighbours(from: string, ids: set<string>, edges: seq<EdgeRow>): (r: seq<Neighbour>)
    ensures forall i, j :: 0 <= i < j < |r| ==> r[i] != r[j]
    ensures forall n :: n in r ==> n.0 in ids && n.0 != from && from in ids
  {
    if edges == [] then []
    else
      var r := Neighbours(from, ids, edges[..|edges| - 1]);
      var n := NeighbourOf(from, ids, edges[|edges| - 1]);
      if n.Some? && n.value !in r then r + [n.value] else r
  }

  /** Some edge of type `n.1` joins the two, in either direction. */
  ghost predicate Linked(from: string, n: Neighbour, ids: set<string>, edges: seq<EdgeRow>) {
    exists e :: e in edges && NeighbourOf(from, ids, e) == Some(n)
  }

  lemma {:induction false} NeighboursAreLinked(from: string, ids: set<string>, edges: seq<EdgeRow>, n: Neighbour)
    ensures n in Neighbours(from, ids, edges) <==> Linked(from, n, ids, edges)
  {
    if edges != [] {
      var init, last := edges[..|edges| - 1], edges[|edges| - 1];
      NeighboursAreLinked(from, ids, init, n);
      assert edges == init + [last];
      assert Linked(from, n, ids, edges) <==> Linked(from, n, ids, init) || NeighbourOf(from, ids, last) == Some(n);
    }
  }

  /** Before any list is cut short, links are symmetric. */
  lemma LinksAreSymmetric(a: string, b: string, edgeType: string, ids: set<string>, edges: seq<EdgeRow>)
    ensures (b, edgeType) in Neighbours(a, ids, edges) <==> (a, edgeType) in Neighbours(b, ids, edges)
  {
    NeighboursAreLinked(a, ids, edges, (b, edgeType));
    NeighboursAreLinked(b, ids, edges, (a, edgeType));
    assert forall e :: NeighbourOf(a, ids, e) == Some((b, edgeType)) <==> NeighbourOf(b, ids, e) == Some((a, edgeType));
  }

  /** Repeated edges add nothing. */
  lemma {:induction false} RepeatsAddNothing(from: string, ids: set<string>, edges: seq<EdgeRow>)
    ensures Neighbours(from, ids, edges) == Neighbours(from, ids, S.Firsts(edges))
  {
    if edges != [] {
      var init, last := edges[..|edges| - 1], edges[|edges| - 1];
      var firsts := S.Firsts(init);
      RepeatsAddNothing(from, ids, init);
      if last in firsts {
        var n := NeighbourOf(from, ids, last);
        if n.Some? { NeighboursAreLinked(from, ids, init, n.value); }
      } else {
        assert (firsts + [last])[..|firsts|] == firsts;
      }
    }
  }

  /** Only the set of edges matters, not their order nor their repetitions. */
  lemma EdgeOrderIsIrrelevant(from: string, ids: set<string>, a: seq<EdgeRow>, b: seq<EdgeRow>)
    requires forall e :: e in a <==> e in b
    ensures Neighbours(from, ids, S.Sort(a, EdgeLeq)) == Neighbours(from, ids, S.Sort(b, EdgeLeq))
  {
    EdgeOrder();
    S.SortedSetUnique(a, b, EdgeLeq);
    RepeatsAddNothing(from, ids, S.Sort(a, EdgeLeq));
    RepeatsAddNothing(from, ids, S.Sort(b, EdgeLeq));
  }

  // ---------------------------------------------------------------- the rendered list

  function WithoutMd(path: string): string
    decreases |path|
  {
    if |path| >= 3 && path[|path| - 3..] == ".md" then WithoutMd(path[..|path| - 3]) else path
  }

  function Mds(k: nat): string { if k == 0 then "" else Mds(k - 1) + ".md" }

  lemma Regroup(a: string, b: string, c: string)
    ensures (a + b) + c == a + (b + c)
  {}

  /** Every `.md` at the end goes, and nothing else. */
  lemma {:induction false} WithoutMdIs(path: string) returns (k: nat)
    ensures path == WithoutMd(path) + Mds(k)
    ensures |WithoutMd(path)| >= 3 ==> WithoutMd(path)[|WithoutMd(path)| - 3..] != ".md"
    decreases |path|
  {
    k := 0;
    if |path| >= 3 && path[|path| - 3..] == ".md" {
      var front := path[..|path| - 3];
      k := WithoutMdIs(front);
      assert path == front + ".md";
      Regroup(WithoutMd(front), Mds(k), ".md");
      k := k + 1;
    } else {
      assert path + "" == path;
    }
  }

  function LinkTo(n: Neighbour, rows: map<string, NoteRow>, paths: map<string, string>): RelatedLink
    requires n.0 in rows && n.0 in paths
  {
    RelatedLink(WithoutMd(paths[n.0]), rows[n.0].title, n.1)
  }

  function LinksTo(ns: seq<Neighbour>, rows: map<string, NoteRow>, paths: map<string, string>): seq<RelatedLink>
    requires forall n :: n in ns ==> n.0 in rows && n.0 in paths
  {
    seq(|ns|, i requires 0 <= i < |ns| => LinkTo(ns[i], rows, paths))
  }

  predicate SameKey(a: RelatedLink, b: RelatedLink) { a.target == b.target && a.edgeType == b.edgeType }

  function Capped(links: seq<RelatedLink>): seq<RelatedLink> {
    if |links| > RELATED_CAP then links[..RELATED_CAP] else links
  }

  function Rendered(links: seq<RelatedLink>): seq<RelatedLink> { Capped(S.Dedup(S.Sort(links, LinkLeq), SameKey)) }

  /** The whole list a note's links would make. */
  ghost predicate FullList(full: seq<RelatedLink>, ns: seq<Neighbour>, rows: map<string, NoteRow>, paths: map<string, string>)
    requires forall n :: n in ns ==> n.0 in rows && n.0 in paths
  {
    && S.Ascending(full, LinkLeq)
    && (forall l :: l in full ==> exists n :: n in ns && l == LinkTo(n, rows, paths))
    && (forall n :: n in ns ==> S.Covered(LinkTo(n, rows, paths), full, SameKey))
  }

  /** The rendered list is the first eight, in (edge type, target) order, of
      the links to all neighbours, one for each type and target. */
  lemma FirstEight(ns: seq<Neighbour>, rows: map<string, NoteRow>, paths: map<string, string>) returns (full: seq<RelatedLink>)
    requires forall n :: n in ns ==> n.0 in rows && n.0 in paths
    ensures FullList(full, ns, rows, paths)
    ensures Rendered(LinksTo(ns, rows, paths)) == if |full| > RELATED_CAP then full[..RELATED_CAP] else full
  {
    var links := LinksTo(ns, rows, paths);
    full := S.Dedup(S.Sort(links, LinkLeq), SameKey);
    SortedOnce(links);
    LinksToAre(ns, rows, paths, links);
  }

  lemma LinksToAre(ns: seq<Neighbour>, rows: map<string, NoteRow>, paths: map<string, string>, links: seq<RelatedLink>)
    requires forall n :: n in ns ==> n.0 in rows && n.0 in paths
    requires links == LinksTo(ns, rows, paths)
    ensures forall l :: l in links ==> exists n :: n in ns && l == LinkTo(n, rows, paths)
    ensures forall n :: n in ns ==> LinkTo(n, rows, paths) in links
  {
    forall l | l in links ensures exists n :: n in ns && l == LinkTo(n, rows, paths) {
      var i :| 0 <= i < |links| && links[i] == l;
      assert ns[i] in ns;
    }
    forall n | n in ns ensures LinkTo(n, rows, paths) in links {
      var i :| 0 <= i < |ns| && ns[i] == n;
      assert links[i] == LinkTo(n, rows, paths);
    }
  }

  lemma SortedOnce(links: seq<RelatedLink>)
    ensures var full := S.Dedup(S.Sort(links, LinkLeq), SameKey);
      && S.Ascending(full, LinkLeq) && (forall l :: l in full ==> l in links)
      && (forall l :: l in links ==> S.Covered(l, full, SameKey))
  {
    LinkOrder();
    S.SortSorts(links, LinkLeq);
    S.SortHas(links, LinkLeq);
    var sorted := S.Sort(links, LinkLeq);
    S.DedupWithin(sorted, SameKey);
    S.DedupAscends(sorted, LinkLeq, SameKey);
    forall l | l in links ensures S.Covered(l, S.Dedup(sorted, SameKey), SameKey) {
      S.DedupCovers(sorted, LinkLeq, SameKey, l);
    }
  }

  // ---------------------------------------------------------------- the loops

  function Of(related: map<string, seq<RelatedLink>>, id: string): seq<RelatedLink> {
    if id in related then related[id] else []
  }

  /** The links pushed after `edges`. */
  ghost predicate Pushed(related: map<string, seq<RelatedLink>>, seen: set<(string, string, string)>, edges: seq<EdgeRow>,
                         rows: map<string, NoteRow>, paths: map<string, string>)
    requires paths.Keys == rows.Keys
  {
    && (forall id {:trigger Of(related, id)} :: Of(related, id) == LinksTo(Neighbours(id, rows.Keys, edges), rows, paths))
    && (forall from, to, ty :: (from, to, ty) in seen <==> (to, ty) in Neighbours(from, rows.Keys, edges))
  }

  predicate Took(from: string, to: string, ty: string, rows: map<string, NoteRow>, seen: set<(string, string, string)>) {
    from in rows && to in rows && from != to && (from, to, ty) !in seen
  }

  /** A link is pushed once per direction, pair and type, between included notes. */
  predicate Step(related0: map<string, seq<RelatedLink>>, seen0: set<(string, string, string)>, from: string, to: string,
                 ty: string, rows: map<string, NoteRow>, paths: map<string, string>,
                 related: map<string, seq<RelatedLink>>, seen: set<(string, string, string)>)
    requires paths.Keys == rows.Keys
  {
    if Took(from, to, ty, rows, seen0) then
      && seen == seen0 + {(from, to, ty)}
      && related == related0[from := Of(related0, from) + [LinkTo((to, ty), rows, paths)]]
    else seen == seen0 && related == related0
  }

  /** One direction of one edge. */
  method PushLink(related0: map<string, seq<RelatedLink>>, seen0: set<(string, string, string)>, from: string, to: string,
                  edgeType: string, rows: map<string, NoteRow>, paths: map<string, string>)
    returns (related: map<string, seq<RelatedLink>>, seen: set<(string, string, string)>)
    requires paths.Keys == rows.Keys
    ensures Step(related0, seen0, from, to, edgeType, rows, paths, related, seen)
  {
    related, seen := related0, seen0;
    if from !in rows || to !in rows || from == to { return; }
    if (from, to, edgeType) in seen { return; }
    seen := seen + {(from, to, edgeType)};
    var link := RelatedLink(WithoutMd(paths[to]), rows[to].title, edgeType);
    related := related[from := Of(related, from) + [link]];
  }

  method CollectLinks(edges: seq<EdgeRow>, rows: map<string, NoteRow>, paths: map<string, string>)
    returns (related: map<string, seq<RelatedLink>>)
    requires paths.Keys == rows.Keys
    ensures forall id {:trigger Of(related, id)} ::
      Of(related, id) == LinksTo(Neighbours(id, rows.Keys, S.Sort(edges, EdgeLeq)), rows, paths)
  {
    related := map[];
    var seen := {};
    var sorted := S.Sort(edges, EdgeLeq);
    for i := 0 to |sorted|
      invariant Pushed(related, seen, sorted[..i], rows, paths)
    {
      var e := sorted[i];
      var src, dst := Bare(e.src), Bare(e.dst);
      ghost var related0, seen0 := related, seen;
      related, seen := PushLink(related, seen, src, dst, e.edgeType, rows, paths);
      ghost var related1, seen1 := related, seen;
      related, seen := PushLink(related, seen, dst, src, e.edgeType, rows, paths);
      assert sorted[..i + 1] == sorted[..i] + [e];
      EdgePushed(related0, seen0, related1, seen1, related, seen, sorted[..i], e, rows, paths);
    }
    assert sorted[..|sorted|] == sorted;
  }

  lemma EdgePushed(related0: map<string, seq<RelatedLink>>, seen0: set<(string, string, string)>,
                   related1: map<string, seq<RelatedLink>>, seen1: set<(string, string, string)>,
                   related: map<string, seq<RelatedLink>>, seen: set<(string, string, string)>,
                   edges: seq<EdgeRow>, e: EdgeRow, rows: map<string, NoteRow>, paths: map<string, string>)
    requires paths.Keys == rows.Keys && Pushed(related0, seen0, edges, rows, paths)
    requires Step(related0, seen0, Bare(e.src), Bare(e.dst), e.edgeType, rows, paths, related1, seen1)
    requires Step(related1, seen1, Bare(e.dst), Bare(e.src), e.edgeType, rows, paths, related, seen)
    ensures Pushed(related, seen, edges + [e], rows, paths)
  {
    forall id ensures Of(related, id) == LinksTo(Neighbours(id, rows.Keys, edges + [e]), rows, paths) {
      OneNote(related0, seen0, related1, seen1, related, seen, edges, e, rows, paths, id);
    }
    forall from, to, ty ensures (from, to, ty) in seen <==> (to, ty) in Neighbours(from, rows.Keys, edges + [e]) {
      OneSeen(related0, seen0, related1, seen1, related, seen, edges, e, rows, paths, from, to, ty);
    }
  }

  lemma OneSeen(related0: map<string, seq<RelatedLink>>, seen0: set<(string, string, string)>,
                related1: map<string, seq<RelatedLink>>, seen1: set<(string, string, string)>,
                related: map<string, seq<RelatedLink>>, seen: set<(string, string, string)>,
                edges: seq<EdgeRow>, e: EdgeRow, rows: map<string, NoteRow>, paths: map<string, string>,
                from: string, to: string, ty: string)
    requires paths.Keys == rows.Keys && Pushed(related0, seen0, edges, rows, paths)
    requires Step(related0, seen0, Bare(e.src), Bare(e.dst), e.edgeType, rows, paths, related1, seen1)
    requires Step(related1, seen1, Bare(e.dst), Bare(e.src), e.edgeType, rows, paths, related, seen)
    ensures (from, to, ty) in seen <==> (to, ty) in Neighbours(from, rows.Keys, edges + [e])
  {
    assert (edges + [e])[..|edges|] == edges;
    assert (from, to, ty) in seen0 <==> (to, ty) in Neighbours(from, rows.Keys, edges);
  }

  lemma OneNote(related0: map<string, seq<RelatedLink>>, seen0: set<(string, string, string)>,
                related1: map<string, seq<RelatedLink>>, seen1: set<(string, string, string)>,
                related: map<string, seq<RelatedLink>>, seen: set<(string, string, string)>,
                edges: seq<EdgeRow>, e: EdgeRow, rows: map<string, NoteRow>, paths: map<string, string>, id: string)
    requires paths.Keys == rows.Keys && Pushed(related0, seen0, edges, rows, paths)
    requires Step(related0, seen0, Bare(e.src), Bare(e.dst), e.edgeType, rows, paths, related1, seen1)
    requires Step(related1, seen1, Bare(e.dst), Bare(e.src), e.edgeType, rows, paths, related, seen)
    ensures Of(related, id) == LinksTo(Neighbours(id, rows.Keys, edges + [e]), rows, paths)
  {
    assert (edges + [e])[..|edges|] == edges;
    var ns, n := Neighbours(id, rows.Keys, edges), NeighbourOf(id, rows.Keys, e);
    assert Of(related0, id) == LinksTo(ns, rows, paths);
    if n.Some? && n.value !in ns {
      assert (id, n.value.0, n.value.1) !in seen0;
      assert LinksTo(ns + [n.value], rows, paths) == LinksTo(ns, rows, paths) + [LinkTo(n.value, rows, paths)];
      assert Of(related, id) == Of(related0, id) + [LinkTo(n.value, rows, paths)];
    } else {
      assert n.Some? ==> (id, n.value.0, n.value.1) in seen0;
      assert Of(related, id) == Of(related0, id);
    }
  }
}
