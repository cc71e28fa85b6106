/**
  Extent pruning, as the SQLite catalog does it: statistics decide which
  extents a query need not read.  The float rounding, the vector geometry and
  its lower bound are parameters.
 */
module Pruning {
  import opened Options
  import S = Sorting
  import T = Text

  datatype Json =
    | Null | Bool(b: bool) | Int(i: int) | Num(r: real) | Str(s: string)
    | Arr(items: seq<Json>) | Obj(fields: map<string, Json>)

  type Vector = seq<real>

  /** `round` takes a number to the nearest float; `within` says that a vector
      lies in an extent's ball, `bound` is the lower bound computed from it;
      `mixed` is what a range means between values that do not compare. */
  datatype World = World(
    round: real -> real,
    within: (Vector, seq<real>, real) -> bool, dist: (Vector, Vector) -> real,
    bound: (Vector, seq<real>, real) -> Option<real>,
    mixed: (Json, Json, Json) -> bool)

  ghost predicate WorldOk(w: World) {
    && (forall a, b :: a <= b ==> w.round(a) <= w.round(b))
    && (forall q, v, c, r :: w.within(v, c, r) && w.bound(q, c, r).Some? ==> w.bound(q, c, r).value <= w.dist(q, v))
  }

  datatype Extent = Extent(id: nat, live: bool, min: Option<int>, max: Option<int>, stats: Json, presentPaths: seq<string>)

  datatype ColumnPrune =
    | Equals(v: Json)
    | InSet(vs: seq<Json>)
    | Between(low: Json, high: Json)
    | ContainsTokens(tokens: seq<string>)
    | VectorDistance(query: Vector, threshold: real)

  datatype Prune = Prune(timeRange: Option<(int, int)>, requiredPaths: seq<string>, columns: seq<(string, ColumnPrune)>)

  // ---------------------------------------------------------------- reading statistics

  function Get(j: Json, key: string): Option<Json> { if j.Obj? && key in j.fields then Some(j.fields[key]) else None }

  function Stat(stats: Json, col: string, name: string): Option<Json> {
    match Get(stats, col)
    case None => None
    case Some(c) => Get(c, name)
  }

  function ArrayStat(stats: Json, col: string, name: string): Option<seq<Json>> {
    var s := Stat(stats, col, name);
    if s.Some? && s.value.Arr? then Some(s.value.items) else None
  }

  function AsFloat(w: World, j: Json): Option<real> {
    match j
    case Int(i) => Some(w.round(i as real))
    case Num(r) => Some(w.round(r))
    case _ => None
  }

  function Floats(w: World, items: seq<Json>): seq<real> {
    if items == [] then [] else (if AsFloat(w, items[0]).Some? then [AsFloat(w, items[0]).value] else []) + Floats(w, items[1..])
  }

  predicate InRange(w: World, x: Json, low: Json, high: Json) {
    if AsFloat(w, x).Some? && AsFloat(w, low).Some? && AsFloat(w, high).Some? then
      AsFloat(w, low).value <= AsFloat(w, x).value <= AsFloat(w, high).value
    else if x.Str? && low.Str? && high.Str? then T.StrLeq(low.s, x.s) && T.StrLeq(x.s, high.s)
    else true
  }

  predicate KeepByVector(w: World, stats: Json, col: string, query: Vector, threshold: real) {
    var vec := Stat(stats, col, "vec");
    if vec.None? then true
    else
      var centroid, radius := Get(vec.value, "centroid"), Get(vec.value, "radius");
      if centroid.None? || !centroid.value.Arr? then true
      else if radius.None? || AsFloat(w, radius.value).None? then true
      else
        match w.bound(query, Floats(w, centroid.value.items), AsFloat(w, radius.value).value)
        case None => true
        case Some(lb) => lb < threshold
  }

  // ---------------------------------------------------------------- keeping an extent

  predicate KeepsTime(range: Option<(int, int)>, m: Extent) {
    range.Some? && m.min.Some? && m.max.Some? ==> m.max.value >= range.value.0 && m.min.value < range.value.1
  }

  predicate KeepsPaths(paths: seq<string>, m: Extent) { forall p :: p in paths ==> p in m.presentPaths }

  predicate KeepsColumn(w: World, col: string, p: ColumnPrune, m: Extent) {
    match p
    case Equals(v) => var d := ArrayStat(m.stats, col, "distinct"); d.Some? ==> v in d.value
    case InSet(vs) => var d := ArrayStat(m.stats, col, "distinct"); d.Some? ==> exists v :: v in vs && v in d.value
    case Between(low, high) =>
      var d := ArrayStat(m.stats, col, "distinct"); d.Some? ==> exists x :: x in d.value && InRange(w, x, low, high)
    case ContainsTokens(tokens) =>
      var toks := ArrayStat(m.stats, col, "tokens"); toks.Some? ==> forall t :: t in tokens ==> Str(t) in toks.value
    case VectorDistance(query, threshold) => KeepByVector(w, m.stats, col, query, threshold)
  }

  predicate Keeps(w: World, prune: Prune, m: Extent) {
    && KeepsTime(prune.timeRange, m) && KeepsPaths(prune.requiredPaths, m)
    && forall c :: c in prune.columns ==> KeepsColumn(w, c.0, c.1, m)
  }

  // ---------------------------------------------------------------- listing

  function Filter<A>(s: seq<A>, keep: A -> bool): seq<A> {
    if s == [] then [] else (if keep(s[0]) then [s[0]] else []) + Filter(s[1..], keep)
  }

  /** Newest first by minimum timestamp, unknown bounds last. */
  predicate NewestFirst(a: Extent, b: Extent) {
    if a.min.Some? && b.min.Some? then a.min.value >= b.min.value else a.min.Some? || b.min.None?
  }

  predicate IsLive(m: Extent) { m.live }

  function Keeper(w: World, prune: Prune): Extent -> bool { (m: Extent) => Keeps(w, prune, m) }

  function Listed(w: World, rows: seq<Extent>, prune: Prune): seq<Extent> {
    S.Sort(Filter(Filter(rows, IsLive), Keeper(w, prune)), NewestFirst)
  }

  lemma {:induction false} FilterTwice<A(!new)>(s: seq<A>, p: A -> bool, q: A -> bool, r: A -> bool)
    requires forall x :: x in s ==> (r(x) <==> p(x) && q(x))
    ensures Filter(Filter(s, p), q) == Filter(s, r)
  {
    if s != [] {
      assert s[0] in s && forall x :: x in s[1..] ==> x in s;
      FilterTwice(s[1..], p, q, r);
      if p(s[0]) {
        var rest := Filter(s[1..], p);
        assert Filter(s, p) == [s[0]] + rest && ([s[0]] + rest)[1..] == rest;
      } else {
        assert [] + Filter(s[1..], p) == Filter(s[1..], p);
      }
    }
  }

  lemma {:induction false} FilterAll<A(!new)>(s: seq<A>, p: A -> bool)
    requires forall x :: x in s ==> p(x)
    ensures Filter(s, p) == s
  {
    if s != [] {
      assert s[0] in s && forall x :: x in s[1..] ==> x in s;
      FilterAll(s[1..], p);
      assert s == [s[0]] + s[1..];
    }
  }

  /** What is left after the time, the paths and the first `k` column filters. */
  predicate KeepsUpTo(w: World, prune: Prune, k: nat, m: Extent)
    requires k <= |prune.columns|
  {
    && KeepsTime(prune.timeRange, m) && KeepsPaths(prune.requiredPaths, m)
    && forall c :: c in prune.columns[..k] ==> KeepsColumn(w, c.0, c.1, m)
  }

  /** The catalog's own sequence of in-place filters, then its sort. */
  method ListExtents(w: World, rows: seq<Extent>, prune: Prune) returns (out: seq<Extent>)
    ensures out == Listed(w, rows, prune)
  {
    out := Filter(rows, IsLive);
    ghost var live := out;
    if prune.timeRange.Some? {
      out := Filter(out, (m: Extent) => KeepsTime(prune.timeRange, m));
    } else {
      FilterAll(live, (m: Extent) => KeepsTime(prune.timeRange, m));
    }
    assert out == Filter(live, (m: Extent) => KeepsTime(prune.timeRange, m));
    ghost var timed := out;
    if prune.requiredPaths != [] {
      out := Filter(out, (m: Extent) => KeepsPaths(prune.requiredPaths, m));
    } else {
      FilterAll(timed, (m: Extent) => KeepsPaths(prune.requiredPaths, m));
    }
    FilterTwice(live, (m: Extent) => KeepsTime(prune.timeRange, m), (m: Extent) => KeepsPaths(prune.requiredPaths, m),
                (m: Extent) => KeepsUpTo(w, prune, 0, m));
    for k := 0 to |prune.columns|
      invariant out == Filter(live, (m: Extent) => KeepsUpTo(w, prune, k, m))
    {
      var (col, pred) := prune.columns[k];
      assert prune.columns[..k + 1] == prune.columns[..k] + [(col, pred)];
      FilterTwice(live, (m: Extent) => KeepsUpTo(w, prune, k, m), (m: Extent) => KeepsColumn(w, col, pred, m),
                  (m: Extent) => KeepsUpTo(w, prune, k + 1, m));
      out := Filter(out, (m: Extent) => KeepsColumn(w, col, pred, m));
    }
    assert prune.columns[..|prune.columns|] == prune.columns;
    FilterSame(live, (m: Extent) => KeepsUpTo(w, prune, |prune.columns|, m), Keeper(w, prune));
    out := S.Sort(out, NewestFirst);
  }

  lemma {:induction false} FilterSame<A(!new)>(s: seq<A>, p: A -> bool, q: A -> bool)
    requires forall x :: x in s ==> (p(x) <==> q(x))
    ensures Filter(s, p) == Filter(s, q)
  {
    if s != [] {
      assert s[0] in s && forall x :: x in s[1..] ==> x in s;
      FilterSame(s[1..], p, q);
    }
  }

  // ---------------------------------------------------------------- what a query asks

  datatype Row = Row(ts: Option<int>, paths: set<string>, cols: map<string, Json>,
                     tokens: map<string, set<string>>, vectors: map<string, Vector>)

  /** The exact numeric value, before any rounding. */
  function Exact(j: Json): Option<real> {
    match j
    case Int(i) => Some(i as real)
    case Num(r) => Some(r)
    case _ => None
  }

  predicate TrulyBetween(w: World, x: Json, low: Json, high: Json) {
    if Exact(x).Some? && Exact(low).Some? && Exact(high).Some? then Exact(low).value <= Exact(x).value <= Exact(high).value
    else if x.Str? && low.Str? && high.Str? then T.StrLeq(low.s, x.s) && T.StrLeq(x.s, high.s)
    else w.mixed(x, low, high)
  }

  predicate MatchesColumn(w: World, col: string, p: ColumnPrune, row: Row) {
    match p
    case Equals(v) => col in row.cols && row.cols[col] == v
    case InSet(vs) => col in row.cols && row.cols[col] in vs
    case Between(low, high) => col in row.cols && TrulyBetween(w, row.cols[col], low, high)
    case ContainsTokens(tokens) => col in row.tokens && forall t :: t in tokens ==> t in row.tokens[col]
    case VectorDistance(query, threshold) => col in row.vectors && w.dist(query, row.vectors[col]) < threshold
  }

  predicate Matches(w: World, prune: Prune, row: Row) {
    && (prune.timeRange.Some? ==> row.ts.Some? && prune.timeRange.value.0 <= row.ts.value < prune.timeRange.value.1)
    && (forall p :: p in prune.requiredPaths ==> p in row.paths)
    && (forall c :: c in prune.columns ==> MatchesColumn(w, c.0, c.1, row))
  }

  /** The statistics say the truth about one row of the extent. */
  ghost predicate Describes(w: World, m: Extent, row: Row) {
    && (row.ts.Some? && m.min.Some? && m.max.Some? ==> m.min.value <= row.ts.value <= m.max.value)
    && (forall p :: p in row.paths ==> p in m.presentPaths)
    && (forall col :: col in row.cols ==> DescribesValue(m, row, col))
    && (forall col :: col in row.tokens ==> DescribesTokens(m, row, col))
    && (forall col :: col in row.vectors ==> DescribesVector(w, m, row, col))
  }

  predicate DescribesValue(m: Extent, row: Row, col: string)
    requires col in row.cols
  {
    var d := ArrayStat(m.stats, col, "distinct"); d.Some? ==> row.cols[col] in d.value
  }

  predicate DescribesTokens(m: Extent, row: Row, col: string)
    requires col in row.tokens
  {
    var d := ArrayStat(m.stats, col, "tokens"); d.Some? ==> forall t :: t in row.tokens[col] ==> Str(t) in d.value
  }

  predicate DescribesVector(w: World, m: Extent, row: Row, col: string)
    requires col in row.vectors
  {
    var vec := Stat(m.stats, col, "vec");
    vec.Some? ==>
      var c, r := Get(vec.value, "centroid"), Get(vec.value, "radius");
      c.Some? && c.value.Arr? && r.Some? && AsFloat(w, r.value).Some? ==>
        w.within(row.vectors[col], Floats(w, c.value.items), AsFloat(w, r.value).value)
  }

  // ---------------------------------------------------------------- pruning loses nothing

  /** The range test stays sound under any monotone rounding. */
  lemma BetweenSurvivesRounding(w: World, x: Json, low: Json, high: Json)
    requires WorldOk(w) && TrulyBetween(w, x, low, high)
    ensures InRange(w, x, low, high)
  {}

  lemma ColumnIsSound(w: World, col: string, p: ColumnPrune, m: Extent, row: Row)
    requires WorldOk(w) && Describes(w, m, row) && MatchesColumn(w, col, p, row)
    ensures KeepsColumn(w, col, p, m)
  {
    match p
    case Equals(v) => assert DescribesValue(m, row, col);
    case InSet(vs) => assert DescribesValue(m, row, col);
    case Between(low, high) =>
      assert DescribesValue(m, row, col);
      BetweenSurvivesRounding(w, row.cols[col], low, high);
    case ContainsTokens(tokens) => assert DescribesTokens(m, row, col);
    case VectorDistance(query, threshold) => VectorIsSound(w, col, query, threshold, m, row);
  }

  lemma VectorIsSound(w: World, col: string, query: Vector, threshold: real, m: Extent, row: Row)
    requires WorldOk(w) && col in row.vectors && DescribesVector(w, m, row, col)
    requires w.dist(query, row.vectors[col]) < threshold
    ensures KeepByVector(w, m.stats, col, query, threshold)
  {
    var vec := Stat(m.stats, col, "vec");
    if vec.Some? {
      var c, r := Get(vec.value, "centroid"), Get(vec.value, "radius");
      if c.Some? && c.value.Arr? && r.Some? && AsFloat(w, r.value).Some? {
        assert w.within(row.vectors[col], Floats(w, c.value.items), AsFloat(w, r.value).value);
        BoundHolds(w, query, row.vectors[col], Floats(w, c.value.items), AsFloat(w, r.value).value);
      }
    }
  }

  lemma BoundHolds(w: World, q: Vector, v: Vector, c: seq<real>, r: real)
    requires WorldOk(w) && w.within(v, c, r)
    ensures w.bound(q, c, r).Some? ==> w.bound(q, c, r).value <= w.dist(q, v)
  {}

  lemma KeepsIsSound(w: World, prune: Prune, m: Extent, row: Row)
    requires WorldOk(w) && Describes(w, m, row) && Matches(w, prune, row)
    ensures Keeps(w, prune, m)
  {
    forall c | c in prune.columns ensures KeepsColumn(w, c.0, c.1, m) {
      ColumnIsSound(w, c.0, c.1, m, row);
    }
  }

  function MatchingRows(w: World, prune: Prune, rows: seq<Row>): seq<Row> { Filter(rows, (r: Row) => Matches(w, prune, r)) }

  /** The query's result over some extents, rows with their multiplicity. */
  function Answers(w: World, prune: Prune, extents: seq<Extent>, contents: Extent -> seq<Row>): multiset<Row> {
    if extents == [] then multiset{}
    else multiset(MatchingRows(w, prune, contents(extents[0]))) + Answers(w, prune, extents[1..], contents)
  }

  ghost predicate Described(w: World, m: Extent, rows: seq<Row>) { forall r :: r in rows ==> Describes(w, m, r) }

  lemma {:induction false} DroppedHasNone(w: World, prune: Prune, m: Extent, rows: seq<Row>)
    requires WorldOk(w) && !Keeps(w, prune, m) && Described(w, m, rows)
    ensures MatchingRows(w, prune, rows) == []
  {
    if rows != [] {
      assert rows[0] in rows && forall r :: r in rows[1..] ==> r in rows;
      if Matches(w, prune, rows[0]) { KeepsIsSound(w, prune, m, rows[0]); }
      DroppedHasNone(w, prune, m, rows[1..]);
    }
  }

  lemma {:induction false} FilterKeepsAnswers(w: World, prune: Prune, extents: seq<Extent>, contents: Extent -> seq<Row>)
    requires WorldOk(w) && forall m :: m in extents ==> Described(w, m, contents(m))
    ensures Answers(w, prune, Filter(extents, Keeper(w, prune)), contents) == Answers(w, prune, extents, contents)
  {
    if extents != [] {
      var m, rest := extents[0], Filter(extents[1..], Keeper(w, prune));
      assert m in extents && forall x :: x in extents[1..] ==> x in extents;
      FilterKeepsAnswers(w, prune, extents[1..], contents);
      if Keeps(w, prune, m) {
        assert ([m] + rest)[1..] == rest;
      } else {
        DroppedHasNone(w, prune, m, contents(m));
        assert [] + rest == rest;
      }
    }
  }

  lemma {:induction false} InsertKeepsAnswers(w: World, prune: Prune, x: Extent, s: seq<Extent>, contents: Extent -> seq<Row>)
    ensures Answers(w, prune, S.Insert(x, s, NewestFirst), contents) == Answers(w, prune, [x] + s, contents)
  {
    assert ([x] + s)[1..] == s;
    if s != [] && !NewestFirst(x, s[0]) {
      InsertKeepsAnswers(w, prune, x, s[1..], contents);
      var r := S.Insert(x, s[1..], NewestFirst);
      assert ([s[0]] + r)[1..] == r && ([x] + s[1..])[1..] == s[1..];
    }
  }

  lemma {:induction false} SortKeepsAnswers(w: World, prune: Prune, s: seq<Extent>, contents: Extent -> seq<Row>)
    ensures Answers(w, prune, S.Sort(s, NewestFirst), contents) == Answers(w, prune, s, contents)
  {
    if s != [] {
      SortKeepsAnswers(w, prune, s[1..], contents);
      InsertKeepsAnswers(w, prune, s[0], S.Sort(s[1..], NewestFirst), contents);
      assert ([s[0]] + S.Sort(s[1..], NewestFirst))[1..] == S.Sort(s[1..], NewestFirst);
    }
  }

  /** Pruning never loses a row: the query over the listed extents gives the
      very rows it gives over all live ones, however often each occurs. */
  lemma PruningLosesNothing(w: World, rows: seq<Extent>, prune: Prune, contents: Extent -> seq<Row>)
    requires WorldOk(w) && forall m :: m in rows ==> Described(w, m, contents(m))
    ensures Answers(w, prune, Listed(w, rows, prune), contents)
      == Answers(w, prune, Filter(rows, IsLive), contents)
  {
    var live := Filter(rows, IsLive);
    FilterWithin(rows, IsLive);
    SortKeepsAnswers(w, prune, Filter(live, Keeper(w, prune)), contents);
    FilterKeepsAnswers(w, prune, live, contents);
  }

  lemma {:induction false} FilterWithin<A(!new)>(s: seq<A>, p: A -> bool)
    ensures forall x :: x in Filter(s, p) <==> x in s && p(x)
  {
    if s != [] {
      FilterWithin(s[1..], p);
      assert s == [s[0]] + s[1..];
    }
  }

  /** The predicates come out of a hash map in any order; the listing is the same. */
  lemma PredicateOrderIsIrrelevant(w: World, rows: seq<Extent>, a: Prune, b: Prune)
    requires a.timeRange == b.timeRange && (forall p :: p in a.requiredPaths <==> p in b.requiredPaths)
    requires forall c :: c in a.columns <==> c in b.columns
    ensures Listed(w, rows, a) == Listed(w, rows, b)
  {
    var live := Filter(rows, IsLive);
    FilterSame(live, Keeper(w, a), Keeper(w, b));
  }

  /** The listing has exactly the live extents that are kept, newest first and
      unknown bounds last. */
  lemma ListingIsSorted(w: World, rows: seq<Extent>, prune: Prune)
    ensures S.Sorted(Listed(w, rows, prune), NewestFirst)
    ensures var out := Listed(w, rows, prune);
      forall i, j :: 0 <= i < j < |out| && out[j].min.Some? ==> out[i].min.Some? && out[i].min.value >= out[j].min.value
    ensures forall m :: m in Listed(w, rows, prune) <==> m in rows && m.live && Keeps(w, prune, m)
  {
    var live := Filter(rows, IsLive);
    var kept := Filter(live, Keeper(w, prune));
    assert S.TotalOrder(NewestFirst);
    S.SortSorts(kept, NewestFirst);
    S.SortHas(kept, NewestFirst);
    FilterWithin(rows, IsLive);
    FilterWithin(live, Keeper(w, prune));
  }

  /** Among extents with one lower bound the listing keeps the rows' order. */
  lemma TiesKeepOrder(w: World, rows: seq<Extent>, prune: Prune, bound: Option<int>)
    ensures var tie := (m: Extent) => m.min == bound;
      Filter(Listed(w, rows, prune), tie) == Filter(Filter(Filter(rows, IsLive), Keeper(w, prune)), tie)
  {
    SortKeepsTies(Filter(Filter(rows, IsLive), Keeper(w, prune)), bound);
  }

  lemma {:induction false} SortKeepsTies(s: seq<Extent>, bound: Option<int>)
    ensures var tie := (m: Extent) => m.min == bound; Filter(S.Sort(s, NewestFirst), tie) == Filter(s, tie)
  {
    if s != [] {
      SortKeepsTies(s[1..], bound);
      InsertKeepsTies(s[0], S.Sort(s[1..], NewestFirst), bound);
    }
  }

  lemma {:induction false} InsertKeepsTies(x: Extent, s: seq<Extent>, bound: Option<int>)
    ensures var tie := (m: Extent) => m.min == bound;
      Filter(S.Insert(x, s, NewestFirst), tie) == (if tie(x) then [x] else []) + Filter(s, tie)
  {
    var tie := (m: Extent) => m.min == bound;
    if s == [] || NewestFirst(x, s[0]) {
      assert ([x] + s)[1..] == s;
    } else {
      InsertKeepsTies(x, s[1..], bound);
      var r := S.Insert(x, s[1..], NewestFirst);
      assert ([s[0]] + r)[1..] == r;
      assert !(tie(x) && tie(s[0]));
      assert [] + Filter(s[1..], tie) == Filter(s[1..], tie);
    }
  }

  // ---------------------------------------------------------------- pruning is tight

  const Blank := Row(None, {}, map[], map[], map[])

  /** Statistics that say nothing against it: some row they describe matches. */
  ghost predicate CouldMatch(w: World, prune: Prune, m: Extent) {
    exists row :: Describes(w, m, row) && Matches(w, prune, row)
  }

  ghost predicate ColumnCouldMatch(w: World, col: string, p: ColumnPrune, m: Extent) {
    exists row :: Describes(w, m, row) && MatchesColumn(w, col, p, row)
  }

  /** A sensible time range keeps an extent only if some row within its bounds
      falls into the range. */
  lemma TimeIsTight(w: World, range: (int, int), m: Extent)
    requires WorldOk(w) && range.0 < range.1 && (m.min.Some? && m.max.Some? ==> m.min.value <= m.max.value)
    ensures KeepsTime(Some(range), m) <==> CouldMatch(w, Prune(Some(range), [], []), m)
  {
    var lowest := if m.min.Some? && m.min.value > range.0 then m.min.value else range.0;
    if KeepsTime(Some(range), m) {
      var row := if m.min.Some? && m.max.Some? then Blank.(ts := Some(lowest)) else Blank.(ts := Some(range.0));
      assert Describes(w, m, row) && Matches(w, Prune(Some(range), [], []), row);
    }
    if CouldMatch(w, Prune(Some(range), [], []), m) {
      var row :| Describes(w, m, row) && Matches(w, Prune(Some(range), [], []), row);
    }
  }

  lemma PathsAreTight(w: World, paths: seq<string>, m: Extent)
    requires WorldOk(w)
    ensures KeepsPaths(paths, m) <==> CouldMatch(w, Prune(None, paths, []), m)
  {
    if KeepsPaths(paths, m) {
      var row := Blank.(paths := set p | p in paths);
      assert Describes(w, m, row) && Matches(w, Prune(None, paths, []), row);
    }
  }

  lemma ValueIsTight(w: World, col: string, m: Extent, v: Json)
    requires ArrayStat(m.stats, col, "distinct").Some? ==> v in ArrayStat(m.stats, col, "distinct").value
    ensures Describes(w, m, Blank.(cols := map[col := v]))
  {
    var row := Blank.(cols := map[col := v]);
    forall c | c in row.cols ensures DescribesValue(m, row, c) {}
  }

  /** An equality, a set or a range keeps an extent exactly when some value its
      statistics allow satisfies it; a range, where numbers are exact. */
  lemma ValuesAreTight(w: World, col: string, p: ColumnPrune, m: Extent)
    requires WorldOk(w) && (p.Equals? || (p.InSet? && p.vs != []) || p.Between?)
    requires p.Between? ==> (forall r :: w.round(r) == r) && (forall x, a, b :: w.mixed(x, a, b))
    requires p.Between? ==> exists x :: TrulyBetween(w, x, p.low, p.high)
    ensures KeepsColumn(w, col, p, m) <==> ColumnCouldMatch(w, col, p, m)
  {
    if KeepsColumn(w, col, p, m) {
      var v := AllowedValue(w, col, p, m);
      ValueIsTight(w, col, m, v);
      assert MatchesColumn(w, col, p, Blank.(cols := map[col := v]));
    }
    if ColumnCouldMatch(w, col, p, m) {
      var row :| Describes(w, m, row) && MatchesColumn(w, col, p, row);
      ColumnIsSound(w, col, p, m, row);
    }
  }

  lemma AllowedValue(w: World, col: string, p: ColumnPrune, m: Extent) returns (v: Json)
    requires (p.Equals? || (p.InSet? && p.vs != []) || p.Between?) && KeepsColumn(w, col, p, m)
    requires p.Between? ==> (forall r :: w.round(r) == r) && (forall x, a, b :: w.mixed(x, a, b))
    requires p.Between? ==> exists x :: TrulyBetween(w, x, p.low, p.high)
    ensures MatchesColumn(w, col, p, Blank.(cols := map[col := v]))
    ensures ArrayStat(m.stats, col, "distinct").Some? ==> v in ArrayStat(m.stats, col, "distinct").value
  {
    var d := ArrayStat(m.stats, col, "distinct");
    match p
    case Equals(x) => v := x;
    case InSet(vs) => if d.Some? { v :| v in vs && v in d.value; } else { v := vs[0]; }
    case Between(low, high) =>
      if d.Some? { v :| v in d.value && InRange(w, v, low, high); } else { v :| TrulyBetween(w, v, low, high); }
  }

  /** So does a token filter. */
  lemma TokensAreTight(w: World, col: string, tokens: seq<string>, m: Extent)
    requires WorldOk(w)
    ensures KeepsColumn(w, col, ContainsTokens(tokens), m) <==> ColumnCouldMatch(w, col, ContainsTokens(tokens), m)
  {
    var p := ContainsTokens(tokens);
    if KeepsColumn(w, col, p, m) {
      var row := Blank.(tokens := map[col := set t | t in tokens]);
      forall c | c in row.tokens ensures DescribesTokens(m, row, c) {}
      assert Describes(w, m, row) && MatchesColumn(w, col, p, row);
    }
    if ColumnCouldMatch(w, col, p, m) {
      var row :| Describes(w, m, row) && MatchesColumn(w, col, p, row);
      ColumnIsSound(w, col, p, m, row);
    }
  }

  /** A vector filter drops an extent exactly when its ball is recorded and the
      lower bound computed from it reaches the threshold. */
  lemma VectorDroppedIff(w: World, col: string, query: Vector, threshold: real, m: Extent)
    ensures !KeepsColumn(w, col, VectorDistance(query, threshold), m) <==>
      exists vec, items, radius :: Stat(m.stats, col, "vec") == Some(vec)
        && Get(vec, "centroid") == Some(Arr(items)) && Get(vec, "radius") == Some(radius) && AsFloat(w, radius).Some?
        && w.bound(query, Floats(w, items), AsFloat(w, radius).value).Some?
        && w.bound(query, Floats(w, items), AsFloat(w, radius).value).value >= threshold
  {
    var vec := Stat(m.stats, col, "vec");
    if !KeepsColumn(w, col, VectorDistance(query, threshold), m) {
      var items := Get(vec.value, "centroid").value.items;
      assert Get(vec.value, "centroid") == Some(Arr(items));
    }
  }
}
