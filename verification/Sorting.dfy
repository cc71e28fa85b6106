/**
  Stable sorting by a comparison, as a function, with what the rest of the
  project needs of it: the result is sorted, a rearrangement, and fixed by its
  elements once no two of them compare equal.
 */
module Sorting {
  ghost predicate TotalOrder<T(!new)>(leq: (T, T) -> bool) {
    && (forall a, b :: leq(a, b) || leq(b, a))
    && (forall a, b, c {:trigger Chain(leq, a, b, c)} :: Chain(leq, a, b, c) ==> leq(a, c))
  }

  predicate Chain<T>(leq: (T, T) -> bool, a: T, b: T, c: T) { leq(a, b) && leq(b, c) }

  predicate Sorted<T>(s: seq<T>, leq: (T, T) -> bool) {
    forall i, j :: 0 <= i < j < |s| ==> leq(s[i], s[j])
  }

  /** No element is below or equal to an earlier one. */
  predicate Ascending<T>(s: seq<T>, leq: (T, T) -> bool) {
    forall i, j :: 0 <= i < j < |s| ==> leq(s[i], s[j]) && !leq(s[j], s[i])
  }

  function Insert<T>(x: T, s: seq<T>, leq: (T, T) -> bool): seq<T> {
    if s == [] then [x] else if leq(x, s[0]) then [x] + s else [s[0]] + Insert(x, s[1..], leq)
  }

  function Sort<T>(s: seq<T>, leq: (T, T) -> bool): seq<T> {
    if s == [] then [] else Insert(s[0], Sort(s[1..], leq), leq)
  }

  lemma Prepend<T(!new)>(x: T, s: seq<T>, leq: (T, T) -> bool)
    requires Sorted(s, leq) && forall y :: y in s ==> leq(x, y)
    ensures Sorted([x] + s, leq)
  {}

  lemma {:induction false} InsertKeeps<T(!new)>(x: T, s: seq<T>, leq: (T, T) -> bool)
    requires TotalOrder(leq) && Sorted(s, leq)
    ensures Sorted(Insert(x, s, leq), leq)
    ensures multiset(Insert(x, s, leq)) == multiset{x} + multiset(s)
    ensures forall y :: y in Insert(x, s, leq) <==> y == x || y in s
  {
    if s != [] {
      assert s == [s[0]] + s[1..];
      if leq(x, s[0]) {
        forall i | 0 <= i < |s| ensures leq(x, s[i]) { assert i == 0 || Chain(leq, x, s[0], s[i]); }
        Prepend(x, s, leq);
      } else {
        InsertKeeps(x, s[1..], leq);
        Prepend(s[0], Insert(x, s[1..], leq), leq);
      }
    }
  }

  lemma {:induction false} SortSorts<T(!new)>(s: seq<T>, leq: (T, T) -> bool)
    requires TotalOrder(leq)
    ensures Sorted(Sort(s, leq), leq)
    ensures multiset(Sort(s, leq)) == multiset(s)
  {
    if s != [] {
      assert s == [s[0]] + s[1..];
      SortSorts(s[1..], leq);
      InsertKeeps(s[0], Sort(s[1..], leq), leq);
    }
  }

  lemma SortHas<T(!new)>(s: seq<T>, leq: (T, T) -> bool)
    requires TotalOrder(leq)
    ensures |Sort(s, leq)| == |s| && forall x :: x in Sort(s, leq) <==> x in s
  {
    SortSorts(s, leq);
    assert |multiset(Sort(s, leq))| == |Sort(s, leq)|;
    forall x ensures x in Sort(s, leq) <==> x in s {
      assert x in multiset(s) <==> x in s;
    }
  }

  lemma HeadOnce<T(!new)>(a: seq<T>, leq: (T, T) -> bool)
    requires TotalOrder(leq) && Ascending(a, leq) && a != []
    ensures forall x :: x in a[1..] <==> x in a && x != a[0]
  {
    assert a == [a[0]] + a[1..];
    assert forall i :: 0 < i < |a| ==> a[i] != a[0];
  }

  /** Ascending sequences with the same elements are the same sequence. */
  lemma {:induction false} AscendingUnique<T(!new)>(a: seq<T>, b: seq<T>, leq: (T, T) -> bool)
    requires TotalOrder(leq) && Ascending(a, leq) && Ascending(b, leq)
    requires forall x :: x in a <==> x in b
    ensures a == b
  {
    assert b != [] ==> b[0] in b;
    if a != [] {
      assert a[0] in a;
      assert a[0] == b[0];
      HeadOnce(a, leq);
      HeadOnce(b, leq);
      AscendingUnique(a[1..], b[1..], leq);
    }
  }

  /** Without ties or repetitions, sorting gives an ascending sequence. */
  lemma {:induction false} SortAscends<T(!new)>(s: seq<T>, leq: (T, T) -> bool)
    requires TotalOrder(leq) && (forall x, y :: leq(x, y) && leq(y, x) ==> x == y)
    requires forall i, j :: 0 <= i < j < |s| ==> s[i] != s[j]
    ensures Ascending(Sort(s, leq), leq)
  {
    if s != [] {
      SortAscends(s[1..], leq);
      SortHas(s[1..], leq);
      assert s[0] !in s[1..];
      InsertAscends(s[0], Sort(s[1..], leq), leq);
    }
  }

  lemma PrependAscends<T(!new)>(x: T, s: seq<T>, leq: (T, T) -> bool)
    requires Ascending(s, leq) && forall y :: y in s ==> leq(x, y) && !leq(y, x)
    ensures Ascending([x] + s, leq)
  {}

  lemma {:induction false} InsertAscends<T(!new)>(x: T, s: seq<T>, leq: (T, T) -> bool)
    requires TotalOrder(leq) && (forall x, y :: leq(x, y) && leq(y, x) ==> x == y)
    requires Ascending(s, leq) && x !in s
    ensures Ascending(Insert(x, s, leq), leq)
    ensures forall y :: y in Insert(x, s, leq) <==> y == x || y in s
  {
    if s != [] {
      assert s == [s[0]] + s[1..];
      if leq(x, s[0]) {
        forall i | 0 <= i < |s| ensures leq(x, s[i]) && !leq(s[i], x) {
          assert i == 0 || Chain(leq, x, s[0], s[i]);
          assert s[i] in s;
        }
        PrependAscends(x, s, leq);
      } else {
        InsertAscends(x, s[1..], leq);
        PrependAscends(s[0], Insert(x, s[1..], leq), leq);
      }
    }
  }

  // ---------------------------------------------------------------- repetitions

  /** The first occurrence of each element, in order. */
  function Firsts<T(==,!new)>(s: seq<T>): (r: seq<T>)
    ensures forall x :: x in r <==> x in s
    ensures forall i, j :: 0 <= i < j < |r| ==> r[i] != r[j]
  {
    if s == [] then []
    else
      var r := Firsts(s[..|s| - 1]);
      assert s == s[..|s| - 1] + [s[|s| - 1]];
      if s[|s| - 1] in r then r else r + [s[|s| - 1]]
  }

  /** Once repetitions are gone, sorting an order without ties gives a sequence
      that depends on the set of elements alone. */
  lemma SortedSetUnique<T(!new)>(a: seq<T>, b: seq<T>, leq: (T, T) -> bool)
    requires TotalOrder(leq) && (forall x, y :: leq(x, y) && leq(y, x) ==> x == y)
    requires forall x :: x in a <==> x in b
    ensures Firsts(Sort(a, leq)) == Firsts(Sort(b, leq))
  {
    SortHas(a, leq);
    SortHas(b, leq);
    SortSorts(a, leq);
    SortSorts(b, leq);
    FirstsAscend(Sort(a, leq), leq);
    FirstsAscend(Sort(b, leq), leq);
    AscendingUnique(Firsts(Sort(a, leq)), Firsts(Sort(b, leq)), leq);
  }

  lemma {:induction false} FirstsAscend<T(!new)>(s: seq<T>, leq: (T, T) -> bool)
    requires TotalOrder(leq) && (forall x, y :: leq(x, y) && leq(y, x) ==> x == y)
    requires Sorted(s, leq)
    ensures Ascending(Firsts(s), leq)
  {
    if s != [] {
      FirstsAscend(s[..|s| - 1], leq);
      var r := Firsts(s[..|s| - 1]);
      forall i | 0 <= i < |r| ensures leq(r[i], s[|s| - 1]) {
        assert r[i] in s[..|s| - 1];
      }
    }
  }

  // ---------------------------------------------------------------- neighbouring duplicates

  /** Of consecutive elements that are the same, the first stays. */
  function Dedup<T>(s: seq<T>, same: (T, T) -> bool): seq<T> {
    if s == [] then []
    else
      var r, last := Dedup(s[..|s| - 1], same), s[|s| - 1];
      if r != [] && same(r[|r| - 1], last) then r else r + [last]
  }

  ghost predicate SameIsTie<T(!new)>(leq: (T, T) -> bool, same: (T, T) -> bool) {
    forall a, b {:trigger same(a, b)} :: same(a, b) <==> leq(a, b) && leq(b, a)
  }

  lemma {:induction false} DedupWithin<T(!new)>(s: seq<T>, same: (T, T) -> bool)
    ensures forall x :: x in Dedup(s, same) ==> x in s
  {
    if s != [] {
      assert s == s[..|s| - 1] + [s[|s| - 1]];
      DedupWithin(s[..|s| - 1], same);
    }
  }

  ghost predicate Covered<T>(x: T, r: seq<T>, same: (T, T) -> bool) { exists i :: 0 <= i < |r| && same(r[i], x) }

  lemma {:induction false} DedupCovers<T(!new)>(s: seq<T>, leq: (T, T) -> bool, same: (T, T) -> bool, x: T)
    requires TotalOrder(leq) && SameIsTie(leq, same) && x in s
    ensures Covered(x, Dedup(s, same), same)
  {
    var init, last := s[..|s| - 1], s[|s| - 1];
    assert s == init + [last];
    var r, r' := Dedup(init, same), Dedup(s, same);
    if x in init {
      DedupCovers(init, leq, same, x);
      var i :| 0 <= i < |r| && same(r[i], x);
      assert r'[i] == r[i];
    } else {
      assert x == last && same(last, last);
      assert same(r'[|r'| - 1], last);
    }
  }

  lemma Append<T(!new)>(r: seq<T>, last: T, leq: (T, T) -> bool)
    requires TotalOrder(leq) && Ascending(r, leq)
    requires r != [] ==> leq(r[|r| - 1], last) && !leq(last, r[|r| - 1])
    ensures Ascending(r + [last], leq)
  {
    forall i | 0 <= i < |r| ensures leq(r[i], last) && !leq(last, r[i]) {
      var top := r[|r| - 1];
      if i < |r| - 1 {
        assert Chain(leq, r[i], top, last);
        assert leq(last, r[i]) ==> Chain(leq, last, r[i], top);
      }
    }
  }

  lemma {:induction false} DedupAscends<T(!new)>(s: seq<T>, leq: (T, T) -> bool, same: (T, T) -> bool)
    requires TotalOrder(leq) && SameIsTie(leq, same) && Sorted(s, leq)
    ensures Ascending(Dedup(s, same), leq)
  {
    if s != [] {
      var init, last := s[..|s| - 1], s[|s| - 1];
      DedupWithin(init, same);
      DedupAscends(init, leq, same);
      var r := Dedup(init, same);
      if r == [] || !same(r[|r| - 1], last) {
        if r != [] { LastIsBelow(s, r[|r| - 1], leq); }
        Append(r, last, leq);
      }
    }
  }

  lemma LastIsBelow<T(!new)>(s: seq<T>, x: T, leq: (T, T) -> bool)
    requires Sorted(s, leq) && s != [] && x in s[..|s| - 1]
    ensures leq(x, s[|s| - 1])
  {
    var i :| 0 <= i < |s| - 1 && s[i] == x;
  }
}
