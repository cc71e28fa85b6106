/**
  The string operations of the brain vault: the byte order of strings, first
  occurrence, replacement, splitting and trimming.
 */
module Text {
  import opened Options
  import S = Sorting

  // ---------------------------------------------------------------- order

  predicate StrLeq(a: string, b: string) {
    a == "" || (b != "" && (a[0] < b[0] || (a[0] == b[0] && StrLeq(a[1..], b[1..]))))
  }

  lemma {:induction false} StrTotal(a: string, b: string)
    ensures StrLeq(a, b) || StrLeq(b, a)
    ensures StrLeq(a, b) && StrLeq(b, a) ==> a == b
  {
    if a != "" && b != "" && a[0] == b[0] {
      StrTotal(a[1..], b[1..]);
      assert a == [a[0]] + a[1..] && b == [b[0]] + b[1..];
    }
  }

  lemma {:induction false} StrTrans(a: string, b: string, c: string)
    requires StrLeq(a, b) && StrLeq(b, c)
    ensures StrLeq(a, c)
  {
    if a != "" && a[0] == b[0] == c[0] { StrTrans(a[1..], b[1..], c[1..]); }
  }

  lemma StrOrder()
    ensures S.TotalOrder(StrLeq)
    ensures forall a, b {:trigger StrLeq(a, b), StrLeq(b, a)} :: StrLeq(a, b) && StrLeq(b, a) ==> a == b
  {
    forall a, b ensures StrLeq(a, b) || StrLeq(b, a) { StrTotal(a, b); }
    forall a, b | StrLeq(a, b) && StrLeq(b, a) ensures a == b { StrTotal(a, b); }
    forall a, b, c | S.Chain(StrLeq, a, b, c) ensures StrLeq(a, c) { StrTrans(a, b, c); }
  }

  /** A string comes before everything it is a proper prefix of. */
  lemma {:induction false} PrefixFirst(a: string, b: string)
    requires a < b
    ensures StrLeq(a, b) && !StrLeq(b, a)
  {
    if a != "" { PrefixFirst(a[1..], b[1..]); }
  }

  /** The least string of a set. */
  lemma {:induction false} HasLeast(s: set<string>) returns (m: string)
    requires s != {}
    ensures m in s && forall x :: x in s ==> StrLeq(m, x)
    decreases |s|
  {
    var x :| x in s;
    StrOrder();
    if s == {x} {
      m := x;
    } else {
      var rest := s - {x};
      assert s == rest + {x};
      var r := HasLeast(rest);
      m := if StrLeq(x, r) then x else r;
      forall y | y in s ensures StrLeq(m, y) { assert y == x || S.Chain(StrLeq, m, r, y); }
    }
  }

  ghost function Least(s: set<string>): (m: string)
    requires s != {}
    ensures m in s && forall x :: x in s ==> StrLeq(m, x)
  {
    assert exists m :: m in s && forall x :: x in s ==> StrLeq(m, x) by { var m := HasLeast(s); }
    var m :| m in s && forall x :: x in s ==> StrLeq(m, x);
    m
  }

  /** The iteration order of a map or set keyed by strings. */
  ghost function Ordered(s: set<string>): seq<string>
    decreases |s|
  {
    if s == {} then [] else [Least(s)] + Ordered(s - {Least(s)})
  }

  lemma {:induction false} OrderedIs(s: set<string>)
    ensures S.Ascending(Ordered(s), StrLeq) && |Ordered(s)| == |s|
    ensures forall x :: x in Ordered(s) <==> x in s
    decreases |s|
  {
    if s != {} {
      var m, rest := Least(s), s - {Least(s)};
      OrderedIs(rest);
      var r := Ordered(rest);
      forall y | y in r ensures StrLeq(m, y) && !StrLeq(y, m) {
        assert y in rest;
        StrTotal(m, y);
      }
      S.PrependAscends(m, r, StrLeq);
    }
  }

  /** A set's strings in order. */
  method InOrder(keys: set<string>) returns (ids: seq<string>)
    ensures ids == Ordered(keys)
  {
    var rest, unsorted := keys, [];
    while rest != {}
      invariant rest <= keys && forall x :: x in keys <==> x in rest || x in unsorted
      invariant forall i, j :: 0 <= i < j < |unsorted| ==> unsorted[i] != unsorted[j]
      invariant forall x :: x in unsorted ==> x !in rest
      decreases |rest|
    {
      var x :| x in rest;
      rest := rest - {x};
      unsorted := unsorted + [x];
    }
    ids := S.Sort(unsorted, StrLeq);
    OrderedFrom(keys, unsorted);
  }

  lemma OrderedFrom(keys: set<string>, unsorted: seq<string>)
    requires forall x :: x in keys <==> x in unsorted
    requires forall i, j :: 0 <= i < j < |unsorted| ==> unsorted[i] != unsorted[j]
    ensures S.Sort(unsorted, StrLeq) == Ordered(keys)
  {
    StrOrder();
    OrderedIs(keys);
    S.SortAscends(unsorted, StrLeq);
    S.SortHas(unsorted, StrLeq);
    S.AscendingUnique(S.Sort(unsorted, StrLeq), Ordered(keys), StrLeq);
  }

  // ---------------------------------------------------------------- occurrences

  predicate At<T(==)>(s: seq<T>, i: int, pat: seq<T>) {
    0 <= i && i + |pat| <= |s| && s[i..i + |pat|] == pat
  }

  function FindFrom<T(==)>(s: seq<T>, pat: seq<T>, k: nat): (r: Option<nat>)
    requires k <= |s|
    ensures r.Some? ==> k <= r.value && At(s, r.value, pat) && forall i :: k <= i < r.value ==> !At(s, i, pat)
    ensures r.None? ==> forall i :: k <= i <= |s| ==> !At(s, i, pat)
    decreases |s| - k
  {
    if At(s, k, pat) then Some(k) else if k == |s| then None else FindFrom(s, pat, k + 1)
  }

  /** The first occurrence of `pat` in `s`. */
  function Find<T(==)>(s: seq<T>, pat: seq<T>): (r: Option<nat>)
    ensures r.Some? ==> At(s, r.value, pat) && forall i :: 0 <= i < r.value ==> !At(s, i, pat)
    ensures r.None? ==> forall i :: 0 <= i <= |s| ==> !At(s, i, pat)
  {
    FindFrom(s, pat, 0)
  }

  lemma FindIs<T>(s: seq<T>, pat: seq<T>, i: nat)
    requires At(s, i, pat) && forall k :: 0 <= k < i ==> !At(s, k, pat)
    ensures Find(s, pat) == Some(i)
  {}

  // ---------------------------------------------------------------- pieces

  /** The pieces between the separators; one more than there are separators. */
  function Split(s: string, c: char): (r: seq<string>)
    ensures |r| >= 1 && forall p :: p in r ==> c !in p
  {
    if s == "" then [""]
    else if s[0] == c then [""] + Split(s[1..], c)
    else
      var r := Split(s[1..], c);
      [[s[0]] + r[0]] + r[1..]
  }

  /** A prefix without the separator stays at the front of the first piece. */
  lemma {:induction false} SplitPrefix(p: string, s: string, c: char)
    requires c !in p
    ensures Split(p + s, c) == [p + Split(s, c)[0]] + Split(s, c)[1..]
  {
    if p == "" {
      assert p + s == s && p + Split(s, c)[0] == Split(s, c)[0];
      assert Split(s, c) == [Split(s, c)[0]] + Split(s, c)[1..];
    } else {
      SplitPrefix(p[1..], s, c);
      assert (p + s)[1..] == p[1..] + s;
      assert p + Split(s, c)[0] == [p[0]] + (p[1..] + Split(s, c)[0]);
    }
  }

  // ---------------------------------------------------------------- trimming

  /** The White_Space property of Unicode. */
  predicate IsSpace(c: char) {
    || '\U{0009}' <= c <= '\U{000D}' || c == ' ' || c == '\U{0085}' || c == '\U{00A0}' || c == '\U{1680}'
    || '\U{2000}' <= c <= '\U{200A}' || c == '\U{2028}' || c == '\U{2029}' || c == '\U{202F}'
    || c == '\U{205F}' || c == '\U{3000}'
  }

  function TrimStart(s: string): (r: string)
    ensures r == "" || !IsSpace(r[0])
  {
    if s != "" && IsSpace(s[0]) then TrimStart(s[1..]) else s
  }

  function TrimEnd(s: string): (r: string)
    ensures r <= s && (r == "" || !IsSpace(r[|r| - 1]))
    ensures r == "" || s[0] == r[0]
  {
    if s != "" && IsSpace(s[|s| - 1]) then TrimEnd(s[..|s| - 1]) else s
  }

  function Trim(s: string): (r: string)
    ensures Trimmed(r)
  {
    TrimEnd(TrimStart(s))
  }

  predicate Trimmed(s: string) { s == "" || (!IsSpace(s[0]) && !IsSpace(s[|s| - 1])) }

  lemma TrimIdle(s: string)
    requires Trimmed(s)
    ensures Trim(s) == s && TrimStart(s) == s && TrimEnd(s) == s
  {}

  // ---------------------------------------------------------------- numbers

  function Decimal(n: nat): (r: string)
    ensures r != "" && forall c :: c in r ==> '0' <= c <= '9'
  {
    (if n < 10 then "" else Decimal(n / 10)) + [('0' as int + n % 10) as char]
  }
}
