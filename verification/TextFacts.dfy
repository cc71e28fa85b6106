/** Occurrences across a separator, and trimming of padded text. */
module TextFacts {
  import opened Options
  import opened Text

  ghost predicate Free(s: string, pat: string) { forall i :: !At(s, i, pat) }

  lemma AtChars<T>(s: seq<T>, i: int, pat: seq<T>)
    requires At(s, i, pat)
    ensures forall k :: i <= k < i + |pat| ==> s[k] == pat[k - i]
  {
    assert forall k :: i <= k < i + |pat| ==> s[k] == s[i..i + |pat|][k - i];
  }

  lemma AtInside(s: string, i: nat, j: nat, k: int, pat: string)
    requires i <= j <= |s| && At(s[i..j], k, pat)
    ensures At(s, i + k, pat)
  {
    AtChars(s[i..j], k, pat);
    assert forall x :: 0 <= x < |pat| ==> s[i + k + x] == s[i..j][k + x] == pat[x];
    assert s[i + k..i + k + |pat|] == pat;
  }

  lemma AtOne<T(!new)>(s: seq<T>, c: T)
    ensures forall k :: At(s, k, [c]) <==> 0 <= k < |s| && s[k] == c
  {
    forall k ensures At(s, k, [c]) <==> 0 <= k < |s| && s[k] == c {
      if At(s, k, [c]) { AtChars(s, k, [c]); }
    }
  }

  /** An occurrence of a pattern without `c` lies on one side of a `c`. */
  lemma OneSide(a: string, c: char, b: string, pat: string, i: int)
    requires c !in pat && pat != "" && At(a + [c] + b, i, pat)
    ensures At(a, i, pat) || (i > |a| && At(b, i - |a| - 1, pat))
  {
    var s := a + [c] + b;
    AtChars(s, i, pat);
    assert s[|a|] == c && !(i <= |a| < i + |pat|);
    if i + |pat| <= |a| {
      assert s[i..i + |pat|] == a[i..i + |pat|];
    } else {
      assert s[i..i + |pat|] == b[i - |a| - 1..i - |a| - 1 + |pat|];
    }
  }

  lemma FreeJoin(a: string, c: char, b: string, pat: string)
    requires c !in pat && pat != "" && Free(a, pat) && Free(b, pat)
    ensures Free(a + [c] + b, pat)
  {
    forall i ensures !At(a + [c] + b, i, pat) {
      if At(a + [c] + b, i, pat) { OneSide(a, c, b, pat, i); }
    }
  }

  lemma FreeBehind(p: string, s: string, pat: string)
    requires pat != "" && pat[0] !in p && Free(s, pat)
    ensures Free(p + s, pat)
  {
    forall i ensures !At(p + s, i, pat) {
      if At(p + s, i, pat) { NotInside(p, s, pat, i); }
    }
  }

  lemma NotInside(p: string, s: string, pat: string, i: int)
    requires pat != "" && pat[0] !in p && At(p + s, i, pat)
    ensures At(s, i - |p|, pat)
  {
    AtChars(p + s, i, pat);
    assert (p + s)[i] == pat[0];
    assert forall k :: 0 <= k < |p| ==> (p + s)[k] == p[k] && p[k] in p;
    assert (p + s)[i..i + |pat|] == s[i - |p|..i - |p| + |pat|];
  }

  /** A clean front does not move the first occurrence. */
  lemma FindAfter(a: string, c: char, pat: string, b: string)
    requires c !in pat && pat != "" && Free(a, pat)
    ensures Find(a + [c] + pat + b, pat) == Some(|a| + 1)
    ensures (a + [c] + pat + b)[|a| + 1 + |pat|..] == b
  {
    var s := a + [c] + pat + b;
    assert s == a + [c] + (pat + b);
    assert s[|a| + 1..|a| + 1 + |pat|] == pat;
    forall k | 0 <= k < |a| + 1 ensures !At(s, k, pat) {
      if At(s, k, pat) { OneSide(a, c, pat + b, pat, k); }
    }
    FindIs(s, pat, |a| + 1);
  }

  lemma FreeFind(s: string, pat: string)
    requires Free(s, pat)
    ensures Find(s, pat) == None
  {}

  // ---------------------------------------------------------------- trimming

  predicate Blank(s: string) { forall c :: c in s ==> IsSpace(c) }

  lemma {:induction false} TrimStartSlices(s: string)
    ensures |TrimStart(s)| <= |s| && TrimStart(s) == s[|s| - |TrimStart(s)|..]
  {
    if s != "" && IsSpace(s[0]) {
      TrimStartSlices(s[1..]);
      var r := TrimStart(s[1..]);
      assert s[1..][|s| - 1 - |r|..] == s[|s| - |r|..];
    }
  }

  lemma {:induction false} TrimStartBlank(w: string, s: string)
    requires Blank(w)
    ensures TrimStart(w + s) == TrimStart(s)
  {
    if w == "" {
      assert w + s == s;
    } else {
      assert (w + s)[1..] == w[1..] + s;
      assert w[0] in w;
      TrimStartBlank(w[1..], s);
    }
  }

  lemma {:induction false} TrimEndBlank(s: string, w: string)
    requires Blank(w)
    ensures TrimEnd(s + w) == TrimEnd(s)
  {
    if w == "" {
      assert s + w == s;
    } else {
      assert (s + w)[..|s + w| - 1] == s + w[..|w| - 1];
      assert w[|w| - 1] in w;
      TrimEndBlank(s, w[..|w| - 1]);
    }
  }

  /** Blank padding around trimmed text goes away. */
  lemma TrimPadded(front: string, s: string, back: string)
    requires Blank(front) && Blank(back) && Trimmed(s)
    ensures Trim(front + s + back) == s
  {
    assert front + s + back == front + (s + back);
    TrimStartBlank(front, s + back);
    TrimEndBlank(s, back);
    TrimIdle(s);
    if s == "" {
      assert s + back == back && back + "" == back;
      TrimStartBlank(back, "");
    } else {
      assert (s + back)[0] == s[0];
      assert TrimStart(s + back) == s + back;
    }
  }

  // ---------------------------------------------------------------- lines

  function StripCr(s: string): string { if s != "" && s[|s| - 1] == '\r' then s[..|s| - 1] else s }

  /** `str::lines`: the last line has no empty successor, and a carriage
      return goes with the newline it precedes. */
  function Lines(s: string): seq<string>
    decreases |s|
  {
    if s == "" then []
    else match Find(s, "\n")
      case None => [s]
      case Some(i) => [StripCr(s[..i])] + Lines(s[i + 1..])
  }

  function Join(lines: seq<string>): string {
    if lines == [] then "" else if |lines| == 1 then lines[0] else lines[0] + "\n" + Join(lines[1..])
  }

  lemma FirstAt<T(!new)>(a: seq<T>, c: T, b: seq<T>)
    requires c !in a
    ensures Find(a + [c] + b, [c]) == Some(|a|)
  {
    var s := a + [c] + b;
    AtOne(s, c);
    forall k | 0 <= k < |a| ensures s[k] != c {
      assert s[k] == a[k];
    }
    FindIs(s, [c], |a|);
  }

  /** Every line with its newline. */
  function Unlines(lines: seq<string>): string {
    if lines == [] then "" else lines[0] + "\n" + Unlines(lines[1..])
  }

  lemma {:induction false} UnlinesAppend(lines: seq<string>, last: string)
    ensures Unlines(lines + [last]) == Unlines(lines) + last + "\n"
  {
    if lines == [] {
      assert lines + [last] == [last] && [last][1..] == [];
    } else {
      assert (lines + [last])[1..] == lines[1..] + [last];
      UnlinesAppend(lines[1..], last);
    }
  }

  /** The first line of a text that has more than one. */
  lemma FirstLine(a: string, b: string)
    requires '\n' !in a && (a == "" || a[|a| - 1] != '\r')
    ensures Lines(a + "\n" + b) == [a] + Lines(b)
  {
    FirstAt(a, '\n', b);
    var s := a + "\n" + b;
    assert s[..|a|] == a && s[|a| + 1..] == b;
  }

  lemma {:induction false} JoinLines(s: string)
    requires '\r' !in s && (s == "" || s[|s| - 1] != '\n')
    ensures Join(Lines(s)) == s && (s != "" ==> Lines(s) != [])
    decreases |s|
  {
    if s != "" && Find(s, "\n").Some? {
      var i := Find(s, "\n").value;
      var rest := s[i + 1..];
      assert s[i..i + 1] == "\n";
      assert s == s[..i] + "\n" + rest;
      assert rest != "";
      assert StripCr(s[..i]) == s[..i] by { if i > 0 { assert s[i - 1] in s; } }
      JoinLines(rest);
    }
  }
}
