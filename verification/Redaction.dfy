/**
  What redaction leaves: the kept pieces hold no opening marker, but two of
  them can meet in one.  Exactly when, and that redacting again settles exactly
  when they do not.
 */
module Redaction {
  import opened Options
  import opened Text
  import opened TextFacts
  import opened Notes

  function Concat(pieces: seq<string>): string { if pieces == [] then "" else pieces[0] + Concat(pieces[1..]) }

  /** The stretches of `s` outside its spans, in order. */
  function Outside(s: string, open: string, close: string): (pieces: seq<string>)
    requires open != ""
    ensures pieces != []
    decreases |s|
  {
    match Find(s, open)
    case None => [s]
    case Some(i) => [s[..i]] + Outside(AfterSpan(s, open, close), open, close)
  }

  /** A proper beginning of `pat` ends `a`, and the rest of it begins `b`. */
  predicate Meet(a: string, b: string, pat: string) {
    exists j :: 0 < j < |pat| && MeetAt(a, b, pat, j)
  }

  predicate MeetAt(a: string, b: string, pat: string, j: int) {
    0 <= j <= |pat| && j <= |a| && a[|a| - j..] == pat[..j] && pat[j..] <= b
  }

  /** Some piece and what follows it meet in `pat`. */
  predicate Seam(pieces: seq<string>, pat: string) {
    exists k :: 0 <= k < |pieces| && Meet(pieces[k], Concat(pieces[k + 1..]), pat)
  }

  lemma StraddleMeets(a: string, b: string, pat: string, i: int)
    requires At(a + b, i, pat) && i < |a| < i + |pat|
    ensures MeetAt(a, b, pat, |a| - i) && 0 < |a| - i < |pat|
  {
    var s, j := a + b, |a| - i;
    AtChars(s, i, pat);
    forall k | 0 <= k < j ensures a[i..][k] == pat[..j][k] { assert a[i + k] == s[i + k]; }
    forall k | 0 <= k < |pat| - j ensures b[k] == pat[j..][k] { assert b[k] == s[|a| + k]; }
    assert a[|a| - j..] == pat[..j];
    assert pat[j..] == b[..|pat| - j];
  }

  lemma MeetStraddles(a: string, b: string, pat: string, j: int)
    requires MeetAt(a, b, pat, j)
    ensures At(a + b, |a| - j, pat)
  {
    var s, i := a + b, |a| - j;
    assert pat == pat[..j] + pat[j..] && b[..|pat| - j] == pat[j..];
    assert s[i..i + |pat|] == a[i..] + b[..|pat| - j];
  }

  lemma SideFree(a: string, b: string, pat: string)
    requires pat != "" && Free(a + b, pat)
    ensures Free(b, pat)
  {
    forall i ensures !At(b, i, pat) {
      if At(b, i, pat) {
        assert (a + b)[|a|..|a + b|] == b;
        AtInside(a + b, |a|, |a + b|, i, pat);
      }
    }
  }

  lemma JoinIsFreeIff(a: string, b: string, pat: string)
    requires pat != "" && Free(a, pat)
    ensures Free(a + b, pat) <==> Free(b, pat) && !Meet(a, b, pat)
  {
    if Free(a + b, pat) {
      SideFree(a, b, pat);
      if Meet(a, b, pat) {
        var j :| 0 < j < |pat| && MeetAt(a, b, pat, j);
        MeetStraddles(a, b, pat, j);
      }
    } else if Free(b, pat) {
      var i :| At(a + b, i, pat);
      OnSeam(a, b, pat, i);
    }
  }

  lemma AtSides(a: string, b: string, pat: string, i: int)
    requires At(a + b, i, pat)
    ensures At(a, i, pat) || At(b, i - |a|, pat) || i < |a| < i + |pat|
  {
    var s := a + b;
    if i + |pat| <= |a| {
      assert s[i..i + |pat|] == a[i..i + |pat|];
    } else if i >= |a| {
      assert s[i..i + |pat|] == b[i - |a|..i - |a| + |pat|];
    }
  }

  lemma OnSeam(a: string, b: string, pat: string, i: int)
    requires pat != "" && Free(a, pat) && Free(b, pat) && At(a + b, i, pat)
    ensures Meet(a, b, pat)
  {
    AtSides(a, b, pat, i);
    StraddleMeets(a, b, pat, i);
  }

  ghost predicate AllFree(pieces: seq<string>, pat: string) { forall k :: 0 <= k < |pieces| ==> Free(pieces[k], pat) }

  lemma {:induction false} ConcatIsFreeIff(pieces: seq<string>, pat: string)
    requires pat != "" && AllFree(pieces, pat)
    ensures Free(Concat(pieces), pat) <==> !Seam(pieces, pat)
  {
    if pieces != [] {
      var rest := pieces[1..];
      ConcatIsFreeIff(rest, pat);
      JoinIsFreeIff(pieces[0], Concat(rest), pat);
      SeamStep(pieces, pat);
    }
  }

  lemma SeamStep(pieces: seq<string>, pat: string)
    requires pieces != []
    ensures Seam(pieces, pat) <==> Meet(pieces[0], Concat(pieces[1..]), pat) || Seam(pieces[1..], pat)
  {
    var rest := pieces[1..];
    if Seam(rest, pat) {
      var k :| 0 <= k < |rest| && Meet(rest[k], Concat(rest[k + 1..]), pat);
      assert pieces[k + 1] == rest[k] && pieces[k + 2..] == rest[k + 1..];
      assert Meet(pieces[k + 1], Concat(pieces[(k + 1) + 1..]), pat);
    }
    if Seam(pieces, pat) {
      var k :| 0 <= k < |pieces| && Meet(pieces[k], Concat(pieces[k + 1..]), pat);
      if k > 0 {
        assert rest[k - 1] == pieces[k] && rest[(k - 1) + 1..] == pieces[k + 1..];
        assert Meet(rest[k - 1], Concat(rest[(k - 1) + 1..]), pat);
      }
    }
  }

  /** Cutting the spans keeps what is outside them, in order, and no piece of
      that holds an opening marker. */
  lemma {:induction false} StripKeepsOutside(s: string, open: string, close: string)
    requires open != ""
    ensures StripSpans(s, open, close) == Concat(Outside(s, open, close))
    ensures AllFree(Outside(s, open, close), open)
    decreases |s|
  {
    var pieces := Outside(s, open, close);
    match Find(s, open)
    case None =>
      assert pieces[1..] == [] && s + "" == s;
    case Some(i) =>
      StripKeepsOutside(AfterSpan(s, open, close), open, close);
      assert pieces[1..] == Outside(AfterSpan(s, open, close), open, close);
      FrontIsFree(s, i, open);
  }

  lemma FrontIsFree(s: string, i: nat, pat: string)
    requires pat != "" && Find(s, pat) == Some(i)
    ensures i <= |s| && Free(s[..i], pat)
  {
    assert s[0..i] == s[..i];
    forall k ensures !At(s[..i], k, pat) {
      if At(s[..i], k, pat) { AtInside(s, 0, i, k, pat); }
    }
  }

  /** The redacted text holds an opening marker exactly when two kept stretches
      meet in one: where a stretch ends in a proper beginning of the marker and
      the text kept behind it goes on with the rest. */
  lemma RedactedIsFreeIff(s: string, open: string, close: string)
    requires open != ""
    ensures Free(StripSpans(s, open, close), open) <==> !Seam(Outside(s, open, close), open)
  {
    StripKeepsOutside(s, open, close);
    ConcatIsFreeIff(Outside(s, open, close), open);
  }

  lemma {:induction false} StripShrinks(s: string, open: string, close: string)
    requires open != ""
    ensures |StripSpans(s, open, close)| <= |s|
    ensures Find(s, open).Some? ==> |StripSpans(s, open, close)| < |s|
    decreases |s|
  {
    if Find(s, open).Some? {
      StripShrinks(AfterSpan(s, open, close), open, close);
      AfterIsBehind(s, open, close);
    }
  }

  lemma AfterIsBehind(s: string, open: string, close: string)
    requires open != "" && Find(s, open).Some?
    ensures Find(s, open).value + |AfterSpan(s, open, close)| < |s|
  {}

  /** Redacting a second time changes nothing exactly when no two kept
      stretches meet in a marker. */
  lemma RedactionSettlesIff(s: string, open: string, close: string)
    requires open != ""
    ensures var out := StripSpans(s, open, close);
      StripSpans(out, open, close) == out <==> !Seam(Outside(s, open, close), open)
  {
    var out := StripSpans(s, open, close);
    RedactedIsFreeIff(s, open, close);
    if Free(out, open) {
      FreeFind(out, open);
    } else {
      var i :| At(out, i, open);
      assert Find(out, open).Some?;
      StripShrinks(out, open, close);
    }
  }

  // ---------------------------------------------------------------- a text that does not settle

  const OPEN := "<private>"
  const CLOSE := "</private>"

  /** One span cut out of the middle. */
  lemma OneSpan(a: string, inner: string, b: string, open: string, close: string)
    requires open != "" && Find(a + open + inner + close + b, open) == Some(|a|)
    requires Find(inner + close + b, close) == Some(|inner|) && Find(b, open) == None
    ensures StripSpans(a + open + inner + close + b, open, close) == a + b
  {
    var s, rest := a + open + inner + close + b, inner + close + b;
    assert s == a + open + rest;
    assert s[..|a|] == a && s[|a| + |open|..] == rest && rest[|inner| + |close|..] == b;
  }

  /** A span inside a split marker: what follows comes out between markers. */
  lemma SplitMarkerSurvives()
    ensures StripPrivate("<pri" + OPEN + "x" + CLOSE + ("vate>s" + CLOSE)) == OPEN + ("s" + CLOSE)
  {
    var a, b := "<pri", "vate>s" + CLOSE;
    OpenIsFifth("x" + CLOSE + b);
    CloseIsSecond(b);
    NoOpen(b);
    assert a + OPEN + "x" + CLOSE + b == a + OPEN + ("x" + CLOSE + b);
    OneSpan(a, "x", b, OPEN, CLOSE);
    HalvesMeet();
  }

  lemma HalvesMeet()
    ensures "<pri" + ("vate>s" + CLOSE) == OPEN + ("s" + CLOSE)
  {
    assert "<pri" + "vate>" == OPEN && "vate>s" == "vate>" + "s";
  }

  lemma OpenAt(s: string, k: int)
    requires At(s, k, OPEN)
    ensures 0 <= k && k + 9 <= |s| && s[k] == '<' && s[k + 1] == 'p' && s[k + 4] == 'v'
  {
    AtChars(s, k, OPEN);
  }

  lemma OpenIsFifth(b: string)
    ensures Find("<pri" + OPEN + b, OPEN) == Some(4)
  {
    var s := "<pri" + OPEN + b;
    assert s[4..13] == OPEN && s[4] == '<' && s[1] == 'p' && s[2] == 'r' && s[3] == 'i';
    forall k | 0 <= k < 4 ensures !At(s, k, OPEN) {
      if At(s, k, OPEN) { OpenAt(s, k); }
    }
    FindIs(s, OPEN, 4);
  }

  lemma CloseIsSecond(b: string)
    ensures Find("x" + CLOSE + b, CLOSE) == Some(1)
  {
    var s := "x" + CLOSE + b;
    assert s[1..11] == CLOSE && s[0] == 'x';
    if At(s, 0, CLOSE) { AtChars(s, 0, CLOSE); }
    FindIs(s, CLOSE, 1);
  }

  lemma NoOpen(b: string)
    requires b == "vate>s" + CLOSE
    ensures Find(b, OPEN) == None
  {
    assert |b| == 16 && b[7] == '/';
    assert forall k :: 0 <= k < 8 && k != 6 ==> b[k] != '<';
    forall k ensures !At(b, k, OPEN) {
      if At(b, k, OPEN) { OpenAt(b, k); }
    }
  }
}
