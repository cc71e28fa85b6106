/** The laws of the managed region: what settles, what is kept, and when. */
module MemoryIndexLaws {
  import opened Options
  import opened Text
  import opened TextFacts
  import opened MemoryIndex
  import opened MemoryIndexFacts

  // ---------------------------------------------------------------- lines

  lemma {:induction false} LinesUnlines(lines: seq<string>)
    requires forall l :: l in lines ==> '\n' !in l && (l == "" || l[|l| - 1] != '\r')
    ensures Lines(Unlines(lines)) == lines
  {
    if lines != [] {
      assert lines[0] in lines;
      LinesUnlines(lines[1..]);
      FirstLine(lines[0], Unlines(lines[1..]));
      assert lines == [lines[0]] + lines[1..];
    }
  }

  lemma EntryLineEnds(e: Entry)
    requires Clean(e)
    ensures '\n' !in EntryLine(e) && EntryLine(e)[|EntryLine(e)| - 1] != '\r' && EntryLine(e)[0] == '-'
  {
    var l := EntryLine(e);
    assert e.hook != "" ==> l[|l| - 1] == e.hook[|e.hook| - 1];
    assert e.hook == "" ==> l[|l| - 1] == ' ';
    assert IsSpace('\r');
  }

  lemma {:induction false} EntriesParse(es: seq<Entry>, shut: string)
    requires Fits(es, shut)
    ensures ParseEntries(EntryLines(es)) == es
  {
    if es != [] {
      EntryReadsBack(es[0]);
      assert EntryLines(es)[1..] == EntryLines(es[1..]);
      EntriesParse(es[1..], shut);
      assert es == [es[0]] + es[1..];
    }
  }

  /** The text between the markers gives back the entries. */
  lemma InnerParses(es: seq<Entry>, shut: string)
    requires Fits(es, shut)
    ensures ParseEntries(Lines("\n" + Unlines(EntryLines(es)))) == es
  {
    var lines := EntryLines(es);
    forall l | l in lines ensures '\n' !in l && (l == "" || l[|l| - 1] != '\r') {
      var i :| 0 <= i < |es| && lines[i] == l;
      EntryLineEnds(es[i]);
    }
    LinesUnlines(lines);
    FirstLine("", Unlines(lines));
    assert "" + "\n" + Unlines(lines) == "\n" + Unlines(lines);
    assert Trim("") == "" && !("- [" <= "");
    assert ParseEntry("").None?;
    assert ([""] + lines)[1..] == lines;
    EntriesParse(es, shut);
  }

  // ---------------------------------------------------------------- reading a region back

  lemma RegionReadsBack(before: string, es: seq<Entry>, after: string, m: Markers)
    requires MarkersOk(m) && Free(before, m.open) && Free(before, m.shut) && Fits(es, m.shut)
    ensures IsOrdered(before + Region(es, m) + after, m)
    ensures ParseIndex(before + Region(es, m) + after, m) == Index(before, es, after, true)
  {
    var inner := "\n" + Unlines(EntryLines(es));
    var raw := before + Region(es, m) + after;
    EntriesFree(es, m);
    InnerFree(Unlines(EntryLines(es)), m.shut);
    assert raw == before + m.open + inner + m.shut + after;
    FreeAppend(before, m.open, m.shut);
    NewlineJoin(before + m.open, inner, m.shut);
    PiecesParse(before, inner, after, m, raw);
    InnerParses(es, m.shut);
  }

  lemma InnerFree(text: string, pat: string)
    requires MarkerOk(pat) && Free(text, pat)
    ensures Free("\n" + text, pat)
  {
    assert '\n' !in pat;
    OneFree("", pat);
    FreeJoin("", '\n', text, pat);
    assert "" + ['\n'] + text == "\n" + text;
  }

  /** Five pieces around two markers, found again. */
  lemma PiecesParse(before: string, inner: string, after: string, m: Markers, raw: string)
    requires MarkersOk(m) && Free(before, m.open) && Free(before + m.open + inner, m.shut)
    requires raw == before + m.open + inner + m.shut + after
    ensures IsOrdered(raw, m) && Inner(raw, m) == inner
    ensures ParseIndex(raw, m) == Index(before, ParseEntries(Lines(inner)), after, true)
  {
    var head := before + m.open + inner;
    PieceShapes(before, m.open, inner, m.shut, after, raw);
    MarkerFound(before, m.open, inner + m.shut + after);
    MarkerFound(head, m.shut, after);
  }

  lemma PieceShapes(before: string, open: string, inner: string, shut: string, after: string, raw: string)
    requires raw == before + open + inner + shut + after
    ensures raw == before + open + (inner + shut + after)
    ensures raw[..|before|] == before && raw[|before + open + inner| + |shut|..] == after
    ensures raw[|before| + |open|..|before + open + inner|] == inner
  {}

  lemma NewlineJoin(a: string, b: string, pat: string)
    requires MarkerOk(pat) && Free(a, pat) && Free(b, pat) && b != "" && b[0] == '\n'
    ensures Free(a + b, pat)
  {
    assert '\n' !in pat;
    assert b == "\n" + b[1..];
    var rest := b[1..];
    forall i ensures !At(rest, i, pat) {
      if At(rest, i, pat) { Behind(b, i, pat); }
    }
    FreeJoin(a, '\n', rest, pat);
    assert a + b == a + ['\n'] + b[1..];
  }

  lemma Behind(b: string, i: int, pat: string)
    requires b != "" && At(b[1..], i, pat)
    ensures At(b, i + 1, pat)
  {
    assert b[1..] == b[1..|b|];
    AtInside(b, 1, |b|, i, pat);
  }

  // ---------------------------------------------------------------- a parsed file

  lemma {:induction false} LinesAreFree(s: string, pat: string)
    requires Free(s, pat)
    ensures forall l :: l in Lines(s) ==> Free(l, pat) && '\n' !in l
    decreases |s|
  {
    if s != "" {
      AtOne(s, '\n');
      if Find(s, "\n").Some? {
        var i := Find(s, "\n").value;
        FrontFree(s, i, pat);
        RestFree(s, i, pat);
        LinesAreFree(s[i + 1..], pat);
      }
    }
  }

  lemma FrontFree(s: string, i: nat, pat: string)
    requires i < |s| && Free(s, pat) && forall k :: 0 <= k < i ==> s[k] != '\n'
    ensures Free(StripCr(s[..i]), pat) && '\n' !in StripCr(s[..i])
  {
    var l := StripCr(s[..i]);
    assert l == s[0..|l|];
    forall k ensures !At(l, k, pat) {
      if At(l, k, pat) { AtInside(s, 0, |l|, k, pat); }
    }
  }

  lemma RestFree(s: string, i: nat, pat: string)
    requires i < |s| && Free(s, pat)
    ensures Free(s[i + 1..], pat)
  {
    var rest := s[i + 1..];
    assert rest == s[i + 1..|s|];
    forall k ensures !At(rest, k, pat) {
      if At(rest, k, pat) { AtInside(s, i + 1, |s|, k, pat); }
    }
  }

  lemma {:induction false} ParsedFit(lines: seq<string>, pat: string)
    requires forall l :: l in lines ==> Free(l, pat) && '\n' !in l
    ensures Fits(ParseEntries(lines), pat)
  {
    if lines != [] {
      assert lines[0] in lines;
      ParsedFit(lines[1..], pat);
      if ParseEntry(lines[0]).Some? { ParsedIsClean(lines[0], pat); }
    }
  }

  lemma OrderedJoin(raw: string, m: Markers)
    requires MarkersOk(m) && IsOrdered(raw, m)
    ensures var ix := ParseIndex(raw, m); raw == ix.before + m.open + Inner(raw, m) + m.shut + ix.after
  {
    var b, e := Find(raw, m.open).value, Find(raw, m.shut).value;
    Apart(raw, m);
    var before, inner, after := raw[..b], raw[b + |m.open|..e], raw[e + |m.shut|..];
    assert ParseIndex(raw, m).before == before && Inner(raw, m) == inner && ParseIndex(raw, m).after == after;
    PiecesJoin(raw, b, e, m);
  }

  lemma NoneEarlier(raw: string, pat: string, i: nat)
    requires Find(raw, pat) == Some(i)
    ensures i + |pat| <= |raw| && forall k :: 0 <= k < i ==> !At(raw, k, pat)
  {}

  lemma OrderedFree(raw: string, m: Markers)
    requires MarkersOk(m) && IsOrdered(raw, m)
    ensures Free(ParseIndex(raw, m).before, m.open) && Free(ParseIndex(raw, m).before, m.shut) && Free(Inner(raw, m), m.shut)
  {
    var b, e := Find(raw, m.open).value, Find(raw, m.shut).value;
    Apart(raw, m);
    NoneEarlier(raw, m.open, b);
    NoneEarlier(raw, m.shut, e);
    PiecesFree(raw, b, e, m);
    assert ParseIndex(raw, m).before == raw[..b] && Inner(raw, m) == raw[b + |m.open|..e];
  }

  lemma OrderedFits(raw: string, m: Markers)
    requires MarkersOk(m) && IsOrdered(raw, m) && Free(Inner(raw, m), m.shut)
    ensures Fits(ParseIndex(raw, m).managed, m.shut)
  {
    LinesAreFree(Inner(raw, m), m.shut);
    ParsedFit(Lines(Inner(raw, m)), m.shut);
  }

  /** The pieces of a file whose markers are in order. */
  lemma OrderedPieces(raw: string, m: Markers)
    requires MarkersOk(m) && IsOrdered(raw, m)
    ensures var ix := ParseIndex(raw, m);
      && ix.hadMarkers && raw == ix.before + m.open + Inner(raw, m) + m.shut + ix.after
      && Free(ix.before, m.open) && Free(ix.before, m.shut) && Free(Inner(raw, m), m.shut) && Fits(ix.managed, m.shut)
  {
    OrderedJoin(raw, m);
    OrderedFree(raw, m);
    OrderedFits(raw, m);
  }

  lemma PiecesFree(raw: string, b: nat, e: nat, m: Markers)
    requires m.open != "" && m.shut != "" && b + |m.open| <= e <= |raw|
    requires (forall k :: 0 <= k < b ==> !At(raw, k, m.open)) && forall k :: 0 <= k < e ==> !At(raw, k, m.shut)
    ensures Free(raw[..b], m.open) && Free(raw[..b], m.shut) && Free(raw[b + |m.open|..e], m.shut)
  {
    EarlierFree(raw, 0, b, b, m.open);
    EarlierFree(raw, 0, b, e, m.shut);
    EarlierFree(raw, b + |m.open|, e, e, m.shut);
    assert raw[0..b] == raw[..b];
  }

  lemma PiecesJoin(raw: string, b: nat, e: nat, m: Markers)
    requires At(raw, b, m.open) && At(raw, e, m.shut) && b + |m.open| <= e
    ensures raw == raw[..b] + m.open + raw[b + |m.open|..e] + m.shut + raw[e + |m.shut|..]
  {}

  lemma EarlierFree(raw: string, i: nat, j: nat, first: nat, pat: string)
    requires i <= j <= first <= |raw| && pat != "" && forall k :: 0 <= k < first ==> !At(raw, k, pat)
    ensures Free(raw[i..j], pat)
  {
    forall k ensures !At(raw[i..j], k, pat) {
      if At(raw[i..j], k, pat) { AtInside(raw, i, j, k, pat); }
    }
  }

  // ---------------------------------------------------------------- main laws

  /** With markers in order, whatever entries are set, the file keeps every
      byte outside the region, and reading it again gives the entries back. */
  lemma RegionIsSurgical(raw: string, es: seq<Entry>, m: Markers)
    requires MarkersOk(m) && IsOrdered(raw, m) && Fits(es, m.shut)
    ensures var ix := ParseIndex(raw, m); var out := RenderIndex(ix.(managed := es), m);
      && out == raw[..Find(raw, m.open).value] + Region(es, m) + raw[Find(raw, m.shut).value + |m.shut|..]
      && ParseIndex(out, m) == ix.(managed := es)
  {
    OrderedPieces(raw, m);
    var ix := ParseIndex(raw, m);
    RegionReadsBack(ix.before, es, ix.after, m);
  }

  /** Neither marker occurs. */
  ghost predicate Unmarked(raw: string, m: Markers) { Free(raw, m.open) && Free(raw, m.shut) }

  lemma {:induction false} TrimEndFree(s: string, pat: string)
    requires Free(s, pat)
    ensures Free(TrimEnd(s), pat)
  {
    var t := TrimEnd(s);
    assert t == s[0..|t|];
    forall k ensures !At(t, k, pat) {
      if At(t, k, pat) { AtInside(s, 0, |t|, k, pat); }
    }
  }

  lemma TopFree(raw: string, pat: string)
    requires MarkerOk(pat) && Free(raw, pat)
    ensures Free(Top(raw) + "\n\n", pat)
  {
    TrimEndFree(raw, pat);
    OneFree(TITLE, pat);
    OneFree("\n", pat);
    assert '\n' !in pat;
    FreeJoin(Top(raw), '\n', "\n", pat);
    assert Top(raw) + ['\n'] + "\n" == Top(raw) + "\n\n";
  }

  /** Without markers a region is appended, and from then on it stays put. */
  lemma UnmarkedGainsRegion(raw: string, es: seq<Entry>, m: Markers)
    requires MarkersOk(m) && Unmarked(raw, m) && Fits(es, m.shut)
    ensures var out := RenderIndex(ParseIndex(raw, m).(managed := es), m);
      ParseIndex(out, m) == Index(Top(raw) + "\n\n", es, "\n", true)
  {
    FreeFind(raw, m.open);
    TopFree(raw, m.open);
    TopFree(raw, m.shut);
    RegionReadsBack(Top(raw) + "\n\n", es, "\n", m);
  }

  function Pass(raw: string, m: Markers): string
    requires MarkersOk(m)
  {
    RenderIndex(ParseIndex(raw, m), m)
  }

  lemma SettlesIfMarkedOrNot(raw: string, m: Markers)
    requires MarkersOk(m) && (IsOrdered(raw, m) || Unmarked(raw, m))
    ensures Pass(Pass(raw, m), m) == Pass(raw, m)
  {
    if IsOrdered(raw, m) {
      OrderedPieces(raw, m);
      RegionIsSurgical(raw, ParseIndex(raw, m).managed, m);
      assert ParseIndex(raw, m).(managed := ParseIndex(raw, m).managed) == ParseIndex(raw, m);
    } else {
      FreeFind(raw, m.open);
      UnmarkedGainsRegion(raw, [], m);
    }
  }

  // ---------------------------------------------------------------- files that never settle

  lemma {:induction false} TrimEndCuts(s: string)
    ensures TrimEnd(s) <= s && forall i :: |TrimEnd(s)| <= i < |s| ==> IsSpace(s[i])
  {
    if s != "" && IsSpace(s[|s| - 1]) { TrimEndCuts(s[..|s| - 1]); }
  }

  /** A marker's last character is not blank, so trimming leaves it whole. */
  lemma TopKeepsMarkers(raw: string, pat: string, i: nat)
    requires MarkerOk(pat) && At(raw, i, pat)
    ensures Top(raw) == TrimEnd(raw) && At(Top(raw), i, pat)
  {
    TrimEndCuts(raw);
    AtChars(raw, i, pat);
    var last := i + |pat| - 1;
    assert raw[last] == '>' && !IsSpace('>');
    assert last < |TrimEnd(raw)|;
    assert TrimEnd(raw)[i..i + |pat|] == raw[i..i + |pat|];
  }

  /** Rendering an unmarked index ends in one newline behind a marker. */
  lemma AppendedShape(raw: string, m: Markers)
    requires MarkersOk(m) && !IsOrdered(raw, m)
    ensures Pass(raw, m) == Top(raw) + "\n\n" + (m.open + "\n" + m.shut) + "\n"
    ensures TrimEnd(Pass(raw, m)) == Pass(raw, m)[..|Pass(raw, m)| - 1]
  {
    EmptyRegion(m);
    EndsAtMarker(Top(raw) + "\n\n", m.open + "\n", m.shut);
  }

  lemma EmptyRegion(m: Markers)
    ensures Region([], m) == m.open + "\n" + m.shut
  {
    assert EntryLines([]) == [] && Unlines([]) == "";
    assert m.open + "\n" + "" == m.open + "\n";
  }

  lemma EndsAtMarker(a: string, b: string, pat: string)
    requires MarkerOk(pat)
    ensures var out := a + (b + pat) + "\n"; TrimEnd(out) == out[..|out| - 1]
  {
    var front := a + (b + pat);
    var out := front + "\n";
    assert front[|front| - 1] == pat[|pat| - 1] == '>';
    assert out[|out| - 1] == '\n' && out[..|out| - 1] == front;
    assert TrimEnd(front) == front;
  }

  /** A file taken for unmarked is longer after every pass. */
  lemma GrowsIfUnordered(raw: string, m: Markers)
    requires MarkersOk(m) && !IsOrdered(raw, m)
    ensures !IsOrdered(Pass(raw, m), m) ==> |Pass(Pass(raw, m), m)| > |Pass(raw, m)|
  {
    AppendedShape(raw, m);
    if !IsOrdered(Pass(raw, m), m) { AppendedShape(Pass(raw, m), m); }
  }

  /** Where an end marker comes before any begin marker, it still does after a
      pass: the region just written is not found. */
  lemma StaysUnordered(raw: string, m: Markers)
    requires MarkersOk(m) && !IsOrdered(raw, m) && Find(raw, m.shut).Some?
    ensures !IsOrdered(Pass(raw, m), m)
  {
    var e, out := Find(raw, m.shut).value, Pass(raw, m);
    AppendedShape(raw, m);
    TopKeepsMarkers(raw, m.shut, e);
    StillAt(Top(raw), "\n\n", m.open + "\n" + m.shut, "\n", e, m.shut);
    NothingBefore(raw, out, m, e);
  }

  lemma StillAt(a: string, b: string, c: string, d: string, i: int, pat: string)
    requires At(a, i, pat)
    ensures At(a + b + c + d, i, pat) && a <= a + b + c + d
  {
    var s := a + b + c + d;
    assert s[i..i + |pat|] == a[i..i + |pat|];
  }

  lemma NothingBefore(raw: string, out: string, m: Markers, e: nat)
    requires MarkersOk(m) && At(raw, e, m.shut) && (Find(raw, m.open).None? || Find(raw, m.open).value >= e)
    requires TrimEnd(raw) <= out && At(out, e, m.shut) && e + |m.shut| <= |TrimEnd(raw)|
    ensures Find(out, m.open).Some? ==> Find(out, m.shut).Some? && Find(out, m.shut).value <= e <= Find(out, m.open).value
  {
    var k := Find(out, m.open);
    if k.Some? && k.value < e { OpenIsWhole(raw, out, m, e, k.value); }
  }

  lemma OpenIsWhole(raw: string, out: string, m: Markers, e: nat, k: nat)
    requires MarkersOk(m) && At(out, k, m.open) && k < e && At(out, e, m.shut)
    requires TrimEnd(raw) <= out && e + |m.shut| <= |TrimEnd(raw)|
    ensures At(raw, k, m.open)
  {
    EndsBefore(out, k, m.open, e, m.shut);
    var top := TrimEnd(raw);
    assert top[k..k + |m.open|] == out[k..k + |m.open|];
    assert raw[k..k + |m.open|] == top[k..k + |m.open|];
  }

  /** A marker ends before the next one begins. */
  lemma EndsBefore(s: string, k: nat, pat: string, e: nat, other: string)
    requires MarkerOk(pat) && MarkerOk(other) && At(s, k, pat) && At(s, e, other) && k < e
    ensures k + |pat| <= e
  {
    AtChars(s, k, pat);
    AtChars(s, e, other);
    assert s[e] == '<';
  }

  lemma LastLineUnique(a: string, l: string, b: string, k: string)
    requires a + l + "\n" == b + k + "\n" && a != "" && a[|a| - 1] == '\n' && b != "" && b[|b| - 1] == '\n'
    requires '\n' !in l && '\n' !in k && |l| <= |k|
    ensures l == k
  {
    var s := a + l;
    assert a + l + "\n" == s + "\n" && b + k + "\n" == b + k + "\n";
    assert s == (s + "\n")[..|s|] == (b + k + "\n")[..|s|] == b + k;
    assert s[|a| - 1] == '\n';
    assert forall i :: |b| <= i < |s| ==> s[i] == k[i - |b|] && k[i - |b|] in k;
    assert l == s[|a|..] && k == s[|b|..];
  }

  /** The last line of a region is an entry, never a marker. */
  lemma MarkerIsNoEntry(es: seq<Entry>, front: string, m: Markers)
    requires MarkersOk(m) && Fits(es, m.shut) && front != "" && front[|front| - 1] == '\n'
    ensures "\n" + Unlines(EntryLines(es)) != front + m.open + "\n"
  {
    assert '\n' !in m.open;
    if es != [] {
      var k := |es| - 1;
      var b, l := "\n" + Unlines(EntryLines(es[..k])), EntryLine(es[k]);
      LastEntry(es, k);
      EntryLineEnds(es[k]);
      UnlinesEnd(EntryLines(es[..k]));
      if b + l + "\n" == front + m.open + "\n" {
        if |l| <= |m.open| { LastLineUnique(b, l, front, m.open); } else { LastLineUnique(front, m.open, b, l); }
      }
    }
  }

  lemma LastEntry(es: seq<Entry>, k: nat)
    requires |es| == k + 1
    ensures "\n" + Unlines(EntryLines(es)) == "\n" + Unlines(EntryLines(es[..k])) + EntryLine(es[k]) + "\n"
  {
    assert EntryLines(es) == EntryLines(es[..k]) + [EntryLine(es[k])];
    UnlinesAppend(EntryLines(es[..k]), EntryLine(es[k]));
  }

  lemma {:induction false} UnlinesEnd(lines: seq<string>)
    ensures ("\n" + Unlines(lines))[|Unlines(lines)|] == '\n'
  {
    if lines != [] {
      var rest := Unlines(lines[1..]);
      UnlinesEnd(lines[1..]);
      assert Unlines(lines) == lines[0] + ("\n" + rest);
    }
  }

  /** What comes to lie between a lone begin marker at `b` and the end marker
      the first pass appends. */
  function Between(top: string, m: Markers, b: nat): string
    requires b + |m.open| <= |top|
  {
    top[b + |m.open|..] + "\n\n" + m.open + "\n"
  }

  /** How the second pass reads the file. */
  lemma LoneParses(top: string, m: Markers, b: nat, out: string)
    requires MarkersOk(m) && At(top, b, m.open) && Free(top[..b], m.open) && Free(top + "\n\n", m.shut)
    requires out == top + "\n\n" + (m.open + "\n" + m.shut) + "\n"
    ensures ParseIndex(out, m) == Index(top[..b], ParseEntries(Lines(Between(top, m, b))), "\n", true)
    ensures out == top[..b] + m.open + Between(top, m, b) + m.shut + "\n"
  {
    LoneShape(top, m, b);
    AfterOpenFree(top + "\n\n", m);
    PiecesParse(top[..b], Between(top, m, b), "\n", m, out);
  }

  /** The entries it finds are clean. */
  lemma LoneFits(top: string, m: Markers, b: nat)
    requires MarkersOk(m) && At(top, b, m.open) && Free(top + "\n\n", m.shut)
    ensures Fits(ParseEntries(Lines(Between(top, m, b))), m.shut)
  {
    var mid := Between(top, m, b);
    var head := top[..b] + m.open + mid;
    LoneShape(top, m, b);
    AfterOpenFree(top + "\n\n", m);
    RestFree(head, b + |m.open| - 1, m.shut);
    assert head[b + |m.open|..] == mid;
    LinesAreFree(mid, m.shut);
    ParsedFit(Lines(mid), m.shut);
  }

  lemma LoneRegionDiffers(top: string, m: Markers, b: nat, es: seq<Entry>)
    requires MarkersOk(m) && At(top, b, m.open) && Fits(es, m.shut)
    ensures top[..b] + Region(es, m) + "\n" != top[..b] + m.open + Between(top, m, b) + m.shut + "\n"
  {
    var front := top[b + |m.open|..] + "\n\n";
    assert front[|front| - 1] == '\n';
    MarkerIsNoEntry(es, front, m);
    NotAgain(top[..b], es, front + m.open + "\n", m);
  }

  /** Where only a begin marker occurs, the first pass gives it an end it did
      not have, and the second pass drops what came to lie between. */
  lemma LoneOpenUnsettles(raw: string, m: Markers)
    requires MarkersOk(m) && Find(raw, m.open).Some? && Find(raw, m.shut).None?
    ensures Pass(Pass(raw, m), m) != Pass(raw, m)
  {
    var b, out, top := Find(raw, m.open).value, Pass(raw, m), Top(raw);
    AppendedShape(raw, m);
    TopKeepsMarkers(raw, m.open, b);
    TopFree(raw, m.shut);
    TrimEndCuts(raw);
    EarlierFree(raw, 0, b, b, m.open);
    assert raw[0..b] == top[..b];
    LoneParses(top, m, b, out);
    LoneFits(top, m, b);
    LoneRegionDiffers(top, m, b, ParseEntries(Lines(Between(top, m, b))));
  }

  lemma LoneShape(top: string, m: Markers, b: nat)
    requires At(top, b, m.open)
    ensures var mid := top[b + |m.open|..] + "\n\n" + m.open + "\n";
      && top + "\n\n" + (m.open + "\n" + m.shut) + "\n" == top[..b] + m.open + mid + m.shut + "\n"
      && top[..b] + m.open + mid == top + "\n\n" + m.open + "\n"
  {
    assert top == top[..b] + m.open + top[b + |m.open|..];
  }

  lemma AfterOpenFree(a: string, m: Markers)
    requires MarkersOk(m) && Free(a, m.shut)
    ensures Free(a + m.open + "\n", m.shut)
  {
    FreeAppend(a, m.open, m.shut);
    OneFree("", m.shut);
    assert '\n' !in m.shut;
    FreeJoin(a + m.open, '\n', "", m.shut);
    assert a + m.open + ['\n'] + "" == a + m.open + "\n";
  }

  lemma NotAgain(before: string, es: seq<Entry>, mid: string, m: Markers)
    requires "\n" + Unlines(EntryLines(es)) != mid
    ensures before + Region(es, m) + "\n" != before + m.open + mid + m.shut + "\n"
  {
    var a := "\n" + Unlines(EntryLines(es));
    assert before + Region(es, m) + "\n" == before + m.open + a + m.shut + "\n";
    if before + m.open + a + m.shut + "\n" == before + m.open + mid + m.shut + "\n" {
      SameInner(before, m.open, a, mid, m.shut, "\n");
    }
  }

  // ---------------------------------------------------------------- exactly when

  /** Parse-then-render settles after one pass exactly for files whose markers
      are in order, or that have neither. */
  lemma SettlesIff(raw: string, m: Markers)
    requires MarkersOk(m)
    ensures Pass(Pass(raw, m), m) == Pass(raw, m) <==> IsOrdered(raw, m) || Unmarked(raw, m)
  {
    if IsOrdered(raw, m) || Unmarked(raw, m) {
      SettlesIfMarkedOrNot(raw, m);
    } else if Find(raw, m.shut).Some? {
      StaysUnordered(raw, m);
      GrowsIfUnordered(raw, m);
    } else {
      NoneFree(raw, m.shut);
      if Find(raw, m.open).None? { NoneFree(raw, m.open); }
      LoneOpenUnsettles(raw, m);
    }
  }

  lemma NoneFree(s: string, pat: string)
    requires Find(s, pat).None?
    ensures Free(s, pat)
  {}

  /** `inner` is a line break and the lines of `es`. */
  ghost predicate Lists(inner: string, es: seq<Entry>, shut: string) {
    Fits(es, shut) && inner == "\n" + Unlines(EntryLines(es))
  }

  /** Between the markers there are a line break and the lines of some clean
      entries, and nothing else. */
  ghost predicate Canonical(raw: string, m: Markers)
    requires MarkersOk(m) && IsOrdered(raw, m)
  {
    exists es :: Lists(Inner(raw, m), es, m.shut)
  }

  lemma CanonicalIff(raw: string, m: Markers)
    requires MarkersOk(m) && IsOrdered(raw, m)
    ensures Canonical(raw, m) <==> Inner(raw, m) == "\n" + Unlines(EntryLines(ParseIndex(raw, m).managed))
  {
    if Canonical(raw, m) {
      var es :| Lists(Inner(raw, m), es, m.shut);
      InnerParses(es, m.shut);
    }
    OrderedPieces(raw, m);
    if Inner(raw, m) == "\n" + Unlines(EntryLines(ParseIndex(raw, m).managed)) {
      assert Lists(Inner(raw, m), ParseIndex(raw, m).managed, m.shut);
    }
  }

  /** Rendering a parsed file gives the very same bytes exactly when its
      markers are in order and the region between them is canonical; the
      comment on `render` claims it of every file. */
  lemma ByteIdenticalIff(raw: string, m: Markers)
    requires MarkersOk(m)
    ensures Pass(raw, m) == raw <==> IsOrdered(raw, m) && Canonical(raw, m)
  {
    if IsOrdered(raw, m) {
      OrderedPieces(raw, m);
      CanonicalIff(raw, m);
      var ix := ParseIndex(raw, m);
      RegionShape(ix.before, ix.managed, ix.after, m);
      if Pass(raw, m) == raw { SameInner(ix.before, m.open, "\n" + Unlines(EntryLines(ix.managed)), Inner(raw, m), m.shut, ix.after); }
    } else {
      AppendedShape(raw, m);
      assert |Top(raw)| >= |TrimEnd(raw)|;
    }
  }

  /** What the first pass makes of an empty file. */
  lemma EmptyFileBecomes(m: Markers)
    requires MarkersOk(m)
    ensures Pass("", m) == "# Memory index" + "\n\n" + (m.open + "\n" + m.shut) + "\n"
  {
    FreeFind("", m.open);
    AppendedShape("", m);
  }

  /** Neither the empty file nor an empty pair of markers comes back as it was. */
  lemma EmptyFilesChange(m: Markers)
    requires MarkersOk(m)
    ensures Pass("", m) != "" && Pass(m.open + m.shut, m) != m.open + m.shut
  {
    FreeFind("", m.open);
    var raw := m.open + m.shut;
    OneFree("", m.open);
    OneFree("", m.shut);
    FreeAppend("", m.open, m.shut);
    assert "" + m.open + "" == m.open == "" + m.open && raw == "" + m.open + "" + m.shut + "";
    PiecesParse("", "", "", m, raw);
    ByteIdenticalIff(raw, m);
  }

  lemma RegionShape(before: string, es: seq<Entry>, after: string, m: Markers)
    ensures before + Region(es, m) + after == before + m.open + ("\n" + Unlines(EntryLines(es))) + m.shut + after
  {}

  lemma SameInner(before: string, open: string, a: string, b: string, shut: string, after: string)
    requires before + open + a + shut + after == before + open + b + shut + after
    ensures a == b
  {
    var s, t := before + open + a + shut + after, before + open + b + shut + after;
    var i := |before + open|;
    assert |a| == |b|;
    assert a == s[i..i + |a|] && b == t[i..i + |b|];
  }
}
