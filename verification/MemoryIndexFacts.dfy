/** When parsing and rendering `MEMORY.md` settles, and what it keeps. */
module MemoryIndexFacts {
  import opened Options
  import opened Text
  import opened TextFacts
  import opened MemoryIndex

  // ---------------------------------------------------------------- entries

  /** An entry that reads back from its own line. */
  ghost predicate Clean(e: Entry) {
    && '\n' !in e.title && '\n' !in e.file && '\n' !in e.hook
    && Free(e.title, "](") && ')' !in e.file && Trimmed(e.hook)
  }

  lemma SplitAt(a: string, pat: string, b: string)
    requires forall i :: 0 <= i < |a| ==> !At(a + pat + b, i, pat)
    ensures SplitOnce(a + pat + b, pat) == Some((a, b))
  {
    var s := a + pat + b;
    assert s[|a|..|a| + |pat|] == pat;
    FindIs(s, pat, |a|);
    assert s[..|a|] == a && s[|a| + |pat|..] == b;
  }

  lemma TitleFound(title: string, rest: string)
    requires Free(title, "](")
    ensures SplitOnce(title + "](" + rest, "](") == Some((title, rest))
  {
    var s := title + "](" + rest;
    forall i | 0 <= i < |title| ensures !At(s, i, "](") {
      if At(s, i, "](") { TitleStraddle(title, rest, i); }
    }
    SplitAt(title, "](", rest);
  }

  lemma TitleStraddle(title: string, rest: string, i: nat)
    requires i < |title| && At(title + "](" + rest, i, "](")
    ensures At(title, i, "](")
  {
    var s := title + "](" + rest;
    AtChars(s, i, "](");
    assert s[i + 1] == '(';
    assert i + 2 <= |title|;
    assert title[i..i + 2] == s[i..i + 2];
  }

  lemma FileFound(file: string, rest: string)
    requires ')' !in file
    ensures SplitOnce(file + ")" + rest, ")") == Some((file, rest))
  {
    FirstAt(file, ')', rest);
    var s := file + ")" + rest;
    assert s[..|file|] == file && s[|file| + 1..] == rest;
  }

  lemma SpaceTrims(s: string)
    ensures TrimStart(" " + s) == TrimStart(s)
  {
    assert (" " + s)[0] == ' ' && (" " + s)[1..] == s;
  }

  lemma BareHook()
    ensures Hook(" " + [DASH]) == ""
  {
    SpaceTrims([DASH]);
    assert [DASH][0] == DASH && [DASH][1..] == "";
  }

  lemma HookFound(hook: string)
    requires Trimmed(hook) && hook != ""
    ensures Hook(" " + [DASH] + " " + hook) == hook
  {
    var t := [DASH] + (" " + hook);
    assert " " + [DASH] + " " + hook == " " + t;
    SpaceTrims(t);
    assert t[0] == DASH && t[1..] == " " + hook;
    SpaceTrims(hook);
    TrimIdle(hook);
  }

  lemma TrimmedParses(line: string, title: string, file: string, tail: string)
    requires Trim(line) == "- [" + (title + "](" + (file + ")" + tail))
    requires Free(title, "](") && ')' !in file
    ensures ParseEntry(line) == Some(Entry(title, file, Hook(tail)))
  {
    var body := title + "](" + (file + ")" + tail);
    assert ("- [" + body)[3..] == body && "- [" <= "- [" + body;
    TitleFound(title, file + ")" + tail);
    FileFound(file, tail);
  }

  function Tail(hook: string): string { if hook == "" then " " + [DASH] else " " + [DASH] + " " + hook }

  /** An entry's line parses to the entry. */
  lemma EntryReadsBack(e: Entry)
    requires Clean(e)
    ensures ParseEntry(EntryLine(e)) == Some(e)
  {
    LineTrims(e, Tail(e.hook), e.title + "](" + (e.file + ")" + Tail(e.hook)));
    TrimmedParses(EntryLine(e), e.title, e.file, Tail(e.hook));
    if e.hook == "" { BareHook(); } else { HookFound(e.hook); }
  }

  lemma LineTrims(e: Entry, tail: string, body: string)
    requires Trimmed(e.hook) && tail == Tail(e.hook)
    requires body == e.title + "](" + (e.file + ")" + tail)
    ensures Trim(EntryLine(e)) == "- [" + body
  {
    var s := "- [" + body;
    assert s[0] == '-' && s[|s| - 1] == tail[|tail| - 1];
    var back := if e.hook == "" then " " else "";
    assert EntryLine(e) == "" + s + back;
    TrimPadded("", s, back);
  }

  /** An entry written without the dash still has its hook. */
  lemma LooseEntryParses(title: string, file: string, hook: string)
    requires Free(title, "](") && ')' !in file && Trimmed(hook) && (hook != "" ==> hook[0] != DASH)
    ensures ParseEntry("- [" + (title + "](" + (file + ")" + hook))) == Some(Entry(title, file, hook))
  {
    var line := "- [" + (title + "](" + (file + ")" + hook));
    assert line[0] == '-' && (hook != "" ==> line[|line| - 1] == hook[|hook| - 1]) && (hook == "" ==> line[|line| - 1] == ')');
    TrimIdle(line);
    TrimmedParses(line, title, file, hook);
    TrimIdle(hook);
  }

  /** A stretch of a line has nothing the line has not. */
  lemma SliceFree(s: string, i: nat, j: nat, pat: string)
    requires i <= j <= |s| && Free(s, pat) && '\n' !in s
    ensures Free(s[i..j], pat) && '\n' !in s[i..j]
  {
    forall k ensures !At(s[i..j], k, pat) {
      if At(s[i..j], k, pat) { AtInside(s, i, j, k, pat); }
    }
  }

  lemma SplitPieces(s: string, sep: string, pat: string)
    requires SplitOnce(s, sep).Some? && Free(s, pat) && '\n' !in s
    ensures var (a, b) := SplitOnce(s, sep).value;
      && Free(a, pat) && Free(b, pat) && '\n' !in a && '\n' !in b
      && (forall k :: 0 <= k < |a| ==> !At(s, k, sep)) && s == a + sep + b
  {
    var i := Find(s, sep).value;
    SliceFree(s, 0, i, pat);
    SliceFree(s, i + |sep|, |s|, pat);
    assert s[0..i] == s[..i] && s[i + |sep|..|s|] == s[i + |sep|..];
    assert s == s[..i] + s[i..i + |sep|] + s[i + |sep|..];
  }

  lemma TrimPieces(s: string, pat: string)
    requires Free(s, pat) && '\n' !in s
    ensures Free(Trim(s), pat) && '\n' !in Trim(s)
    ensures Free(TrimStart(s), pat) && '\n' !in TrimStart(s)
  {
    var t := TrimStart(s);
    TrimStartSlices(s);
    SliceFree(s, |s| - |t|, |s|, pat);
    assert s[|s| - |t|..|s|] == t;
    SliceFree(t, 0, |TrimEnd(t)|, pat);
    assert t[0..|TrimEnd(t)|] == TrimEnd(t);
  }

  lemma TrimStartTrims(s: string)
    requires s == "" || !IsSpace(s[|s| - 1])
    ensures Trimmed(TrimStart(s))
  {
    TrimStartSlices(s);
  }

  lemma HookIsClean(tail: string, pat: string)
    requires tail == "" || !IsSpace(tail[|tail| - 1])
    requires Free(tail, pat) && '\n' !in tail
    ensures Trimmed(Hook(tail)) && Free(Hook(tail), pat) && '\n' !in Hook(tail)
  {
    TrimPieces(tail, pat);
    TrimStartTrims(tail);
    var t := TrimStart(tail);
    if t != "" && t[0] == DASH { AfterDashIsClean(t, pat); }
  }

  lemma AfterDashIsClean(t: string, pat: string)
    requires t != "" && Trimmed(t) && Free(t, pat) && '\n' !in t
    ensures var h := TrimStart(t[1..]); Trimmed(h) && Free(h, pat) && '\n' !in h
  {
    SliceFree(t, 1, |t|, pat);
    assert t[1..|t|] == t[1..];
    TrimPieces(t[1..], pat);
    TrimStartTrims(t[1..]);
  }

  /** What the parser makes of a line is clean, and takes nothing from outside. */
  lemma ParsedIsClean(line: string, pat: string)
    requires '\n' !in line && ParseEntry(line).Some? && Free(line, pat)
    ensures var e := ParseEntry(line).value;
      Clean(e) && Free(e.title, pat) && Free(e.file, pat) && Free(e.hook, pat)
  {
    var t := Trim(line);
    TrimPieces(line, pat);
    SliceFree(t, 3, |t|, pat);
    assert t[3..|t|] == t[3..];
    BodyIsClean(t[3..], pat);
  }

  lemma BodyIsClean(body: string, pat: string)
    requires body != "" ==> !IsSpace(body[|body| - 1])
    requires Free(body, pat) && '\n' !in body && SplitOnce(body, "](").Some?
    requires SplitOnce(SplitOnce(body, "](").value.1, ")").Some?
    ensures var (title, rest) := SplitOnce(body, "](").value; var (file, tail) := SplitOnce(rest, ")").value;
      var e := Entry(title, file, Hook(tail));
      Clean(e) && Free(e.title, pat) && Free(e.file, pat) && Free(e.hook, pat)
  {
    SplitPieces(body, "](", pat);
    var (title, rest) := SplitOnce(body, "](").value;
    SplitPieces(rest, ")", pat);
    var (file, tail) := SplitOnce(rest, ")").value;
    assert tail != "" ==> tail[|tail| - 1] == body[|body| - 1];
    HookIsClean(tail, pat);
    TitleIsFree(body, title, rest);
    FileIsPlain(rest, file, tail);
  }

  lemma TitleIsFree(body: string, title: string, rest: string)
    requires body == title + "](" + rest && forall k :: 0 <= k < |title| ==> !At(body, k, "](")
    ensures Free(title, "](")
  {
    assert title == body[0..|title|];
    forall k ensures !At(title, k, "](") {
      if At(title, k, "](") { AtInside(body, 0, |title|, k, "]("); }
    }
  }

  lemma FileIsPlain(rest: string, file: string, tail: string)
    requires rest == file + ")" + tail && forall k :: 0 <= k < |file| ==> !At(rest, k, ")")
    ensures ')' !in file
  {
    AtOne(rest, ')');
    forall k | 0 <= k < |file| ensures file[k] != ')' { assert rest[k] == file[k]; }
  }

  // ---------------------------------------------------------------- a region reads back

  /** Where a text that starts with `<` is put behind a clean one, a marker can
      only begin inside the second. */
  lemma NoStraddle(a: string, b: string, pat: string, i: int)
    requires MarkerOk(pat) && (b == "" || b[0] == '<') && At(a + b, i, pat)
    ensures At(a, i, pat) || (i >= |a| && At(b, i - |a|, pat))
  {
    AtChars(a + b, i, pat);
    assert b != "" ==> (a + b)[|a|] == '<';
    if i >= |a| {
      assert (a + b)[i..i + |pat|] == b[i - |a|..i - |a| + |pat|];
    } else if i + |pat| <= |a| {
      assert (a + b)[i..i + |pat|] == a[i..i + |pat|];
    }
  }

  /** Behind a clean text the first marker is found where it was put. */
  lemma MarkerFound(a: string, pat: string, b: string)
    requires MarkerOk(pat) && Free(a, pat)
    ensures Find(a + pat + b, pat) == Some(|a|)
  {
    var s := a + (pat + b);
    assert a + pat + b == s && s[|a|..|a| + |pat|] == pat;
    forall i | 0 <= i < |a| ensures !At(s, i, pat) {
      if At(s, i, pat) { NoStraddle(a, pat + b, pat, i); }
    }
    FindIs(s, pat, |a|);
  }

  lemma NoOtherInside(pat: string, other: string)
    requires MarkerOk(pat) && MarkerOk(other) && !(other <= pat)
    ensures Free(pat, other)
  {
    forall i ensures !At(pat, i, other) {
      if At(pat, i, other) { OtherStarts(pat, other, i); }
    }
  }

  lemma OtherStarts(pat: string, other: string, i: int)
    requires MarkerOk(pat) && MarkerOk(other) && At(pat, i, other)
    ensures other <= pat
  {
    AtChars(pat, i, other);
    assert pat[i] == '<';
    assert i == 0;
  }

  lemma FreeAppend(a: string, pat: string, other: string)
    requires MarkerOk(pat) && MarkerOk(other) && !(other <= pat) && Free(a, other)
    ensures Free(a + pat, other)
  {
    NoOtherInside(pat, other);
    forall i ensures !At(a + pat, i, other) {
      if At(a + pat, i, other) { NoStraddle(a, pat, other, i); }
    }
  }

  /** Entries that can stand in a region: clean, and free of its end marker. */
  ghost predicate Fits(es: seq<Entry>, shut: string) {
    forall i :: 0 <= i < |es| ==> Clean(es[i]) && Free(es[i].title, shut) && Free(es[i].file, shut) && Free(es[i].hook, shut)
  }

  lemma LineFree(e: Entry, shut: string)
    requires MarkerOk(shut) && Free(e.title, shut) && Free(e.file, shut) && Free(e.hook, shut)
    ensures Free(EntryLine(e), shut)
  {
    assert '[' !in shut && '(' !in shut && ')' !in shut && DASH !in shut;
    var d := " " + e.hook;
    FreeBehind(" ", e.hook, shut);
    OneFree(" ", shut);
    FreeJoin(" ", DASH, d, shut);
    FreeJoin(e.file, ')', " " + [DASH] + d, shut);
    OneFree("]", shut);
    FreeCloses(e.title, shut);
    FreeJoin(e.title + "]", '(', e.file + [')'] + (" " + [DASH] + d), shut);
    OneFree("- ", shut);
    FreeJoin("- ", '[', e.title + "]" + ['('] + (e.file + [')'] + (" " + [DASH] + d)), shut);
    assert EntryLine(e) == "- " + ['['] + (e.title + "]" + ['('] + (e.file + [')'] + (" " + [DASH] + d)));
  }

  lemma OneFree(s: string, pat: string)
    requires MarkerOk(pat) && '<' !in s
    ensures Free(s, pat)
  {
    forall i ensures !At(s, i, pat) {
      if At(s, i, pat) { StartsInside(s, pat, i); }
    }
  }

  lemma StartsInside(s: string, pat: string, i: int)
    requires MarkerOk(pat) && At(s, i, pat)
    ensures '<' in s
  {
    AtChars(s, i, pat);
    assert s[i] == '<';
  }

  lemma FreeCloses(a: string, pat: string)
    requires MarkerOk(pat) && Free(a, pat)
    ensures Free(a + "]", pat)
  {
    assert ']' !in pat;
    OneFree("", pat);
    FreeJoin(a, ']', "", pat);
    assert a + [']'] + "" == a + "]";
  }

  lemma {:induction false} LinesFree(lines: seq<string>, pat: string)
    requires MarkerOk(pat) && forall l :: l in lines ==> Free(l, pat)
    ensures Free(Unlines(lines), pat)
  {
    assert '\n' !in pat;
    if lines == [] {
      OneFree("", pat);
    } else {
      LinesFree(lines[1..], pat);
      FreeJoin(lines[0], '\n', Unlines(lines[1..]), pat);
    }
  }

  lemma EntriesFree(es: seq<Entry>, m: Markers)
    requires MarkersOk(m) && Fits(es, m.shut)
    ensures Free(Unlines(EntryLines(es)), m.shut)
  {
    forall l | l in EntryLines(es) ensures Free(l, m.shut) {
      var i :| 0 <= i < |es| && EntryLines(es)[i] == l;
      LineFree(es[i], m.shut);
    }
    LinesFree(EntryLines(es), m.shut);
  }
}
