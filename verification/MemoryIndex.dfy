/**
  `MEMORY.md`: user text around one managed region.  The parser and printer,
  and exactly which files they leave in peace.
 */
module MemoryIndex {
  import opened Options
  import opened Text
  import opened TextFacts

  datatype Markers = Markers(open: string, shut: string)

  const MEMORY_MD := Markers("<!-- BEGIN pensieve-managed -->", "<!-- END pensieve-managed -->")

  const DASH := '\U{2014}'

  datatype Entry = Entry(title: string, file: string, hook: string)

  datatype Index = Index(before: string, managed: seq<Entry>, after: string, hadMarkers: bool)

  // ---------------------------------------------------------------- parsing

  function SplitOnce(s: string, pat: string): Option<(string, string)> {
    match Find(s, pat)
    case None => None
    case Some(i) => Some((s[..i], s[i + |pat|..]))
  }

  function Hook(rest: string): string {
    var t := TrimStart(rest);
    if t != "" && t[0] == DASH then TrimStart(t[1..]) else Trim(rest)
  }

  function ParseEntry(line: string): Option<Entry> {
    var t := Trim(line);
    if !("- [" <= t) then None
    else match SplitOnce(t[3..], "](")
      case None => None
      case Some((title, rest)) =>
        match SplitOnce(rest, ")") {
          case None => None
          case Some((file, tail)) => Some(Entry(title, file, Hook(tail)))
        }
  }

  function ParseEntries(lines: seq<string>): seq<Entry> {
    if lines == [] then []
    else (if ParseEntry(lines[0]).Some? then [ParseEntry(lines[0]).value] else []) + ParseEntries(lines[1..])
  }

  /** Both markers occur, and the first opening one comes first. */
  predicate IsOrdered(raw: string, m: Markers) {
    Find(raw, m.open).Some? && Find(raw, m.shut).Some? && Find(raw, m.open).value < Find(raw, m.shut).value
  }

  predicate MarkerChar(c: char) { 'a' <= c <= 'z' || 'A' <= c <= 'Z' || c in " !->" }

  /** What the two markers look like. */
  predicate MarkerOk(s: string) {
    |s| > 1 && s[0] == '<' && s[|s| - 1] == '>' && forall i :: 0 < i < |s| ==> MarkerChar(s[i])
  }

  predicate MarkersOk(m: Markers) { MarkerOk(m.open) && MarkerOk(m.shut) && !(m.open <= m.shut) && !(m.shut <= m.open) }

  lemma OpenOk()
    ensures MarkerOk(MEMORY_MD.open) && MEMORY_MD.open[5] == 'B'
  {}

  lemma ShutOk()
    ensures MarkerOk(MEMORY_MD.shut) && MEMORY_MD.shut[5] == 'E'
  {}

  lemma MemoryMarkersOk()
    ensures MarkersOk(MEMORY_MD)
  {
    OpenOk();
    ShutOk();
  }

  /** Two occurrences of markers never overlap. */
  lemma Apart(raw: string, m: Markers)
    requires MarkersOk(m) && IsOrdered(raw, m)
    ensures Find(raw, m.open).value + |m.open| <= Find(raw, m.shut).value
  {
    var b, e := Find(raw, m.open).value, Find(raw, m.shut).value;
    AtChars(raw, b, m.open);
    AtChars(raw, e, m.shut);
    assert raw[e] == '<';
  }

  function Inner(raw: string, m: Markers): string
    requires MarkersOk(m) && IsOrdered(raw, m)
  {
    Apart(raw, m);
    raw[Find(raw, m.open).value + |m.open|..Find(raw, m.shut).value]
  }

  function ParseIndex(raw: string, m: Markers): Index
    requires MarkersOk(m)
  {
    if IsOrdered(raw, m) then
      Index(raw[..Find(raw, m.open).value], ParseEntries(Lines(Inner(raw, m))), raw[Find(raw, m.shut).value + |m.shut|..], true)
    else Index(raw, [], "", false)
  }

  // ---------------------------------------------------------------- printing

  function EntryLine(e: Entry): string { "- [" + e.title + "](" + e.file + ") \U{2014} " + e.hook }

  function EntryLines(es: seq<Entry>): seq<string> { seq(|es|, i requires 0 <= i < |es| => EntryLine(es[i])) }

  function Region(es: seq<Entry>, m: Markers): string { m.open + "\n" + Unlines(EntryLines(es)) + m.shut }

  const TITLE := "# Memory index"

  /** The user's text without trailing blanks, or a heading if there is none. */
  function Top(before: string): string { if TrimEnd(before) == "" then TITLE else TrimEnd(before) }

  function RenderIndex(ix: Index, m: Markers): string {
    if ix.hadMarkers then ix.before + Region(ix.managed, m) + ix.after
    else Top(ix.before) + "\n\n" + Region(ix.managed, m) + "\n"
  }

  // ---------------------------------------------------------------- the object

  class IndexFile {
    const markers: Markers
    var before: string
    var managed: seq<Entry>
    var after: string
    var hadMarkers: bool

    ghost function State(): Index reads this { Index(before, managed, after, hadMarkers) }

    constructor Parse(raw: string, m: Markers)
      requires MarkersOk(m)
      ensures State() == ParseIndex(raw, m) && markers == m
    {
      markers := m;
      var b, e := Find(raw, m.open), Find(raw, m.shut);
      if b.Some? && e.Some? && b.value < e.value {
        Apart(raw, m);
        var inner := raw[b.value + |m.open|..e.value];
        assert IsOrdered(raw, m) && inner == Inner(raw, m);
        before := raw[..b.value];
        managed := ParseEntries(Lines(inner));
        after := raw[e.value + |m.shut|..];
        hadMarkers := true;
      } else {
        before := raw;
        managed := [];
        after := "";
        hadMarkers := false;
      }
    }

    method SetManaged(entries: seq<Entry>)
      modifies this`managed
      ensures State() == old(State()).(managed := entries)
    {
      managed := entries;
    }

    method Render() returns (out: string)
      ensures out == RenderIndex(State(), markers)
    {
      if hadMarkers {
        out := before;
      } else {
        var trimmed := TrimEnd(before);
        out := (if trimmed == "" then TITLE else trimmed) + "\n\n";
      }
      var region := RenderRegion(managed, markers);
      out := out + region + (if hadMarkers then after else "\n");
    }
  }

  method RenderRegion(managed: seq<Entry>, m: Markers) returns (region: string)
    ensures region == Region(managed, m)
  {
    region := m.open + "\n";
    for i := 0 to |managed|
      invariant region == m.open + "\n" + Unlines(EntryLines(managed[..i]))
    {
      RegionStep(managed, m, i);
      var e := managed[i];
      var line := "- [" + e.title + "](" + e.file + ") \U{2014} " + e.hook;
      region := region + (line + "\n");
    }
    assert managed[..|managed|] == managed;
    region := region + m.shut;
  }

  lemma RegionStep(managed: seq<Entry>, m: Markers, i: nat)
    requires i < |managed|
    ensures m.open + "\n" + Unlines(EntryLines(managed[..i + 1]))
      == m.open + "\n" + Unlines(EntryLines(managed[..i])) + (EntryLine(managed[i]) + "\n")
  {
    assert EntryLines(managed[..i + 1]) == EntryLines(managed[..i]) + [EntryLine(managed[i])];
    UnlinesAppend(EntryLines(managed[..i]), EntryLine(managed[i]));
  }
}
