/**
  The on-disk note format: rendering a memory row, and parsing a pushed file.
  Hashing, the two-decimal float format and the YAML reader are parameters.
 */
module Notes {
  import opened Options
  import opened BrainTypes
  import opened Text
  import opened TextFacts

  const RELATED_BEGIN := "<!-- pensieve:related:begin -->"
  const RELATED_END := "<!-- pensieve:related:end -->"

  /** `hash` is the truncated blake3 digest; `isFloat` is `parse::<f64>().is_ok()`. */
  datatype Formats = Formats(hash: string -> string, fixed2: real -> string, isFloat: string -> bool)

  // ---------------------------------------------------------------- spans

  /** What follows the first span of `s`, nothing if it is unclosed. */
  function AfterSpan(s: string, open: string, close: string): (r: string)
    requires open != "" && Find(s, open).Some?
    ensures |r| < |s|
  {
    var rest := s[Find(s, open).value + |open|..];
    match Find(rest, close)
    case None => ""
    case Some(j) => rest[j + |close|..]
  }

  /** What is left once every `open ... close` span is cut. */
  function StripSpans(s: string, open: string, close: string): string
    requires open != ""
    decreases |s|
  {
    match Find(s, open)
    case None => s
    case Some(i) => s[..i] + StripSpans(AfterSpan(s, open, close), open, close)
  }

  lemma StripStep(s: string, open: string, close: string)
    requires open != "" && Find(s, open).Some?
    ensures forall out: string ::
      out + StripSpans(s, open, close) == (out + s[..Find(s, open).value]) + StripSpans(AfterSpan(s, open, close), open, close)
  {
    var i, left := Find(s, open).value, StripSpans(AfterSpan(s, open, close), open, close);
    assert forall out: string :: out + (s[..i] + left) == (out + s[..i]) + left;
  }

  method CutSpans(s: string, open: string, close: string) returns (out: string)
    requires open != ""
    ensures out == StripSpans(s, open, close)
  {
    out := "";
    var rest := s;
    while Find(rest, open).Some?
      invariant out + StripSpans(rest, open, close) == StripSpans(s, open, close)
      decreases |rest|
    {
      StripStep(rest, open, close);
      out := out + rest[..Find(rest, open).value];
      rest := AfterSpan(rest, open, close);
    }
    out := out + rest;
  }

  function StripPrivate(s: string): string { StripSpans(s, "<private>", "</private>") }

  function StripManaged(body: string): string { Trim(StripSpans(body, RELATED_BEGIN, RELATED_END)) }

  // ---------------------------------------------------------------- rendering

  function QuoteEscaped(s: string): string {
    if s == "" then ""
    else (if s[0] == '\\' then "\\\\" else if s[0] == '"' then "\\\"" else [s[0]]) + QuoteEscaped(s[1..])
  }

  predicate NeedsQuoting(s: string, fmt: Formats) {
    || s == ""
    || (exists i :: 0 <= i < |s| && s[i] in ":#{}[]&*!|>'\"%@`,\n\t")
    || IsSpace(s[0]) || s[0] in "-?" || IsSpace(s[|s| - 1])
    || s in ["true", "false", "null", "yes", "no", "on", "off"]
    || fmt.isFloat(s)
  }

  function YamlScalar(s: string, fmt: Formats): string {
    if NeedsQuoting(s, fmt) then "\"" + QuoteEscaped(s) + "\"" else s
  }

  function CommaJoin(items: seq<string>): string {
    if items == [] then "" else if |items| == 1 then items[0] else items[0] + ", " + CommaJoin(items[1..])
  }

  function YamlList(items: seq<string>, fmt: Formats): string {
    "[" + CommaJoin(seq(|items|, i requires 0 <= i < |items| => YamlScalar(items[i], fmt))) + "]"
  }

  function TrimmedTags(pieces: seq<string>): seq<string> {
    if pieces == [] then []
    else (if Trim(pieces[0]) == "" then [] else [Trim(pieces[0])]) + TrimmedTags(pieces[1..])
  }

  function Content(row: NoteRow, redact: bool): string {
    Trim(if redact then StripPrivate(row.content) else row.content)
  }

  function TrimmedLines(lines: seq<string>): seq<string> {
    if lines == [] then [] else [TrimEnd(lines[0])] + TrimmedLines(lines[1..])
  }

  /** The hash covers the title and the body up to trailing blanks. */
  function ContentHash(title: string, body: string, fmt: Formats): string {
    fmt.hash(title + "\n" + Trim(Join(TrimmedLines(Lines(body)))))
  }

  datatype Key = Title | MemoryId | Type | Realm | Tags | Importance | Status | Created | Updated
               | ValidFrom | ValidUntil | Aliases | Hash

  function KeyName(k: Key): (r: string)
    ensures r != "" && r[0] != '-'
  {
    match k
    case Title => "title"
    case MemoryId => "pensieve_memory_id"
    case Type => "type"
    case Realm => "realm"
    case Tags => "tags"
    case Importance => "importance"
    case Status => "status"
    case Created => "created"
    case Updated => "updated"
    case ValidFrom => "valid_from"
    case ValidUntil => "valid_until"
    case Aliases => "aliases"
    case Hash => "content_hash"
  }

  /** The frontmatter in its fixed order; absent fields are left out. */
  function Front(row: NoteRow, redact: bool, fmt: Formats): seq<(Key, string)> {
    var tags := TrimmedTags(Split(row.tags, ','));
    [(Title, YamlScalar(row.title, fmt)), (MemoryId, row.id), (Type, row.memoryType), (Realm, YamlScalar(row.realm, fmt))]
    + (if tags == [] then [] else [(Tags, YamlList(tags, fmt))])
    + [(Importance, fmt.fixed2(row.importance)), (Status, row.status), (Created, row.createdAt), (Updated, row.updatedAt)]
    + (if row.validAt.Some? then [(ValidFrom, row.validAt.value)] else [])
    + (if row.invalidAt.Some? then [(ValidUntil, row.invalidAt.value)] else [])
    + [(Aliases, YamlList([row.title], fmt)), (Hash, ContentHash(row.title, Content(row, redact), fmt))]
  }

  function FrontLine(field: (Key, string)): string { KeyName(field.0) + ": " + field.1 }

  function FrontLines(row: NoteRow, redact: bool, fmt: Formats): seq<string> {
    var front := Front(row, redact, fmt);
    seq(|front|, i requires 0 <= i < |front| => FrontLine(front[i]))
  }

  function LinkLine(link: RelatedLink): string {
    "- [[" + link.target + "|" + link.title + "]] \U{2014} " + link.edgeType
  }

  function LinkLines(related: seq<RelatedLink>): seq<string> {
    seq(|related|, i requires 0 <= i < |related| => LinkLine(related[i]))
  }

  function BlockWith(related: seq<RelatedLink>, begin: string, end: string): string {
    if related == [] then "" else "\n" + begin + "\n## Related\n" + Unlines(LinkLines(related)) + end + "\n"
  }

  function RelatedBlock(related: seq<RelatedLink>): string { BlockWith(related, RELATED_BEGIN, RELATED_END) }

  function Fenced(lines: seq<string>, body: string): string { "---\n" + Unlines(lines) + "---\n" + body }

  function BodyHead(title: string, content: string): string { "\n# " + title + "\n\n" + content + "\n" }

  function RenderNote(row: NoteRow, related: seq<RelatedLink>, redact: bool, fmt: Formats): string {
    Fenced(FrontLines(row, redact, fmt), BodyHead(row.title, Content(row, redact)) + RelatedBlock(related))
  }

  // ---------------------------------------------------------------- parsing

  datatype Yaml = Str(text: string) | Num(text: string, value: real) | List(items: seq<Option<string>>) | Other

  /** `None` when the text is not a YAML mapping. */
  type YamlReader = string -> Option<map<string, Yaml>>

  datatype ParsedNote = ParsedNote(
    title: Option<string>, memoryId: Option<string>, memoryType: Option<string>, realm: Option<string>,
    tags: seq<string>, importance: Option<real>, contentHash: Option<string>, body: string)

  function SplitFrontmatter(raw: string): (Option<string>, string) {
    if "---\n" <= raw then
      var rest := raw[4..];
      match Find(rest, "\n---\n")
      case Some(i) => (Some(rest[..i]), rest[i + 5..])
      case None =>
        match Find(rest, "\n---") {
          case Some(i) => if Trim(rest[i + 4..]) == "" then (Some(rest[..i]), "") else (None, raw)
          case None => (None, raw)
        }
    else (None, raw)
  }

  function ValueStr(front: map<string, Yaml>, key: string): Option<string> {
    if key in front && (front[key].Str? || front[key].Num?) then Some(front[key].text) else None
  }

  function PresentItems(items: seq<Option<string>>): seq<string> {
    if items == [] then [] else (if items[0].Some? then [items[0].value] else []) + PresentItems(items[1..])
  }

  function ParsedTags(front: map<string, Yaml>): seq<string> {
    if "tags" !in front then []
    else match front["tags"]
      case List(items) => PresentItems(items)
      case Str(s) => var pieces := Split(s, ','); seq(|pieces|, i requires 0 <= i < |pieces| => Trim(pieces[i]))
      case _ => []
  }

  function FrontTitle(front: map<string, Yaml>): Option<string> {
    if ValueStr(front, "title").Some? then ValueStr(front, "title") else ValueStr(front, "name")
  }

  /** Drop a leading H1 that repeats the title; a missing title is the H1. */
  function DropH1(title: Option<string>, lines: seq<string>): (Option<string>, seq<string>) {
    if lines != [] && "# " <= lines[0] then
      var h1 := Trim(lines[0][2..]);
      if title.None? || title.value == h1 then (Some(h1), lines[1..]) else (title, lines)
    else (title, lines)
  }

  function FrontOf(text: Option<string>, yaml: YamlReader): map<string, Yaml> {
    if text.Some? && yaml(text.value).Some? then yaml(text.value).value else map[]
  }

  function ParseNote(raw: string, yaml: YamlReader): ParsedNote {
    var (text, bodyRaw) := SplitFrontmatter(raw);
    var front := FrontOf(text, yaml);
    var (title, lines) := DropH1(FrontTitle(front), Lines(StripManaged(bodyRaw)));
    ParsedNote(title, ValueStr(front, "pensieve_memory_id"), ValueStr(front, "type"), ValueStr(front, "realm"),
               ParsedTags(front),
               if "importance" in front && front["importance"].Num? then Some(front["importance"].value) else None,
               ValueStr(front, "content_hash"), Trim(Join(lines)))
  }

  // ---------------------------------------------------------------- file names

  predicate Alnum(c: char) { '0' <= c <= '9' || 'a' <= c <= 'z' || 'A' <= c <= 'Z' }

  function Lower(c: char): char { if 'A' <= c <= 'Z' then ((c as int) + 32) as char else c }

  predicate SlugChar(c: char) { '0' <= c <= '9' || 'a' <= c <= 'z' || c == '-' }

  /** Trailing dashes off. */
  function TrimDashes(s: string): (r: string)
    ensures r <= s && (r != "" ==> r[|r| - 1] != '-')
  {
    if s != "" && s[|s| - 1] == '-' then TrimDashes(s[..|s| - 1]) else s
  }

  /** A slug has no doubled, leading or trailing dash and is never empty. */
  predicate SlugOk(s: string) {
    && s != "" && s[0] != '-' && s[|s| - 1] != '-'
    && (forall c :: c in s ==> SlugChar(c))
    && (forall i :: 0 < i < |s| ==> !(s[i - 1] == '-' && s[i] == '-'))
  }

  /** The letters and digits of the title in order, lower-cased. */
  function Kept(title: string): string {
    if title == "" then "" else Kept(title[..|title| - 1]) + (if Alnum(title[|title| - 1]) then [Lower(title[|title| - 1])] else "")
  }

  function WithoutDashes(s: string): string {
    if s == "" then "" else WithoutDashes(s[..|s| - 1]) + (if s[|s| - 1] == '-' then "" else [s[|s| - 1]])
  }

  /** Every run of other characters becomes one dash. */
  function RawSlug(title: string): string {
    if title == "" then ""
    else
      var r, c := RawSlug(title[..|title| - 1]), title[|title| - 1];
      if Alnum(c) then r + [Lower(c)]
      else if r != "" && r[|r| - 1] != '-' then r + "-"
      else r
  }

  function TitleSlug(title: string): string {
    var slug := TrimDashes(RawSlug(title));
    if slug == "" then "note" else slug
  }

  /** The loop's running dash flag is exactly "nothing yet, or a dash last". */
  method MakeSlug(title: string) returns (slug: string)
    ensures slug == TitleSlug(title)
  {
    slug := "";
    var prevDash := true;
    for i := 0 to |title|
      invariant slug == RawSlug(title[..i])
      invariant prevDash <==> (slug == "" || slug[|slug| - 1] == '-')
    {
      assert title[..i + 1][..i] == title[..i];
      if Alnum(title[i]) {
        slug := slug + [Lower(title[i])];
        prevDash := false;
      } else if !prevDash {
        slug := slug + "-";
        prevDash := true;
      }
    }
    assert title[..|title|] == title;
    slug := TrimDashes(slug);
    if slug == "" { slug := "note"; }
  }

  lemma {:induction false} RawSlugShape(title: string)
    ensures var r := RawSlug(title);
      && (r != "" ==> r[0] != '-') && (forall i :: 0 <= i < |r| ==> SlugChar(r[i]))
      && (forall i :: 0 < i < |r| ==> !(r[i - 1] == '-' && r[i] == '-'))
  {
    if title != "" { RawSlugShape(title[..|title| - 1]); }
  }

  lemma {:induction false} RawSlugSpells(title: string)
    ensures WithoutDashes(RawSlug(title)) == Kept(title)
  {
    if title != "" {
      RawSlugSpells(title[..|title| - 1]);
      var r, c := RawSlug(title[..|title| - 1]), title[|title| - 1];
      var d := if Alnum(c) then Lower(c) else '-';
      assert (r + [d])[..|r|] == r;
    }
  }

  lemma {:induction false} TrimDashesKeeps(s: string)
    ensures WithoutDashes(TrimDashes(s)) == WithoutDashes(s)
  {
    if s != "" && s[|s| - 1] == '-' { TrimDashesKeeps(s[..|s| - 1]); }
  }

  /** A slug is well formed and spells out the title's letters and digits. */
  lemma SlugSpellsTitle(title: string)
    ensures SlugOk(TitleSlug(title))
    ensures Kept(title) != "" ==> WithoutDashes(TitleSlug(title)) == Kept(title)
  {
    RawSlugShape(title);
    RawSlugSpells(title);
    TrimDashesKeeps(RawSlug(title));
    var raw, slug := RawSlug(title), TrimDashes(RawSlug(title));
    assert forall i :: 0 <= i < |slug| ==> slug[i] == raw[i];
  }

  const WINDOWS_RESERVED: seq<string> := [
    "con", "prn", "aux", "nul", "com1", "com2", "com3", "com4", "com5", "com6", "com7", "com8",
    "com9", "lpt1", "lpt2", "lpt3", "lpt4", "lpt5", "lpt6", "lpt7", "lpt8", "lpt9"]

  function Id8(memoryId: string): string {
    var bare := WithoutDashes(memoryId);
    var id8 := if |bare| > 8 then bare[..8] else bare;
    if id8 == "" then "00000000" else id8
  }

  lemma {:induction false} DashesOnly(s: string)
    ensures forall c :: c in WithoutDashes(s) ==> c in s
  {
    if s != "" {
      DashesOnly(s[..|s| - 1]);
      assert s == s[..|s| - 1] + [s[|s| - 1]];
    }
  }

  function ShortSlug(title: string): string {
    var slug := TitleSlug(title);
    TrimDashes(if |slug| > 80 then slug[..80] else slug)
  }

  function NoteStem(title: string, memoryId: string): string {
    PortableSlug(ShortSlug(title)) + "-" + Id8(memoryId)
  }

  function PortableSlug(slug: string): (r: string)
    ensures r == slug || r == "note"
  {
    if slug in WINDOWS_RESERVED then "note" else slug
  }

  lemma ShortSlugChars(title: string)
    ensures forall c :: c in ShortSlug(title) ==> SlugChar(c)
  {
    SlugSpellsTitle(title);
    var slug := TitleSlug(title);
    assert forall c :: c in ShortSlug(title) ==> c in slug;
  }

  lemma Id8Chars(memoryId: string)
    ensures forall c :: c in Id8(memoryId) ==> c == '0' || c in memoryId
  {
    DashesOnly(memoryId);
    var bare := WithoutDashes(memoryId);
    assert forall c :: c in Id8(memoryId) ==> c in bare || c == '0';
  }

  /** The stem is made of slug characters and of the id's own. */
  lemma StemChars(title: string, memoryId: string)
    ensures forall c :: c in NoteStem(title, memoryId) ==> SlugChar(c) || c in memoryId
  {
    ShortSlugChars(title);
    Id8Chars(memoryId);
    var slug, id8 := PortableSlug(ShortSlug(title)), Id8(memoryId);
    assert forall c :: c in slug + "-" + id8 ==> c in slug || c == '-' || c in id8;
  }
}
