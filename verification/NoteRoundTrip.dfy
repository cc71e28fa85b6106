/** Parsing a rendered note gives back the memory's id, title and content. */
module NoteRoundTrip {
  import opened Options
  import opened BrainTypes
  import opened Text
  import opened TextFacts
  import opened Notes

  // ---------------------------------------------------------------- rendering in place

  method RenderLinks(related: seq<RelatedLink>) returns (out: string)
    ensures out == RelatedBlock(related)
  {
    out := "";
    if related != [] {
      out := "\n" + RELATED_BEGIN + "\n## Related\n";
      ghost var front := out;
      for i := 0 to |related|
        invariant out == front + Unlines(LinkLines(related[..i]))
      {
        LinkStep(related, i);
        var link := related[i];
        var line := "- [[" + link.target + "|" + link.title + "]] \U{2014} " + link.edgeType;
        out := out + (line + "\n");
      }
      assert related[..|related|] == related;
      out := out + (RELATED_END + "\n");
    }
  }

  lemma LinkStep(related: seq<RelatedLink>, i: nat)
    requires i < |related|
    ensures Unlines(LinkLines(related[..i + 1])) == Unlines(LinkLines(related[..i])) + (LinkLine(related[i]) + "\n")
  {
    assert LinkLines(related[..i + 1]) == LinkLines(related[..i]) + [LinkLine(related[i])];
    UnlinesAppend(LinkLines(related[..i]), LinkLine(related[i]));
  }

  lemma {:induction false} TagsAppend(pieces: seq<string>, last: string)
    ensures TrimmedTags(pieces + [last]) == TrimmedTags(pieces) + (if Trim(last) == "" then [] else [Trim(last)])
  {
    if pieces == [] {
      assert [] + [last] == [last] && [last][1..] == [];
    } else {
      assert (pieces + [last])[1..] == pieces[1..] + [last];
      TagsAppend(pieces[1..], last);
    }
  }

  method CollectTags(tags: string) returns (out: seq<string>)
    ensures out == TrimmedTags(Split(tags, ','))
  {
    out := [];
    var pieces := Split(tags, ',');
    for i := 0 to |pieces|
      invariant out == TrimmedTags(pieces[..i])
    {
      assert pieces[..i + 1] == pieces[..i] + [pieces[i]];
      TagsAppend(pieces[..i], pieces[i]);
      var t := Trim(pieces[i]);
      if t != "" { out := out + [t]; }
    }
    assert pieces[..|pieces|] == pieces;
  }

  /** Push a field that may be absent. */
  method PushIf(front: seq<(Key, string)>, present: bool, field: (Key, string)) returns (r: seq<(Key, string)>)
    ensures r == front + if present then [field] else []
  {
    r := front;
    if present { r := r + [field]; }
  }

  /** The frontmatter fields, pushed in their fixed order. */
  method CollectFront(row: NoteRow, content: string, fmt: Formats, ghost redact: bool) returns (front: seq<(Key, string)>)
    requires content == Content(row, redact)
    ensures front == Front(row, redact, fmt)
  {
    front := [(Title, YamlScalar(row.title, fmt)), (MemoryId, row.id), (Type, row.memoryType), (Realm, YamlScalar(row.realm, fmt))];
    var tags := CollectTags(row.tags);
    front := PushIf(front, tags != [], (Tags, YamlList(tags, fmt)));
    front := front + [(Importance, fmt.fixed2(row.importance)), (Status, row.status), (Created, row.createdAt), (Updated, row.updatedAt)];
    front := PushIf(front, row.validAt.Some?, (ValidFrom, if row.validAt.Some? then row.validAt.value else ""));
    front := PushIf(front, row.invalidAt.Some?, (ValidUntil, if row.invalidAt.Some? then row.invalidAt.value else ""));
    front := front + [(Aliases, YamlList([row.title], fmt)), (Hash, ContentHash(row.title, content, fmt))];
  }

  function LinesOf(front: seq<(Key, string)>): seq<string> { seq(|front|, i requires 0 <= i < |front| => FrontLine(front[i])) }

  lemma FrontStep(front: seq<(Key, string)>, i: nat)
    requires i < |front|
    ensures Unlines(LinesOf(front[..i + 1])) == Unlines(LinesOf(front[..i])) + (FrontLine(front[i]) + "\n")
  {
    assert LinesOf(front[..i + 1]) == LinesOf(front[..i]) + [FrontLine(front[i])];
    UnlinesAppend(LinesOf(front[..i]), FrontLine(front[i]));
  }

  method RenderFront(front: seq<(Key, string)>) returns (out: string)
    ensures out == Unlines(LinesOf(front))
  {
    out := "";
    for i := 0 to |front|
      invariant out == Unlines(LinesOf(front[..i]))
    {
      FrontStep(front, i);
      var line := KeyName(front[i].0) + ": " + front[i].1;
      out := out + (line + "\n");
    }
    assert front[..|front|] == front;
  }

  /** The whole note, piece by piece. */
  method WriteNote(row: NoteRow, related: seq<RelatedLink>, redact: bool, fmt: Formats) returns (out: string)
    ensures out == RenderNote(row, related, redact, fmt)
  {
    var content := row.content;
    if redact { content := CutSpans(content, "<private>", "</private>"); }
    content := Trim(content);
    var front := CollectFront(row, content, fmt, redact);
    var fm := RenderFront(front);
    var links := RenderLinks(related);
    out := "---\n" + fm + "---\n" + ("\n# " + row.title + "\n\n" + content + "\n" + links);
  }

  // ---------------------------------------------------------------- the frontmatter fence

  ghost predicate FrontLike(lines: seq<string>) {
    forall l :: l in lines ==> l != "" && l[0] != '-' && '\n' !in l
  }

  /** No line of the frontmatter can be taken for the closing fence. */
  lemma {:induction false} NoDashAfterNewline(lines: seq<string>)
    requires FrontLike(lines)
    ensures var t := Unlines(lines);
      && (lines != [] ==> |t| > 1 && t[0] != '-' && t[|t| - 1] == '\n')
      && forall i :: 0 <= i < |t| - 1 && t[i] == '\n' ==> t[i + 1] != '-'
  {
    if lines != [] {
      var l, rest := lines[0], Unlines(lines[1..]);
      assert l in lines && forall m :: m in lines[1..] ==> m in lines;
      NoDashAfterNewline(lines[1..]);
      assert Unlines(lines) == l + ("\n" + rest);
      forall i | 0 <= i < |l| ensures Unlines(lines)[i] != '\n' {
        assert l[i] in l;
      }
    }
  }

  lemma FenceAt(t: string, rest: string)
    requires |t| > 1 && t[|t| - 1] == '\n' && forall i :: 0 <= i < |t| - 1 && t[i] == '\n' ==> t[i + 1] != '-'
    ensures Find(t + "---\n" + rest, "\n---\n") == Some(|t| - 1)
  {
    var text, i := t + "---\n" + rest, |t| - 1;
    assert text[i..i + 5] == "\n---\n";
    forall k | 0 <= k < i ensures !At(text, k, "\n---\n") {
      assert text[k] == t[k] && text[k + 1] == t[k + 1];
      if At(text, k, "\n---\n") { AtChars(text, k, "\n---\n"); }
    }
    FindIs(text, "\n---\n", i);
  }

  lemma FenceShape(t: string, rest: string)
    requires t != ""
    ensures var raw, text := "---\n" + t + "---\n" + rest, t + "---\n" + rest;
      "---\n" <= raw && raw[4..] == text && text[..|t| - 1] == t[..|t| - 1] && text[|t| + 4..] == rest
  {}

  lemma FenceFound(lines: seq<string>, rest: string)
    requires FrontLike(lines) && lines != []
    ensures var t := Unlines(lines);
      t != "" && SplitFrontmatter(Fenced(lines, rest)) == (Some(t[..|t| - 1]), rest)
  {
    var t := Unlines(lines);
    NoDashAfterNewline(lines);
    FenceAt(t, rest);
    FenceShape(t, rest);
  }

  /** Every frontmatter value stays on its line. */
  ghost predicate OneLineFront(row: NoteRow, redact: bool, fmt: Formats) {
    forall l :: l in FrontLines(row, redact, fmt) ==> '\n' !in l
  }

  lemma FrontIsFrontLike(row: NoteRow, redact: bool, fmt: Formats)
    requires OneLineFront(row, redact, fmt)
    ensures FrontLike(FrontLines(row, redact, fmt)) && FrontLines(row, redact, fmt) != []
  {}

  // ---------------------------------------------------------------- the managed block

  ghost predicate LinksFree(related: seq<RelatedLink>, end: string) {
    forall i :: 0 <= i < |related| ==> Free(LinkLine(related[i]), end)
  }

  /** What the two markers have in common. */
  predicate Marker(m: string) { |m| > 12 && '\n' !in m && m[0] == '<' }

  lemma ShortFree(s: string, pat: string)
    requires |s| < |pat|
    ensures Free(s, pat)
  {}

  /** All lines but the last newline. */
  lemma {:induction false} LinesFree(lines: seq<string>, pat: string)
    requires lines != [] && pat != "" && '\n' !in pat && forall l :: l in lines ==> Free(l, pat)
    ensures Unlines(lines) != "" && Unlines(lines)[|Unlines(lines)| - 1] == '\n'
    ensures Free(Unlines(lines)[..|Unlines(lines)| - 1], pat)
  {
    var t := Unlines(lines);
    if |lines| == 1 {
      assert t[..|t| - 1] == lines[0];
    } else {
      var rest := Unlines(lines[1..]);
      LinesFree(lines[1..], pat);
      FreeJoin(lines[0], '\n', rest[..|rest| - 1], pat);
      assert t[..|t| - 1] == lines[0] + ['\n'] + rest[..|rest| - 1];
    }
  }

  /** The end marker is found where it was written. */
  lemma EndFound(links: string, end: string)
    requires Marker(end) && links != "" && links[|links| - 1] == '\n' && Free(links[..|links| - 1], end)
    ensures var inner := "\n## Related\n" + links;
      Find(inner + end + "\n", end) == Some(|inner|) && (inner + end + "\n")[|inner| + |end|..] == "\n"
  {
    var most := links[..|links| - 1];
    var clean := "\n## Related\n" + most;
    ShortFree("\n## Related", end);
    FreeJoin("\n## Related", '\n', most, end);
    assert clean == "\n## Related" + ['\n'] + most;
    FindAfter(clean, '\n', end, "\n");
    assert "\n## Related\n" + links + end + "\n" == clean + ['\n'] + end + "\n";
  }

  /** What the related block adds to the body once stripped. */
  function BlockLeft(related: seq<RelatedLink>): string { if related == [] then "" else "\n\n" }

  lemma OneSpan(s: string, open: string, close: string, i: nat)
    requires open != "" && Find(s, open) == Some(i) && Find(AfterSpan(s, open, close), open) == None
    ensures StripSpans(s, open, close) == s[..i] + AfterSpan(s, open, close)
  {}

  lemma BlockFound(head: string, links: string, begin: string, end: string)
    requires Marker(begin) && Marker(end) && Free(head, begin)
    requires links != "" && links[|links| - 1] == '\n' && Free(links[..|links| - 1], end)
    ensures var whole := head + ['\n'] + begin + ("\n## Related\n" + links + end + "\n");
      Find(whole, begin) == Some(|head| + 1) && AfterSpan(whole, begin, end) == "\n"
  {
    FindAfter(head, '\n', begin, "\n## Related\n" + links + end + "\n");
    EndFound(links, end);
  }

  lemma BlockShape(head: string, links: string, begin: string, end: string)
    ensures head + ("\n" + begin + "\n## Related\n" + links + end + "\n")
      == head + ['\n'] + begin + ("\n## Related\n" + links + end + "\n")
  {}

  lemma CutShape(head: string, rest: string)
    ensures (head + ['\n'] + rest)[..|head| + 1] + "\n" == head + "\n\n"
  {}

  lemma BlockStripped(head: string, related: seq<RelatedLink>, begin: string, end: string)
    requires Marker(begin) && Marker(end) && Free(head, begin) && LinksFree(related, end)
    ensures StripSpans(head + BlockWith(related, begin, end), begin, end) == head + BlockLeft(related)
  {
    if related == [] {
      assert head + "" == head;
      FreeFind(head, begin);
    } else {
      var links := Unlines(LinkLines(related));
      LinesFree(LinkLines(related), end);
      BlockShape(head, links, begin, end);
      SpanStripped(head, links, begin, end);
    }
  }

  lemma SpanStripped(head: string, links: string, begin: string, end: string)
    requires Marker(begin) && Marker(end) && Free(head, begin)
    requires links != "" && links[|links| - 1] == '\n' && Free(links[..|links| - 1], end)
    ensures StripSpans(head + ['\n'] + begin + ("\n## Related\n" + links + end + "\n"), begin, end) == head + "\n\n"
  {
    var after := "\n## Related\n" + links + end + "\n";
    var whole := head + ['\n'] + begin + after;
    BlockFound(head, links, begin, end);
    ShortFree("\n", begin);
    FreeFind("\n", begin);
    OneSpan(whole, begin, end, |head| + 1);
    CutShape(head, begin + after);
    assert whole == head + ['\n'] + (begin + after);
  }

  // ---------------------------------------------------------------- the body

  /** A title and a content that the format can carry. */
  ghost predicate Carries(title: string, content: string, begin: string) {
    && Trimmed(title) && '\n' !in title && Free(title, begin)
    && Trimmed(content) && '\r' !in content && Free(content, begin)
  }

  lemma HeadFree(title: string, content: string, begin: string)
    requires Marker(begin) && Carries(title, content, begin)
    ensures Free(BodyHead(title, content), begin)
  {
    var c1 := content + ['\n'] + "";
    var c2 := "" + ['\n'] + c1;
    var c3 := "# " + title + ['\n'] + c2;
    ShortFree("", begin);
    FreeBehind("# ", title, begin);
    FreeJoin(content, '\n', "", begin);
    FreeJoin("", '\n', c1, begin);
    FreeJoin("# " + title, '\n', c2, begin);
    FreeJoin("", '\n', c3, begin);
    assert BodyHead(title, content) == "" + ['\n'] + c3;
  }

  /** The body after trimming. */
  function CleanBody(title: string, content: string): string {
    if content != "" then "# " + title + "\n\n" + content else if title != "" then "# " + title else "#"
  }

  lemma BodyTrimmed(title: string, content: string, back: string)
    requires Trimmed(title) && Trimmed(content) && Blank(back)
    ensures Trim(BodyHead(title, content) + back) == CleanBody(title, content)
  {
    var clean := CleanBody(title, content);
    var tail := (if content != "" then "" else if title != "" then "\n\n" else " \n\n") + "\n" + back;
    assert BodyHead(title, content) + back == "\n" + clean + tail;
    TrimPadded("\n", clean, tail);
  }

  lemma H1Dropped(title: string, front: Option<string>, rest: seq<string>)
    requires Trimmed(title) && (front == None || front == Some(title))
    ensures DropH1(front, ["# " + title] + rest) == (Some(title), rest)
  {
    var h1 := "# " + title;
    assert ([h1] + rest)[1..] == rest && h1[2..] == title && "# " <= h1;
    TrimIdle(title);
  }

  lemma FullLines(h1: string, content: string)
    requires '\n' !in h1 && h1 != "" && h1[|h1| - 1] != '\r'
    requires Trimmed(content) && '\r' !in content && content != ""
    ensures var lines := Lines(h1 + "\n\n" + content);
      lines != [] && lines[0] == h1 && Trim(Join(lines[1..])) == content
  {
    var rest := "\n" + content;
    FirstLine(h1, rest);
    assert h1 + "\n\n" + content == h1 + "\n" + rest;
    JoinLines(rest);
    TrimPadded("\n", content, "");
    assert "\n" + content + "" == rest;
    assert ([h1] + Lines(rest))[1..] == Lines(rest);
  }

  lemma CleanLines(title: string, content: string)
    requires Trimmed(title) && '\n' !in title && Trimmed(content) && '\r' !in content && (title != "" || content != "")
    ensures var lines := Lines(CleanBody(title, content));
      lines != [] && lines[0] == "# " + title && Trim(Join(lines[1..])) == content
  {
    var h1 := "# " + title;
    assert h1[|h1| - 1] != '\r';
    if content != "" {
      FullLines(h1, content);
    } else {
      AtOne(h1, '\n');
      assert Lines(h1) == [h1];
    }
  }

  lemma BodyLines(title: string, content: string, front: Option<string>)
    requires Trimmed(title) && '\n' !in title && Trimmed(content) && '\r' !in content && (title != "" || content != "")
    requires front == None || front == Some(title)
    ensures var dropped := DropH1(front, Lines(CleanBody(title, content)));
      dropped.0 == Some(title) && Trim(Join(dropped.1)) == content
  {
    CleanLines(title, content);
    var lines := Lines(CleanBody(title, content));
    assert lines == ["# " + title] + lines[1..];
    H1Dropped(title, front, lines[1..]);
  }

  // ---------------------------------------------------------------- main results

  /** The frontmatter as the YAML reader gets it: without its last newline. */
  function FrontText(lines: seq<string>): string {
    var t := Unlines(lines);
    if t == "" then "" else t[..|t| - 1]
  }

  /** The YAML reader finds the id, and the title or no title at all: it may
      read an unquoted scalar such as `~` as something other than text. */
  predicate ReadsBack(lines: seq<string>, id: string, title: string, yaml: YamlReader) {
    var front := FrontOf(Some(FrontText(lines)), yaml);
    && ValueStr(front, "pensieve_memory_id") == Some(id)
    && (FrontTitle(front) == None || FrontTitle(front) == Some(title))
  }

  /** A row and links the format can carry. */
  ghost predicate Renderable(row: NoteRow, related: seq<RelatedLink>, redact: bool, fmt: Formats) {
    && OneLineFront(row, redact, fmt) && LinksFree(related, RELATED_END)
    && Carries(row.title, Content(row, redact), RELATED_BEGIN)
  }

  lemma BodyStripped(title: string, content: string, related: seq<RelatedLink>)
    requires LinksFree(related, RELATED_END) && Carries(title, content, RELATED_BEGIN)
    ensures StripManaged(BodyHead(title, content) + RelatedBlock(related)) == CleanBody(title, content)
  {
    var head := BodyHead(title, content);
    HeadFree(title, content, RELATED_BEGIN);
    BlockStripped(head, related, RELATED_BEGIN, RELATED_END);
    BodyTrimmed(title, content, BlockLeft(related));
  }

  /** The pieces a fenced note falls into. */
  lemma PartsOf(lines: seq<string>, title: string, content: string, related: seq<RelatedLink>)
    requires FrontLike(lines) && lines != [] && LinksFree(related, RELATED_END) && Carries(title, content, RELATED_BEGIN)
    ensures var parts := SplitFrontmatter(Fenced(lines, BodyHead(title, content) + RelatedBlock(related)));
      parts.0 == Some(FrontText(lines)) && StripManaged(parts.1) == CleanBody(title, content)
  {
    FenceFound(lines, BodyHead(title, content) + RelatedBlock(related));
    BodyStripped(title, content, related);
  }

  lemma Reparsed(lines: seq<string>, id: string, title: string, content: string, related: seq<RelatedLink>, yaml: YamlReader)
    requires FrontLike(lines) && lines != [] && LinksFree(related, RELATED_END) && Carries(title, content, RELATED_BEGIN)
    requires ReadsBack(lines, id, title, yaml) && (title != "" || content != "")
    ensures var note := ParseNote(Fenced(lines, BodyHead(title, content) + RelatedBlock(related)), yaml);
      note.memoryId == Some(id) && note.title == Some(title) && note.body == content
  {
    PartsOf(lines, title, content, related);
    BodyLines(title, content, FrontTitle(FrontOf(Some(FrontText(lines)), yaml)));
  }

  /** Rendering and parsing keeps the identity, the title and the trimmed
      (redacted) content of a memory, whatever its links. */
  lemma NoteRoundTrips(row: NoteRow, related: seq<RelatedLink>, redact: bool, fmt: Formats, yaml: YamlReader)
    requires Renderable(row, related, redact, fmt) && ReadsBack(FrontLines(row, redact, fmt), row.id, row.title, yaml)
    requires row.title != "" || Content(row, redact) != ""
    ensures var note := ParseNote(RenderNote(row, related, redact, fmt), yaml);
      note.memoryId == Some(row.id) && note.title == Some(row.title) && note.body == Content(row, redact)
  {
    FrontIsFrontLike(row, redact, fmt);
    Reparsed(FrontLines(row, redact, fmt), row.id, row.title, Content(row, redact), related, yaml);
  }

  /** A note with neither title nor content comes back with the bare hash. */
  lemma EmptyReparsed(lines: seq<string>, related: seq<RelatedLink>, yaml: YamlReader)
    requires FrontLike(lines) && lines != [] && LinksFree(related, RELATED_END) && Carries("", "", RELATED_BEGIN)
    ensures ParseNote(Fenced(lines, BodyHead("", "") + RelatedBlock(related)), yaml).body == "#"
  {
    PartsOf(lines, "", "", related);
    AtOne("#", '\n');
    assert Lines("#") == ["#"];
    TrimIdle("#");
    assert Join(["#"]) == "#";
  }

  /** The one exception: with neither title nor content the trimmed heading is
      left as the body, so the body comes back exactly when there is either. */
  lemma BodyComesBackIff(row: NoteRow, related: seq<RelatedLink>, redact: bool, fmt: Formats, yaml: YamlReader)
    requires Renderable(row, related, redact, fmt) && ReadsBack(FrontLines(row, redact, fmt), row.id, row.title, yaml)
    ensures ParseNote(RenderNote(row, related, redact, fmt), yaml).body == Content(row, redact)
      <==> (row.title != "" || Content(row, redact) != "")
  {
    if row.title != "" || Content(row, redact) != "" {
      NoteRoundTrips(row, related, redact, fmt, yaml);
    } else {
      FrontIsFrontLike(row, redact, fmt);
      EmptyReparsed(FrontLines(row, redact, fmt), related, yaml);
    }
  }

  // ---------------------------------------------------------------- the other fields

  function Only(present: bool, line: string): seq<string> { if present then [line] else [] }

  /** The frontmatter, line by line: absent tags and dates leave no line. */
  lemma FrontIs(row: NoteRow, redact: bool, fmt: Formats)
    ensures var tags, content := TrimmedTags(Split(row.tags, ',')), Content(row, redact);
      FrontLines(row, redact, fmt) ==
        ["title: " + YamlScalar(row.title, fmt), "pensieve_memory_id: " + row.id, "type: " + row.memoryType,
         "realm: " + YamlScalar(row.realm, fmt)]
        + Only(tags != [], "tags: " + YamlList(tags, fmt))
        + ["importance: " + fmt.fixed2(row.importance), "status: " + row.status,
           "created: " + row.createdAt, "updated: " + row.updatedAt]
        + Only(row.validAt.Some?, "valid_from: " + (if row.validAt.Some? then row.validAt.value else ""))
        + Only(row.invalidAt.Some?, "valid_until: " + (if row.invalidAt.Some? then row.invalidAt.value else ""))
        + ["aliases: " + YamlList([row.title], fmt), "content_hash: " + ContentHash(row.title, content, fmt)]
  {
    var tags, content := TrimmedTags(Split(row.tags, ',')), Content(row, redact);
    var a := [(Title, YamlScalar(row.title, fmt)), (MemoryId, row.id), (Type, row.memoryType), (Realm, YamlScalar(row.realm, fmt))];
    var b := if tags == [] then [] else [(Tags, YamlList(tags, fmt))];
    var c := [(Importance, fmt.fixed2(row.importance)), (Status, row.status), (Created, row.createdAt), (Updated, row.updatedAt)];
    var d := if row.validAt.Some? then [(ValidFrom, row.validAt.value)] else [];
    var e := if row.invalidAt.Some? then [(ValidUntil, row.invalidAt.value)] else [];
    var f := [(Aliases, YamlList([row.title], fmt)), (Hash, ContentHash(row.title, content, fmt))];
    assert Front(row, redact, fmt) == a + b + c + d + e + f;
    assert FrontLines(row, redact, fmt) == LinesOf(a + b + c + d + e + f);
    LinesJoin(a + b + c + d + e, f);
    LinesJoin(a + b + c + d, e);
    LinesJoin(a + b + c, d);
    LinesJoin(a + b, c);
    LinesJoin(a, b);
    HeadLines(row, fmt);
    TailLines(row, fmt, content);
    TagLine(tags, fmt);
    MiddleLines(row, fmt);
    DateLines(row);
  }

  lemma LineIs(k: Key, v: string, start: string)
    requires KeyName(k) + ": " == start
    ensures FrontLine((k, v)) == start + v
  {}

  lemma FourLines(a: (Key, string), b: (Key, string), c: (Key, string), d: (Key, string))
    ensures LinesOf([a, b, c, d]) == [FrontLine(a), FrontLine(b), FrontLine(c), FrontLine(d)]
  {}

  lemma HeadLines(row: NoteRow, fmt: Formats)
    ensures LinesOf([(Title, YamlScalar(row.title, fmt)), (MemoryId, row.id), (Type, row.memoryType), (Realm, YamlScalar(row.realm, fmt))])
      == ["title: " + YamlScalar(row.title, fmt), "pensieve_memory_id: " + row.id, "type: " + row.memoryType,
          "realm: " + YamlScalar(row.realm, fmt)]
  {
    var title, realm := YamlScalar(row.title, fmt), YamlScalar(row.realm, fmt);
    FourLines((Title, title), (MemoryId, row.id), (Type, row.memoryType), (Realm, realm));
    LineIs(Title, title, "title: ");
    LineIs(MemoryId, row.id, "pensieve_memory_id: ");
    LineIs(Type, row.memoryType, "type: ");
    LineIs(Realm, realm, "realm: ");
  }

  lemma TailLines(row: NoteRow, fmt: Formats, content: string)
    ensures LinesOf([(Aliases, YamlList([row.title], fmt)), (Hash, ContentHash(row.title, content, fmt))])
      == ["aliases: " + YamlList([row.title], fmt), "content_hash: " + ContentHash(row.title, content, fmt)]
  {
    LineIs(Aliases, YamlList([row.title], fmt), "aliases: ");
    LineIs(Hash, ContentHash(row.title, content, fmt), "content_hash: ");
  }

  lemma TagLine(tags: seq<string>, fmt: Formats)
    ensures LinesOf(if tags == [] then [] else [(Tags, YamlList(tags, fmt))]) == Only(tags != [], "tags: " + YamlList(tags, fmt))
  {
    LineIs(Tags, YamlList(tags, fmt), "tags: ");
  }

  lemma MiddleLines(row: NoteRow, fmt: Formats)
    ensures LinesOf([(Importance, fmt.fixed2(row.importance)), (Status, row.status), (Created, row.createdAt), (Updated, row.updatedAt)])
      == ["importance: " + fmt.fixed2(row.importance), "status: " + row.status,
          "created: " + row.createdAt, "updated: " + row.updatedAt]
  {
    var importance := fmt.fixed2(row.importance);
    FourLines((Importance, importance), (Status, row.status), (Created, row.createdAt), (Updated, row.updatedAt));
    LineIs(Importance, importance, "importance: ");
    LineIs(Status, row.status, "status: ");
    LineIs(Created, row.createdAt, "created: ");
    LineIs(Updated, row.updatedAt, "updated: ");
  }

  lemma DateLines(row: NoteRow)
    ensures LinesOf(if row.validAt.Some? then [(ValidFrom, row.validAt.value)] else [])
      == Only(row.validAt.Some?, "valid_from: " + (if row.validAt.Some? then row.validAt.value else ""))
    ensures LinesOf(if row.invalidAt.Some? then [(ValidUntil, row.invalidAt.value)] else [])
      == Only(row.invalidAt.Some?, "valid_until: " + (if row.invalidAt.Some? then row.invalidAt.value else ""))
  {
    if row.validAt.Some? { LineIs(ValidFrom, row.validAt.value, "valid_from: "); }
    if row.invalidAt.Some? { LineIs(ValidUntil, row.invalidAt.value, "valid_until: "); }
  }

  lemma LinesJoin(a: seq<(Key, string)>, b: seq<(Key, string)>)
    ensures LinesOf(a + b) == LinesOf(a) + LinesOf(b)
  {}

  /** What a YAML reader makes of the other lines. */
  predicate ReadsFields(front: map<string, Yaml>, row: NoteRow, importance: real, hash: string) {
    var tags := TrimmedTags(Split(row.tags, ','));
    && "type" in front && front["type"] == Str(row.memoryType) && "realm" in front && front["realm"] == Str(row.realm)
    && "importance" in front && front["importance"].Num? && front["importance"].value == importance
    && "content_hash" in front && front["content_hash"] == Str(hash)
    && (if tags == [] then "tags" !in front
        else "tags" in front && front["tags"] == List(seq(|tags|, i requires 0 <= i < |tags| => Some(tags[i]))))
  }

  lemma {:induction false} AllPresent(tags: seq<string>, items: seq<Option<string>>)
    requires |items| == |tags| && forall i :: 0 <= i < |tags| ==> items[i] == Some(tags[i])
    ensures PresentItems(items) == tags
  {
    if tags != [] {
      AllPresent(tags[1..], items[1..]);
      assert tags == [tags[0]] + tags[1..];
    }
  }

  /** The fields a push may edit come back as they were: type, realm, tags,
      importance, and a hash that is the one of the title and body read. */
  lemma FieldsComeBack(row: NoteRow, related: seq<RelatedLink>, redact: bool, fmt: Formats, yaml: YamlReader, importance: real)
    requires Renderable(row, related, redact, fmt) && ReadsBack(FrontLines(row, redact, fmt), row.id, row.title, yaml)
    requires row.title != "" || Content(row, redact) != ""
    requires ReadsFields(FrontOf(Some(FrontText(FrontLines(row, redact, fmt))), yaml), row, importance,
                         ContentHash(row.title, Content(row, redact), fmt))
    ensures var note := ParseNote(RenderNote(row, related, redact, fmt), yaml);
      && note.memoryType == Some(row.memoryType) && note.realm == Some(row.realm) && note.importance == Some(importance)
      && note.tags == TrimmedTags(Split(row.tags, ','))
      && note.title.Some? && note.contentHash == Some(ContentHash(note.title.value, note.body, fmt))
  {
    var lines := FrontLines(row, redact, fmt);
    NoteRoundTrips(row, related, redact, fmt, yaml);
    FrontIsFrontLike(row, redact, fmt);
    PartsOf(lines, row.title, Content(row, redact), related);
    ParsedFields(RenderNote(row, related, redact, fmt), yaml, FrontOf(Some(FrontText(lines)), yaml), row, importance,
                 ContentHash(row.title, Content(row, redact), fmt));
  }

  lemma ParsedTagsAre(front: map<string, Yaml>, row: NoteRow, importance: real, hash: string)
    requires ReadsFields(front, row, importance, hash)
    ensures ParsedTags(front) == TrimmedTags(Split(row.tags, ','))
  {
    var tags := TrimmedTags(Split(row.tags, ','));
    if tags != [] { AllPresent(tags, front["tags"].items); }
  }

  lemma ParsedFields(raw: string, yaml: YamlReader, front: map<string, Yaml>, row: NoteRow, importance: real, hash: string)
    requires FrontOf(SplitFrontmatter(raw).0, yaml) == front && ReadsFields(front, row, importance, hash)
    ensures var note := ParseNote(raw, yaml);
      && note.memoryType == Some(row.memoryType) && note.realm == Some(row.realm) && note.importance == Some(importance)
      && note.tags == TrimmedTags(Split(row.tags, ',')) && note.contentHash == Some(hash)
  {
    ParsedTagsAre(front, row, importance, hash);
  }
}
