/**
  The note format as users and other tools meet it: what each written piece
  looks like, and how files are read that were not written by the exporter.
 */
module NoteFormat {
  import opened Options
  import opened BrainTypes
  import opened Text
  import opened TextFacts
  import opened Notes

  // ---------------------------------------------------------------- written

  lemma LinkLineIs(link: RelatedLink)
    ensures LinkLine(link) == "- [[" + link.target + "|" + link.title + "]] \U{2014} " + link.edgeType
  {}

  /** A whole note: the fenced frontmatter, the heading, the content, and the
      managed block if there are links. */
  lemma NoteTextIs(row: NoteRow, related: seq<RelatedLink>, redact: bool, fmt: Formats)
    ensures var block := if related == [] then "" else
        "\n" + "<!-- pensieve:related:begin -->" + "\n## Related\n" + Unlines(LinkLines(related)) + "<!-- pensieve:related:end -->" + "\n";
      RenderNote(row, related, redact, fmt) ==
        "---\n" + Unlines(FrontLines(row, redact, fmt)) + "---\n"
        + ("\n# " + row.title + "\n\n" + Content(row, redact) + "\n" + block)
    ensures |LinkLines(related)| == |related| && forall i :: 0 <= i < |related| ==> LinkLines(related)[i] == LinkLine(related[i])
    ensures Content(row, redact) == Trim(if redact then StripSpans(row.content, "<private>", "</private>") else row.content)
  {}

  /** A double-quoted scalar read back: its text and what follows the quote. */
  function Unquoted(s: string): Option<(string, string)> {
    if s == "" then None
    else if s[0] == '"' then Some(("", s[1..]))
    else
      var k := if s[0] == '\\' then 1 else 0;
      if |s| <= k then None
      else match Unquoted(s[k + 1..])
        case None => None
        case Some((text, rest)) => Some(([s[k]] + text, rest))
  }

  lemma PlainStep(c: char, more: string, text: string, rest: string)
    requires c != '"' && c != '\\' && Unquoted(more) == Some((text, rest))
    ensures Unquoted([c] + more) == Some(([c] + text, rest))
  {
    assert ([c] + more)[1..] == more;
  }

  lemma EscapeStep(c: char, more: string, text: string, rest: string)
    requires Unquoted(more) == Some((text, rest))
    ensures Unquoted(['\\', c] + more) == Some(([c] + text, rest))
  {
    assert (['\\', c] + more)[2..] == more;
  }

  lemma EscapedHead(s: string)
    requires s != ""
    ensures QuoteEscaped(s) == (if s[0] == '\\' || s[0] == '"' then ['\\', s[0]] else [s[0]]) + QuoteEscaped(s[1..])
  {}

  lemma Regroup(a: string, b: string, c: string)
    ensures (a + b) + c == a + (b + c)
  {}

  lemma {:induction false} EscapedReadsBack(s: string, end: string)
    requires end != "" && end[0] == '"'
    ensures Unquoted(QuoteEscaped(s) + end) == Some((s, end[1..]))
  {
    if s == "" {
      assert QuoteEscaped(s) + end == end;
    } else {
      var c, more := s[0], QuoteEscaped(s[1..]);
      EscapedReadsBack(s[1..], end);
      EscapedHead(s);
      assert s == [c] + s[1..];
      if c == '\\' || c == '"' {
        EscapeStep(c, more + end, s[1..], end[1..]);
        Regroup(['\\', c], more, end);
      } else {
        PlainStep(c, more + end, s[1..], end[1..]);
        Regroup([c], more, end);
      }
    }
  }

  /** A scalar is written plain exactly when it has none of the characters and
      shapes that YAML reads otherwise. */
  lemma PlainIff(s: string, fmt: Formats)
    ensures !NeedsQuoting(s, fmt) <==>
      && s != "" && (forall i :: 0 <= i < |s| ==> s[i] !in ":#{}[]&*!|>'\"%@`,\n\t")
      && !IsSpace(s[0]) && s[0] != '-' && s[0] != '?' && !IsSpace(s[|s| - 1])
      && s !in ["true", "false", "null", "yes", "no", "on", "off"] && !fmt.isFloat(s)
  {}

  /** And a quoted scalar reads back. */
  lemma ScalarReadsBack(s: string, fmt: Formats)
    ensures !NeedsQuoting(s, fmt) ==> YamlScalar(s, fmt) == s
    ensures NeedsQuoting(s, fmt) ==>
      YamlScalar(s, fmt) != "" && YamlScalar(s, fmt)[0] == '"' && Unquoted(YamlScalar(s, fmt)[1..]) == Some((s, ""))
  {
    if NeedsQuoting(s, fmt) {
      EscapedReadsBack(s, "\"");
      QuotedShape(QuoteEscaped(s));
      assert "\""[1..] == "";
    }
  }

  lemma QuotedShape(e: string)
    ensures ("\"" + e + "\"")[1..] == e + "\""
  {}

  /** Tags are the non-empty trimmed pieces. */
  lemma {:induction false} TagsAre(pieces: seq<string>)
    ensures forall x :: x in TrimmedTags(pieces) <==> x != "" && exists i :: 0 <= i < |pieces| && Trim(pieces[i]) == x
  {
    if pieces != [] {
      var rest := pieces[1..];
      TagsAre(rest);
      forall x ensures x in TrimmedTags(pieces) <==> x != "" && exists i :: 0 <= i < |pieces| && Trim(pieces[i]) == x {
        if x in TrimmedTags(rest) {
          var i :| 0 <= i < |rest| && Trim(rest[i]) == x;
          assert Trim(pieces[i + 1]) == x;
        }
        if x != "" && exists i :: 0 <= i < |pieces| && Trim(pieces[i]) == x {
          var i :| 0 <= i < |pieces| && Trim(pieces[i]) == x;
          if i > 0 { assert Trim(rest[i - 1]) == x; }
        }
      }
    }
  }

  /** A list is its scalars between brackets, a comma and a space between two. */
  lemma {:induction false} CommaJoinGrows(items: seq<string>, last: string)
    ensures CommaJoin([]) == "" && CommaJoin([last]) == last
    ensures items != [] ==> CommaJoin(items + [last]) == CommaJoin(items) + (", " + last)
  {
    if |items| > 1 {
      CommaJoinGrows(items[1..], last);
      assert (items + [last])[1..] == items[1..] + [last];
    } else if |items| == 1 {
      assert (items + [last])[1..] == [last];
    }
  }

  /** The hash covers the title and the lines without their trailing blanks. */
  lemma HashIs(title: string, body: string, fmt: Formats)
    ensures ContentHash(title, body, fmt) == fmt.hash(title + "\n" + Trim(Join(TrimmedLines(Lines(body)))))
    ensures |TrimmedLines(Lines(body))| == |Lines(body)|
    ensures forall i :: 0 <= i < |Lines(body)| ==> TrimmedLines(Lines(body))[i] == TrimEnd(Lines(body)[i])
  {
    TrimmedPointwise(Lines(body));
  }

  lemma {:induction false} TrimmedPointwise(lines: seq<string>)
    ensures |TrimmedLines(lines)| == |lines| && forall i :: 0 <= i < |lines| ==> TrimmedLines(lines)[i] == TrimEnd(lines[i])
  {
    if lines != [] { TrimmedPointwise(lines[1..]); }
  }

  /** A file stem: at most 80 characters of the slug, without a trailing dash or
      a device name, and at most eight characters of the id. */
  lemma StemIs(title: string, id: string)
    ensures var slug, bare := TitleSlug(title), WithoutDashes(id);
      var short := TrimDashes(if |slug| > 80 then slug[..80] else slug);
      var id8 := if bare == "" then "00000000" else if |bare| > 8 then bare[..8] else bare;
      NoteStem(title, id) == (if short in WINDOWS_RESERVED then "note" else short) + "-" + id8
  {}

  // ---------------------------------------------------------------- read

  /** A fence may also close at the end of the file. */
  lemma FenceAtEnd(fm: string)
    requires Free(fm, "\n---")
    ensures SplitFrontmatter("---\n" + (fm + "\n---")) == (Some(fm), "")
  {
    var rest := fm + "\n---";
    var raw := "---\n" + rest;
    assert raw[4..] == rest && "---\n" <= raw;
    FenceIsLast(fm);
    assert rest[..|fm|] == fm && rest[|fm| + 4..] == "";
  }

  lemma FenceIsLast(fm: string)
    requires Free(fm, "\n---")
    ensures Find(fm + "\n---", "\n---") == Some(|fm|) && Find(fm + "\n---", "\n---\n") == None
  {
    var rest, pat := fm + "\n---", "\n---";
    assert rest[|fm|..|fm| + 4] == pat;
    forall k | 0 <= k < |fm| ensures !At(rest, k, pat) {
      if At(rest, k, pat) { FenceInside(fm, k); }
    }
    FindIs(rest, pat, |fm|);
    forall k ensures !At(rest, k, "\n---\n") {
      if At(rest, k, "\n---\n") {
        AtChars(rest, k, "\n---\n");
        assert rest[k..k + 4] == pat;
        assert At(rest, k, pat);
      }
    }
  }

  lemma FenceInside(fm: string, k: int)
    requires 0 <= k < |fm| && At(fm + "\n---", k, "\n---")
    ensures At(fm, k, "\n---")
  {
    var rest := fm + "\n---";
    AtChars(rest, k, "\n---");
    assert rest[|fm|] == '\n' && rest[k + 1] == '-' && rest[k + 2] == '-' && rest[k + 3] == '-';
    assert k + 4 <= |fm|;
    assert fm[k..k + 4] == rest[k..k + 4];
  }

  /** Markdown without frontmatter names no memory: its first heading is the
      title, the rest the body. */
  lemma PlainMarkdownParses(raw: string, yaml: YamlReader)
    requires !("---\n" <= raw) && Free(raw, RELATED_BEGIN)
    ensures var note, lines := ParseNote(raw, yaml), Lines(Trim(raw));
      && note.memoryId == None && note.memoryType == None && note.realm == None && note.tags == []
      && note.importance == None && note.contentHash == None
      && (lines != [] && "# " <= lines[0] ==> note.title == Some(Trim(lines[0][2..])) && note.body == Trim(Join(lines[1..])))
      && (lines == [] || !("# " <= lines[0]) ==> note.title == None && note.body == Trim(Join(lines)))
  {
    FreeFind(raw, RELATED_BEGIN);
  }

  /** A heading that repeats the title is dropped, any other is kept. */
  lemma HeadingIsDroppedIff(title: string, lines: seq<string>)
    requires lines != [] && "# " <= lines[0]
    ensures DropH1(Some(title), lines) == if Trim(lines[0][2..]) == title then (Some(title), lines[1..]) else (Some(title), lines)
  {}

  /** Tags may also be given as one comma-separated text. */
  lemma TagsFromText(front: map<string, Yaml>, text: string)
    requires "tags" in front && front["tags"] == Str(text)
    ensures |ParsedTags(front)| == |Split(text, ',')|
    ensures forall i :: 0 <= i < |Split(text, ',')| ==> ParsedTags(front)[i] == Trim(Split(text, ',')[i])
  {}

  /** `name` stands in for a missing title; numbers count as text. */
  lemma TitleFrom(front: map<string, Yaml>)
    ensures "title" in front && (front["title"].Str? || front["title"].Num?) ==> FrontTitle(front) == Some(front["title"].text)
    ensures !("title" in front && (front["title"].Str? || front["title"].Num?)) ==>
      FrontTitle(front) == if "name" in front && (front["name"].Str? || front["name"].Num?) then Some(front["name"].text) else None
  {}

  /** A span that is never closed takes the rest of the text with it. */
  lemma UnclosedCutsRest(s: string, open: string, close: string, i: nat)
    requires open != "" && Find(s, open) == Some(i) && Free(s[i + |open|..], close)
    ensures StripSpans(s, open, close) == s[..i]
  {
    FreeFind(s[i + |open|..], close);
    assert AfterSpan(s, open, close) == "";
    assert StripSpans("", open, close) == "" && s[..i] + "" == s[..i];
  }
}
