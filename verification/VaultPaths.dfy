/**
  Where a note lives in the vault: paths are minted once, kept for good, and
  told apart by a numeric suffix when two notes want the same one.
 */
module VaultPaths {
  import opened Options
  import opened BrainTypes
  import opened Text
  import F = TextFacts
  import N = Notes
  import Sets

  datatype Outcome<T> = Ok(value: T) | InvalidPath(path: string) | Stuck(path: string)

  predicate ValidSegment(seg: string) { seg != "" && seg != "." && seg != ".." }

  predicate ValidPath(path: string) {
    path != "" && path[0] != '/' && forall seg :: seg in Split(path, '/') ==> ValidSegment(seg)
  }

  /** No path escapes the vault: not rooted, and no segment empty, `.` or `..`. */
  lemma ValidPathMeans(path: string)
    ensures ValidPath(path) <==>
      && path != "" && path[0] != '/'
      && "" !in Split(path, '/') && "." !in Split(path, '/') && ".." !in Split(path, '/')
  {}

  // ---------------------------------------------------------------- the suffix

  predicate HasMd(s: string) { |s| >= 3 && (s[..3] == ".md" || HasMd(s[1..])) }

  /** `s.replace(".md", ext)`: every occurrence, not only the extension. */
  function ReplaceMd(s: string, ext: string): string {
    if |s| < 3 then s
    else if s[..3] == ".md" then ext + ReplaceMd(s[3..], ext)
    else [s[0]] + ReplaceMd(s[1..], ext)
  }

  function Suffix(n: nat): (r: string)
    ensures |r| > 4 && '/' !in r
  {
    var d := Decimal(n);
    "-" + d + ".md"
  }

  function Bump(path: string, n: nat): string { ReplaceMd(path, Suffix(n)) }

  lemma {:induction false} HasMdAfter(p: string, s: string)
    requires HasMd(s)
    ensures HasMd(p + s)
  {
    if p == "" {
      assert p + s == s;
    } else {
      assert (p + s)[1..] == p[1..] + s;
      HasMdAfter(p[1..], s);
    }
  }

  lemma EndsInMd(p: string, s: string)
    ensures HasMd(p + ".md" + s)
  {
    assert (".md" + s)[..3] == ".md";
    HasMdAfter(p, ".md" + s);
    assert p + ".md" + s == p + (".md" + s);
  }

  /** A replacement strictly lengthens any path it changes, and leaves an
      occurrence to replace next time. */
  lemma {:induction false} BumpGrows(s: string, n: nat)
    ensures HasMd(s) ==> |Bump(s, n)| > |s| && HasMd(Bump(s, n))
    ensures !HasMd(s) ==> Bump(s, n) == s
    decreases |s|
  {
    if |s| >= 3 {
      if s[..3] == ".md" {
        ReplaceNeverShrinks(s[3..], Suffix(n));
        EndsInMd("-" + Decimal(n), Bump(s[3..], n));
      } else {
        BumpGrows(s[1..], n);
        if HasMd(s[1..]) { HasMdAfter([s[0]], Bump(s[1..], n)); }
      }
    }
  }

  lemma {:induction false} ReplaceNeverShrinks(s: string, ext: string)
    requires |ext| >= 3
    ensures |ReplaceMd(s, ext)| >= |s|
    decreases |s|
  {
    if |s| >= 3 {
      if s[..3] == ".md" { ReplaceNeverShrinks(s[3..], ext); } else { ReplaceNeverShrinks(s[1..], ext); }
    }
  }

  /** Piece by piece a replacement leaves a segment alone or makes it long. */
  ghost predicate Grown(a: seq<string>, b: seq<string>) {
    |a| == |b| && forall i :: 0 <= i < |a| ==> b[i] == a[i] || |b[i]| > 4
  }

  lemma {:induction false} ReplaceBySegment(s: string, ext: string)
    requires |ext| > 4 && '/' !in ext
    ensures Grown(Split(s, '/'), Split(ReplaceMd(s, ext), '/'))
    decreases |s|
  {
    if |s| >= 3 {
      if s[..3] == ".md" {
        ReplaceBySegment(s[3..], ext);
        SplitPrefix(".md", s[3..], '/');
        SplitPrefix(ext, ReplaceMd(s[3..], ext), '/');
        assert s == ".md" + s[3..];
      } else {
        ReplaceBySegment(s[1..], ext);
        assert ([s[0]] + ReplaceMd(s[1..], ext))[1..] == ReplaceMd(s[1..], ext);
      }
    }
  }

  lemma BumpStaysValid(path: string, n: nat)
    requires ValidPath(path)
    ensures ValidPath(Bump(path, n))
  {
    var a, b := Split(path, '/'), Split(Bump(path, n), '/');
    ReplaceBySegment(path, Suffix(n));
    forall i | 0 <= i < |b| ensures ValidSegment(b[i]) { assert a[i] in a; }
    assert b[0] != "";
  }

  // ---------------------------------------------------------------- settling a collision

  function AtLeast(taken: set<string>, k: nat): set<string> { set p | p in taken && |p| >= k }

  lemma FewerAhead(taken: set<string>, path: string, next: string)
    requires path in taken && |next| > |path|
    ensures |AtLeast(taken, |next|)| < |AtLeast(taken, |path|)|
  {
    var a, b := AtLeast(taken, |path|), AtLeast(taken, |next|);
    assert b <= a - {path};
    Sets.SubsetSize(b, a - {path});
  }

  /** The suffix loop.  It never ends exactly when the path is taken and has no
      `.md` to replace. */
  function Settle(path: string, taken: set<string>, n: nat): (r: Option<string>)
    ensures r.None? <==> path in taken && !HasMd(path)
    ensures r.Some? ==> r.value !in taken
    decreases |AtLeast(taken, |path|)|
  {
    if path !in taken then Some(path)
    else if !HasMd(path) then None
    else
      BumpGrows(path, n + 1);
      FewerAhead(taken, path, Bump(path, n + 1));
      Settle(Bump(path, n + 1), taken, n + 1)
  }

  lemma {:induction false} SettledIsValid(path: string, taken: set<string>, n: nat)
    requires ValidPath(path) && Settle(path, taken, n).Some?
    ensures ValidPath(Settle(path, taken, n).value)
    decreases |AtLeast(taken, |path|)|
  {
    if path in taken {
      BumpStaysValid(path, n + 1);
      BumpGrows(path, n + 1);
      FewerAhead(taken, path, Bump(path, n + 1));
      SettledIsValid(Bump(path, n + 1), taken, n + 1);
    }
  }

  lemma {:induction false} ReplaceOnlyMd(stem: string, ext: string)
    requires !HasMd(stem + ".m") && ext != ""
    ensures ReplaceMd(stem + ".md", ext) == stem + ext
  {
    var path := stem + ".md";
    if stem == "" {
      assert path == ".md" && path[3..] == "" && ext + "" == ext;
    } else {
      var rest := stem[1..];
      assert (stem + ".m")[1..] == rest + ".m" && path[1..] == rest + ".md";
      assert path[..3] == (stem + ".m")[..3];
      ReplaceOnlyMd(rest, ext);
      assert [stem[0]] + (rest + ext) == stem + ext;
    }
  }

  /** The second note that wants a path gets it with `-2`. */
  lemma SecondIsNumbered(stem: string, taken: set<string>)
    requires !HasMd(stem + ".m") && stem + ".md" in taken && stem + "-2.md" !in taken
    ensures Settle(stem + ".md", taken, 1) == Some(stem + "-2.md")
  {
    EndsInMd(stem, "");
    assert stem + ".md" + "" == stem + ".md";
    assert Decimal(2) == "2" && "-" + "2" + ".md" == "-2.md";
    ReplaceOnlyMd(stem, Suffix(2));
    assert Bump(stem + ".md", 2) == stem + "-2.md";
  }

  // ---------------------------------------------------------------- all notes

  function Taken(paths: seq<string>): set<string> { set p | p in paths }

  /** Paths for the wished-for paths, in id order. */
  function Assign(wishes: seq<string>): Outcome<seq<string>> {
    if wishes == [] then Ok([])
    else
      var wish := wishes[|wishes| - 1];
      match Assign(wishes[..|wishes| - 1])
      case Ok(paths) =>
        if !ValidPath(wish) then InvalidPath(wish)
        else (match Settle(wish, Taken(paths), 1)
              case None => Stuck(wish)
              case Some(p) => Ok(paths + [p]))
      case bad => bad
  }

  /** The paths are valid and all different, and a note gets the path it wants
      exactly when no lower id took it. */
  predicate Sound(wishes: seq<string>, paths: seq<string>) {
    && |paths| == |wishes| && (forall i :: 0 <= i < |paths| ==> ValidPath(paths[i]))
    && (forall i, j :: 0 <= i < j < |paths| ==> paths[i] != paths[j])
    && (forall i :: 0 <= i < |paths| ==> (paths[i] == wishes[i] <==> wishes[i] !in paths[..i]))
  }

  lemma SoundStep(wishes: seq<string>, paths: seq<string>, wish: string, path: string)
    requires Sound(wishes, paths) && ValidPath(path) && path !in paths && (path == wish <==> wish !in paths)
    ensures Sound(wishes + [wish], paths + [path])
  {
    var all, got := wishes + [wish], paths + [path];
    forall i | 0 <= i < |got| ensures ValidPath(got[i]) && (got[i] == all[i] <==> all[i] !in got[..i]) {
      if i < |paths| {
        assert got[..i] == paths[..i] && all[i] == wishes[i];
      } else {
        assert got[..i] == paths;
      }
    }
    forall i, j | 0 <= i < j < |got| ensures got[i] != got[j] { assert got[i] in paths; }
  }

  lemma AssignLast(wishes: seq<string>)
    requires wishes != [] && Assign(wishes).Ok?
    ensures var init, wish := wishes[..|wishes| - 1], wishes[|wishes| - 1];
      && Assign(init).Ok? && ValidPath(wish) && Settle(wish, Taken(Assign(init).value), 1).Some?
      && Assign(wishes).value == Assign(init).value + [Settle(wish, Taken(Assign(init).value), 1).value]
  {}

  /** A free path is granted; a taken one is not. */
  lemma SettledPath(wish: string, paths: seq<string>)
    requires Settle(wish, Taken(paths), 1).Some?
    ensures var path := Settle(wish, Taken(paths), 1).value; path !in paths && (path == wish <==> wish !in paths)
  {
    assert forall p :: p in Taken(paths) <==> p in paths;
  }

  lemma {:induction false} PathsAreSound(wishes: seq<string>)
    requires Assign(wishes).Ok?
    ensures Sound(wishes, Assign(wishes).value)
  {
    if wishes != [] {
      AssignLast(wishes);
      var init, wish := wishes[..|wishes| - 1], wishes[|wishes| - 1];
      var before := Assign(init).value;
      PathsAreSound(init);
      SettledIsValid(wish, Taken(before), 1);
      SettledPath(wish, before);
      SoundStep(init, before, wish, Settle(wish, Taken(before), 1).value);
      assert wishes == init + [wish];
    }
  }

  /** A settled path is the one wished for, or has a `.md`. */
  lemma {:induction false} SettledHasMd(path: string, taken: set<string>, n: nat)
    requires Settle(path, taken, n).Some?
    ensures Settle(path, taken, n).value == path || HasMd(Settle(path, taken, n).value)
    decreases |AtLeast(taken, |path|)|
  {
    if path in taken {
      BumpGrows(path, n + 1);
      FewerAhead(taken, path, Bump(path, n + 1));
      SettledHasMd(Bump(path, n + 1), taken, n + 1);
    }
  }

  /** A path without a `.md` is assigned exactly when some note wished for it. */
  lemma {:induction false} BareIffWished(wishes: seq<string>, path: string)
    requires Assign(wishes).Ok? && !HasMd(path)
    ensures path in Assign(wishes).value <==> path in wishes
  {
    if wishes != [] {
      var init, wish := wishes[..|wishes| - 1], wishes[|wishes| - 1];
      BareIffWished(init, path);
      SettledHasMd(wish, Taken(Assign(init).value), 1);
      assert wishes == init + [wish];
    }
  }

  /** The wish can be met: a valid path that has a `.md` to work on, or that no
      lower id wishes for. */
  predicate CanSettle(wishes: seq<string>, i: nat)
    requires i < |wishes|
  {
    ValidPath(wishes[i]) && (HasMd(wishes[i]) || wishes[i] !in wishes[..i])
  }

  /** Assignment ends with paths exactly when every wish can be met. */
  lemma {:induction false} AssignEndsIff(wishes: seq<string>)
    ensures Assign(wishes).Ok? <==> forall i :: 0 <= i < |wishes| ==> CanSettle(wishes, i)
  {
    if wishes != [] {
      var k := |wishes| - 1;
      var init := wishes[..k];
      AssignEndsIff(init);
      forall i | 0 <= i < k ensures CanSettle(wishes, i) <==> CanSettle(init, i) {
        assert init[..i] == wishes[..i];
      }
      if Assign(init).Ok? && !HasMd(wishes[k]) { BareIffWished(init, wishes[k]); }
      assert Assign(wishes).Ok? <==> Assign(init).Ok? && CanSettle(wishes, k);
    }
  }

  /** Distinct valid wishes are all granted. */
  lemma {:induction false} AssignIdle(wishes: seq<string>)
    requires forall i :: 0 <= i < |wishes| ==> ValidPath(wishes[i])
    requires forall i, j :: 0 <= i < j < |wishes| ==> wishes[i] != wishes[j]
    ensures Assign(wishes) == Ok(wishes)
  {
    if wishes != [] {
      var init, wish := wishes[..|wishes| - 1], wishes[|wishes| - 1];
      AssignIdle(init);
      assert wish !in Taken(init);
      assert wishes == init + [wish];
    }
  }

  // ---------------------------------------------------------------- minting

  function TypeFolder(memoryType: string): (r: string)
    ensures ValidSegment(r) && '/' !in r
  {
    match memoryType
    case "decision" => "decisions"
    case "preference" => "preferences"
    case "learning" => "learnings"
    case "summary" => "summaries"
    case "procedure" => "procedures"
    case "entity" => "entities"
    case _ => "facts"
  }

  predicate SegmentChar(c: char) { N.Alnum(c) || c in "._-" }

  function Cleaned(realm: string): (r: string)
    ensures forall c :: c in r ==> SegmentChar(c)
  {
    if realm == "" then "" else [if SegmentChar(realm[0]) then realm[0] else '-'] + Cleaned(realm[1..])
  }

  predicate DotOrDash(c: char) { c == '.' || c == '-' }

  function TrimFront(s: string): (r: string)
    ensures (r != "" ==> !DotOrDash(r[0])) && forall c :: c in r ==> c in s
  {
    if s != "" && DotOrDash(s[0]) then TrimFront(s[1..]) else s
  }

  function TrimBack(s: string): (r: string)
    ensures r <= s && (r != "" ==> !DotOrDash(r[|r| - 1]))
  {
    if s != "" && DotOrDash(s[|s| - 1]) then TrimBack(s[..|s| - 1]) else s
  }

  /** A realm as one path segment. */
  function SanitizeRealm(realm: string): (r: string)
    ensures ValidSegment(r) && '/' !in r && !DotOrDash(r[0]) && !DotOrDash(r[|r| - 1])
  {
    var front := TrimFront(Cleaned(realm));
    var cut := TrimBack(front);
    assert forall c :: c in cut ==> c in front;
    if cut == "" then "default" else cut
  }

  lemma {:induction false} CleanedIs(realm: string)
    ensures |Cleaned(realm)| == |realm|
    ensures forall i :: 0 <= i < |realm| ==>
      Cleaned(realm)[i] == if N.Alnum(realm[i]) || realm[i] in "._-" then realm[i] else '-'
  {
    if realm != "" { CleanedIs(realm[1..]); }
  }

  predicate OnlyDotsAndDashes(s: string) { forall i :: 0 <= i < |s| ==> s[i] == '.' || s[i] == '-' }

  lemma {:induction false} TrimFrontIs(s: string) returns (cut: string)
    ensures OnlyDotsAndDashes(cut) && s == cut + TrimFront(s)
  {
    if s != "" && DotOrDash(s[0]) {
      cut := TrimFrontIs(s[1..]);
      cut := [s[0]] + cut;
      assert s == [s[0]] + s[1..];
    } else {
      cut := "";
    }
  }

  lemma {:induction false} TrimBackIs(s: string) returns (cut: string)
    ensures OnlyDotsAndDashes(cut) && s == TrimBack(s) + cut
  {
    if s != "" && DotOrDash(s[|s| - 1]) {
      cut := TrimBackIs(s[..|s| - 1]);
      cut := cut + [s[|s| - 1]];
      assert s == s[..|s| - 1] + [s[|s| - 1]];
    } else {
      cut := "";
    }
  }

  /** A realm's folder: its characters, others as dashes, without the dots and
      dashes at either end; `default` if nothing is left. */
  lemma SanitizeIs(realm: string) returns (front: string, back: string)
    ensures OnlyDotsAndDashes(front) && OnlyDotsAndDashes(back)
    ensures Cleaned(realm) == front + back ==> SanitizeRealm(realm) == "default"
    ensures Cleaned(realm) == front + back || Cleaned(realm) == front + SanitizeRealm(realm) + back
  {
    front := TrimFrontIs(Cleaned(realm));
    back := TrimBackIs(TrimFront(Cleaned(realm)));
    var cut := TrimBack(TrimFront(Cleaned(realm)));
    assert Cleaned(realm) == front + (cut + back) == front + cut + back;
    if cut == "" { assert front + cut + back == front + back; }
    else { assert |front + cut + back| > |front + back|; }
  }

  const WIKI_PREFIX := "wiki:"

  function WikiSlug(cfg: BrainConfig, row: NoteRow): Option<string> {
    if row.topicKey.None? || !(WIKI_PREFIX <= row.topicKey.value) then None
    else
      var rest := row.topicKey.value[|WIKI_PREFIX|..];
      match Find(rest, ":")
      case None => None
      case Some(i) =>
        if rest[..i] != cfg.name || rest[i + 1..] == "" then None else Some(N.TitleSlug(rest[i + 1..]))
  }

  /** The folders of a newly minted path, and its stem. */
  function Folders(cfg: BrainConfig, row: NoteRow): (r: seq<string>)
    ensures forall f :: f in r ==> ValidSegment(f) && '/' !in f
  {
    if WikiSlug(cfg, row).Some? then ["wiki"]
    else if row.memoryType == "entity" then ["entities"]
    else if cfg.layout.Flat? then ["notes", TypeFolder(row.memoryType)]
    else ["notes", SanitizeRealm(row.realm), TypeFolder(row.memoryType)]
  }

  function Stem(cfg: BrainConfig, row: NoteRow): string {
    if WikiSlug(cfg, row).Some? then WikiSlug(cfg, row).value else N.NoteStem(row.title, row.id)
  }

  function Under(folders: seq<string>, name: string): string {
    if folders == [] then name else folders[0] + "/" + Under(folders[1..], name)
  }

  function Minted(cfg: BrainConfig, row: NoteRow): string { Under(Folders(cfg, row), Stem(cfg, row) + ".md") }

  /** A memory with a path in the prior manifest keeps it, whatever changed. */
  function NotePath(cfg: BrainConfig, row: NoteRow, prior: map<string, string>): string {
    if row.id in prior then prior[row.id] else Minted(cfg, row)
  }

  lemma {:induction false} UnderIsValid(folders: seq<string>, name: string)
    requires forall f :: f in folders ==> ValidSegment(f) && '/' !in f
    requires ValidSegment(name) && '/' !in name
    ensures ValidPath(Under(folders, name)) && Split(Under(folders, name), '/') == folders + [name]
  {
    if folders == [] {
      SplitPrefix(name, "", '/');
      assert name + "" == name && Split("", '/') == [""];
    } else {
      var f, rest := folders[0], Under(folders[1..], name);
      assert f in folders;
      UnderIsValid(folders[1..], name);
      SplitPrefix(f, "/" + rest, '/');
      assert f + "/" + rest == f + ("/" + rest);
      assert ("/" + rest)[1..] == rest;
      assert folders == [f] + folders[1..];
      assert f + "" == f;
    }
  }

  lemma {:induction false} UnderHasMd(folders: seq<string>, stem: string)
    ensures HasMd(Under(folders, stem + ".md"))
  {
    if folders == [] {
      EndsInMd(stem, "");
      assert stem + ".md" + "" == stem + ".md";
    } else {
      UnderHasMd(folders[1..], stem);
      HasMdAfter(folders[0] + "/", Under(folders[1..], stem + ".md"));
    }
  }

  lemma StemIsPlain(cfg: BrainConfig, row: NoteRow)
    requires '/' !in row.id
    ensures '/' !in Stem(cfg, row)
  {
    if WikiSlug(cfg, row).Some? {
      var rest := row.topicKey.value[|WIKI_PREFIX|..];
      N.SlugSpellsTitle(rest[Find(rest, ":").value + 1..]);
    } else {
      N.StemChars(row.title, row.id);
    }
  }

  /** A wiki page is a memory whose key names this brain and a page. */
  lemma WikiSlugIff(cfg: BrainConfig, row: NoteRow, page: string)
    requires page != "" && row.topicKey == Some("wiki:" + (cfg.name + (":" + page)))
    ensures ':' !in cfg.name ==> WikiSlug(cfg, row) == Some(N.TitleSlug(page))
  {
    var rest := cfg.name + (":" + page);
    assert row.topicKey.value[|WIKI_PREFIX|..] == rest && WIKI_PREFIX <= row.topicKey.value;
    assert rest == cfg.name + ":" + page;
    if ':' !in cfg.name {
      F.FirstAt(cfg.name, ':', page);
      assert rest[..|cfg.name|] == cfg.name && rest[|cfg.name| + 1..] == page;
    }
  }

  lemma WikiSlugOnly(cfg: BrainConfig, row: NoteRow) returns (page: string)
    requires WikiSlug(cfg, row).Some?
    ensures page != "" && row.topicKey == Some("wiki:" + (cfg.name + (":" + page))) && WikiSlug(cfg, row) == Some(N.TitleSlug(page))
  {
    var key := row.topicKey.value;
    var rest := key[|WIKI_PREFIX|..];
    var i := Find(rest, ":").value;
    page := rest[i + 1..];
    F.AtChars(rest, i, ":");
    KeyParts(key, rest, i);
  }

  lemma KeyParts(key: string, rest: string, i: nat)
    requires "wiki:" <= key && rest == key[5..] && i < |rest| && rest[i] == ':'
    ensures key == "wiki:" + (rest[..i] + (":" + rest[i + 1..]))
  {
    Rejoin(key, 5);
    RejoinAt(rest, i);
  }

  lemma Rejoin(s: string, k: nat)
    requires k <= |s|
    ensures s == s[..k] + s[k..]
  {}

  lemma RejoinAt(s: string, k: nat)
    requires k < |s| && s[k] == ':'
    ensures s == s[..k] + (":" + s[k + 1..])
  {}

  const TYPE_FOLDERS := map[
    "decision" := "decisions", "preference" := "preferences", "learning" := "learnings",
    "summary" := "summaries", "procedure" := "procedures", "entity" := "entities"]

  lemma TypeFolderIs(memoryType: string)
    ensures TypeFolder(memoryType) == if memoryType in TYPE_FOLDERS then TYPE_FOLDERS[memoryType] else "facts"
  {}

  /** Where a new note goes: wiki pages and entities in their own folders, the
      rest by type, under the realm in the layout by realm. */
  lemma MintedMeans(cfg: BrainConfig, row: NoteRow)
    ensures WikiSlug(cfg, row).Some? ==> Minted(cfg, row) == "wiki" + ("/" + (WikiSlug(cfg, row).value + ".md"))
    ensures WikiSlug(cfg, row).None? ==>
      var file := N.NoteStem(row.title, row.id) + ".md"; var folder := TypeFolder(row.memoryType);
      Minted(cfg, row) ==
        if row.memoryType == "entity" then "entities" + ("/" + file)
        else if cfg.layout == Flat then "notes" + ("/" + (folder + ("/" + file)))
        else "notes" + ("/" + (SanitizeRealm(row.realm) + ("/" + (folder + ("/" + file)))))
  {
    var name, folder := Stem(cfg, row) + ".md", TypeFolder(row.memoryType);
    if WikiSlug(cfg, row).Some? { UnderOne("wiki", name); }
    else if row.memoryType == "entity" { UnderOne("entities", name); }
    else if cfg.layout == Flat { UnderTwo("notes", folder, name); }
    else { UnderThree("notes", SanitizeRealm(row.realm), folder, name); }
  }

  lemma UnderOne(a: string, name: string)
    ensures Under([a], name) == a + ("/" + name)
  {
    assert [a][1..] == [];
    assert a + "/" + name == a + ("/" + name);
  }

  lemma UnderTwo(a: string, b: string, name: string)
    ensures Under([a, b], name) == a + ("/" + (b + ("/" + name)))
  {
    UnderOne(b, name);
    assert [a, b][1..] == [b];
    assert a + "/" + Under([b], name) == a + ("/" + Under([b], name));
  }

  lemma UnderThree(a: string, b: string, c: string, name: string)
    ensures Under([a, b, c], name) == a + ("/" + (b + ("/" + (c + ("/" + name)))))
  {
    UnderTwo(b, c, name);
    assert [a, b, c][1..] == [b, c];
    assert a + "/" + Under([b, c], name) == a + ("/" + Under([b, c], name));
  }

  /** A minted path is valid and has a `.md`, for every title, realm and topic
      key, so only paths kept from a manifest can be refused or get stuck. */
  lemma MintedIsValid(cfg: BrainConfig, row: NoteRow)
    requires '/' !in row.id
    ensures ValidPath(Minted(cfg, row)) && HasMd(Minted(cfg, row))
  {
    StemIsPlain(cfg, row);
    assert ValidSegment(Stem(cfg, row) + ".md");
    UnderIsValid(Folders(cfg, row), Stem(cfg, row) + ".md");
    UnderHasMd(Folders(cfg, row), Stem(cfg, row));
  }
}
