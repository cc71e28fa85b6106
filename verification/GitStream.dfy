/**
  The fast-import stream of one export: how it is written, and the subset of
  the fast-import grammar that reads it back.
 */
module GitStream {
  import opened Options
  import opened BrainTypes
  import opened Text
  import opened TextFacts

  const LF: byte := 10
  const QUOTE: byte := 34

  /** The keywords, apart from what they spell. */
  datatype Words = Words(commit: Bytes, committer: Bytes, data: Bytes, from: Bytes, deleteall: Bytes, change: Bytes, done: Bytes)

  function Ascii(s: string): (r: Bytes)
    requires forall i :: 0 <= i < |s| ==> s[i] < '\U{0080}'
    ensures |r| == |s| && forall i :: 0 <= i < |s| ==> r[i] as int == s[i] as int
  {
    seq(|s|, i requires 0 <= i < |s| => (s[i] as int) as byte)
  }

  const GIT := Words(Ascii("commit "), Ascii("committer "), Ascii("data "), Ascii("from "), Ascii("deleteall"),
                     Ascii("M 100644 inline "), Ascii("done"))

  /** All that reading back needs of the keywords. */
  predicate WordsOk(w: Words) {
    && LF !in w.commit && LF !in w.committer && LF !in w.data && LF !in w.from && LF !in w.deleteall && LF !in w.change && LF !in w.done
    && w.from != [] && w.change != [] && w.done != [] && w.deleteall != []
    && w.change[0] != w.done[0] && w.from[0] != w.deleteall[0]
  }

  lemma GitWordsOk()
    ensures WordsOk(GIT)
  {}

  // ---------------------------------------------------------------- numbers

  predicate AllDigits(s: Bytes) { forall i :: 0 <= i < |s| ==> 48 <= s[i] <= 57 }

  function Digits(n: nat): (r: Bytes)
    ensures r != [] && AllDigits(r)
  {
    (if n < 10 then [] else Digits(n / 10)) + [(48 + n % 10) as byte]
  }

  function NatOf(digits: Bytes): nat
    requires AllDigits(digits)
  {
    if digits == [] then 0 else 10 * NatOf(digits[..|digits| - 1]) + (digits[|digits| - 1] as int - 48)
  }

  lemma {:induction false} DigitsReadBack(n: nat)
    ensures NatOf(Digits(n)) == n
  {
    var d := Digits(n);
    if n >= 10 {
      DigitsReadBack(n / 10);
      assert d[..|d| - 1] == Digits(n / 10);
    } else {
      assert d[..0] == [];
    }
  }

  lemma NoLfInDigits(s: Bytes)
    requires AllDigits(s)
    ensures LF !in s
  {}

  // ---------------------------------------------------------------- writing

  datatype GitFile = GitFile(path: Bytes, bytes: Bytes)

  datatype Import = Import(refName: Bytes, committer: Bytes, message: Bytes, from: Option<Bytes>, files: seq<GitFile>)

  function Line(text: Bytes): Bytes { text + [LF] }

  function DataLine(w: Words, n: nat): Bytes { Line(w.data + Digits(n)) }

  function FileCommand(w: Words, f: GitFile): Bytes { Line(w.change + f.path) + (DataLine(w, |f.bytes|) + Line(f.bytes)) }

  function FileCommands(w: Words, files: seq<GitFile>): Bytes {
    if files == [] then Line(w.done) else FileCommand(w, files[0]) + FileCommands(w, files[1..])
  }

  function FromLine(w: Words, from: Option<Bytes>): Bytes { if from.Some? then Line(w.from + from.value) else [] }

  function HeadLines(w: Words, i: Import, rest: Bytes): Bytes {
    Line(w.commit + i.refName) + (Line(w.committer + i.committer) + (DataLine(w, |i.message| + 1) + (Line(i.message)
      + (FromLine(w, i.from) + (Line(w.deleteall) + rest)))))
  }

  function Stream(w: Words, i: Import): Bytes { HeadLines(w, i, FileCommands(w, i.files)) }

  lemma Assoc(a: Bytes, b: Bytes, c: Bytes)
    ensures (a + b) + c == a + (b + c)
  {}

  /** The buffer so far followed by the commands still to write. */
  method WriteFiles(w: Words, files: seq<GitFile>, start: Bytes) returns (stream: Bytes)
    ensures stream == start + FileCommands(w, files)
  {
    stream := start;
    for k := 0 to |files|
      invariant stream + FileCommands(w, files[k..]) == start + FileCommands(w, files)
    {
      var f := files[k];
      ghost var before, rest := stream, FileCommands(w, files[k + 1..]);
      assert files[k..][0] == f && files[k..][1..] == files[k + 1..];
      Assoc(before, FileCommand(w, f), rest);
      stream := stream + Line(w.change + f.path);
      Assoc(stream, DataLine(w, |f.bytes|), Line(f.bytes));
      Assoc(before, Line(w.change + f.path), DataLine(w, |f.bytes|) + Line(f.bytes));
      stream := stream + DataLine(w, |f.bytes|);
      stream := stream + Line(f.bytes);
      assert stream == before + FileCommand(w, f);
    }
    assert files[|files|..] == [];
    stream := stream + Line(w.done);
  }

  method WriteStream(w: Words, i: Import) returns (stream: Bytes)
    ensures stream == Stream(w, i)
  {
    var a, b, c, d := Line(w.commit + i.refName), Line(w.committer + i.committer), DataLine(w, |i.message| + 1), Line(i.message);
    stream := a + b + c + d;
    if i.from.Some? { stream := stream + Line(w.from + i.from.value); }
    stream := stream + Line(w.deleteall);
    Regroup(a, b, c, d, FromLine(w, i.from), Line(w.deleteall), FileCommands(w, i.files));
    assert i.from.None? ==> a + b + c + d + [] == a + b + c + d;
    stream := WriteFiles(w, i.files, stream);
  }

  lemma Regroup(a: Bytes, b: Bytes, c: Bytes, d: Bytes, e: Bytes, f: Bytes, g: Bytes)
    ensures a + (b + (c + (d + (e + (f + g))))) == a + b + c + d + e + f + g
  {}

  // ---------------------------------------------------------------- reading

  /** The line at the front, without its newline, and what follows. */
  function TakeLine(s: Bytes): Option<(Bytes, Bytes)> {
    match Find(s, [LF])
    case None => None
    case Some(i) => Some((s[..i], s[i + 1..]))
  }

  /** A line that starts with a keyword: what stands behind it. */
  function TakeCommand(s: Bytes, keyword: Bytes): Option<(Bytes, Bytes)> {
    match TakeLine(s)
    case None => None
    case Some(l) => if keyword <= l.0 then Some((l.0[|keyword|..], l.1)) else None
  }

  /** Exactly `n` bytes, and a newline behind them if there is one. */
  function TakeBytes(s: Bytes, n: nat): (r: Option<(Bytes, Bytes)>)
    ensures r.Some? ==> |r.value.1| <= |s|
  {
    if |s| < n then None
    else if |s| > n && s[n] == LF then Some((s[..n], s[n + 1..]))
    else Some((s[..n], s[n..]))
  }

  function TakeData(w: Words, s: Bytes): (r: Option<(Bytes, Bytes)>)
    ensures r.Some? ==> |r.value.1| < |s|
  {
    match TakeCommand(s, w.data)
    case None => None
    case Some(c) => if AllDigits(c.0) then TakeBytes(c.1, NatOf(c.0)) else None
  }

  /** File commands up to `done`; a quoted path is another syntax. */
  function ReadFiles(w: Words, s: Bytes): Option<seq<GitFile>>
    decreases |s|
  {
    match TakeLine(s)
    case None => None
    case Some(l) =>
      if l.0 == w.done then Some([])
      else if !(w.change <= l.0) || (|l.0| > |w.change| && l.0[|w.change|] == QUOTE) then None
      else
        match TakeData(w, l.1)
        case None => None
        case Some(d) =>
          match ReadFiles(w, d.1)
          case None => None
          case Some(rest) => Some([GitFile(l.0[|w.change|..], d.0)] + rest)
  }

  function ReadTail(w: Words, s: Bytes): Option<seq<GitFile>> {
    match TakeLine(s)
    case None => None
    case Some(l) => if l.0 == w.deleteall then ReadFiles(w, l.1) else None
  }

  function ReadFrom(w: Words, s: Bytes): (Option<Bytes>, Bytes) {
    match TakeCommand(s, w.from)
    case None => (None, s)
    case Some(c) => (Some(c.0), c.1)
  }

  /** What follows the two name lines: message, parent and files. */
  function ReadBody(w: Words, s: Bytes): Option<(Bytes, Option<Bytes>, seq<GitFile>)> {
    match TakeData(w, s)
    case None => None
    case Some(m) =>
      var (from, rest) := ReadFrom(w, m.1);
      match ReadTail(w, rest)
      case None => None
      case Some(files) => Some((m.0, from, files))
  }

  function Read(w: Words, s: Bytes): Option<Import> {
    match TakeCommand(s, w.commit)
    case None => None
    case Some(c) =>
      match TakeCommand(c.1, w.committer)
      case None => None
      case Some(who) =>
        match ReadBody(w, who.1)
        case None => None
        case Some(b) => Some(Import(c.0, who.0, b.0, b.1, b.2))
  }

  // ---------------------------------------------------------------- reading back

  /** A path git takes literally. */
  predicate Plain(path: Bytes) { LF !in path && (path == [] || path[0] != QUOTE) }

  lemma LineBack(text: Bytes, rest: Bytes)
    requires LF !in text
    ensures TakeLine(Line(text) + rest) == Some((text, rest))
  {
    FirstAt(text, LF, rest);
    var s := Line(text) + rest;
    assert s[..|text|] == text && s[|text| + 1..] == rest;
  }

  lemma CommandBack(keyword: Bytes, arg: Bytes, rest: Bytes)
    requires LF !in keyword && LF !in arg
    ensures TakeCommand(Line(keyword + arg) + rest, keyword) == Some((arg, rest))
  {
    LineBack(keyword + arg, rest);
    assert (keyword + arg)[|keyword|..] == arg;
  }

  lemma BytesBack(bytes: Bytes, rest: Bytes)
    ensures TakeBytes(Line(bytes) + rest, |bytes|) == Some((bytes, rest))
    ensures (rest == [] || rest[0] != LF) ==> TakeBytes(bytes + rest, |bytes|) == Some((bytes, rest))
  {
    var s := Line(bytes) + rest;
    assert s[..|bytes|] == bytes && s[|bytes|] == LF && s[|bytes| + 1..] == rest;
    var t := bytes + rest;
    assert t[..|bytes|] == bytes && t[|bytes|..] == rest;
  }

  /** A counted block comes back whatever bytes it holds. */
  lemma DataBack(w: Words, bytes: Bytes, rest: Bytes)
    requires LF !in w.data
    ensures TakeData(w, DataLine(w, |bytes|) + (Line(bytes) + rest)) == Some((bytes, rest))
    ensures (rest == [] || rest[0] != LF) ==> TakeData(w, DataLine(w, |bytes|) + (bytes + rest)) == Some((bytes, rest))
  {
    NoLfInDigits(Digits(|bytes|));
    CommandBack(w.data, Digits(|bytes|), Line(bytes) + rest);
    CommandBack(w.data, Digits(|bytes|), bytes + rest);
    DigitsReadBack(|bytes|);
    BytesBack(bytes, rest);
  }

  lemma FileShape(w: Words, f: GitFile, rest: Bytes)
    ensures FileCommand(w, f) + rest == Line(w.change + f.path) + (DataLine(w, |f.bytes|) + (Line(f.bytes) + rest))
  {
    Assoc(Line(w.change + f.path), DataLine(w, |f.bytes|) + Line(f.bytes), rest);
    Assoc(DataLine(w, |f.bytes|), Line(f.bytes), rest);
  }

  lemma ChangeLine(change: Bytes, path: Bytes)
    requires change != [] && LF !in change && Plain(path)
    ensures var line := change + path;
      && line[0] == change[0] && change <= line && line[|change|..] == path && LF !in line
      && (|line| > |change| ==> line[|change|] != QUOTE)
  {}

  lemma FileBack(w: Words, f: GitFile, rest: Bytes)
    requires WordsOk(w) && Plain(f.path) && ReadFiles(w, rest).Some?
    ensures ReadFiles(w, FileCommand(w, f) + rest) == Some([f] + ReadFiles(w, rest).value)
  {
    FileShape(w, f, rest);
    ChangeLine(w.change, f.path);
    LineBack(w.change + f.path, DataLine(w, |f.bytes|) + (Line(f.bytes) + rest));
    DataBack(w, f.bytes, rest);
  }

  lemma {:induction false} FilesBack(w: Words, files: seq<GitFile>)
    requires WordsOk(w) && forall f :: f in files ==> Plain(f.path)
    ensures ReadFiles(w, FileCommands(w, files)) == Some(files)
  {
    if files == [] {
      LineBack(w.done, []);
      assert Line(w.done) + [] == Line(w.done);
    } else {
      assert files[0] in files;
      FilesBack(w, files[1..]);
      FileBack(w, files[0], FileCommands(w, files[1..]));
      assert files == [files[0]] + files[1..];
    }
  }

  lemma FromBack(w: Words, from: Option<Bytes>, rest: Bytes)
    requires WordsOk(w) && (from.Some? ==> LF !in from.value)
    ensures var s := FromLine(w, from) + (Line(w.deleteall) + rest);
      s != [] && s[0] != LF && ReadFrom(w, s) == (from, Line(w.deleteall) + rest)
  {
    var tail := Line(w.deleteall) + rest;
    assert w.from[0] in w.from && w.deleteall[0] in w.deleteall;
    if from.Some? {
      CommandBack(w.from, from.value, tail);
      assert (FromLine(w, from) + tail)[0] == w.from[0];
    } else {
      LineBack(w.deleteall, rest);
      assert FromLine(w, from) + tail == tail;
      assert tail[0] == w.deleteall[0];
    }
  }

  lemma BodyBack(w: Words, message: Bytes, from: Option<Bytes>, rest: Bytes)
    requires WordsOk(w) && ReadFiles(w, rest).Some? && (from.Some? ==> LF !in from.value)
    ensures ReadBody(w, DataLine(w, |message|) + (message + (FromLine(w, from) + (Line(w.deleteall) + rest))))
      == Some((message, from, ReadFiles(w, rest).value))
  {
    FromBack(w, from, rest);
    LineBack(w.deleteall, rest);
    DataBack(w, message, FromLine(w, from) + (Line(w.deleteall) + rest));
  }

  lemma HeadBack(w: Words, i: Import, rest: Bytes)
    requires WordsOk(w) && ReadFiles(w, rest).Some?
    requires LF !in i.refName && LF !in i.committer && (i.from.Some? ==> LF !in i.from.value)
    ensures Read(w, HeadLines(w, i, rest)) ==
      Some(Import(i.refName, i.committer, Line(i.message), i.from, ReadFiles(w, rest).value))
  {
    var body := DataLine(w, |i.message| + 1) + (Line(i.message) + (FromLine(w, i.from) + (Line(w.deleteall) + rest)));
    BodyBack(w, Line(i.message), i.from, rest);
    CommandBack(w.commit, i.refName, Line(w.committer + i.committer) + body);
    CommandBack(w.committer, i.committer, body);
  }

  /** The commit the exporter wrote is the commit git reads: the same branch,
      message and parent, and exactly the same files with the same bytes. */
  lemma StreamReadsBack(i: Import)
    requires LF !in i.refName && LF !in i.committer && (i.from.Some? ==> LF !in i.from.value)
    requires forall f :: f in i.files ==> Plain(f.path)
    ensures Read(GIT, Stream(GIT, i)) == Some(i.(message := Line(i.message)))
  {
    GitWordsOk();
    FilesBack(GIT, i.files);
    HeadBack(GIT, i, FileCommands(GIT, i.files));
  }
}
