/**
 * The `.CHS` artefact: rendered by the Java side, read back by the Java side and by the Python
 * side with different ideas of what a line end and a space are, and verified against payloads.
 */
module Checksums {
  import opened Wrappers
  import opened Collections
  import opened Digits

  datatype Entry = Entry(sha256: string, records: int, fileName: string)

  // ---- rendering ------------------------------------------------------------------------------

  function EntryLine(e: Entry): string
    requires e.records >= 0
  {
    e.sha256 + "  " + Print(e.records) + "  " + e.fileName
  }

  function Header(run: string): seq<string> {
    ["# MIG 000001-1 checksum manifest", "# run_id=" + run, "# sha256  records  file"]
  }

  predicate Countable(entries: seq<Entry>) {
    forall e | e in entries :: 0 <= e.records <= LONG_MAX
  }

  function EntryLines(entries: seq<Entry>): (lines: seq<string>)
    requires Countable(entries)
    ensures |lines| == |entries|
  {
    seq(|entries|, i requires 0 <= i < |entries| => (assert entries[i] in entries; EntryLine(entries[i])))
  }

  function Unlines(lines: seq<string>): string {
    if lines == [] then "" else Unlines(lines[..|lines| - 1]) + lines[|lines| - 1] + "\n"
  }

  lemma {:induction false} UnlinesNext(lines: seq<string>, i: nat)
    requires i < |lines|
    ensures Unlines(lines[..i + 1]) == Unlines(lines[..i]) + lines[i] + "\n"
  {
    assert lines[..i + 1][..i] == lines[..i];
  }

  method Render(run: string, entries: seq<Entry>) returns (text: string)
    requires Countable(entries)
    ensures text == Unlines(Header(run) + EntryLines(entries))
  {
    ghost var lines := Header(run) + EntryLines(entries);
    text := "# MIG 000001-1 checksum manifest" + "\n";
    UnlinesNext(lines, 0);
    text := text + ("# run_id=" + run) + "\n";
    UnlinesNext(lines, 1);
    text := text + "# sha256  records  file" + "\n";
    UnlinesNext(lines, 2);
    for i := 0 to |entries|
      invariant text == Unlines(lines[..3 + i])
    {
      var e := entries[i];
      assert e in entries;
      text := text + (e.sha256 + "  " + Print(e.records) + "  " + e.fileName) + "\n";
      UnlinesNext(lines, 3 + i);
    }
    assert lines[..|lines|] == lines;
  }

  lemma {:induction false} HeaderSays(run: string)
    ensures Unlines(Header(run))
         == "# MIG 000001-1 checksum manifest\n" + "# run_id=" + run + "\n" + "# sha256  records  file\n"
  {
    var lines := Header(run);
    UnlinesNext(lines, 0);
    UnlinesNext(lines, 1);
    UnlinesNext(lines, 2);
    assert lines[..3] == lines;
  }

  /** The manifest of one file, spelled out. */
  lemma {:induction false} ManifestSays(run: string, e: Entry)
    requires Countable([e])
    ensures Unlines(Header(run) + EntryLines([e]))
         == "# MIG 000001-1 checksum manifest\n" + "# run_id=" + run + "\n" + "# sha256  records  file\n"
            + (e.sha256 + "  " + Print(e.records) + "  " + e.fileName) + "\n"
  {
    var lines := Header(run) + EntryLines([e]);
    HeaderSays(run);
    UnlinesNext(lines, 3);
    assert [e][0] in [e];
    assert lines[..4] == lines && lines[..3] == Header(run);
  }

  // ---- reading --------------------------------------------------------------------------------

  /**
   * A reader's notions. Java: lines end at '\n', trim takes off everything up to the space, \s
   * separates, a line of fewer than three fields is an error. Python: more line ends, other spaces,
   * such a line is skipped.
   */
  datatype Reader = Reader(isLineEnd: char -> bool, isTrimmed: char -> bool, isSpace: char -> bool,
                           number: string -> Option<int>, strict: bool)

  predicate IsJavaSpace(c: char) {
    c == ' ' || '\t' <= c <= '\r'
  }

  predicate IsPythonLineEnd(c: char) {
    '\n' <= c <= '\r' || '\U{1C}' <= c <= '\U{1E}' || c in {'\U{85}', '\U{2028}', '\U{2029}'}
  }

  predicate IsPythonSpace(c: char) {
    || c == ' ' || '\t' <= c <= '\r' || '\U{1C}' <= c <= '\U{1F}' || '\U{2000}' <= c <= '\U{200A}'
    || c in {'\U{85}', '\U{A0}', '\U{1680}', '\U{2028}', '\U{2029}', '\U{202F}', '\U{205F}', '\U{3000}'}
  }

  const JAVA := Reader(c => c == '\n', c => c <= ' ', IsJavaSpace, ParseLong, true)
  const PYTHON := Reader(IsPythonLineEnd, IsPythonSpace, IsPythonSpace, ParseInt, false)

  /** The characters each side takes for line ends and spaces. */
  lemma {:induction false} CharactersExactly(c: char)
    ensures JAVA.isLineEnd(c) <==> c == '\n'
    ensures JAVA.isTrimmed(c) <==> c <= '\U{20}'
    ensures JAVA.isSpace(c) <==> c in {' ', '\t', '\n', '\U{0B}', '\U{0C}', '\r'}
    ensures PYTHON.isLineEnd(c) <==>
              c in {'\n', '\U{0B}', '\U{0C}', '\r', '\U{1C}', '\U{1D}', '\U{1E}', '\U{85}',
                    '\U{2028}', '\U{2029}'}
    ensures PYTHON.isTrimmed(c) <==> PYTHON.isSpace(c)
    ensures PYTHON.isSpace(c) <==>
              c in {' ', '\t', '\n', '\U{0B}', '\U{0C}', '\r', '\U{1C}', '\U{1D}', '\U{1E}', '\U{1F}',
                    '\U{85}', '\U{A0}', '\U{1680}', '\U{2000}', '\U{2001}', '\U{2002}', '\U{2003}', '\U{2004}',
                    '\U{2005}', '\U{2006}',
                    '\U{2007}', '\U{2008}', '\U{2009}', '\U{200A}', '\U{2028}', '\U{2029}', '\U{202F}', '\U{205F}',
                    '\U{3000}'}
  {
  }

  function Pieces(text: string, isEnd: char -> bool): (pieces: seq<string>)
    ensures pieces != []
  {
    if text == "" then [""]
    else
      var before, last := Pieces(text[..|text| - 1], isEnd), text[|text| - 1];
      if isEnd(last) then before + [""] else ExtendLast(before, [last])
  }

  function ExtendLast(pieces: seq<string>, more: string): seq<string>
    requires pieces != []
  {
    pieces[..|pieces| - 1] + [pieces[|pieces| - 1] + more]
  }

  function Trim(s: string, isTrimmed: char -> bool): string
    decreases |s|
  {
    if s == "" then ""
    else if isTrimmed(s[0]) then Trim(s[1..], isTrimmed)
    else if isTrimmed(s[|s| - 1]) then Trim(s[..|s| - 1], isTrimmed)
    else s
  }

  function WordLength(s: string, isSpace: char -> bool): (n: nat)
    ensures n <= |s|
  {
    if s == "" || isSpace(s[0]) then 0 else 1 + WordLength(s[1..], isSpace)
  }

  function Words(s: string, isSpace: char -> bool): seq<string> {
    if s == "" then []
    else if isSpace(s[0]) then Words(s[1..], isSpace)
    else
      var n := WordLength(s, isSpace);
      [s[..n]] + Words(s[n..], isSpace)
  }

  datatype LineRead = Skipped | Malformed | Found(entry: Entry)

  function ReadLine(r: Reader, line: string): LineRead {
    var trimmed := Trim(line, r.isTrimmed);
    if trimmed == "" || trimmed[0] == '#' then Skipped
    else
      var parts := Words(trimmed, r.isSpace);
      if |parts| < 3 then (if r.strict then Malformed else Skipped)
      else
        match r.number(parts[1])
        case None => Malformed
        case Some(n) => Found(Entry(parts[0], n, parts[2]))
  }

  /** A malformed line is an exception; a file named twice keeps its last entry. */
  function ReadLines(r: Reader, lines: seq<string>): Option<map<string, Entry>> {
    if lines == [] then Some(map[])
    else
      match ReadLines(r, lines[..|lines| - 1])
      case None => None
      case Some(m) =>
        match ReadLine(r, lines[|lines| - 1])
        case Skipped => Some(m)
        case Malformed => None
        case Found(e) => Some(m[e.fileName := e])
  }

  method Parse(r: Reader, text: string) returns (m: Option<map<string, Entry>>)
    ensures m == ReadLines(r, Pieces(text, r.isLineEnd))
  {
    var lines := Pieces(text, r.isLineEnd);
    var out: map<string, Entry> := map[];
    for i := 0 to |lines|
      invariant ReadLines(r, lines[..i]) == Some(out)
    {
      assert lines[..i + 1][..i] == lines[..i];
      match ReadLine(r, lines[i]) {
        case Skipped =>
        case Malformed =>
          ErrorStays(r, lines, i + 1);
          return None;
        case Found(e) => out := out[e.fileName := e];
      }
    }
    assert lines[..|lines|] == lines;
    return Some(out);
  }

  lemma {:induction false} ErrorStays(r: Reader, lines: seq<string>, n: nat)
    requires n <= |lines| && ReadLines(r, lines[..n]) == None
    ensures ReadLines(r, lines) == None
    decreases |lines|
  {
    if n == |lines| {
      assert lines[..n] == lines;
    } else {
      assert lines[..|lines| - 1][..n] == lines[..n];
      ErrorStays(r, lines[..|lines| - 1], n);
    }
  }

  // ---- the round trip -------------------------------------------------------------------------

  predicate Free(s: string, avoided: char -> bool) {
    forall i | 0 <= i < |s| :: !avoided(s[i])
  }

  /** A field both readers take as one word: not empty, no control character or space of any kind. */
  predicate IsPlain(s: string) {
    s != "" && forall i | 0 <= i < |s| :: s[i] > ' ' && !IsPythonSpace(s[i])
  }

  predicate IsPlainEntry(e: Entry) {
    IsPlain(e.sha256) && e.sha256[0] != '#' && IsPlain(e.fileName) && 0 <= e.records <= LONG_MAX
  }

  predicate ArePlain(entries: seq<Entry>) {
    Countable(entries) && forall e | e in entries :: IsPlainEntry(e)
  }

  predicate ReadsPlainly(r: Reader) {
    && r.isLineEnd('\n') && r.isSpace(' ') && !r.isLineEnd(' ')
    && (forall c: char :: c > ' ' && !IsPythonSpace(c) ==> !r.isLineEnd(c) && !r.isTrimmed(c) && !r.isSpace(c))
    && (forall n: nat :: n <= LONG_MAX ==> r.number(Print(n)) == Some(n))
  }

  lemma {:induction false} BothReadPlainly()
    ensures ReadsPlainly(JAVA) && ReadsPlainly(PYTHON)
  {
    forall n: nat | n <= LONG_MAX ensures ParseLong(Print(n)) == Some(n) == ParseInt(Print(n)) {
      BothReadersReadPrinted(n);
    }
  }

  /** What a manifest says: the last line for a file wins. */
  function Manifest(entries: seq<Entry>): map<string, Entry> {
    if entries == [] then map[]
    else Manifest(entries[..|entries| - 1])[entries[|entries| - 1].fileName := entries[|entries| - 1]]
  }

  lemma {:induction false} ExtendTwice(pieces: seq<string>, a: string, b: string)
    requires pieces != []
    ensures ExtendLast(pieces, "") == pieces
    ensures ExtendLast(ExtendLast(pieces, a), b) == ExtendLast(pieces, a + b)
  {
    var last := pieces[|pieces| - 1];
    assert last + "" == last && last + a + b == last + (a + b);
  }

  lemma {:induction false} PiecesOfLonger(text: string, more: string, isEnd: char -> bool)
    requires Free(more, isEnd)
    ensures Pieces(text + more, isEnd) == ExtendLast(Pieces(text, isEnd), more)
    decreases |more|
  {
    var before := Pieces(text, isEnd);
    if more == "" {
      ExtendTwice(before, "", "");
      assert text + more == text;
    } else {
      var most, last := more[..|more| - 1], more[|more| - 1];
      assert (text + more)[..|text + more| - 1] == text + most;
      PiecesOfLonger(text, most, isEnd);
      ExtendTwice(before, most, [last]);
      assert most + [last] == more;
    }
  }

  lemma {:induction false} PiecesInvertUnlines(lines: seq<string>, isEnd: char -> bool)
    requires isEnd('\n') && forall line | line in lines :: Free(line, isEnd)
    ensures Pieces(Unlines(lines), isEnd) == lines + [""]
  {
    if lines != [] {
      var n := |lines| - 1;
      assert forall line | line in lines[..n] :: line in lines;
      PiecesInvertUnlines(lines[..n], isEnd);
      OneMoreLine(Unlines(lines[..n]), lines[..n], lines[n], isEnd);
      assert lines[..n] + [lines[n]] == lines;
    }
  }

  lemma {:induction false} OneMoreLine(text: string, lines: seq<string>, line: string, isEnd: char -> bool)
    requires isEnd('\n') && Free(line, isEnd) && Pieces(text, isEnd) == lines + [""]
    ensures Pieces(text + line + "\n", isEnd) == lines + [line] + [""]
  {
    PiecesOfLonger(text, line, isEnd);
    assert (lines + [""])[..|lines|] == lines && "" + line == line;
    assert (text + line + "\n")[..|text + line|] == text + line;
  }

  /** A line end cuts a text into two that are read apart. */
  lemma {:induction false} PiecesAcrossLineEnd(a: string, end: char, b: string, isEnd: char -> bool)
    requires isEnd(end)
    ensures Pieces(a + [end] + b, isEnd) == Pieces(a, isEnd) + Pieces(b, isEnd)
    decreases |b|
  {
    var before := a + [end];
    if b == "" {
      assert before + b == before;
    } else {
      var most, last := b[..|b| - 1], b[|b| - 1];
      assert b == most + [last] && before + b == before + most + [last];
      PiecesAcrossLineEnd(a, end, most, isEnd);
    }
  }

  lemma {:induction false} TrimStopsAtHead(s: string, isTrimmed: char -> bool)
    requires s != "" && !isTrimmed(s[0])
    ensures Trim(s, isTrimmed) != "" && Trim(s, isTrimmed)[0] == s[0]
    decreases |s|
  {
    if isTrimmed(s[|s| - 1]) {
      TrimStopsAtHead(s[..|s| - 1], isTrimmed);
    }
  }

  lemma {:induction false} FirstWord(word: string, rest: string, isSpace: char -> bool)
    requires Free(word, isSpace) && (rest == "" || isSpace(rest[0]))
    ensures WordLength(word + rest, isSpace) == |word|
    decreases |word|
  {
    if word == "" {
      assert word + rest == rest;
    } else {
      assert (word + rest)[1..] == word[1..] + rest;
      FirstWord(word[1..], rest, isSpace);
    }
  }

  lemma {:induction false} WordThenWords(word: string, rest: string, isSpace: char -> bool)
    requires word != "" && Free(word, isSpace) && (rest == "" || isSpace(rest[0]))
    ensures Words(word + rest, isSpace) == [word] + Words(rest, isSpace)
  {
    FirstWord(word, rest, isSpace);
    assert (word + rest)[..|word|] == word && (word + rest)[|word|..] == rest;
  }

  lemma {:induction false} WordAndGap(word: string, rest: string, isSpace: char -> bool)
    requires word != "" && Free(word, isSpace) && isSpace(' ')
    ensures Words(word + ("  " + rest), isSpace) == [word] + Words(rest, isSpace)
  {
    WordThenWords(word, "  " + rest, isSpace);
  }

  lemma {:induction false} EntryWords(e: Entry, isSpace: char -> bool)
    requires e.records >= 0 && isSpace(' ')
    requires e.sha256 != "" && Free(e.sha256, isSpace) && Free(Print(e.records), isSpace)
    requires e.fileName != "" && Free(e.fileName, isSpace)
    ensures Words(EntryLine(e), isSpace) == [e.sha256, Print(e.records), e.fileName]
  {
    var number, name := Print(e.records), e.fileName;
    WordThenWords(name, "", isSpace);
    assert name + "" == name;
    WordAndGap(number, name, isSpace);
    WordAndGap(e.sha256, number + ("  " + name), isSpace);
    assert EntryLine(e) == e.sha256 + ("  " + (number + ("  " + name)));
  }

  lemma {:induction false} EntryLineReadsBack(r: Reader, e: Entry)
    requires ReadsPlainly(r) && IsPlainEntry(e)
    ensures ReadLine(r, EntryLine(e)) == Found(e)
    ensures Free(EntryLine(e), r.isLineEnd)
  {
    EntryWords(e, r.isSpace);
  }

  lemma {:induction false} OneWord(word: string, isSpace: char -> bool)
    requires word != "" && Free(word, isSpace)
    ensures Words(word, isSpace) == [word]
  {
    WordThenWords(word, "", isSpace);
    assert word + "" == word;
  }

  /** A line of one or two fields is an exception to Java and nothing to Python. */
  lemma {:induction false} FewFieldsExactly(r: Reader, e: Entry)
    requires ReadsPlainly(r) && IsPlainEntry(e)
    ensures ReadLine(r, e.sha256) == if r.strict then Malformed else Skipped
    ensures ReadLine(r, e.sha256 + "  " + e.fileName) == if r.strict then Malformed else Skipped
    ensures JAVA.strict && !PYTHON.strict
  {
    OneWord(e.sha256, r.isSpace);
    OneWord(e.fileName, r.isSpace);
    WordAndGap(e.sha256, e.fileName, r.isSpace);
    assert e.sha256 + "  " + e.fileName == e.sha256 + ("  " + e.fileName);
  }

  predicate IsComment(line: string) {
    line != "" && line[0] == '#'
  }

  lemma {:induction false} CommentsAreSkipped(r: Reader, lines: seq<string>)
    requires !r.isTrimmed('#') && forall i | 0 <= i < |lines| :: IsComment(lines[i])
    ensures ReadLines(r, lines) == Some(map[])
  {
    if lines != [] {
      CommentsAreSkipped(r, lines[..|lines| - 1]);
      TrimStopsAtHead(lines[|lines| - 1], r.isTrimmed);
    }
  }

  lemma {:induction false} FixedLinesAreFree(r: Reader)
    requires ReadsPlainly(r)
    ensures Free("# MIG 000001-1 checksum manifest", r.isLineEnd) && Free("# sha256  records  file", r.isLineEnd)
  {
  }

  lemma {:induction false} HeaderIsSkipped(r: Reader, run: string)
    requires ReadsPlainly(r) && Free(run, r.isLineEnd)
    ensures ReadLines(r, Header(run)) == Some(map[])
    ensures forall line | line in Header(run) :: Free(line, r.isLineEnd)
  {
    CommentsAreSkipped(r, Header(run));
    FixedLinesAreFree(r);
  }

  lemma {:induction false} EntryLinesAreFree(r: Reader, entries: seq<Entry>)
    requires ReadsPlainly(r) && ArePlain(entries)
    ensures forall line | line in EntryLines(entries) :: Free(line, r.isLineEnd)
  {
    forall i | 0 <= i < |entries| ensures Free(EntryLines(entries)[i], r.isLineEnd) {
      assert entries[i] in entries;
      EntryLineReadsBack(r, entries[i]);
    }
  }

  lemma {:induction false} PlainPrefix(entries: seq<Entry>)
    requires entries != [] && ArePlain(entries)
    ensures ArePlain(entries[..|entries| - 1]) && IsPlainEntry(entries[|entries| - 1])
    ensures EntryLines(entries) == EntryLines(entries[..|entries| - 1]) + [EntryLine(entries[|entries| - 1])]
  {
    assert forall e | e in entries[..|entries| - 1] :: e in entries;
    assert entries[|entries| - 1] in entries;
  }

  lemma {:induction false} EntryLinesReadBack(r: Reader, before: seq<string>, entries: seq<Entry>)
    requires ReadsPlainly(r) && ArePlain(entries) && ReadLines(r, before) == Some(map[])
    ensures ReadLines(r, before + EntryLines(entries)) == Some(Manifest(entries))
  {
    if entries == [] {
      assert before + EntryLines(entries) == before;
    } else {
      var others, last := entries[..|entries| - 1], entries[|entries| - 1];
      PlainPrefix(entries);
      EntryLinesReadBack(r, before, others);
      EntryLineReadsBack(r, last);
      assert before + EntryLines(entries) == before + EntryLines(others) + [EntryLine(last)];
    }
  }

  /** The round trip: what one side renders, each side reads as the same manifest. */
  lemma {:induction false} ReadingInvertsRendering(r: Reader, run: string, entries: seq<Entry>)
    requires ReadsPlainly(r) && Free(run, r.isLineEnd)
    requires ArePlain(entries)
    ensures ReadLines(r, Pieces(Unlines(Header(run) + EntryLines(entries)), r.isLineEnd)) == Some(Manifest(entries))
  {
    HeaderIsSkipped(r, run);
    EntryLinesReadBack(r, Header(run), entries);
    EntryLinesAreFree(r, entries);
    var lines := Header(run) + EntryLines(entries);
    PiecesInvertUnlines(lines, r.isLineEnd);
  }

  function FileNames(entries: seq<Entry>): seq<string> {
    seq(|entries|, i requires 0 <= i < |entries| => entries[i].fileName)
  }

  lemma {:induction false} ManifestNames(entries: seq<Entry>)
    ensures Manifest(entries).Keys == Elements(FileNames(entries))
  {
    if entries != [] {
      var n := |entries| - 1;
      ManifestNames(entries[..n]);
      assert FileNames(entries) == FileNames(entries[..n]) + [entries[n].fileName];
      ElementsNext(FileNames(entries[..n]), entries[n].fileName);
    }
  }

  lemma {:induction false} LastEntryWins(entries: seq<Entry>, i: nat)
    requires i < |entries| && forall j | i < j < |entries| :: entries[j].fileName != entries[i].fileName
    ensures entries[i].fileName in Manifest(entries) && Manifest(entries)[entries[i].fileName] == entries[i]
    decreases |entries|
  {
    if i < |entries| - 1 {
      LastEntryWins(entries[..|entries| - 1], i);
    }
  }

  /** Nothing is lost exactly when no file name is used twice. */
  lemma {:induction false} NothingLostExactly(entries: seq<Entry>)
    ensures |Manifest(entries)| <= |entries|
    ensures |Manifest(entries)| == |entries| <==> Distinct(FileNames(entries))
    ensures Distinct(FileNames(entries)) ==>
              forall e | e in entries :: e.fileName in Manifest(entries) && Manifest(entries)[e.fileName] == e
  {
    ManifestNames(entries);
    DistinctExactly(FileNames(entries));
    assert |Manifest(entries)| == |Manifest(entries).Keys|;
    if Distinct(FileNames(entries)) {
      forall i | 0 <= i < |entries|
        ensures entries[i].fileName in Manifest(entries) && Manifest(entries)[entries[i].fileName] == entries[i]
      {
        var names := FileNames(entries);
        assert forall j | i < j < |entries| :: names[j] == entries[j].fileName && names[i] == entries[i].fileName;
        LastEntryWins(entries, i);
      }
    }
  }

  // ---- counting records -----------------------------------------------------------------------

  /** The records of a payload: its lines, a last line without a line end among them. */
  function RecordCount(content: string): nat {
    var lines := Pieces(content, c => c == '\n');
    |lines| - (if lines[|lines| - 1] == "" then 1 else 0)
  }

  function LineEnds(content: string): nat {
    if content == "" then 0
    else LineEnds(content[..|content| - 1]) + (if content[|content| - 1] == '\n' then 1 else 0)
  }

  lemma {:induction false} CountingLineEndsCountsRecords(content: string)
    ensures |Pieces(content, c => c == '\n')| == LineEnds(content) + 1
    ensures RecordCount(content) ==
      LineEnds(content) + (if content == "" || content[|content| - 1] == '\n' then 0 else 1)
  {
    if content != "" {
      CountingLineEndsCountsRecords(content[..|content| - 1]);
    }
  }

  /** The extractor's counter. */
  method CountRecords(content: string) returns (lines: nat)
    ensures lines == RecordCount(content)
  {
    CountingLineEndsCountsRecords(content);
    if |content| == 0 {
      return 0;
    }
    lines := 0;
    for i := 0 to |content|
      invariant lines == LineEnds(content[..i])
    {
      assert content[..i + 1][..i] == content[..i];
      if content[i] == '\n' {
        lines := lines + 1;
      }
    }
    assert content[..|content|] == content;
    if content[|content| - 1] != '\n' {
      lines := lines + 1;
    }
  }

  /** A payload of lines written one by one counts its lines. */
  lemma {:induction false} WrittenLinesAreCounted(lines: seq<string>)
    requires forall line | line in lines :: '\n' !in line
    ensures RecordCount(Unlines(lines)) == |lines|
  {
    PiecesInvertUnlines(lines, c => c == '\n');
  }

  // ---- verification ---------------------------------------------------------------------------

  datatype Problem =
    | Missing(name: string)
    | DigestDiffers(name: string)
    | CountDiffers(name: string)
    | NotListed(name: string)

  predicate Applies(p: Problem, manifest: map<string, Entry>, payloads: map<string, string>, digest: string -> string) {
    match p
    case Missing(name) => name in manifest && name !in payloads
    case DigestDiffers(name) => name in manifest && name in payloads && digest(payloads[name]) != manifest[name].sha256
    case CountDiffers(name) => name in manifest && name in payloads
        && RecordCount(payloads[name]) != manifest[name].records
    case NotListed(name) => name in payloads && name !in manifest
  }

  predicate Intact(manifest: map<string, Entry>, payloads: map<string, string>, digest: string -> string) {
    && manifest.Keys == payloads.Keys
    && forall name | name in manifest ::
         digest(payloads[name]) == manifest[name].sha256 && RecordCount(payloads[name]) == manifest[name].records
  }

  /** What is reported of a name, kind by kind: a listed file found is held against its digest and its count, both. */
  lemma {:induction false} ProblemsByKind(problems: seq<Problem>, manifest: map<string, Entry>,
                                          payloads: map<string, string>, digest: string -> string, name: string)
    requires forall p :: p in problems <==> Applies(p, manifest, payloads, digest)
    ensures Missing(name) in problems <==> name in manifest && name !in payloads
    ensures NotListed(name) in problems <==> name in payloads && name !in manifest
    ensures DigestDiffers(name) in problems <==>
              name in manifest && name in payloads && digest(payloads[name]) != manifest[name].sha256
    ensures CountDiffers(name) in problems <==>
              name in manifest && name in payloads && RecordCount(payloads[name]) != manifest[name].records
  {
  }

  /** Every discrepancy is reported once and nothing else is; no report means the extract is intact. */
  method Verify(manifest: map<string, Entry>, payloads: map<string, string>, digest: string -> string)
    returns (problems: seq<Problem>)
    ensures forall p :: p in problems <==> Applies(p, manifest, payloads, digest)
    ensures Distinct(problems)
    ensures problems == [] <==> Intact(manifest, payloads, digest)
  {
    problems := [];
    var listed := manifest.Keys;
    while listed != {}
      invariant listed <= manifest.Keys
      invariant forall p :: p in problems <==>
        !p.NotListed? && p.name !in listed && Applies(p, manifest, payloads, digest)
      invariant Distinct(problems)
      decreases |listed|
    {
      var name :| name in listed;
      listed := listed - {name};
      if name !in payloads {
        problems := problems + [Missing(name)];
      } else {
        if digest(payloads[name]) != manifest[name].sha256 {
          problems := problems + [DigestDiffers(name)];
        }
        var records := CountRecords(payloads[name]);
        if records != manifest[name].records {
          problems := problems + [CountDiffers(name)];
        }
      }
    }
    var present := payloads.Keys;
    while present != {}
      invariant present <= payloads.Keys
      invariant forall p :: p in problems <==>
        Applies(p, manifest, payloads, digest) && (p.NotListed? ==> p.name !in present)
      invariant Distinct(problems)
      decreases |present|
    {
      var name :| name in present;
      present := present - {name};
      if name !in manifest {
        problems := problems + [NotListed(name)];
      }
    }
    NoProblemMeansIntact(manifest, payloads, digest);
    if problems != [] {
      assert problems[0] in problems;
    }
  }

  lemma {:induction false} NoProblemMeansIntact(manifest: map<string, Entry>, payloads: map<string, string>,
      digest: string -> string)
    ensures (forall p :: !Applies(p, manifest, payloads, digest)) <==> Intact(manifest, payloads, digest)
  {
    if forall p :: !Applies(p, manifest, payloads, digest) {
      forall name | name in manifest ensures name in payloads {
        assert !Applies(Missing(name), manifest, payloads, digest);
      }
      forall name | name in payloads ensures name in manifest {
        assert !Applies(NotListed(name), manifest, payloads, digest);
      }
      forall name | name in manifest
        ensures digest(payloads[name]) == manifest[name].sha256 && RecordCount(payloads[name]) == manifest[name].records
      {
        assert !Applies(DigestDiffers(name), manifest, payloads, digest);
        assert !Applies(CountDiffers(name), manifest, payloads, digest);
      }
    }
  }
}
