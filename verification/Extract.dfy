/**
 * The extractor's split of a source extract into sequenced `.DAT` files, its checksum entries, and
 * what the file processor reads back out of the bundle.
 */
module Extract {
  import opened Collections
  import Text
  import Checksums

  // ---- splitting ------------------------------------------------------------------------------

  datatype Reason = NulByteInRecord | SimulatedReadFailure

  datatype ExtractError = ExtractError(lineNumber: nat, reason: Reason, raw: string)

  predicate IsReadable(line: string) {
    !Text.IsBlank(line) && '\0' !in line
  }

  function NonBlank(lines: seq<string>): seq<string> {
    if lines == [] then []
    else
      var last := lines[|lines| - 1];
      NonBlank(lines[..|lines| - 1]) + (if Text.IsBlank(last) then [] else [last])
  }

  function Readable(lines: seq<string>): seq<string> {
    if lines == [] then []
    else
      var last := lines[|lines| - 1];
      Readable(lines[..|lines| - 1]) + (if IsReadable(last) then [last] else [])
  }

  /** How many readable lines the simulated failures take: the first ones. */
  function Diverted(lines: seq<string>, inject: int): (n: nat)
    ensures n <= |Readable(lines)|
  {
    if inject <= 0 then 0 else if inject <= |Readable(lines)| then inject else |Readable(lines)|
  }

  function Kept(lines: seq<string>, inject: int): seq<string> {
    Readable(lines)[Diverted(lines, inject)..]
  }

  function Truncate(line: string): string {
    if |line| <= 120 then line else line[..120] + "..."
  }

  /** What a line leaves in the error list, given its number and how many readable lines came before. */
  function ErrorOf(line: string, number: nat, readableBefore: nat, inject: int): seq<ExtractError> {
    if Text.IsBlank(line) then []
    else if '\0' in line then [ExtractError(number, NulByteInRecord, Truncate(line))]
    else if readableBefore < inject then [ExtractError(number, SimulatedReadFailure, Truncate(line))]
    else []
  }

  function Errors(lines: seq<string>, inject: int): seq<ExtractError> {
    if lines == [] then []
    else
      var n := |lines| - 1;
      Errors(lines[..n], inject) + ErrorOf(lines[n], n + 1, |Readable(lines[..n])|, inject)
  }

  function FullSize(splitSize: int): (size: nat)
    ensures size >= 1
  {
    if splitSize <= 1 then 1 else splitSize
  }

  /** Full files but the last, which is empty only when it is the only one. */
  predicate IsSplit(files: seq<seq<string>>, size: nat) {
    && files != []
    && (forall i | 0 <= i < |files| - 1 :: |files[i]| == size)
    && |files[|files| - 1]| <= size
    && (files[|files| - 1] == [] ==> |files| == 1)
  }

  method Split(lines: seq<string>, splitSize: int, injectErrors: int)
    returns (files: seq<seq<string>>, errors: seq<ExtractError>, total: nat)
    ensures Flatten(files) == Kept(lines, injectErrors)
    ensures IsSplit(files, FullSize(splitSize))
    ensures errors == Errors(lines, injectErrors)
    ensures total == |Kept(lines, injectErrors)|
  {
    files, errors, total := [], [], 0;
    var current: seq<string> := [];
    var injected := 0;
    for i := 0 to |lines|
      invariant injected == Diverted(lines[..i], injectErrors)
      invariant Flatten(files) + current == Kept(lines[..i], injectErrors)
      invariant forall f | f in files :: |f| == FullSize(splitSize)
      invariant |current| < FullSize(splitSize)
      invariant errors == Errors(lines[..i], injectErrors)
      invariant total == |Kept(lines[..i], injectErrors)|
    {
      var line := lines[i];
      OneMoreLine(lines, i, injectErrors);
      if Text.IsBlank(line) {
        continue;
      }
      if '\0' in line {
        errors := errors + [ExtractError(i + 1, NulByteInRecord, Truncate(line))];
        continue;
      }
      if injected < injectErrors {
        errors := errors + [ExtractError(i + 1, SimulatedReadFailure, Truncate(line))];
        injected := injected + 1;
        continue;
      }
      assert Flatten(files) + (current + [line]) == Flatten(files) + current + [line];
      current := current + [line];
      total := total + 1;
      if |current| >= splitSize {
        files := files + [current];
        current := [];
      }
    }
    assert lines[..|lines|] == lines;
    if current != [] || files == [] {
      files := files + [current];
    }
  }

  /** The size asked for, or one for any that is less; and no file is empty but that of an empty extract. */
  lemma {:induction false} FilesAreFull(files: seq<seq<string>>, splitSize: int)
    requires IsSplit(files, FullSize(splitSize))
    ensures forall i | 0 <= i < |files| - 1 :: |files[i]| == if splitSize < 1 then 1 else splitSize
    ensures |files| >= 1 && |files[|files| - 1]| <= if splitSize < 1 then 1 else splitSize
    ensures [] in files <==> Flatten(files) == []
  {
    if Flatten(files) == [] {
      assert files[|files| - 1] in files;
    }
  }

  lemma {:induction false} OneMoreLine(lines: seq<string>, i: nat, inject: int)
    requires i < |lines|
    ensures Errors(lines[..i + 1], inject) ==
      Errors(lines[..i], inject) + ErrorOf(lines[i], i + 1, |Readable(lines[..i])|, inject)
    ensures Diverted(lines[..i], inject) < inject <==> |Readable(lines[..i])| < inject
    ensures Kept(lines[..i + 1], inject) == Kept(lines[..i], inject) +
      (if IsReadable(lines[i]) && Diverted(lines[..i], inject) >= inject then [lines[i]] else [])
    ensures Diverted(lines[..i + 1], inject) == Diverted(lines[..i], inject) +
      (if IsReadable(lines[i]) && Diverted(lines[..i], inject) < inject then 1 else 0)
  {
    assert lines[..i + 1][..i] == lines[..i];
  }

  /** A row is in a file, in the error list, or blank. */
  lemma {:induction false} NothingVanishes(lines: seq<string>, inject: int)
    ensures |Kept(lines, inject)| + |Errors(lines, inject)| == |NonBlank(lines)|
  {
    if lines != [] {
      var n := |lines| - 1;
      NothingVanishes(lines[..n], inject);
      OneMoreLine(lines, n, inject);
      assert lines[..n + 1] == lines;
    }
  }

  predicate Names(e: ExtractError, lines: seq<string>) {
    && 1 <= e.lineNumber <= |lines|
    && var line := lines[e.lineNumber - 1];
       e.raw == Truncate(line) && !Text.IsBlank(line) && (e.reason == NulByteInRecord <==> '\0' in line)
  }

  /** Every error names a row of the extract and why it was left out. */
  lemma {:induction false} ErrorsNameTheirRows(lines: seq<string>, inject: int)
    ensures forall e | e in Errors(lines, inject) :: Names(e, lines)
  {
    if lines != [] {
      var others := lines[..|lines| - 1];
      ErrorsNameTheirRows(others, inject);
      assert forall e | Names(e, others) :: Names(e, lines);
    }
  }

  /** Readable is what is neither blank nor has a NUL in it. */
  lemma {:induction false} ReadableExactly(lines: seq<string>, line: string)
    ensures line in Readable(lines) <==> line in lines && !Text.IsBlank(line) && '\0' !in line
    ensures line in NonBlank(lines) <==> line in lines && !Text.IsBlank(line)
    ensures |Readable(lines)| <= |lines| && |NonBlank(lines)| <= |lines|
  {
    if lines != [] {
      var n := |lines| - 1;
      ReadableExactly(lines[..n], line);
      assert line in lines <==> line in lines[..n] || line == lines[n] by {
        assert lines == lines[..n] + [lines[n]];
      }
    }
  }

  /** Row by row and in order: with the one above, each such row counts once. */
  lemma {:induction false} ReadableBoth(a: seq<string>, b: seq<string>)
    ensures Readable(a + b) == Readable(a) + Readable(b)
    ensures NonBlank(a + b) == NonBlank(a) + NonBlank(b)
    decreases |b|
  {
    if b == [] {
      assert a + b == a;
    } else {
      assert (a + b)[..|a + b| - 1] == a + b[..|b| - 1];
      ReadableBoth(a, b[..|b| - 1]);
    }
  }

  /** Kept is what is readable but for the first so many rows, taken as failed reads. */
  lemma {:induction false} KeptExactly(lines: seq<string>, inject: int)
    ensures Kept(lines, inject) == if inject <= 0 then Readable(lines)
                                   else if inject <= |Readable(lines)| then Readable(lines)[inject..] else []
  {
  }

  /** A row is in the error list for a NUL in it, or as one of the first readable ones; cut to 120 characters. */
  lemma {:induction false} ErrorsExactly(lines: seq<string>, inject: int, e: ExtractError)
    ensures e in Errors(lines, inject) <==>
              && 1 <= e.lineNumber <= |lines| && !Text.IsBlank(lines[e.lineNumber - 1])
              && (if '\0' in lines[e.lineNumber - 1] then e.reason == NulByteInRecord
                  else e.reason == SimulatedReadFailure && |Readable(lines[..e.lineNumber - 1])| < inject)
              && e.raw == if |lines[e.lineNumber - 1]| <= 120 then lines[e.lineNumber - 1]
                          else lines[e.lineNumber - 1][..120] + "..."
  {
    if lines != [] {
      var n := |lines| - 1;
      ErrorsExactly(lines[..n], inject, e);
      assert 1 <= e.lineNumber <= n ==> lines[..n][..e.lineNumber - 1] == lines[..e.lineNumber - 1];
    }
  }

  predicate InOrder(errors: seq<ExtractError>) {
    forall i, j | 0 <= i < j < |errors| :: errors[i].lineNumber < errors[j].lineNumber
  }

  /** No row is named twice, and the rows are in order. */
  lemma {:induction false} ErrorsAreInOrder(lines: seq<string>, inject: int)
    ensures InOrder(Errors(lines, inject))
  {
    if lines != [] {
      var n := |lines| - 1;
      var before := Errors(lines[..n], inject);
      ErrorsAreInOrder(lines[..n], inject);
      ErrorsNameTheirRows(lines[..n], inject);
      forall i | 0 <= i < |before| ensures before[i].lineNumber < |lines| {
        assert before[i] in before;
      }
    }
  }

  /** So many files: as many as it takes, and one for an empty extract. */
  lemma {:induction false} FileCount(files: seq<seq<string>>, size: nat)
    requires size >= 1 && IsSplit(files, size)
    ensures Flatten(files) == [] ==> |files| == 1
    ensures Flatten(files) != [] ==> (|files| - 1) * size < |Flatten(files)| <= |files| * size
  {
    var n := |files| - 1;
    FullFiles(files[..n], size);
    assert (n + 1) * size == n * size + size;
    if n > 0 {
      assert n * size >= size;
    }
  }

  lemma {:induction false} FullFiles(files: seq<seq<string>>, size: nat)
    requires forall i | 0 <= i < |files| :: |files[i]| == size
    ensures |Flatten(files)| == |files| * size
  {
    if files != [] {
      FullFiles(files[..|files| - 1], size);
      assert |files| * size == (|files| - 1) * size + size;
    }
  }

  // ---- the bundle -----------------------------------------------------------------------------

  function Payload(file: seq<string>): string {
    Text.Join(file, '\n') + "\n"
  }

  lemma {:induction false} UnlinesFromFront(lines: seq<string>)
    requires lines != []
    ensures Checksums.Unlines(lines) == lines[0] + "\n" + Checksums.Unlines(lines[1..])
  {
    var n := |lines| - 1;
    if n > 0 {
      UnlinesFromFront(lines[..n]);
      assert lines[..n][1..] == lines[1..][..n - 1];
      assert lines[0] + "\n" + Checksums.Unlines(lines[1..][..n - 1]) + lines[n] + "\n"
          == lines[0] + "\n" + (Checksums.Unlines(lines[1..][..n - 1]) + lines[n] + "\n");
    } else {
      assert lines[..0] == [] && lines[1..] == [];
    }
  }

  /** A file's payload is its lines, each ended; the empty file's is one line end. */
  lemma {:induction false} PayloadIsLines(file: seq<string>)
    ensures Payload(file) == Checksums.Unlines(if file == [] then [""] else file)
  {
    if |file| >= 1 {
      UnlinesFromFront(file);
      if |file| >= 2 {
        PayloadIsLines(file[1..]);
        assert file[0] + "\n" + Text.Join(file[1..], '\n') + "\n" == file[0] + "\n" + Payload(file[1..]);
      }
    }
  }

  function EntryFor(file: seq<string>, sequence: nat, digest: string -> string, name: nat -> string): Checksums.Entry {
    Checksums.Entry(digest(Payload(file)), Checksums.RecordCount(Payload(file)), name(sequence))
  }

  function EntriesFor(files: seq<seq<string>>, digest: string -> string,
      name: nat -> string): (entries: seq<Checksums.Entry>)
    ensures |entries| == |files|
  {
    seq(|files|, i requires 0 <= i < |files| => EntryFor(files[i], i + 1, digest, name))
  }

  /** Bundle entries by name; a name used twice would keep the later file. */
  function BundleOf(files: seq<seq<string>>, name: nat -> string): map<string, string> {
    if files == [] then map[]
    else BundleOf(files[..|files| - 1], name)[name(|files|) := Payload(files[|files| - 1])]
  }

  method Package(files: seq<seq<string>>, digest: string -> string, name: nat -> string)
    returns (bundle: map<string, string>, checksums: seq<Checksums.Entry>)
    ensures bundle == BundleOf(files, name)
    ensures checksums == EntriesFor(files, digest, name)
  {
    bundle, checksums := map[], [];
    for i := 0 to |files|
      invariant bundle == BundleOf(files[..i], name)
      invariant checksums == EntriesFor(files, digest, name)[..i]
    {
      assert files[..i + 1][..i] == files[..i];
      var payload := Payload(files[i]);
      bundle := bundle[name(i + 1) := payload];
      var records := Checksums.CountRecords(payload);
      checksums := checksums + [Checksums.Entry(digest(payload), records, name(i + 1))];
    }
    assert files[..|files|] == files;
  }

  predicate AreLines(lines: seq<string>) {
    forall line | line in lines :: '\n' !in line
  }

  lemma {:induction false} FileIsCounted(file: seq<string>)
    requires AreLines(file)
    ensures Checksums.RecordCount(Payload(file)) == (if file == [] then 1 else |file|)
  {
    PayloadIsLines(file);
    Checksums.WrittenLinesAreCounted(if file == [] then [""] else file);
  }

  function Claimed(entries: seq<Checksums.Entry>): int {
    if entries == [] then 0 else Claimed(entries[..|entries| - 1]) + entries[|entries| - 1].records
  }

  lemma {:induction false} FullFilesAreCounted(files: seq<seq<string>>, digest: string -> string, name: nat -> string)
    requires AreLines(Flatten(files)) && forall i | 0 <= i < |files| :: files[i] != []
    ensures Claimed(EntriesFor(files, digest, name)) == |Flatten(files)|
  {
    if files != [] {
      var n := |files| - 1;
      assert Flatten(files) == Flatten(files[..n]) + files[n];
      assert forall line | line in files[n] :: line in Flatten(files);
      assert forall line | line in Flatten(files[..n]) :: line in Flatten(files);
      FullFilesAreCounted(files[..n], digest, name);
      assert EntriesFor(files, digest, name)[..n] == EntriesFor(files[..n], digest, name);
      FileIsCounted(files[n]);
    }
  }

  /** The manifest's counts add up to the records written, except that no record at all is claimed as one. */
  lemma {:induction false} ManifestCountsRecords(files: seq<seq<string>>, size: nat, digest: string -> string,
      name: nat -> string)
    requires IsSplit(files, size) && size >= 1 && AreLines(Flatten(files))
    ensures Claimed(EntriesFor(files, digest, name)) == (if Flatten(files) == [] then 1 else |Flatten(files)|)
  {
    if files[|files| - 1] == [] {
      assert files == [[]];
      FileIsCounted([]);
      assert files[..0] == [] && Flatten(files) == [];
      assert EntriesFor(files, digest, name)[..0] == [];
    } else {
      assert forall i | 0 <= i < |files| :: files[i] != [];
      FullFilesAreCounted(files, digest, name);
      assert Flatten(files) == Flatten(files[..|files| - 1]) + files[|files| - 1];
    }
  }

  lemma {:induction false} BundleMatchesEntries(files: seq<seq<string>>, digest: string -> string, name: nat -> string)
    ensures Checksums.Intact(Checksums.Manifest(EntriesFor(files, digest, name)), BundleOf(files, name), digest)
  {
    if files != [] {
      var n := |files| - 1;
      BundleMatchesEntries(files[..n], digest, name);
      assert EntriesFor(files, digest, name)[..n] == EntriesFor(files[..n], digest, name);
    }
  }

  /** A bundle as the extractor made it passes verification against its own manifest, whoever reads that. */
  lemma {:induction false} BundleVerifies(r: Checksums.Reader, run: string, files: seq<seq<string>>,
      digest: string -> string, name: nat -> string)
    requires Checksums.ReadsPlainly(r) && Checksums.Free(run, r.isLineEnd)
    requires Checksums.ArePlain(EntriesFor(files, digest, name))
    ensures var entries := EntriesFor(files, digest, name);
            var text := Checksums.Unlines(Checksums.Header(run) + Checksums.EntryLines(entries));
            var read := Checksums.ReadLines(r, Checksums.Pieces(text, r.isLineEnd));
            read.Some? && Checksums.Intact(read.value, BundleOf(files, name), digest)
  {
    Checksums.ReadingInvertsRendering(r, run, EntriesFor(files, digest, name));
    BundleMatchesEntries(files, digest, name);
  }

  /** The extract's first line is its header and no row; an empty extract has none. */
  function RowsOf(source: seq<string>): seq<string> {
    if source == [] then [] else source[1..]
  }

  lemma {:induction false} HeaderIsNoRow(header: string, rows: seq<string>)
    ensures RowsOf([header] + rows) == rows && RowsOf([]) == []
  {
  }

  /** The extractor's run: what it reports, what it bundles, what the manifest claims. */
  method Run(source: seq<string>, splitSize: int, injectErrors: int, digest: string -> string, name: nat -> string)
    returns (files: seq<seq<string>>, bundle: map<string, string>, checksums: seq<Checksums.Entry>,
             errors: seq<ExtractError>, written: nat)
    requires AreLines(source)
    ensures Flatten(files) == Kept(RowsOf(source), injectErrors) && IsSplit(files, FullSize(splitSize))
    ensures bundle == BundleOf(files, name) && checksums == EntriesFor(files, digest, name)
    ensures Checksums.Intact(Checksums.Manifest(checksums), bundle, digest)
    ensures written + |errors| == |NonBlank(RowsOf(source))|
    ensures Claimed(checksums) == if written == 0 then 1 else written
  {
    var lines := RowsOf(source);
    files, errors, written := Split(lines, splitSize, injectErrors);
    bundle, checksums := Package(files, digest, name);
    BundleMatchesEntries(files, digest, name);
    NothingVanishes(lines, injectErrors);
    KeptLinesAreLines(source, injectErrors);
    ManifestCountsRecords(files, FullSize(splitSize), digest, name);
  }

  lemma {:induction false} ReadableLinesAreLines(lines: seq<string>)
    ensures forall line | line in Readable(lines) :: line in lines
  {
    if lines != [] {
      ReadableLinesAreLines(lines[..|lines| - 1]);
    }
  }

  lemma {:induction false} KeptLinesAreLines(source: seq<string>, inject: int)
    requires AreLines(source)
    ensures AreLines(Kept(RowsOf(source), inject))
  {
    var lines := RowsOf(source);
    ReadableLinesAreLines(lines);
    forall line | line in Kept(lines, inject) ensures '\n' !in line {
      assert line in Readable(lines) && line in lines && line in source;
    }
  }

  // ---- what the file processor reads ----------------------------------------------------------

  /** `line.strip()` keeps something, and the line is not the column header. */
  predicate IsRecord(line: string, isHeader: string -> bool) {
    (exists i | 0 <= i < |line| :: !Checksums.IsPythonSpace(line[i])) && !isHeader(line)
  }

  function Records(lines: seq<string>, isHeader: string -> bool): seq<string> {
    if lines == [] then []
    else
      var last := lines[|lines| - 1];
      Records(lines[..|lines| - 1], isHeader) + (if IsRecord(last, isHeader) then [last] else [])
  }

  /** `payload.splitlines()`, but for an empty piece here and there, which is no record. */
  function PythonLines(text: string): seq<string> {
    Checksums.Pieces(text, Checksums.IsPythonLineEnd)
  }

  /** What one extracted line turns into downstream. */
  function Yield(line: string, isHeader: string -> bool): seq<string> {
    Records(PythonLines(line), isHeader)
  }

  function Yields(lines: seq<string>, isHeader: string -> bool): seq<string> {
    if lines == [] then [] else Yields(lines[..|lines| - 1], isHeader) + Yield(lines[|lines| - 1], isHeader)
  }

  lemma {:induction false} RecordsOfBoth(a: seq<string>, b: seq<string>, isHeader: string -> bool)
    ensures Records(a + b, isHeader) == Records(a, isHeader) + Records(b, isHeader)
    decreases |b|
  {
    if b == [] {
      assert a + b == a;
    } else {
      var most, last := b[..|b| - 1], b[|b| - 1];
      assert (a + b)[..|a + b| - 1] == a + most && (a + b)[|a + b| - 1] == last;
      RecordsOfBoth(a, most, isHeader);
      Associative(Records(a, isHeader), Records(most, isHeader), if IsRecord(last, isHeader) then [last] else []);
    }
  }

  lemma {:induction false} YieldsOfBoth(a: seq<string>, b: seq<string>, isHeader: string -> bool)
    ensures Yields(a + b, isHeader) == Yields(a, isHeader) + Yields(b, isHeader)
    decreases |b|
  {
    if b == [] {
      assert a + b == a;
    } else {
      var most, last := b[..|b| - 1], b[|b| - 1];
      assert (a + b)[..|a + b| - 1] == a + most && (a + b)[|a + b| - 1] == last;
      YieldsOfBoth(a, most, isHeader);
      Associative(Yields(a, isHeader), Yields(most, isHeader), Yield(last, isHeader));
    }
  }

  lemma {:induction false} YieldAcrossLineEnd(a: string, end: char, b: string, isHeader: string -> bool)
    requires Checksums.IsPythonLineEnd(end)
    ensures Yield(a + [end] + b, isHeader) == Yield(a, isHeader) + Yield(b, isHeader)
  {
    Checksums.PiecesAcrossLineEnd(a, end, b, Checksums.IsPythonLineEnd);
    RecordsOfBoth(PythonLines(a), PythonLines(b), isHeader);
  }

  lemma {:induction false} LastLineApart(text: string, line: string, rest: string)
    ensures text + line + "\n" + rest == text + (line + ['\n'] + rest)
  {
  }

  lemma {:induction false} LinesReadApart(lines: seq<string>, rest: string, isHeader: string -> bool)
    ensures Yield(Checksums.Unlines(lines) + rest, isHeader) == Yields(lines, isHeader) + Yield(rest, isHeader)
    decreases |lines|
  {
    if lines == [] {
      assert "" + rest == rest;
    } else {
      var others, last := lines[..|lines| - 1], lines[|lines| - 1];
      LastLineApart(Checksums.Unlines(others), last, rest);
      LinesReadApart(others, last + ['\n'] + rest, isHeader);
      YieldAcrossLineEnd(last, '\n', rest, isHeader);
    }
  }

  lemma {:induction false} FileReadsBack(file: seq<string>, isHeader: string -> bool)
    ensures Yield(Payload(file), isHeader) == Yields(file, isHeader)
  {
    var lines := if file == [] then [""] else file;
    PayloadIsLines(file);
    LinesReadApart(lines, "", isHeader);
    assert Checksums.Unlines(lines) + "" == Checksums.Unlines(lines);
  }

  predicate AreWhole(lines: seq<string>) {
    forall line | line in lines :: Checksums.Free(line, Checksums.IsPythonLineEnd)
  }

  lemma {:induction false} LineYieldsItself(line: string, isHeader: string -> bool)
    requires Checksums.Free(line, Checksums.IsPythonLineEnd)
    ensures Yield(line, isHeader) == if IsRecord(line, isHeader) then [line] else []
  {
    Checksums.PiecesOfLonger("", line, Checksums.IsPythonLineEnd);
    assert "" + line == line;
    assert PythonLines(line) == [line];
    assert [line][..0] == [];
  }

  /** Lines no reader breaks up: all of them arrive exactly when each is a record to the reader too. */
  lemma {:induction false} AllArriveExactly(lines: seq<string>, isHeader: string -> bool)
    requires AreWhole(lines)
    ensures |Yields(lines, isHeader)| <= |lines|
    ensures |Yields(lines, isHeader)| == |lines| <==> forall line | line in lines :: IsRecord(line, isHeader)
    ensures |Yields(lines, isHeader)| == |lines| ==> Yields(lines, isHeader) == lines
  {
    if lines != [] {
      var others, last := lines[..|lines| - 1], lines[|lines| - 1];
      assert lines == others + [last];
      AllArriveExactly(others, isHeader);
      assert last in lines;
      LineYieldsItself(last, isHeader);
    }
  }

  lemma {:induction false} PiecesAreWhole(text: string)
    ensures AreWhole(PythonLines(text))
  {
    if text != "" {
      PiecesAreWhole(text[..|text| - 1]);
      var before := PythonLines(text[..|text| - 1]);
      assert before[|before| - 1] in before;
      assert forall piece | piece in before[..|before| - 1] :: piece in before;
    }
  }

  /** What arrives is whole, and a record to the reader. */
  predicate ArriveAsRecords(lines: seq<string>, isHeader: string -> bool) {
    AreWhole(lines) && forall line | line in lines :: IsRecord(line, isHeader)
  }

  lemma {:induction false} RecordsArrive(pieces: seq<string>, isHeader: string -> bool)
    requires AreWhole(pieces)
    ensures ArriveAsRecords(Records(pieces, isHeader), isHeader)
  {
    if pieces != [] {
      assert forall piece | piece in pieces[..|pieces| - 1] :: piece in pieces;
      RecordsArrive(pieces[..|pieces| - 1], isHeader);
      assert pieces[|pieces| - 1] in pieces;
    }
  }

  lemma {:induction false} YieldsArriveAsRecords(lines: seq<string>, isHeader: string -> bool)
    ensures ArriveAsRecords(Yields(lines, isHeader), isHeader)
  {
    if lines != [] {
      YieldsArriveAsRecords(lines[..|lines| - 1], isHeader);
      PiecesAreWhole(lines[|lines| - 1]);
      RecordsArrive(PythonLines(lines[|lines| - 1]), isHeader);
    }
  }

  /** Any lines at all arrive as they were exactly when none is broken up and each is a record to the reader. */
  lemma {:induction false} LinesArriveExactly(lines: seq<string>, isHeader: string -> bool)
    ensures Yields(lines, isHeader) == lines <==> ArriveAsRecords(lines, isHeader)
    ensures multiset(Yields(lines, isHeader)) == multiset(lines) <==> ArriveAsRecords(lines, isHeader)
  {
    YieldsArriveAsRecords(lines, isHeader);
    if ArriveAsRecords(lines, isHeader) {
      AllArriveExactly(lines, isHeader);
    }
    if multiset(Yields(lines, isHeader)) == multiset(lines) {
      forall line | line in lines ensures line in Yields(lines, isHeader) {
        assert line in multiset(lines);
      }
    }
  }

  /** A line with one of the other line ends inside is reported once and read twice. */
  lemma {:induction false} TornLineIsReadTwice(a: string, end: char, b: string, isHeader: string -> bool)
    requires Checksums.IsPythonLineEnd(end) && AreWhole([a, b])
    requires IsRecord(a, isHeader) && IsRecord(b, isHeader)
    ensures Yield(a + [end] + b, isHeader) == [a, b]
  {
    assert a in [a, b] && b in [a, b];
    YieldAcrossLineEnd(a, end, b, isHeader);
    LineYieldsItself(a, isHeader);
    LineYieldsItself(b, isHeader);
  }

  /** A line of no-break spaces is reported and never read: one side calls it blank, the other does not. */
  lemma {:induction false} NoBreakSpaceIsNotRead(isHeader: string -> bool)
    ensures IsReadable("\U{A0}") && Yield("\U{A0}", isHeader) == []
  {
    var line := "\U{A0}";
    assert forall i | 0 <= i < |line| :: line[i] == '\U{A0}';
    assert !Text.IsWhitespace(line[0]);
    assert !IsRecord(line, isHeader) && Checksums.Free(line, Checksums.IsPythonLineEnd);
    LineYieldsItself(line, isHeader);
  }
}
