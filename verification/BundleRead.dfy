/**
 * The bundle as it travels and as the file processor takes it apart: members found by name, checked
 * against the manifest, and the data files read in the order of their sorted names.
 */
module BundleRead {
  import opened Collections
  import opened Names
  import opened Extract
  import Checksums
  import Digits

  // ---- what is in the bundle ------------------------------------------------------------------

  function NameIn(record: string): nat -> string {
    (n: nat) => DatName(record, n)
  }

  /** The data files, then the error list, the manifest and the report. */
  function Bundle(record: string, files: seq<seq<string>>, err: string, chs: string, rpt: string): map<string, string> {
    BundleOf(files, NameIn(record))[record + ".ERR" := err][record + ".CHS" := chs][record + ".RPT" := rpt]
  }

  function OtherNames(record: string): set<string> {
    {record + ".ERR", record + ".CHS", record + ".RPT"}
  }

  predicate IsDat(name: string) {
    |name| >= 4 && name[|name| - 4..] == ".DAT"
  }

  function DatFiles(bundle: map<string, string>): set<string> {
    set name | name in bundle && IsDat(name)
  }

  predicate HasFile(bundle: map<string, string>, record: string, file: seq<string>, sequence: nat) {
    DatName(record, sequence) in bundle && bundle[DatName(record, sequence)] == Payload(file)
  }

  predicate HasFiles(bundle: map<string, string>, record: string, files: seq<seq<string>>) {
    forall i | 0 <= i < |files| :: HasFile(bundle, record, files[i], i + 1)
  }

  lemma {:induction false} OneMoreFile(bundle: map<string, string>, record: string, files: seq<seq<string>>,
                                       file: seq<string>)
    requires HasFiles(bundle, record, files)
    ensures HasFiles(bundle[DatName(record, |files| + 1) := Payload(file)], record, files + [file])
  {
    var longer := bundle[DatName(record, |files| + 1) := Payload(file)];
    forall i | 0 <= i < |files| ensures HasFile(longer, record, files[i], i + 1) {
      assert HasFile(bundle, record, files[i], i + 1);
      NamesDiffer(record, i + 1, |files| + 1);
    }
  }

  lemma {:induction false} NamesNext(record: string, n: nat)
    ensures DatNames(record, n + 1) == DatNames(record, n) + [DatName(record, n + 1)]
    ensures Elements(DatNames(record, n + 1)) == Elements(DatNames(record, n)) + {DatName(record, n + 1)}
  {
    ElementsNext(DatNames(record, n), DatName(record, n + 1));
    assert DatNames(record, n + 1) == DatNames(record, n) + [DatName(record, n + 1)];
  }

  lemma {:induction false} DataFilesByName(record: string, files: seq<seq<string>>)
    ensures BundleOf(files, NameIn(record)).Keys == Elements(DatNames(record, |files|))
    ensures HasFiles(BundleOf(files, NameIn(record)), record, files)
  {
    if files != [] {
      var n := |files| - 1;
      var others := BundleOf(files[..n], NameIn(record));
      DataFilesByName(record, files[..n]);
      OneMoreFile(others, record, files[..n], files[n]);
      assert files[..n] + [files[n]] == files;
      NamesNext(record, n);
      assert BundleOf(files, NameIn(record)) == others[DatName(record, n + 1) := Payload(files[n])];
    }
  }

  lemma {:induction false} DataFilesAlone(record: string, files: seq<seq<string>>)
    ensures var b := BundleOf(files, NameIn(record));
            HasFiles(b, record, files) && b.Keys == DatFiles(b) == Elements(DatNames(record, |files|))
  {
    DataFilesByName(record, files);
  }

  /** The data files are found by their ending, and each under its sequence number. */
  lemma {:induction false} BundleMembers(record: string, files: seq<seq<string>>, err: string, chs: string, rpt: string)
    ensures var b := Bundle(record, files, err, chs, rpt);
            && DatFiles(b) == Elements(DatNames(record, |files|)) && HasFiles(b, record, files)
            && b.Keys == DatFiles(b) + OtherNames(record) && DatFiles(b) !! OtherNames(record)
            && b[record + ".CHS"] == chs
  {
    var b := BundleOf(files, NameIn(record));
    DataFilesAlone(record, files);
    assert b.Keys == DatFiles(b);
  }

  // ---- reading --------------------------------------------------------------------------------

  function MemberYield(bundle: map<string, string>, name: string, isHeader: string -> bool): seq<string> {
    if name in bundle then Yield(bundle[name], isHeader) else []
  }

  function ReadInOrder(bundle: map<string, string>, order: seq<string>, isHeader: string -> bool): seq<string> {
    if order == [] then []
    else ReadInOrder(bundle, order[..|order| - 1], isHeader) + MemberYield(bundle, order[|order| - 1], isHeader)
  }

  /** A record and the file it was read from. */
  datatype Sourced = Sourced(file: string, line: string)

  function From(name: string, lines: seq<string>): (sourced: seq<Sourced>)
    ensures |sourced| == |lines|
  {
    seq(|lines|, i requires 0 <= i < |lines| => Sourced(name, lines[i]))
  }

  function SourcedInOrder(bundle: map<string, string>, order: seq<string>, isHeader: string -> bool): seq<Sourced> {
    if order == [] then []
    else
      SourcedInOrder(bundle, order[..|order| - 1], isHeader) +
      From(order[|order| - 1], MemberYield(bundle, order[|order| - 1], isHeader))
  }

  function LinesOf(sourced: seq<Sourced>): (lines: seq<string>)
    ensures |lines| == |sourced|
  {
    seq(|sourced|, i requires 0 <= i < |sourced| => sourced[i].line)
  }

  /** The records that name this file as their source, in order. */
  function ReadFrom(sourced: seq<Sourced>, file: string): seq<string> {
    if sourced == [] then []
    else
      var last := sourced[|sourced| - 1];
      ReadFrom(sourced[..|sourced| - 1], file) + (if last.file == file then [last.line] else [])
  }

  lemma {:induction false} ReadFromBoth(a: seq<Sourced>, b: seq<Sourced>, file: string)
    ensures ReadFrom(a + b, file) == ReadFrom(a, file) + ReadFrom(b, file)
    decreases |b|
  {
    if b == [] {
      assert a + b == a;
    } else {
      assert (a + b)[..|a + b| - 1] == a + b[..|b| - 1];
      ReadFromBoth(a, b[..|b| - 1], file);
    }
  }

  lemma {:induction false} ReadFromOne(name: string, lines: seq<string>, file: string)
    ensures ReadFrom(From(name, lines), file) == if file == name then lines else []
  {
    if lines != [] {
      var n := |lines| - 1;
      ReadFromOne(name, lines[..n], file);
      assert From(name, lines)[..n] == From(name, lines[..n]);
    }
  }

  /** Naming the files changes nothing about the lines and their order. */
  lemma {:induction false} LinesAreReadInOrder(bundle: map<string, string>, order: seq<string>,
                                               isHeader: string -> bool)
    ensures LinesOf(SourcedInOrder(bundle, order, isHeader)) == ReadInOrder(bundle, order, isHeader)
  {
    if order != [] {
      var before, name := order[..|order| - 1], order[|order| - 1];
      LinesAreReadInOrder(bundle, before, isHeader);
    }
  }

  /** Each record names the file it stands in: none of a file's records is lost, and none foreign to it named. */
  lemma {:induction false} RecordsNameTheirFile(bundle: map<string, string>, order: seq<string>, file: string,
                                                isHeader: string -> bool)
    requires Distinct(order)
    ensures ReadFrom(SourcedInOrder(bundle, order, isHeader), file)
         == if file in order then MemberYield(bundle, file, isHeader) else []
  {
    if order != [] {
      var before, name := order[..|order| - 1], order[|order| - 1];
      RecordsNameTheirFile(bundle, before, file, isHeader);
      var lines := MemberYield(bundle, name, isHeader);
      ReadFromBoth(SourcedInOrder(bundle, before, isHeader), From(name, lines), file);
      ReadFromOne(name, lines, file);
    }
  }

  /** The data files one after the other, in the order their names sort in. */
  method ReadBundle(bundle: map<string, string>, isHeader: string -> bool)
    returns (read: seq<Sourced>, srcRead: nat, order: seq<string>)
    ensures IsSorted(order) && Elements(order) == DatFiles(bundle)
    ensures read == SourcedInOrder(bundle, order, isHeader) && srcRead == |read|
  {
    order := Sort(DatFiles(bundle));
    read, srcRead := [], 0;
    for i := 0 to |order|
      invariant read == SourcedInOrder(bundle, order[..i], isHeader) && srcRead == |read|
    {
      assert order[i] in Elements(order) && order[..i + 1][..i] == order[..i];
      var records := ReadFile(order[i], bundle[order[i]], isHeader);
      srcRead := srcRead + |records|;
      read := read + records;
    }
    assert order[..|order|] == order;
  }

  method ReadFile(name: string, payload: string, isHeader: string -> bool) returns (records: seq<Sourced>)
    ensures records == From(name, Yield(payload, isHeader))
  {
    var lines := PythonLines(payload);
    records := [];
    for j := 0 to |lines|
      invariant records == From(name, Records(lines[..j], isHeader))
    {
      assert lines[..j + 1][..j] == lines[..j];
      if IsRecord(lines[j], isHeader) {
        records := records + [Sourced(name, lines[j])];
      }
    }
    assert lines[..|lines|] == lines;
  }

  lemma {:induction false} ReadBoth(bundle: map<string, string>, a: seq<string>, b: seq<string>,
                                    isHeader: string -> bool)
    ensures ReadInOrder(bundle, a + b, isHeader) == ReadInOrder(bundle, a, isHeader) + ReadInOrder(bundle, b, isHeader)
    decreases |b|
  {
    if b == [] {
      assert a + b == a;
    } else {
      var most, last := b[..|b| - 1], b[|b| - 1];
      assert (a + b)[..|a + b| - 1] == a + most && (a + b)[|a + b| - 1] == last;
      ReadBoth(bundle, a, most, isHeader);
      Associative(ReadInOrder(bundle, a, isHeader), ReadInOrder(bundle, most, isHeader),
                  MemberYield(bundle, last, isHeader));
    }
  }

  lemma {:induction false} ReadTakesOut(bundle: map<string, string>, order: seq<string>, i: nat,
                                        isHeader: string -> bool)
    requires i < |order|
    ensures multiset(ReadInOrder(bundle, order, isHeader))
         == multiset(ReadInOrder(bundle, Without(order, i), isHeader))
            + multiset(MemberYield(bundle, order[i], isHeader))
  {
    var before, after := order[..i], order[i + 1..];
    assert order == before + [order[i]] + after;
    ReadBoth(bundle, before + [order[i]], after, isHeader);
    ReadBoth(bundle, before, [order[i]], isHeader);
    ReadBoth(bundle, before, after, isHeader);
  }

  /** In whatever order the files are gone through, the same records come out of them. */
  lemma {:induction false} OrderIsImmaterial(bundle: map<string, string>, a: seq<string>, b: seq<string>,
                                             isHeader: string -> bool)
    requires multiset(a) == multiset(b)
    ensures multiset(ReadInOrder(bundle, a, isHeader)) == multiset(ReadInOrder(bundle, b, isHeader))
    decreases |a|
  {
    if a == [] {
      assert |multiset(b)| == 0;
    } else {
      var n := |a| - 1;
      assert a[n] in multiset(b);
      var i :| 0 <= i < |b| && b[i] == a[n];
      TakeOutBoth(a, n, b, i);
      assert Without(a, n) == a[..n];
      ReadTakesOut(bundle, a, n, isHeader);
      ReadTakesOut(bundle, b, i, isHeader);
      OrderIsImmaterial(bundle, Without(a, n), Without(b, i), isHeader);
    }
  }

  lemma {:induction false} NextFileReads(bundle: map<string, string>, record: string, n: nat, k: nat, file: seq<string>,
                                         isHeader: string -> bool)
    requires 0 < k <= n && HasFile(bundle, record, file, k)
    ensures ReadInOrder(bundle, DatNames(record, n)[..k], isHeader)
         == ReadInOrder(bundle, DatNames(record, n)[..k - 1], isHeader) + Yields(file, isHeader)
  {
    var names := DatNames(record, n);
    assert names[..k] == names[..k - 1] + [DatName(record, k)];
    ReadBoth(bundle, names[..k - 1], [DatName(record, k)], isHeader);
    FileReadsBack(file, isHeader);
  }

  /** In sequence order the first k files read as their lines do, one by one. */
  lemma {:induction false} SequenceReadsBack(bundle: map<string, string>, record: string, files: seq<seq<string>>,
                                             k: nat, isHeader: string -> bool)
    requires HasFiles(bundle, record, files) && k <= |files|
    ensures ReadInOrder(bundle, DatNames(record, |files|)[..k], isHeader) == Yields(Flatten(files[..k]), isHeader)
    decreases k
  {
    if k > 0 {
      SequenceReadsBack(bundle, record, files, k - 1, isHeader);
      assert HasFile(bundle, record, files[k - 1], k);
      NextFileReads(bundle, record, |files|, k, files[k - 1], isHeader);
      FlattenNext(files, k - 1);
      YieldsOfBoth(Flatten(files[..k - 1]), files[k - 1], isHeader);
    }
  }

  /** The order `ReadBundle` goes through. */
  predicate IsReadOrder(order: seq<string>, bundle: map<string, string>) {
    IsSorted(order) && Elements(order) == DatFiles(bundle)
  }

  lemma {:induction false} NamesAreDistinct(record: string, n: nat)
    ensures Distinct(DatNames(record, n))
  {
    forall i, j | 0 <= i < j < n ensures DatNames(record, n)[i] != DatNames(record, n)[j] {
      NamesDiffer(record, i + 1, j + 1);
    }
  }

  lemma {:induction false} OrderPermutesSequence(order: seq<string>, record: string, n: nat)
    requires IsSorted(order) && Elements(order) == Elements(DatNames(record, n))
    ensures multiset(order) == multiset(DatNames(record, n)) && |order| == n
    ensures order == DatNames(record, n) <==> n <= 999
  {
    SortedIsDistinct(order);
    NamesAreDistinct(record, n);
    DistinctIsItsSet(order);
    DistinctIsItsSet(DatNames(record, n));
    assert |order| == |multiset(order)| == |multiset(DatNames(record, n))|;
    SequenceIsSortedExactly(record, n);
    if n <= 999 {
      SortedIsUnique(order, DatNames(record, n));
    }
  }

  /**
   * However the extract was split, downstream reads exactly what its lines yield one by one, as many
   * of each; in their order while every sequence number fits the width of the names.
   */
  lemma {:induction false} BundleReadsBack(bundle: map<string, string>, record: string, files: seq<seq<string>>,
                                           order: seq<string>, isHeader: string -> bool)
    requires HasFiles(bundle, record, files) && DatFiles(bundle) == Elements(DatNames(record, |files|))
    requires IsReadOrder(order, bundle)
    ensures var read := ReadInOrder(bundle, order, isHeader);
            && multiset(read) == multiset(Yields(Flatten(files), isHeader))
            && |read| == |Yields(Flatten(files), isHeader)|
            && (|files| <= 999 ==> read == Yields(Flatten(files), isHeader))
  {
    var names, read := DatNames(record, |files|), ReadInOrder(bundle, order, isHeader);
    OrderPermutesSequence(order, record, |files|);
    OrderIsImmaterial(bundle, order, names, isHeader);
    SequenceReadsBack(bundle, record, files, |files|, isHeader);
    assert names[..|files|] == names && files[..|files|] == files;
    assert |read| == |multiset(read)| == |multiset(Yields(Flatten(files), isHeader))|;
  }

  /**
   * The reader's `src_read` and records against the extractor's: the same records exactly when no
   * line is broken up downstream and each is a record there too. Short of that, whole lines at least
   * are never read twice.
   */
  lemma {:induction false} SourceReadIsReported(bundle: map<string, string>, record: string, lines: seq<string>,
                                                inject: int, files: seq<seq<string>>, order: seq<string>,
                                                isHeader: string -> bool)
    requires HasFiles(bundle, record, files) && DatFiles(bundle) == Elements(DatNames(record, |files|))
    requires IsReadOrder(order, bundle) && Flatten(files) == Kept(lines, inject)
    ensures var read, kept := ReadInOrder(bundle, order, isHeader), Kept(lines, inject);
            && (multiset(read) == multiset(kept) <==> ArriveAsRecords(kept, isHeader))
            && (|files| <= 999 ==> (read == kept <==> ArriveAsRecords(kept, isHeader)))
            && (AreWhole(kept) ==> |read| <= |kept| && (|read| == |kept| <==> ArriveAsRecords(kept, isHeader)))
  {
    var kept := Kept(lines, inject);
    BundleReadsBack(bundle, record, files, order, isHeader);
    LinesArriveExactly(kept, isHeader);
    if AreWhole(kept) {
      AllArriveExactly(kept, isHeader);
    }
  }

  // ---- when the order is lost -----------------------------------------------------------------

  /** Files of different lines, each a record to the reader: one can tell from what is read where it came from. */
  predicate IsTelling(files: seq<seq<string>>, isHeader: string -> bool) {
    && (forall i | 0 <= i < |files| :: files[i] != [])
    && Distinct(Flatten(files)) && ArriveAsRecords(Flatten(files), isHeader)
  }

  lemma {:induction false} FirstLineOfFile(bundle: map<string, string>, record: string, files: seq<seq<string>>, j: nat,
                                           isHeader: string -> bool)
    requires HasFiles(bundle, record, files) && IsTelling(files, isHeader) && j < |files|
    ensures var records := MemberYield(bundle, DatName(record, j + 1), isHeader);
            records != [] && records[0] == files[j][0]
  {
    assert HasFile(bundle, record, files[j], j + 1);
    FileReadsBack(files[j], isHeader);
    FlattenNext(files, j);
    assert files == files[..j + 1] + files[j + 1..];
    FlattenAppend(files[..j + 1], files[j + 1..]);
    assert forall line | line in files[j] :: line in Flatten(files);
    LinesArriveExactly(files[j], isHeader);
  }

  lemma {:induction false} FirstLinesDiffer(files: seq<seq<string>>, j: nat, k: nat)
    requires j < |files| && k < |files| && j != k && files[j] != [] && files[k] != [] && Distinct(Flatten(files))
    ensures files[j][0] != files[k][0]
  {
    FlattenAt(files, j);
    FlattenAt(files, k);
    if j < k {
      FlattenGrows(files, j, k);
    } else {
      FlattenGrows(files, k, j);
    }
  }

  lemma {:induction false} PrefixIsKept(bundle: map<string, string>, record: string, files: seq<seq<string>>, k: nat,
                                        isHeader: string -> bool)
    requires HasFiles(bundle, record, files) && IsTelling(files, isHeader) && k <= |files|
    ensures ReadInOrder(bundle, DatNames(record, |files|)[..k], isHeader) == Flatten(files[..k])
  {
    SequenceReadsBack(bundle, record, files, k, isHeader);
    FlattenSplits(files, k);
    LinesArriveExactly(Flatten(files[..k]), isHeader);
  }

  lemma {:induction false} FirstRecordAt(bundle: map<string, string>, order: seq<string>, k: nat,
                                         isHeader: string -> bool)
    requires k < |order| && MemberYield(bundle, order[k], isHeader) != []
    ensures var at := |ReadInOrder(bundle, order[..k], isHeader)|;
            && at < |ReadInOrder(bundle, order, isHeader)|
            && ReadInOrder(bundle, order, isHeader)[at] == MemberYield(bundle, order[k], isHeader)[0]
  {
    var before, after := order[..k], order[k + 1..];
    assert order == before + ([order[k]] + after);
    ReadBoth(bundle, before, [order[k]] + after, isHeader);
    ReadBoth(bundle, [order[k]], after, isHeader);
  }

  /** Where the read order first leaves the sequence, a record of another file comes out. */
  lemma {:induction false} OrderShows(bundle: map<string, string>, record: string, files: seq<seq<string>>,
                                      order: seq<string>, k: nat, isHeader: string -> bool)
    requires HasFiles(bundle, record, files) && IsTelling(files, isHeader)
    requires |order| == |files| && multiset(order) == multiset(DatNames(record, |files|))
    requires k < |files| && order[..k] == DatNames(record, |files|)[..k] && order[k] != DatName(record, k + 1)
    ensures ReadInOrder(bundle, order, isHeader) != Flatten(files)
  {
    var j := FileAt(order, record, |files|, k);
    var at := |Flatten(files[..k])|;
    PrefixIsKept(bundle, record, files, k, isHeader);
    FirstLineOfFile(bundle, record, files, j, isHeader);
    FirstRecordAt(bundle, order, k, isHeader);
    assert ReadInOrder(bundle, order, isHeader)[at] == files[j][0];
    FlattenAt(files, k);
    FirstLinesDiffer(files, j, k);
  }

  lemma {:induction false} FileAt(order: seq<string>, record: string, n: nat, k: nat) returns (j: nat)
    requires |order| == n && multiset(order) == multiset(DatNames(record, n)) && k < n
    ensures j < n && order[k] == DatName(record, j + 1)
  {
    assert order[k] in multiset(DatNames(record, n));
    j :| j < n && DatNames(record, n)[j] == order[k];
  }

  /** For such files the extract comes out in its order exactly when there are fewer than a thousand. */
  lemma {:induction false} OrderIsKeptExactly(bundle: map<string, string>, record: string, files: seq<seq<string>>,
                                              order: seq<string>, isHeader: string -> bool)
    requires HasFiles(bundle, record, files) && DatFiles(bundle) == Elements(DatNames(record, |files|))
    requires IsReadOrder(order, bundle) && IsTelling(files, isHeader)
    ensures ReadInOrder(bundle, order, isHeader) == Flatten(files) <==> |files| <= 999
  {
    OrderPermutesSequence(order, record, |files|);
    if |files| <= 999 {
      BundleReadsBack(bundle, record, files, order, isHeader);
      LinesArriveExactly(Flatten(files), isHeader);
    } else {
      var k := FirstDifference(order, DatNames(record, |files|));
      OrderShows(bundle, record, files, order, k, isHeader);
    }
  }

  function Numerals(n: nat): (files: seq<seq<string>>)
    ensures |files| == n
  {
    seq(n, i requires 0 <= i < n => [Digits.Print(i)])
  }

  lemma {:induction false} FlattenNumerals(n: nat)
    ensures Flatten(Numerals(n)) == seq(n, i requires 0 <= i < n => Digits.Print(i))
  {
    if n > 0 {
      FlattenNumerals(n - 1);
      assert Numerals(n)[..n - 1] == Numerals(n - 1);
    }
  }

  lemma {:induction false} NumeralsAreTelling(n: nat)
    ensures IsTelling(Numerals(n), _ => false)
  {
    FlattenNumerals(n);
    var lines := Flatten(Numerals(n));
    forall i, j | 0 <= i < j < n ensures lines[i] != lines[j] {
      Digits.ValueInvertsPrint(i);
      Digits.ValueInvertsPrint(j);
    }
    forall i | 0 <= i < n
      ensures Checksums.Free(lines[i], Checksums.IsPythonLineEnd) && IsRecord(lines[i], _ => false)
    {
      assert !Checksums.IsPythonSpace(lines[i][0]);
    }
  }

  /** One thousand one-line files: the extractor's bundle is read with lines out of order. */
  lemma {:induction false} ThousandFilesLoseTheirOrder(record: string, err: string, chs: string, rpt: string,
                                                       order: seq<string>)
    requires IsReadOrder(order, Bundle(record, Numerals(1000), err, chs, rpt))
    ensures ReadInOrder(Bundle(record, Numerals(1000), err, chs, rpt), order, _ => false) != Flatten(Numerals(1000))
    ensures multiset(ReadInOrder(Bundle(record, Numerals(1000), err, chs, rpt), order, _ => false))
         == multiset(Flatten(Numerals(1000)))
  {
    var bundle := Bundle(record, Numerals(1000), err, chs, rpt);
    BundleMembers(record, Numerals(1000), err, chs, rpt);
    NumeralsAreTelling(1000);
    OrderIsKeptExactly(bundle, record, Numerals(1000), order, _ => false);
    BundleReadsBack(bundle, record, Numerals(1000), order, _ => false);
    LinesArriveExactly(Flatten(Numerals(1000)), _ => false);
  }

  // ---- checking -------------------------------------------------------------------------------

  /** What the file processor checks before it trusts a record: nothing is said of members not listed. */
  predicate Trusts(manifest: map<string, Checksums.Entry>, bundle: map<string, string>, digest: string -> string) {
    forall name | name in manifest ::
      && name in bundle && digest(bundle[name]) == manifest[name].sha256
      && Checksums.RecordCount(bundle[name]) == manifest[name].records
  }

  /** What the check objects to: a listed file that is absent, changed, or of another length than listed. */
  lemma {:induction false} DistrustedExactly(manifest: map<string, Checksums.Entry>, bundle: map<string, string>,
                                             digest: string -> string)
    ensures !Trusts(manifest, bundle, digest) <==>
              exists name :: name in manifest &&
                (name !in bundle || digest(bundle[name]) != manifest[name].sha256
                 || Checksums.RecordCount(bundle[name]) != manifest[name].records)
  {
  }

  /** The manifest lists the data files, each as it is, and none of the other members. */
  lemma {:induction false} ManifestListsData(record: string, files: seq<seq<string>>, err: string, chs: string,
                                             rpt: string, digest: string -> string)
    ensures var manifest := Checksums.Manifest(EntriesFor(files, digest, NameIn(record)));
            manifest.Keys == DatFiles(Bundle(record, files, err, chs, rpt))
            && Trusts(manifest, Bundle(record, files, err, chs, rpt), digest)
  {
    var manifest := Checksums.Manifest(EntriesFor(files, digest, NameIn(record)));
    var data := BundleOf(files, NameIn(record));
    BundleMatchesEntries(files, digest, NameIn(record));
    BundleMembers(record, files, err, chs, rpt);
    DataFilesByName(record, files);
    assert manifest.Keys == data.Keys;
    assert forall name | name in manifest :: name in DatNames(record, |files|);
  }

  /** A bundle as the extractor made it, read with its own manifest, is trusted by the file processor. */
  lemma {:induction false} BundleIsTrusted(record: string, run: string, files: seq<seq<string>>, err: string,
                                           rpt: string, digest: string -> string)
    requires Checksums.Free(run, Checksums.PYTHON.isLineEnd)
    requires Checksums.ArePlain(EntriesFor(files, digest, NameIn(record)))
    ensures var entries := EntriesFor(files, digest, NameIn(record));
            var chs := Checksums.Unlines(Checksums.Header(run) + Checksums.EntryLines(entries));
            var bundle := Bundle(record, files, err, chs, rpt);
            var read := Checksums.ReadLines(Checksums.PYTHON, PythonLines(bundle[record + ".CHS"]));
            read.Some? && read.value.Keys == DatFiles(bundle) && Trusts(read.value, bundle, digest)
  {
    var entries := EntriesFor(files, digest, NameIn(record));
    var chs := Checksums.Unlines(Checksums.Header(run) + Checksums.EntryLines(entries));
    Checksums.BothReadPlainly();
    Checksums.ReadingInvertsRendering(Checksums.PYTHON, run, entries);
    BundleMembers(record, files, err, chs, rpt);
    ManifestListsData(record, files, err, chs, rpt, digest);
  }

  /** Held against the whole bundle, Java's `verify` would report the three other members and nothing else. */
  lemma {:induction false} OnlyOtherMembersUnlisted(record: string, files: seq<seq<string>>, err: string, chs: string,
                                                    rpt: string, digest: string -> string, p: Checksums.Problem)
    ensures var manifest := Checksums.Manifest(EntriesFor(files, digest, NameIn(record)));
            Checksums.Applies(p, manifest, Bundle(record, files, err, chs, rpt), digest)
            <==> p.NotListed? && p.name in OtherNames(record)
  {
    ManifestListsData(record, files, err, chs, rpt, digest);
    BundleMembers(record, files, err, chs, rpt);
  }
}
