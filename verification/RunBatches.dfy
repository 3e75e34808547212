/**
 * The in-memory engine: each line is parsed, mapped and validated in that order, and the outcomes
 * are streamed out in batches that close on the number of documents, not of lines.
 */
module RunBatches {
  import opened Wrappers
  import opened Collections
  import opened Doors
  import opened Arithmetic

  datatype Stage = Parse | Map | Schema

  datatype Fault = Fault(reason: string, detail: string)

  type Fields = map<string, string>

  datatype Router = Router(
    run: string,
    rstrip: string -> string,
    isBlank: string -> bool,
    isHeader: string -> bool,
    parse: string -> Result<Fields, Fault>,
    sourceKey: Fields -> string,
    mapRecord: (Fields, string) -> Result<string, Fault>,
    validate: string -> Option<Fault>)

  datatype Reject = Reject(run: string, batch: nat, sourceKey: string, stage: Stage, reason: string, detail: string,
                           raw: string)

  datatype Outcome = Migrated(document: string) | NotMigrated(reject: Reject)

  function Route(r: Router, raw: string, batch: nat): Outcome {
    match r.parse(raw)
    case Err(f) => NotMigrated(Reject(r.run, batch, "", Parse, f.reason, f.detail, raw))
    case Ok(fields) =>
      match r.mapRecord(fields, r.run)
      case Err(f) => NotMigrated(Reject(r.run, batch, r.sourceKey(fields), Map, f.reason, f.detail, raw))
      case Ok(document) =>
        match r.validate(document)
        case Some(f) => NotMigrated(Reject(r.run, batch, r.sourceKey(fields), Schema, f.reason, f.detail, raw))
        case None => Migrated(document)
  }

  function DoorOf(o: Outcome): Door {
    match o
    case Migrated(_) => Written
    case NotMigrated(reject) => Rejected(reject.reason)
  }

  /** Which batch a record is routed in shows in its reject and nowhere else. */
  lemma {:induction false} BatchOnlyStamps(r: Router, raw: string, b: nat, c: nat)
    ensures DoorOf(Route(r, raw, b)) == DoorOf(Route(r, raw, c))
    ensures Route(r, raw, b).Migrated? ==> Route(r, raw, b) == Route(r, raw, c)
  {
  }

  /** The lines that are records at all, without their line ends. */
  function Records(r: Router, lines: seq<string>): seq<string> {
    if lines == [] then []
    else
      var raw := r.rstrip(lines[|lines| - 1]);
      Records(r, lines[..|lines| - 1]) + (if r.isBlank(raw) || r.isHeader(raw) then [] else [raw])
  }

  function DoorsOf(r: Router, records: seq<string>): seq<Door> {
    seq(|records|, i requires 0 <= i < |records| => DoorOf(Route(r, records[i], 0)))
  }

  function Survivors(r: Router, records: seq<string>): seq<string> {
    if records == [] then []
    else
      var o := Route(r, records[|records| - 1], 0);
      Survivors(r, records[..|records| - 1]) + (if o.Migrated? then [o.document] else [])
  }

  function RejectsIn(r: Router, records: seq<string>, batch: nat): seq<Reject> {
    if records == [] then []
    else
      var o := Route(r, records[|records| - 1], batch);
      RejectsIn(r, records[..|records| - 1], batch) + (if o.NotMigrated? then [o.reject] else [])
  }

  // ---- who survives and who does not, said of the engine alone --------------------------------

  lemma {:induction false} OneMoreRecord(records: seq<string>)
    requires records != []
    ensures forall raw :: raw in records <==> raw in records[..|records| - 1] || raw == records[|records| - 1]
  {
    assert records == records[..|records| - 1] + [records[|records| - 1]];
  }

  /** Records are the lines without their ends that are neither blank nor the header. */
  lemma {:induction false} RecordsExactly(r: Router, lines: seq<string>, raw: string)
    ensures raw in Records(r, lines) <==>
              !r.isBlank(raw) && !r.isHeader(raw) && exists line :: line in lines && raw == r.rstrip(line)
  {
    if lines != [] {
      RecordsExactly(r, lines[..|lines| - 1], raw);
      OneMoreRecord(lines);
    }
  }

  /** Documents are what some record parses and maps to, validated; no others. */
  lemma {:induction false} SurvivorsExactly(r: Router, records: seq<string>, document: string)
    ensures document in Survivors(r, records) <==>
              exists raw :: raw in records && r.parse(raw).Ok?
                && r.mapRecord(r.parse(raw).value, r.run) == Ok(document) && r.validate(document).None?
  {
    if records != [] {
      SurvivorsExactly(r, records[..|records| - 1], document);
      OneMoreRecord(records);
    }
  }

  /** The record is refused at this stage, with this fault, under this source key. */
  predicate IsRefused(r: Router, raw: string, stage: Stage, sourceKey: string, f: Fault) {
    match r.parse(raw)
    case Err(fault) => stage == Parse && sourceKey == "" && f == fault
    case Ok(fields) =>
      && sourceKey == r.sourceKey(fields)
      && (|| (stage == Map && r.mapRecord(fields, r.run) == Err(f))
          || (stage == Schema && r.mapRecord(fields, r.run).Ok?
              && r.validate(r.mapRecord(fields, r.run).value) == Some(f)))
  }

  /** Rejects are the records refused, each with its fault, its own line and the batch it was read in. */
  lemma {:induction false} RejectsExactly(r: Router, records: seq<string>, batch: nat, reject: Reject)
    ensures reject in RejectsIn(r, records, batch) <==>
              && reject.run == r.run && reject.batch == batch && reject.raw in records
              && IsRefused(r, reject.raw, reject.stage, reject.sourceKey, Fault(reject.reason, reject.detail))
  {
    if records != [] {
      RejectsExactly(r, records[..|records| - 1], batch, reject);
      OneMoreRecord(records);
    }
  }

  function ReasonsOf(rejects: seq<Reject>): (reasons: seq<string>)
    ensures |reasons| == |rejects|
  {
    seq(|rejects|, i requires 0 <= i < |rejects| => rejects[i].reason)
  }

  /** The counters list each reason as often as rejects give it. */
  lemma {:induction false} ReasonsAreCounted(r: Router, records: seq<string>, batch: nat, reason: string)
    ensures var t, given := TallyOf(DoorsOf(r, records)), multiset(ReasonsOf(RejectsIn(r, records, batch)));
            && (reason in t.byReason <==> reason in given)
            && (reason in t.byReason ==> t.byReason[reason] == given[reason])
  {
    TallyCountsExactly(DoorsOf(r, records), reason);
    DoorsMatchRejects(r, records, batch, reason);
  }

  lemma {:induction false} DoorsMatchRejects(r: Router, records: seq<string>, batch: nat, reason: string)
    ensures multiset(DoorsOf(r, records))[Rejected(reason)]
         == multiset(ReasonsOf(RejectsIn(r, records, batch)))[reason]
  {
    if records != [] {
      var n := |records| - 1;
      DoorsMatchRejects(r, records[..n], batch, reason);
      BatchOnlyStamps(r, records[n], 0, batch);
      LastDoor(r, records);
      LastReason(r, records, batch);
    }
  }

  lemma {:induction false} LastDoor(r: Router, records: seq<string>)
    requires records != []
    ensures var n := |records| - 1;
            multiset(DoorsOf(r, records))
              == multiset(DoorsOf(r, records[..n])) + multiset{DoorOf(Route(r, records[n], 0))}
  {
    var n := |records| - 1;
    assert DoorsOf(r, records) == DoorsOf(r, records[..n]) + [DoorOf(Route(r, records[n], 0))];
  }

  lemma {:induction false} LastReason(r: Router, records: seq<string>, batch: nat)
    requires records != []
    ensures var n := |records| - 1;
            var before, o := RejectsIn(r, records[..n], batch), Route(r, records[n], batch);
            multiset(ReasonsOf(RejectsIn(r, records, batch)))
              == multiset(ReasonsOf(before)) + (if o.Migrated? then multiset{} else multiset{o.reject.reason})
  {
    var n := |records| - 1;
    var before, o := RejectsIn(r, records[..n], batch), Route(r, records[n], batch);
    assert o.NotMigrated? ==> ReasonsOf(before + [o.reject]) == ReasonsOf(before) + [o.reject.reason];
    assert o.Migrated? ==> RejectsIn(r, records, batch) == before;
  }

  datatype BatchResult = BatchResult(id: nat, counters: Tally, documents: seq<string>, rejects: seq<Reject>)

  /** What a batch made of this stretch of records must say. */
  function ResultFor(r: Router, id: nat, records: seq<string>): BatchResult {
    BatchResult(id, TallyOf(DoorsOf(r, records)), Survivors(r, records), RejectsIn(r, records, id))
  }

  lemma {:induction false} StretchAddsUp(r: Router, records: seq<string>, batch: nat)
    ensures var t := TallyOf(DoorsOf(r, records));
            && t.written == |Survivors(r, records)| && t.rejected == |RejectsIn(r, records, batch)|
            && t.srcRead == |records|
    ensures forall reject | reject in RejectsIn(r, records, batch) :: reject.batch == batch && reject.run == r.run
  {
    if records != [] {
      var before := records[..|records| - 1];
      StretchAddsUp(r, before, batch);
      BatchOnlyStamps(r, records[|records| - 1], 0, batch);
      assert DoorsOf(r, records)[..|records| - 1] == DoorsOf(r, before);
    }
  }

  /** Every batch balances, its reasons add up to its rejects, and its rejects carry its id. */
  lemma {:induction false} BatchBalances(r: Router, id: nat, records: seq<string>)
    ensures var b := ResultFor(r, id, records);
            && Sound(b.counters) && b.counters.written == |b.documents| && b.counters.rejected == |b.rejects|
            && forall reject | reject in b.rejects :: reject.batch == id
  {
    StretchAddsUp(r, records, id);
    TallyIsSound(DoorsOf(r, records));
  }

  lemma {:induction false} SurvivorsConcat(r: Router, a: seq<string>, b: seq<string>)
    ensures Survivors(r, a + b) == Survivors(r, a) + Survivors(r, b)
    decreases |b|
  {
    if b == [] {
      assert a + b == a;
    } else {
      assert (a + b)[..|a + b| - 1] == a + b[..|b| - 1];
      SurvivorsConcat(r, a, b[..|b| - 1]);
    }
  }

  // ---- the shape of a batching ----------------------------------------------------------------

  function DocumentsOf(batches: seq<BatchResult>): seq<string> {
    if batches == [] then [] else DocumentsOf(batches[..|batches| - 1]) + batches[|batches| - 1].documents
  }

  function CountersOf(batches: seq<BatchResult>): seq<Tally> {
    seq(|batches|, i requires 0 <= i < |batches| => batches[i].counters)
  }

  predicate Closes(r: Router, stretch: seq<string>, size: nat) {
    && stretch != [] && |Survivors(r, stretch)| == size
    && Route(r, stretch[|stretch| - 1], 0).Migrated?
  }

  predicate AllClose(r: Router, full: seq<seq<string>>, size: nat) {
    forall s | s in full :: Closes(r, s, size)
  }

  lemma {:induction false} DoorsConcat(r: Router, a: seq<string>, b: seq<string>)
    ensures DoorsOf(r, a + b) == DoorsOf(r, a) + DoorsOf(r, b)
  {
  }

  predicate Summarises(r: Router, batches: seq<BatchResult>, stretches: seq<seq<string>>) {
    |batches| == |stretches| && forall i | 0 <= i < |batches| :: batches[i] == ResultFor(r, i, stretches[i])
  }

  /** The documents of all batches are the survivors in order. */
  lemma {:induction false} DocumentsAreSurvivors(r: Router, batches: seq<BatchResult>, stretches: seq<seq<string>>)
    requires Summarises(r, batches, stretches)
    ensures DocumentsOf(batches) == Survivors(r, Flatten(stretches))
  {
    if batches != [] {
      var n := |batches| - 1;
      DocumentsAreSurvivors(r, batches[..n], stretches[..n]);
      SurvivorsConcat(r, Flatten(stretches[..n]), stretches[n]);
      assert batches[n] == ResultFor(r, n, stretches[n]);
    }
  }

  /** All counters merged count the whole input. */
  lemma {:induction false} CountersCountEverything(r: Router, batches: seq<BatchResult>, stretches: seq<seq<string>>)
    requires Summarises(r, batches, stretches)
    ensures MergeAll(CountersOf(batches)) == TallyOf(DoorsOf(r, Flatten(stretches)))
  {
    if batches == [] {
      assert DoorsOf(r, Flatten(stretches)) == [];
    } else {
      var n := |batches| - 1;
      CountersCountEverything(r, batches[..n], stretches[..n]);
      assert CountersOf(batches)[..n] == CountersOf(batches[..n]);
      DoorsConcat(r, Flatten(stretches[..n]), stretches[n]);
      MergeCountsTogether(DoorsOf(r, Flatten(stretches[..n])), DoorsOf(r, stretches[n]));
      assert batches[n] == ResultFor(r, n, stretches[n]);
    }
  }

  /** Records follow the last full batch. */
  predicate Trails(r: Router, records: seq<string>, size: nat)
    requires size > 0
  {
    && records != []
    && (|Survivors(r, records)| % size != 0 || Route(r, records[|records| - 1], 0).NotMigrated?)
  }

  lemma {:induction false} FullStretches(r: Router, stretches: seq<seq<string>>, count: nat, size: nat)
    requires count == |stretches| && forall s | s in stretches :: |Survivors(r, s)| == size
    ensures |Survivors(r, Flatten(stretches))| == count * size
  {
    if count > 0 {
      assert stretches[count - 1] in stretches && forall s | s in stretches[..count - 1] :: s in stretches;
      FullStretches(r, stretches[..count - 1], count - 1, size);
      SurvivorsConcat(r, Flatten(stretches[..count - 1]), stretches[count - 1]);
      MulNext(count - 1, count, size);
    }
  }

  lemma {:induction false} NoSurvivorsNoneMigrated(r: Router, stretch: seq<string>)
    requires stretch != [] && Survivors(r, stretch) == []
    ensures Route(r, stretch[|stretch| - 1], 0).NotMigrated?
  {
  }

  /** One batch per `size` documents, and one more exactly when records trail. */
  lemma {:induction false} BatchCountExactly(r: Router, full: seq<seq<string>>, last: seq<string>, size: nat)
    requires size > 0 && AllClose(r, full, size) && |Survivors(r, last)| < size
    ensures var records := Flatten(full) + last;
            && |Survivors(r, records)| / size == |full|
            && (Trails(r, records, size) <==> last != [])
  {
    var w, k := |Survivors(r, Flatten(full) + last)|, |Survivors(r, last)|;
    FullStretches(r, full, |full|, size);
    SurvivorsConcat(r, Flatten(full), last);
    DivUnique(w, size, |full|, k);
    if last != [] {
      assert (Flatten(full) + last)[|Flatten(full) + last| - 1] == last[|last| - 1];
      if k == 0 {
        NoSurvivorsNoneMigrated(r, last);
      }
    } else {
      assert Flatten(full) + last == Flatten(full);
      if full != [] {
        var s := full[|full| - 1];
        assert s in full;
        assert Flatten(full)[|Flatten(full)| - 1] == s[|s| - 1];
      }
    }
  }

  // ---- run_batches ----------------------------------------------------------------------------

  lemma {:induction false} ResultNext(r: Router, id: nat, stretch: seq<string>, raw: string)
    ensures var b, b', o := ResultFor(r, id, stretch), ResultFor(r, id, stretch + [raw]), Route(r, raw, id);
            && b'.counters == Step(b.counters, DoorOf(o))
            && b'.documents == b.documents + (if o.Migrated? then [o.document] else [])
            && b'.rejects == b.rejects + (if o.NotMigrated? then [o.reject] else [])
  {
    BatchOnlyStamps(r, raw, 0, id);
    assert (stretch + [raw])[..|stretch|] == stretch;
    DoorsConcat(r, stretch, [raw]);
    assert DoorsOf(r, [raw]) == [DoorOf(Route(r, raw, 0))];
    var doors := DoorsOf(r, stretch);
    assert (doors + [DoorOf(Route(r, raw, 0))])[..|doors|] == doors;
  }

  lemma {:induction false} NothingYet(r: Router, id: nat)
    ensures ResultFor(r, id, []) == BatchResult(id, ZERO, [], [])
  {
    assert DoorsOf(r, []) == [];
  }

  /** The test for a tail is exact: no record is lost by not yielding it. */
  lemma {:induction false} SomethingLeft(r: Router, id: nat, stretch: seq<string>)
    ensures var b := ResultFor(r, id, stretch);
            b.counters.srcRead != 0 || b.documents != [] || b.rejects != [] <==> stretch != []
  {
    StretchAddsUp(r, stretch, id);
    if stretch == [] {
      NothingYet(r, id);
    }
  }

  lemma {:induction false} SummarisesNext(r: Router, batches: seq<BatchResult>, stretches: seq<seq<string>>,
      stretch: seq<string>)
    requires Summarises(r, batches, stretches)
    ensures Summarises(r, batches + [ResultFor(r, |batches|, stretch)], stretches + [stretch])
    ensures Flatten(stretches + [stretch]) == Flatten(stretches) + stretch
  {
    assert (stretches + [stretch])[..|stretches|] == stretches;
  }

  lemma {:induction false} AllCloseNext(r: Router, full: seq<seq<string>>, stretch: seq<string>, size: nat)
    requires AllClose(r, full, size) && Closes(r, stretch, size)
    ensures AllClose(r, full + [stretch], size)
  {
  }

  lemma {:induction false} BatchingIsComplete(r: Router, batches: seq<BatchResult>, full: seq<seq<string>>,
      last: seq<string>, size: nat)
    requires size > 0 && AllClose(r, full, size) && |Survivors(r, last)| < size
    requires Summarises(r, batches, if last == [] then full else full + [last])
    ensures var records := Flatten(full) + last;
            && DocumentsOf(batches) == Survivors(r, records)
            && MergeAll(CountersOf(batches)) == TallyOf(DoorsOf(r, records))
            && |batches| == |Survivors(r, records)| / size + (if Trails(r, records, size) then 1 else 0)
  {
    var cut := if last == [] then full else full + [last];
    assert (full + [last])[..|full|] == full;
    assert Flatten(cut) == Flatten(full) + last;
    DocumentsAreSurvivors(r, batches, cut);
    CountersCountEverything(r, batches, cut);
    BatchCountExactly(r, full, last, size);
  }

  /** One record routed, counted and kept. */
  method Take(r: Router, raw: string, batchId: nat, counters: Counters, documents: seq<string>, rejects: seq<Reject>,
              ghost stretch: seq<string>)
    returns (documents': seq<string>, rejects': seq<Reject>)
    requires BatchResult(batchId, counters.Value(), documents, rejects) == ResultFor(r, batchId, stretch)
    modifies counters
    ensures BatchResult(batchId, counters.Value(), documents', rejects') == ResultFor(r, batchId, stretch + [raw])
    ensures |documents'| <= |documents| + 1
    ensures |documents'| > |documents| ==> Closes(r, stretch + [raw], |documents'|)
  {
    var outcome := Route(r, raw, batchId);
    documents', rejects' := documents, rejects;
    ResultNext(r, batchId, stretch, raw);
    BatchOnlyStamps(r, raw, 0, batchId);
    counters.Record(DoorOf(outcome), DoorsOf(r, stretch));
    match outcome {
      case Migrated(document) => documents' := documents + [document];
      case NotMigrated(reject) => rejects' := rejects + [reject];
    }
  }

  /**
   * Yields, in order, the batches returned. `full` is the cut of the records into full batches and
   * `last` what trails them.
   */
  method Stream(r: Router, lines: seq<string>, size: nat)
    returns (batches: seq<BatchResult>, ghost full: seq<seq<string>>, ghost last: seq<string>)
    requires size > 0
    ensures Flatten(full) + last == Records(r, lines)
    ensures AllClose(r, full, size) && |Survivors(r, last)| < size
    ensures Summarises(r, batches, if last == [] then full else full + [last])
  {
    var batchId := 0;
    var counters := new Counters();
    var documents: seq<string>, rejects: seq<Reject> := [], [];
    batches, full, last := [], [], [];
    NothingYet(r, 0);
    for i := 0 to |lines|
      invariant fresh(counters) && batchId == |batches|
      invariant Flatten(full) + last == Records(r, lines[..i])
      invariant Summarises(r, batches, full) && AllClose(r, full, size)
      invariant BatchResult(batchId, counters.Value(), documents, rejects) == ResultFor(r, batchId, last)
      invariant |documents| < size
    {
      assert lines[..i + 1][..i] == lines[..i];
      var raw := r.rstrip(lines[i]);
      if r.isBlank(raw) || r.isHeader(raw) {
        continue;
      }
      documents, rejects := Take(r, raw, batchId, counters, documents, rejects, last);
      last := last + [raw];
      if |documents| >= size {
        SummarisesNext(r, batches, full, last);
        AllCloseNext(r, full, last, size);
        batches := batches + [BatchResult(batchId, counters.Value(), documents, rejects)];
        full, last := full + [last], [];
        batchId := batchId + 1;
        counters := new Counters();
        documents, rejects := [], [];
        NothingYet(r, batchId);
      }
    }
    assert lines[..|lines|] == lines;
    SomethingLeft(r, batchId, last);
    if counters.srcRead != 0 || documents != [] || rejects != [] {
      SummarisesNext(r, batches, full, last);
      batches := batches + [BatchResult(batchId, counters.Value(), documents, rejects)];
    }
  }

  /** Every survivor in order, every record counted, and just the batches the contract calls for. */
  method RunBatches(r: Router, lines: seq<string>, size: nat) returns (batches: seq<BatchResult>)
    requires size > 0
    ensures DocumentsOf(batches) == Survivors(r, Records(r, lines))
    ensures MergeAll(CountersOf(batches)) == TallyOf(DoorsOf(r, Records(r, lines)))
    ensures |batches| == |Survivors(r, Records(r, lines))| / size
                         + (if Trails(r, Records(r, lines), size) then 1 else 0)
    ensures forall i | 0 <= i < |batches| ::
              && batches[i].id == i && Sound(batches[i].counters)
              && batches[i].counters.written == |batches[i].documents|
              && batches[i].counters.rejected == |batches[i].rejects|
              && (forall reject | reject in batches[i].rejects :: reject.batch == i)
              && (i < |Survivors(r, Records(r, lines))| / size ==> |batches[i].documents| == size)
  {
    ghost var full, last;
    batches, full, last := Stream(r, lines, size);
    BatchingIsComplete(r, batches, full, last, size);
    BatchCountExactly(r, full, last, size);
    forall i | 0 <= i < |batches|
      ensures batches[i].id == i && Sound(batches[i].counters)
      ensures batches[i].counters.written == |batches[i].documents|
      ensures batches[i].counters.rejected == |batches[i].rejects|
      ensures forall reject | reject in batches[i].rejects :: reject.batch == i
      ensures i < |full| ==> |batches[i].documents| == size
    {
      var cut := if last == [] then full else full + [last];
      assert batches[i] == ResultFor(r, i, cut[i]);
      BatchBalances(r, i, cut[i]);
      assert i < |full| ==> cut[i] == full[i] && full[i] in full;
    }
  }
}
