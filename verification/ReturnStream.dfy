/**
 * The settle phase's read of the two return topics: one loop over polled records that sorts
 * this run's awaited keys into confirmed, duplicate and rejected, and stops as soon as the
 * three collections together are as large as the awaited set.
 */
module ReturnStream {
  import opened Text
  import opened Wrappers
  import opened Messages
  import opened Collections

  datatype Verdicts = Verdicts(confirmed: set<string>, duplicates: set<string>, rejected: map<string, string>)

  const NOTHING := Verdicts({}, {}, map[])

  /** Records of other runs, of keys nobody awaits, and malformed ones are skipped. */
  predicate Qualifies(r: ReturnRecord, run: string, awaiting: set<string>) {
    && !Missing(r.key) && r.key.value in awaiting
    && r.value.Some? && r.value.value.runId == run
  }

  datatype Kind = SaysCreated | SaysDuplicate | SaysRejected

  /** The topic decides first; an event without an outcome means created. */
  function KindOf(r: ReturnRecord): Kind
    requires r.value.Some?
  {
    if r.topic == Rejections then SaysRejected
    else if r.value.value.outcome == Some(DUPLICATE) then SaysDuplicate
    else SaysCreated
  }

  function ReasonOf(r: ReturnRecord): string
    requires r.value.Some?
  {
    if r.value.value.reason.Some? then r.value.value.reason.value else "unspecified"
  }

  function Absorb(v: Verdicts, r: ReturnRecord, run: string, awaiting: set<string>): Verdicts {
    if !Qualifies(r, run, awaiting) then v
    else
      var key := r.key.value;
      match KindOf(r)
      case SaysRejected => Verdicts(v.confirmed - {key}, v.duplicates - {key}, v.rejected[key := ReasonOf(r)])
      case SaysDuplicate => Verdicts(v.confirmed - {key}, v.duplicates + {key}, v.rejected)
      case SaysCreated => Verdicts(v.confirmed + {key}, v.duplicates - {key}, v.rejected)
  }

  function ReadAll(records: seq<ReturnRecord>, run: string, awaiting: set<string>): Verdicts {
    if records == [] then NOTHING
    else Absorb(ReadAll(records[..|records| - 1], run, awaiting), records[|records| - 1], run, awaiting)
  }

  /** The count the loop watches. */
  function Progress(v: Verdicts): nat {
    |v.confirmed| + |v.duplicates| + |v.rejected|
  }

  function Spoken(v: Verdicts): set<string> {
    v.confirmed + v.duplicates + v.rejected.Keys
  }

  // ---- what the three collections mean --------------------------------------------------

  predicate SpeaksOf(r: ReturnRecord, key: string, run: string, awaiting: set<string>) {
    Qualifies(r, run, awaiting) && r.key.value == key
  }

  /** Record i is the last qualifying one about its key. */
  predicate IsLastWord(records: seq<ReturnRecord>, i: nat, key: string, run: string, awaiting: set<string>) {
    && i < |records| && SpeaksOf(records[i], key, run, awaiting)
    && forall j | i < j < |records| :: !SpeaksOf(records[j], key, run, awaiting)
  }

  ghost predicate LastWordIs(records: seq<ReturnRecord>, key: string, kind: Kind, run: string, awaiting: set<string>) {
    exists i: nat :: IsLastWord(records, i, key, run, awaiting) && KindOf(records[i]) == kind
  }

  ghost predicate EverRejected(records: seq<ReturnRecord>, key: string, run: string, awaiting: set<string>) {
    exists i :: 0 <= i < |records| && SpeaksOf(records[i], key, run, awaiting) && KindOf(records[i]) == SaysRejected
  }

  lemma {:induction false} LastWordNext(records: seq<ReturnRecord>, key: string, kind: Kind, run: string,
      awaiting: set<string>)
    requires records != []
    ensures var r := records[|records| - 1];
            LastWordIs(records, key, kind, run, awaiting) <==>
            if SpeaksOf(r, key, run, awaiting) then KindOf(r) == kind
            else LastWordIs(records[..|records| - 1], key, kind, run, awaiting)
  {
    var n := |records| - 1;
    var before := records[..n];
    if SpeaksOf(records[n], key, run, awaiting) {
      assert IsLastWord(records, n, key, run, awaiting);
    } else {
      forall i: nat ensures IsLastWord(records, i, key, run, awaiting) <==> IsLastWord(before, i, key, run, awaiting) {
        assert forall j | 0 <= j < n :: before[j] == records[j];
      }
    }
  }

  lemma {:induction false} EverRejectedNext(records: seq<ReturnRecord>, key: string, run: string, awaiting: set<string>)
    requires records != []
    ensures var r := records[|records| - 1];
            EverRejected(records, key, run, awaiting) <==>
            (SpeaksOf(r, key, run, awaiting) && KindOf(r) == SaysRejected)
            || EverRejected(records[..|records| - 1], key, run, awaiting)
  {
    var before := records[..|records| - 1];
    assert forall i | 0 <= i < |before| :: before[i] == records[i];
    if EverRejected(before, key, run, awaiting) {
      var i :| 0 <= i < |before| && SpeaksOf(before[i], key, run, awaiting) && KindOf(before[i]) == SaysRejected;
      assert SpeaksOf(records[i], key, run, awaiting);
    }
  }

  /**
   * A key is confirmed or a duplicate exactly when the last word about it says so, and rejected
   * exactly when any word about it ever did.
   */
  lemma {:induction false} ReadMeansLastWord(records: seq<ReturnRecord>, key: string, run: string,
      awaiting: set<string>)
    ensures var v := ReadAll(records, run, awaiting);
            && (key in v.confirmed <==> LastWordIs(records, key, SaysCreated, run, awaiting))
            && (key in v.duplicates <==> LastWordIs(records, key, SaysDuplicate, run, awaiting))
            && (key in v.rejected <==> EverRejected(records, key, run, awaiting))
  {
    if records != [] {
      var n := |records| - 1;
      var before := records[..n];
      ReadMeansLastWord(before, key, run, awaiting);
      LastWordNext(records, key, SaysCreated, run, awaiting);
      LastWordNext(records, key, SaysDuplicate, run, awaiting);
      EverRejectedNext(records, key, run, awaiting);
    }
  }

  ghost predicate LastReasonIs(records: seq<ReturnRecord>, key: string, reason: string, run: string,
                               awaiting: set<string>)
  {
    exists i: nat :: IsLastRefusal(records, i, key, run, awaiting) && ReasonOf(records[i]) == reason
  }

  predicate IsLastRefusal(records: seq<ReturnRecord>, i: nat, key: string, run: string, awaiting: set<string>) {
    && i < |records| && SpeaksOf(records[i], key, run, awaiting) && KindOf(records[i]) == SaysRejected
    && forall j | i < j < |records| ::
         !(SpeaksOf(records[j], key, run, awaiting) && KindOf(records[j]) == SaysRejected)
  }

  /** The reason kept is that of the last rejection. */
  lemma {:induction false} LastReasonStands(records: seq<ReturnRecord>, key: string, run: string, awaiting: set<string>)
    ensures var v := ReadAll(records, run, awaiting);
            key in v.rejected ==> LastReasonIs(records, key, v.rejected[key], run, awaiting)
  {
    if records != [] {
      var n := |records| - 1;
      var before := records[..n];
      LastReasonStands(before, key, run, awaiting);
      var v := ReadAll(records, run, awaiting);
      if key in v.rejected {
        if SpeaksOf(records[n], key, run, awaiting) && KindOf(records[n]) == SaysRejected {
          assert IsLastRefusal(records, n, key, run, awaiting);
        } else {
          var i: nat :| IsLastRefusal(before, i, key, run, awaiting) && ReasonOf(before[i]) == v.rejected[key];
          assert forall j | 0 <= j < n :: before[j] == records[j];
          assert IsLastRefusal(records, i, key, run, awaiting);
        }
      }
    }
  }

  /**
   * The same said of the records' own fields: only records with this key, awaited and not blank, and
   * with a value of this run count; the topic tells a rejection, the outcome a duplicate, and the
   * reason of the last rejection is kept, or "unspecified" when it has none.
   */
  lemma {:induction false} ReadFieldsExactly(records: seq<ReturnRecord>, key: string, run: string,
                                             awaiting: set<string>)
    ensures var v := ReadAll(records, run, awaiting);
            var about := (r: ReturnRecord) => r.key == Some(key) && r.value.Some? && r.value.value.runId == run;
            var counts := key in awaiting && !IsBlank(key);
            && (key in v.confirmed <==>
                  counts && exists i :: 0 <= i < |records| && about(records[i]) && records[i].topic == Confirmations
                                        && records[i].value.value.outcome != Some("duplicate")
                                        && forall j | i < j < |records| :: !about(records[j]))
            && (key in v.duplicates <==>
                  counts && exists i :: 0 <= i < |records| && about(records[i]) && records[i].topic == Confirmations
                                        && records[i].value.value.outcome == Some("duplicate")
                                        && forall j | i < j < |records| :: !about(records[j]))
            && (key in v.rejected <==>
                  counts && exists i :: 0 <= i < |records| && about(records[i]) && records[i].topic == Rejections)
  {
    ReadMeansLastWord(records, key, run, awaiting);
    var about := (r: ReturnRecord) => r.key == Some(key) && r.value.Some? && r.value.value.runId == run;
    var counts := key in awaiting && !IsBlank(key);
    assert forall r :: SpeaksOf(r, key, run, awaiting) <==> counts && about(r);
    forall i: nat ensures IsLastWord(records, i, key, run, awaiting) <==>
        counts && i < |records| && about(records[i]) && forall j | i < j < |records| :: !about(records[j]) {
    }
  }

  lemma {:induction false} ReasonIsOfTheLastRejection(records: seq<ReturnRecord>, key: string, run: string,
                                                      awaiting: set<string>)
    requires key in ReadAll(records, run, awaiting).rejected
    ensures var refusal := (r: ReturnRecord) =>
              r.topic == Rejections && r.key == Some(key) && r.value.Some? && r.value.value.runId == run;
            exists i :: 0 <= i < |records| && refusal(records[i])
              && (forall j | i < j < |records| :: !refusal(records[j]))
              && ReadAll(records, run, awaiting).rejected[key] ==
                 match records[i].value.value.reason case None => "unspecified" case Some(reason) => reason
  {
    var v := ReadAll(records, run, awaiting);
    ReadMeansLastWord(records, key, run, awaiting);
    LastReasonStands(records, key, run, awaiting);
    var i: nat :| IsLastRefusal(records, i, key, run, awaiting) && ReasonOf(records[i]) == v.rejected[key];
    assert SpeaksOf(records[i], key, run, awaiting);
    assert forall r: ReturnRecord ::
        r.topic == Rejections && r.key == Some(key) && r.value.Some? && r.value.value.runId == run ==>
          SpeaksOf(r, key, run, awaiting) && KindOf(r) == SaysRejected;
  }

  /** Disjoint, within the awaited keys, and together exactly the keys some record spoke of. */
  lemma {:induction false} ReadCollects(records: seq<ReturnRecord>, run: string, awaiting: set<string>)
    ensures var v := ReadAll(records, run, awaiting);
            && v.confirmed !! v.duplicates
            && Spoken(v) <= awaiting
            && forall key :: key in Spoken(v) <==>
                 exists i :: 0 <= i < |records| && SpeaksOf(records[i], key, run, awaiting)
  {
    if records != [] {
      var n := |records| - 1;
      var before := records[..n];
      ReadCollects(before, run, awaiting);
      var v0, v := ReadAll(before, run, awaiting), ReadAll(records, run, awaiting);
      assert forall i | 0 <= i < n :: before[i] == records[i];
      forall key ensures key in Spoken(v) <==>
                         exists i :: 0 <= i < |records| && SpeaksOf(records[i], key, run, awaiting)
      {
        if SpeaksOf(records[n], key, run, awaiting) {
          assert key in Spoken(v);
        } else {
          assert key in Spoken(v) <==> key in Spoken(v0);
        }
      }
    }
  }

  /** Reading on never takes back that a key was spoken of. */
  lemma {:induction false} SpokenNeverShrinks(records: seq<ReturnRecord>, more: seq<ReturnRecord>, run: string,
      awaiting: set<string>)
    ensures Spoken(ReadAll(records, run, awaiting)) <= Spoken(ReadAll(records + more, run, awaiting))
  {
    ReadCollects(records, run, awaiting);
    ReadCollects(records + more, run, awaiting);
    forall key | key in Spoken(ReadAll(records, run, awaiting))
      ensures key in Spoken(ReadAll(records + more, run, awaiting))
    {
      var i :| 0 <= i < |records| && SpeaksOf(records[i], key, run, awaiting);
      assert SpeaksOf((records + more)[i], key, run, awaiting);
    }
  }

  // ---- when stopping on the count is right ----------------------------------------------

  /** The count misjudges by exactly the keys counted twice: rejected and also confirmed. */
  lemma {:induction false} CountedTwice(records: seq<ReturnRecord>, run: string, awaiting: set<string>)
    ensures var v := ReadAll(records, run, awaiting);
            |awaiting - Spoken(v)| == |awaiting| - Progress(v) + |(v.confirmed + v.duplicates) * v.rejected.Keys|
  {
    var v := ReadAll(records, run, awaiting);
    ReadCollects(records, run, awaiting);
    var settled := v.confirmed + v.duplicates;
    SizeOfUnion(v.confirmed, v.duplicates);
    SizeOfUnion(settled, v.rejected.Keys);
    assert v.confirmed * v.duplicates == {} && settled + v.rejected.Keys == Spoken(v);
    SizeOfUnion(awaiting - Spoken(v), Spoken(v));
    assert awaiting == (awaiting - Spoken(v)) + Spoken(v) && (awaiting - Spoken(v)) * Spoken(v) == {};
  }

  predicate Addressed(r: ReturnRecord, run: string) {
    !Missing(r.key) && r.value.Some? && r.value.value.runId == run
  }

  /** Record j confirms, as created or duplicate, the key that record i rejected before. */
  predicate Relapses(records: seq<ReturnRecord>, i: int, j: int, run: string)
    requires 0 <= i < j < |records|
  {
    && Addressed(records[i], run) && Addressed(records[j], run) && records[i].key == records[j].key
    && KindOf(records[i]) == SaysRejected && KindOf(records[j]) != SaysRejected
  }

  predicate NoConfirmationAfterRejection(records: seq<ReturnRecord>, run: string) {
    forall i, j | 0 <= i < j < |records| :: !Relapses(records, i, j, run)
  }

  ghost predicate CountIsHonest(records: seq<ReturnRecord>, run: string) {
    forall awaiting: set<string>, n: nat | n <= |records| ::
      Progress(ReadAll(records[..n], run, awaiting)) >= |awaiting| ==>
        Spoken(ReadAll(records[..n], run, awaiting)) == awaiting
  }

  lemma {:induction false} RejectedStaysRejected(records: seq<ReturnRecord>, key: string, run: string,
      awaiting: set<string>)
    requires NoConfirmationAfterRejection(records, run)
    ensures var v := ReadAll(records, run, awaiting);
            key in v.rejected ==> key !in v.confirmed && key !in v.duplicates
  {
    ReadMeansLastWord(records, key, run, awaiting);
    if EverRejected(records, key, run, awaiting) {
      var i :| 0 <= i < |records| && SpeaksOf(records[i], key, run, awaiting) && KindOf(records[i]) == SaysRejected;
      forall j: nat | IsLastWord(records, j, key, run, awaiting) ensures KindOf(records[j]) == SaysRejected {
        assert i < j ==> !Relapses(records, i, j, run);
      }
    }
  }

  lemma {:induction false} HonestCount(records: seq<ReturnRecord>, run: string, awaiting: set<string>)
    requires NoConfirmationAfterRejection(records, run)
    requires Progress(ReadAll(records, run, awaiting)) >= |awaiting|
    ensures Spoken(ReadAll(records, run, awaiting)) == awaiting
  {
    var v := ReadAll(records, run, awaiting);
    forall key ensures key !in (v.confirmed + v.duplicates) * v.rejected.Keys {
      RejectedStaysRejected(records, key, run, awaiting);
    }
    CountedTwice(records, run, awaiting);
    assert (v.confirmed + v.duplicates) * v.rejected.Keys == {};
    ReadCollects(records, run, awaiting);
  }

  function LongestKey(records: seq<ReturnRecord>): (n: nat)
    ensures forall i | 0 <= i < |records| && records[i].key.Some? :: |records[i].key.value| <= n
  {
    if records == [] then 0
    else
      var n := LongestKey(records[..|records| - 1]);
      var r := records[|records| - 1];
      if r.key.Some? && |r.key.value| > n then |r.key.value| else n
  }

  lemma {:induction false} RelapseCountsTwice(records: seq<ReturnRecord>, run: string, i: nat, awaiting: set<string>)
    requires i < |records| - 1 && Relapses(records, i, |records| - 1, run)
    requires records[i].key.value in awaiting
    ensures Progress(ReadAll(records, run, awaiting)) >= 2
  {
    var key, n := records[i].key.value, |records| - 1;
    var v0, v := ReadAll(records[..n], run, awaiting), ReadAll(records, run, awaiting);
    assert key in v0.rejected by {
      ReadMeansLastWord(records[..n], key, run, awaiting);
      assert records[..n][i] == records[i];
    }
    SubsetSize({key}, v.rejected.Keys);
    if KindOf(records[n]) == SaysCreated {
      SubsetSize({key}, v.confirmed);
    } else {
      SubsetSize({key}, v.duplicates);
    }
  }

  /** One key confirmed after its rejection is enough to stop the loop with a key unanswered. */
  lemma {:induction false} DishonestCount(records: seq<ReturnRecord>, run: string, i: nat,
      j: nat) returns (awaiting: set<string>)
    requires i < j < |records| && Relapses(records, i, j, run)
    ensures Progress(ReadAll(records[..j + 1], run, awaiting)) >= |awaiting|
    ensures Spoken(ReadAll(records[..j + 1], run, awaiting)) != awaiting
  {
    var absent := seq(LongestKey(records) + 1, _ => 'x');
    awaiting := {records[i].key.value, absent};
    var read := records[..j + 1];
    assert read[i] == records[i] && read[j] == records[j];
    RelapseCountsTwice(read, run, i, awaiting);
    ReadCollects(read, run, awaiting);
    assert absent !in Spoken(ReadAll(read, run, awaiting));
  }

  /**
   * Leaving before the deadline means every awaited key has a verdict, for every set of awaited
   * keys and every point the loop can stop at, exactly when no key is confirmed after a rejection.
   */
  lemma {:induction false} CountIsHonestExactly(records: seq<ReturnRecord>, run: string)
    ensures CountIsHonest(records, run) <==> NoConfirmationAfterRejection(records, run)
  {
    if NoConfirmationAfterRejection(records, run) {
      forall awaiting: set<string>, n: nat |
        n <= |records| && Progress(ReadAll(records[..n], run, awaiting)) >= |awaiting|
        ensures Spoken(ReadAll(records[..n], run, awaiting)) == awaiting
      {
        assert forall i, j | 0 <= i < j < n ::
          Relapses(records[..n], i, j, run) <==> Relapses(records, i, j, run);
        HonestCount(records[..n], run, awaiting);
      }
    } else {
      var i, j :| 0 <= i < j < |records| && Relapses(records, i, j, run);
      var awaiting := DishonestCount(records, run, i, j);
      assert j + 1 <= |records|;
    }
  }

  /** The smallest run the loop leaves too early: one key rejected then confirmed, one never mentioned. */
  lemma {:induction false} StopsWithAKeyUnanswered()
    ensures var refused := ReturnRecord(Rejections, Some("k1"), Some(Event("run-1", "A1", None, Some("bad"))));
            var created := ReturnRecord(Confirmations, Some("k1"), Some(Event("run-1", "A1", Some(CREATED), None)));
            var v := ReadAll([refused, created], "run-1", {"k1", "k2"});
            Progress(v) == 2 && "k2" !in Spoken(v)
  {
    var refused := ReturnRecord(Rejections, Some("k1"), Some(Event("run-1", "A1", None, Some("bad"))));
    var created := ReturnRecord(Confirmations, Some("k1"), Some(Event("run-1", "A1", Some(CREATED), None)));
    assert !IsWhitespace("k1"[0]);
    assert [refused, created][..1] == [refused];
    assert ReadAll([refused], "run-1", {"k1", "k2"}) == Verdicts({}, {}, map["k1" := "bad"]);
    assert ReadAll([refused, created], "run-1", {"k1", "k2"}) == Verdicts({"k1"}, {}, map["k1" := "bad"]);
  }

  // ---- the loop ---------------------------------------------------------------------------

  lemma {:induction false} ReadNext(earlier: seq<ReturnRecord>, records: seq<ReturnRecord>, i: nat, run: string,
      awaiting: set<string>)
    requires i < |records|
    ensures ReadAll(earlier + records[..i + 1], run, awaiting)
         == Absorb(ReadAll(earlier + records[..i], run, awaiting), records[i], run, awaiting)
  {
    assert (earlier + records[..i + 1])[..|earlier| + i] == earlier + records[..i];
  }

  /** The first poll at which the count is reached; all of them if it never is, and none without a partition. */
  ghost predicate StopsAt(used: nat, run: string, awaiting: set<string>, anyPartition: bool,
                          polls: seq<seq<ReturnRecord>>)
  {
    && used <= |polls| && (!anyPartition ==> used == 0)
    && (anyPartition && used < |polls| ==> Progress(ReadAll(Flatten(polls[..used]), run, awaiting)) >= |awaiting|)
    && forall m | 0 <= m < used :: Progress(ReadAll(Flatten(polls[..m]), run, awaiting)) < |awaiting|
  }

  /**
   * `polls` is what the broker hands over before the deadline. Without any partition to read the
   * loop is not entered at all.
   */
  method Settle(run: string, awaiting: set<string>, anyPartition: bool, polls: seq<seq<ReturnRecord>>)
    returns (v: Verdicts, used: nat)
    ensures used <= |polls| && v == ReadAll(Flatten(polls[..used]), run, awaiting)
    ensures StopsAt(used, run, awaiting, anyPartition, polls)
    ensures !anyPartition ==> used == 0
    ensures anyPartition && used < |polls| ==> |v.confirmed| + |v.duplicates| + |v.rejected| >= |awaiting|
    ensures forall m | 0 <= m < used ::
              var earlier := ReadAll(Flatten(polls[..m]), run, awaiting);
              |earlier.confirmed| + |earlier.duplicates| + |earlier.rejected| < |awaiting|
    ensures anyPartition && used < |polls| && NoConfirmationAfterRejection(Flatten(polls[..used]), run) ==>
              Spoken(v) == awaiting
  {
    var confirmed: set<string>, duplicates: set<string> := {}, {};
    var rejected: map<string, string> := map[];
    used := 0;
    if !anyPartition {
      return NOTHING, 0;
    }
    while used < |polls| && |confirmed| + |duplicates| + |rejected| < |awaiting|
      invariant used <= |polls|
      invariant Verdicts(confirmed, duplicates, rejected) == ReadAll(Flatten(polls[..used]), run, awaiting)
      invariant forall m | 0 <= m < used :: Progress(ReadAll(Flatten(polls[..m]), run, awaiting)) < |awaiting|
    {
      var records := polls[used];
      ghost var earlier := Flatten(polls[..used]);
      assert earlier + records[..0] == earlier;
      for i := 0 to |records|
        invariant Verdicts(confirmed, duplicates, rejected) == ReadAll(earlier + records[..i], run, awaiting)
      {
        var record := records[i];
        ReadNext(earlier, records, i, run, awaiting);
        if Missing(record.key) || record.key.value !in awaiting {
          continue;
        }
        if record.value.None? || record.value.value.runId != run {
          continue;
        }
        var key := record.key.value;
        if record.topic == Rejections {
          rejected := rejected[key := ReasonOf(record)];
          confirmed := confirmed - {key};
          duplicates := duplicates - {key};
        } else if record.value.value.outcome == Some(DUPLICATE) {
          duplicates := duplicates + {key};
          confirmed := confirmed - {key};
        } else {
          confirmed := confirmed + {key};
          duplicates := duplicates - {key};
        }
      }
      assert records[..|records|] == records;
      FlattenNext(polls, used);
      used := used + 1;
    }
    v := Verdicts(confirmed, duplicates, rejected);
    if used < |polls| && NoConfirmationAfterRejection(Flatten(polls[..used]), run) {
      HonestCount(Flatten(polls[..used]), run, awaiting);
    }
  }
}
