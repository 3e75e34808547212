/**
 * Reconciliation's side of the Load lane: the bounded re-read of the confirmation topic, the match
 * of target keys against it, and the verdict on the whole run.
 */
module Recon {
  import opened Wrappers
  import opened Messages
  import opened Collections
  import Text

  // ---- reading the confirmations --------------------------------------------------------------

  predicate CountsFor(r: ReturnRecord, run: string) {
    r.value.Some? && r.value.value.runId == run && !Missing(r.key)
  }

  /** One partition's share of a poll. */
  datatype Portion = Portion(partition: nat, size: nat)

  predicate AllReachedEnd(positions: seq<nat>, ends: seq<nat>)
    requires |positions| == |ends|
  {
    forall p | 0 <= p < |ends| :: positions[p] >= ends[p]
  }

  /** One portion moves its own partition's position, up to the end of the log. */
  function Moved(partitions: seq<seq<ReturnRecord>>, positions: seq<nat>, portion: Portion): (moved: seq<nat>)
    requires |positions| == |partitions| && forall p | 0 <= p < |positions| :: positions[p] <= |partitions[p]|
    ensures |moved| == |partitions| && forall p | 0 <= p < |moved| :: positions[p] <= moved[p] <= |partitions[p]|
  {
    var p := portion.partition;
    if p >= |partitions| then positions
    else
      var n := positions[p] + portion.size;
      positions[p := if n <= |partitions[p]| then n else |partitions[p]|]
  }

  function Polled(partitions: seq<seq<ReturnRecord>>, portions: seq<Portion>): (positions: seq<nat>)
    ensures |positions| == |partitions| && forall p | 0 <= p < |positions| :: positions[p] <= |partitions[p]|
  {
    if portions == [] then seq(|partitions|, _ => 0)
    else Moved(partitions, Polled(partitions, portions[..|portions| - 1]), portions[|portions| - 1])
  }

  /** After so many polls some partition has not reached its end. */
  predicate FallsShort(partitions: seq<seq<ReturnRecord>>, ends: seq<nat>, polls: seq<seq<Portion>>, u: nat)
    requires |ends| == |partitions| && u <= |polls|
  {
    !AllReachedEnd(Polled(partitions, Flatten(polls[..u])), ends)
  }

  predicate IsRead(partitions: seq<seq<ReturnRecord>>, positions: seq<nat>, p: nat, i: nat) {
    p < |partitions| && p < |positions| && i < |partitions[p]| && i < positions[p]
  }

  ghost predicate Collected(keys: set<string>, partitions: seq<seq<ReturnRecord>>, positions: seq<nat>, run: string) {
    && (forall p: nat, i: nat | IsRead(partitions, positions, p, i) && CountsFor(partitions[p][i], run) ::
          partitions[p][i].key.value in keys)
    && (forall key | key in keys :: exists p: nat, i: nat ::
          IsRead(partitions, positions, p, i) && CountsFor(partitions[p][i], run)
          && partitions[p][i].key.value == key)
  }

  /** A key is read exactly when a record below the positions says it, not blank, with a value of this run. */
  lemma {:induction false} CollectedExactly(keys: set<string>, partitions: seq<seq<ReturnRecord>>,
                                            positions: seq<nat>, run: string)
    requires |positions| == |partitions| && Collected(keys, partitions, positions, run)
    ensures forall key :: key in keys <==>
              exists p: nat, i: nat ::
                && p < |partitions| && i < |partitions[p]| && i < positions[p]
                && partitions[p][i].key == Some(key) && !Text.IsBlank(key)
                && partitions[p][i].value.Some? && partitions[p][i].value.value.runId == run
  {
    forall p: nat, i: nat | p < |partitions| && i < |partitions[p]| && i < positions[p]
      ensures IsRead(partitions, positions, p, i)
    {
    }
  }

  /** What other runs have on the topic, however much and wherever, changes nothing about the keys read. */
  lemma {:induction false} OtherRunsChangeNothing(keys: set<string>, partitions: seq<seq<ReturnRecord>>,
                                                  positions: seq<nat>, keys': set<string>,
                                                  partitions': seq<seq<ReturnRecord>>, positions': seq<nat>,
                                                  run: string)
    requires |positions| == |partitions| && Collected(keys, partitions, positions, run)
    requires |positions'| == |partitions'| && Collected(keys', partitions', positions', run)
    requires forall r: ReturnRecord | r.value.Some? && r.value.value.runId == run ::
               (exists p: nat, i: nat ::
                  p < |partitions| && i < |partitions[p]| && i < positions[p] && partitions[p][i] == r) <==>
               (exists p: nat, i: nat ::
                  p < |partitions'| && i < |partitions'[p]| && i < positions'[p] && partitions'[p][i] == r)
    ensures keys == keys'
  {
    forall key ensures key in keys <==> key in keys' {
      if key in keys {
        SaidHereToo(key, keys, partitions, positions, keys', partitions', positions', run);
      }
      if key in keys' {
        SaidHereToo(key, keys', partitions', positions', keys, partitions, positions, run);
      }
    }
  }

  lemma {:induction false} SaidHereToo(key: string, keys: set<string>, partitions: seq<seq<ReturnRecord>>,
                                       positions: seq<nat>, keys': set<string>,
                                       partitions': seq<seq<ReturnRecord>>, positions': seq<nat>, run: string)
    requires |positions| == |partitions| && Collected(keys, partitions, positions, run) && key in keys
    requires |positions'| == |partitions'| && Collected(keys', partitions', positions', run)
    requires forall r: ReturnRecord | r.value.Some? && r.value.value.runId == run ::
               (exists p: nat, i: nat ::
                  p < |partitions| && i < |partitions[p]| && i < positions[p] && partitions[p][i] == r) ==>
               (exists p: nat, i: nat ::
                  p < |partitions'| && i < |partitions'[p]| && i < positions'[p] && partitions'[p][i] == r)
    ensures key in keys'
  {
    var p: nat, i: nat :| IsRead(partitions, positions, p, i) && CountsFor(partitions[p][i], run)
                          && partitions[p][i].key.value == key;
    var r := partitions[p][i];
    var q: nat, j: nat :| q < |partitions'| && j < |partitions'[q]| && j < positions'[q] && partitions'[q][j] == r;
    assert IsRead(partitions', positions', q, j);
  }

  /**
   * `partitions` are the logs as they stand when the read ends, `ends` the end offsets snapshot
   * taken when it began. `polls` is what arrives before the deadline; records past the snapshot
   * may arrive too.
   */
  method ReadConfirmations(partitions: seq<seq<ReturnRecord>>, ends: seq<nat>, run: string, polls: seq<seq<Portion>>)
    returns (keys: set<string>, positions: seq<nat>, inTime: bool, used: nat)
    requires |ends| == |partitions| && forall p | 0 <= p < |ends| :: ends[p] <= |partitions[p]|
    ensures used <= |polls| && positions == Polled(partitions, Flatten(polls[..used]))
    ensures Collected(keys, partitions, positions, run)
    ensures forall key :: key in keys <==>
              exists p: nat, i: nat ::
                && p < |partitions| && i < |partitions[p]| && i < positions[p]
                && partitions[p][i].key == Some(key) && !Text.IsBlank(key)
                && partitions[p][i].value.Some? && partitions[p][i].value.value.runId == run
    ensures inTime <==> forall p | 0 <= p < |ends| :: positions[p] >= ends[p]
    ensures !inTime ==> used == |polls|
    ensures forall u | 0 <= u < used :: FallsShort(partitions, ends, polls, u)
  {
    keys, positions, used := PollUntilEnd(partitions, ends, run, polls);
    inTime := AllReachedEnd(positions, ends);
    CollectedExactly(keys, partitions, positions, run);
  }

  lemma {:induction false} NothingReadYet(partitions: seq<seq<ReturnRecord>>, run: string)
    ensures Polled(partitions, []) == seq(|partitions|, _ => 0)
    ensures Collected({}, partitions, seq(|partitions|, _ => 0), run)
  {
  }

  /** Polls until every partition has reached its end offset, or there is nothing more before the deadline. */
  method PollUntilEnd(partitions: seq<seq<ReturnRecord>>, ends: seq<nat>, run: string, polls: seq<seq<Portion>>)
    returns (keys: set<string>, positions: seq<nat>, used: nat)
    requires |ends| == |partitions|
    ensures used <= |polls| && positions == Polled(partitions, Flatten(polls[..used]))
    ensures Collected(keys, partitions, positions, run)
    ensures used < |polls| ==> AllReachedEnd(positions, ends)
    ensures forall u | 0 <= u < used :: FallsShort(partitions, ends, polls, u)
  {
    keys, positions, used := {}, seq(|partitions|, _ => 0), 0;
    NothingReadYet(partitions, run);
    ghost var portions: seq<Portion> := [];
    while used < |polls| && !AllReachedEnd(positions, ends)
      invariant used <= |polls| && portions == Flatten(polls[..used]) && positions == Polled(partitions, portions)
      invariant Collected(keys, partitions, positions, run)
      invariant forall u | 0 <= u < used :: FallsShort(partitions, ends, polls, u)
    {
      assert FallsShort(partitions, ends, polls, used);
      FlattenNext(polls, used);
      keys, positions := ReadPoll(partitions, portions, polls[used], run, positions, keys);
      portions, used := portions + polls[used], used + 1;
    }
  }

  lemma {:induction false} PolledNext(partitions: seq<seq<ReturnRecord>>, before: seq<Portion>, poll: seq<Portion>,
                                      j: nat)
    requires j < |poll|
    ensures Polled(partitions, before + poll[..j + 1])
         == Moved(partitions, Polled(partitions, before + poll[..j]), poll[j])
  {
    assert (before + poll[..j + 1])[..|before| + j] == before + poll[..j];
  }

  method ReadPoll(partitions: seq<seq<ReturnRecord>>, ghost before: seq<Portion>, poll: seq<Portion>, run: string,
                  positions: seq<nat>, keys: set<string>)
    returns (keys': set<string>, positions': seq<nat>)
    requires positions == Polled(partitions, before) && Collected(keys, partitions, positions, run)
    ensures positions' == Polled(partitions, before + poll) && Collected(keys', partitions, positions', run)
  {
    keys', positions' := keys, positions;
    assert before + poll[..0] == before;
    for j := 0 to |poll|
      invariant positions' == Polled(partitions, before + poll[..j])
      invariant Collected(keys', partitions, positions', run)
    {
      PolledNext(partitions, before, poll, j);
      keys', positions' := ReadPortion(partitions, positions', poll[j], run, keys');
    }
    assert poll[..|poll|] == poll;
  }

  method ReadPortion(partitions: seq<seq<ReturnRecord>>, positions: seq<nat>, portion: Portion, run: string,
                     keys: set<string>)
    returns (keys': set<string>, positions': seq<nat>)
    requires |positions| == |partitions| && forall p | 0 <= p < |positions| :: positions[p] <= |partitions[p]|
    requires Collected(keys, partitions, positions, run)
    ensures positions' == Moved(partitions, positions, portion) && Collected(keys', partitions, positions', run)
  {
    keys', positions' := keys, positions;
    if portion.partition >= |partitions| {
      return;
    }
    var p := portion.partition;
    var left := portion.size;
    while left > 0 && positions'[p] < |partitions[p]|
      invariant 0 <= left <= portion.size && positions[p] + (portion.size - left) <= |partitions[p]|
      invariant positions' == positions[p := positions[p] + (portion.size - left)]
      invariant Collected(keys', partitions, positions', run)
    {
      var record := partitions[p][positions'[p]];
      if CountsFor(record, run) {
        keys' := keys' + {record.key.value};
      }
      positions' := positions'[p := positions'[p] + 1];
      left := left - 1;
    }
  }

  // ---- matching -------------------------------------------------------------------------------

  /** The key column of the run's target rows, as a list of keys: null and blank ones are dropped. */
  method ReadTargetKeys(column: seq<Option<string>>) returns (keys: seq<string>)
    ensures keys == TargetKeys(column)
  {
    keys := [];
    for i := 0 to |column|
      invariant keys == TargetKeys(column[..i])
    {
      assert column[..i + 1][..i] == column[..i];
      if !Missing(column[i]) {
        keys := keys + [column[i].value];
      }
    }
    assert column[..|column|] == column;
  }

  function TargetKeys(column: seq<Option<string>>): seq<string> {
    if column == [] then []
    else
      var last := column[|column| - 1];
      TargetKeys(column[..|column| - 1]) + (if Missing(last) then [] else [last.value])
  }

  lemma {:induction false} TargetKeysAreThoseNotBlank(column: seq<Option<string>>)
    ensures forall cell | cell in column && !Missing(cell) :: cell.value in TargetKeys(column)
    ensures forall key | key in TargetKeys(column) :: Some(key) in column
    ensures |TargetKeys(column)| == |column| <==> forall cell | cell in column :: !Missing(cell)
    ensures |TargetKeys(column)| <= |column|
  {
    if column != [] {
      var before, last := column[..|column| - 1], column[|column| - 1];
      TargetKeysAreThoseNotBlank(before);
      assert column == before + [last];
    }
  }

  datatype Match = Match(enabled: bool, targetRows: nat, confirmations: nat, unconfirmed: seq<string>)
  {
    function ConfirmedTargetRows(): int {
      targetRows - |unconfirmed|
    }

    predicate AllConfirmed() {
      enabled && unconfirmed == []
    }
  }

  /** The distinct target keys without a confirmation, each at its first occurrence. */
  function Unconfirmed(targetKeys: seq<string>, confirmed: set<string>): seq<string> {
    if targetKeys == [] then []
    else
      var before, key := targetKeys[..|targetKeys| - 1], targetKeys[|targetKeys| - 1];
      Unconfirmed(before, confirmed) + (if key in before || key in confirmed then [] else [key])
  }

  method MatchConfirmations(targetKeys: seq<string>, confirmed: set<string>, enabled: bool) returns (m: Match)
    ensures m.enabled == enabled && m.targetRows == |targetKeys|
    ensures enabled ==> m.unconfirmed == Unconfirmed(targetKeys, confirmed) && m.confirmations == |confirmed|
    ensures !enabled ==> m.unconfirmed == [] && m.confirmations == 0
    ensures m.AllConfirmed() <==> enabled && forall key | key in targetKeys :: key in confirmed
  {
    if !enabled {
      return Match(false, |targetKeys|, 0, []);
    }
    var unconfirmed: seq<string> := [];
    var seen: set<string> := {};
    for i := 0 to |targetKeys|
      invariant unconfirmed == Unconfirmed(targetKeys[..i], confirmed) && seen == Elements(targetKeys[..i])
    {
      var key := targetKeys[i];
      assert targetKeys[..i + 1][..i] == targetKeys[..i] && targetKeys[..i + 1] == targetKeys[..i] + [key];
      ElementsNext(targetKeys[..i], key);
      if key in seen {
        continue;
      }
      seen := seen + {key};
      if key !in confirmed {
        unconfirmed := unconfirmed + [key];
      }
    }
    assert targetKeys[..|targetKeys|] == targetKeys;
    NoneUnconfirmedExactly(targetKeys, confirmed);
    m := Match(true, |targetKeys|, |confirmed|, unconfirmed);
  }

  /** Nothing unconfirmed means every target key confirmed. */
  lemma {:induction false} NoneUnconfirmedExactly(targetKeys: seq<string>, confirmed: set<string>)
    ensures Unconfirmed(targetKeys, confirmed) == [] <==> forall key | key in targetKeys :: key in confirmed
  {
    UnconfirmedLists(targetKeys, confirmed);
    DistinctExactly(Unconfirmed(targetKeys, confirmed));
    assert forall key | key in targetKeys && key !in confirmed :: key in Elements(targetKeys) - confirmed;
    assert (forall key | key in targetKeys :: key in confirmed) ==> Elements(targetKeys) - confirmed == {};
  }

  lemma {:induction false} UnconfirmedLists(targetKeys: seq<string>, confirmed: set<string>)
    ensures Distinct(Unconfirmed(targetKeys, confirmed))
    ensures Elements(Unconfirmed(targetKeys, confirmed)) == Elements(targetKeys) - confirmed
  {
    if targetKeys != [] {
      var before, key := targetKeys[..|targetKeys| - 1], targetKeys[|targetKeys| - 1];
      UnconfirmedLists(before, confirmed);
      assert targetKeys == before + [key];
      ElementsNext(before, key);
      var u := Unconfirmed(before, confirmed);
      ElementsNext(u, key);
      assert key in before <==> key in Elements(before);
      assert forall x | x in u :: x in Elements(u);
      if key in before || key in confirmed {
        assert Elements(targetKeys) - confirmed == Elements(before) - confirmed;
      } else {
        assert Unconfirmed(targetKeys, confirmed) == u + [key];
        assert key !in u;
      }
    }
  }

  function RowsWith(targetKeys: seq<string>, confirmed: set<string>): nat {
    if targetKeys == [] then 0
    else RowsWith(targetKeys[..|targetKeys| - 1], confirmed)
         + (if targetKeys[|targetKeys| - 1] in confirmed then 1 else 0)
  }

  function RowsWithout(targetKeys: seq<string>, confirmed: set<string>): seq<string> {
    if targetKeys == [] then []
    else RowsWithout(targetKeys[..|targetKeys| - 1], confirmed)
         + (if targetKeys[|targetKeys| - 1] in confirmed then [] else [targetKeys[|targetKeys| - 1]])
  }

  lemma {:induction false} RowsSplit(targetKeys: seq<string>, confirmed: set<string>)
    ensures RowsWith(targetKeys, confirmed) + |RowsWithout(targetKeys, confirmed)| == |targetKeys|
    ensures Elements(RowsWithout(targetKeys, confirmed)) == Elements(targetKeys) - confirmed
  {
    if targetKeys != [] {
      var before, key := targetKeys[..|targetKeys| - 1], targetKeys[|targetKeys| - 1];
      RowsSplit(before, confirmed);
      assert targetKeys == before + [key];
      ElementsNext(before, key);
      ElementsNext(RowsWithout(before, confirmed), key);
    }
  }

  /**
   * The reported count of confirmed rows is the number of rows whose key was confirmed exactly when
   * no unconfirmed key is on two rows; otherwise it is too high.
   */
  lemma {:induction false} ConfirmedRowsExactly(targetKeys: seq<string>, confirmed: set<string>, m: Match)
    requires m.targetRows == |targetKeys| && m.unconfirmed == Unconfirmed(targetKeys, confirmed)
    ensures m.ConfirmedTargetRows() >= RowsWith(targetKeys, confirmed)
    ensures m.ConfirmedTargetRows() == RowsWith(targetKeys, confirmed)
            <==> Distinct(RowsWithout(targetKeys, confirmed))
  {
    RowsSplit(targetKeys, confirmed);
    UnconfirmedLists(targetKeys, confirmed);
    DistinctExactly(m.unconfirmed);
    DistinctExactly(RowsWithout(targetKeys, confirmed));
  }

  /** Two rows, no confirmation at all, and one row reported confirmed. */
  lemma {:induction false} ConfirmedRowsOverstated()
    ensures var m := Match(true, 2, 0, Unconfirmed(["k", "k"], {}));
            m.ConfirmedTargetRows() == 1 && RowsWith(["k", "k"], {}) == 0
  {
    assert ["k", "k"][..1] == ["k"] && ["k"][..0] == [];
    assert Unconfirmed(["k"], {}) == ["k"];
    assert Unconfirmed(["k", "k"], {}) == ["k"];
    assert RowsWith(["k"], {}) == 0;
  }

  // ---- the verdict ----------------------------------------------------------------------------

  /** What reconciliation counts, each number read from where it was recorded. */
  datatype Evidence = Evidence(srcRead: int, written: int, rejected: int, lineageRejected: int, orphanTargets: nat)

  datatype Failure = DoesNotBalance | LedgerDisagrees | OrphanTargets | UnconfirmedTargets | NoConfirmationStream

  /** The exits in the order they are taken; `None` is exit code zero. */
  function Verdict(e: Evidence, m: Match, allowUnconfirmedLoad: bool): Option<Failure> {
    if e.srcRead != e.written + e.rejected then Some(DoesNotBalance)
    else if e.lineageRejected != e.rejected then Some(LedgerDisagrees)
    else if e.orphanTargets > 0 then Some(OrphanTargets)
    else if m.enabled then (if m.AllConfirmed() then None else Some(UnconfirmedTargets))
    else if allowUnconfirmedLoad then None
    else Some(NoConfirmationStream)
  }

  function Matched(targetKeys: seq<string>, confirmed: set<string>): Match {
    Match(true, |targetKeys|, |confirmed|, Unconfirmed(targetKeys, confirmed))
  }

  /**
   * Each way to fail comes exactly when its test is the first that does not hold, and a run passes
   * exactly when none fails: balance, lineage and orphans come first whether the stream was read or
   * not, then either every target key is confirmed or the missing stream is waived.
   */
  lemma {:induction false} VerdictExactly(e: Evidence, m: Match, waived: bool)
    ensures var v := Verdict(e, m, waived);
            var balances := e.srcRead == e.written + e.rejected;
            var agrees := e.lineageRejected == e.rejected;
            && (v == Some(DoesNotBalance) <==> !balances)
            && (v == Some(LedgerDisagrees) <==> balances && !agrees)
            && (v == Some(OrphanTargets) <==> balances && agrees && e.orphanTargets > 0)
            && (v == Some(UnconfirmedTargets) <==>
                  balances && agrees && e.orphanTargets == 0 && m.enabled && m.unconfirmed != [])
            && (v == Some(NoConfirmationStream) <==>
                  balances && agrees && e.orphanTargets == 0 && !m.enabled && !waived)
            && (v == None <==>
                  balances && agrees && e.orphanTargets == 0 && (if m.enabled then m.unconfirmed == [] else waived))
  {
  }

  /** With the stream read, a run passes exactly when all four tests hold; without it, only when that is waived. */
  lemma {:induction false} PassesExactly(e: Evidence, targetKeys: seq<string>, confirmed: set<string>, waived: bool)
    ensures Verdict(e, Matched(targetKeys, confirmed), waived) == None <==>
              && e.srcRead == e.written + e.rejected && e.lineageRejected == e.rejected && e.orphanTargets == 0
              && forall key | key in targetKeys :: key in confirmed
    ensures Verdict(e, Match(false, |targetKeys|, 0, []), waived) == None <==>
              && e.srcRead == e.written + e.rejected && e.lineageRejected == e.rejected && e.orphanTargets == 0
              && waived
  {
    NoneUnconfirmedExactly(targetKeys, confirmed);
  }
}
