/**
 * The loader and reconciliation never talk to each other: each reads the confirmation topic on its
 * own. This is why their verdicts cannot contradict each other.
 */
module Agreement {
  import opened Wrappers
  import opened Messages
  import opened LoadProtocol
  import opened LoadSafety
  import opened LoadStorage
  import RS = ReturnStream
  import R = Recon

  /** Every record of the log is in some partition, before the end offset reconciliation reads up to. */
  ghost predicate Covers(partitions: seq<seq<ReturnRecord>>, ends: seq<nat>, confirmations: seq<ReturnRecord>)
    requires |ends| == |partitions|
  {
    forall r | r in confirmations :: exists p: nat, i: nat ::
      R.IsRead(partitions, ends, p, i) && partitions[p][i] == r
  }

  ghost predicate ComesFrom(partitions: seq<seq<ReturnRecord>>, confirmations: seq<ReturnRecord>) {
    forall p, i | 0 <= p < |partitions| && 0 <= i < |partitions[p]| :: partitions[p][i] in confirmations
  }

  /** What the loader heard as settled by the end of `steps`, a full read taken after `more` collects too. */
  lemma {:induction false} HeardIsCollected(steps: seq<Step>, more: seq<Step>, run: string,
                                            partitions: seq<seq<ReturnRecord>>, ends: seq<nat>,
                                            positions: seq<nat>, keys: set<string>, key: string)
    requires |ends| == |partitions| == |positions|
    requires Covers(partitions, ends, Run(START, steps + more).mock.confirmations)
    requires R.AllReachedEnd(positions, ends) && R.Collected(keys, partitions, positions, run)
    requires key in Heard(Run(START, steps), run).confirmed + Heard(Run(START, steps), run).duplicates
    ensures key in keys
  {
    var w := Run(START, steps);
    EveryRunKeepsInv(steps);
    RS.ReadMeansLastWord(w.seen, key, run, w.published);
    var i: nat :| RS.IsLastWord(w.seen, i, key, run, w.published) && RS.KindOf(w.seen[i]) != RS.SaysRejected;
    assert w.seen[i] in w.seen && w.seen[i] !in w.rejections;
    RunOn(steps, more);
    assert w.seen[i] in Run(START, steps + more).mock.confirmations;
    var p: nat, j: nat :| R.IsRead(partitions, ends, p, j) && partitions[p][j] == w.seen[i];
    assert R.IsRead(partitions, positions, p, j) && R.CountsFor(partitions[p][j], run);
  }

  /**
   * If the loader ends with nothing unsettled and nothing rejected, then reconciliation, reading
   * the same log to end offsets taken later, finds every target key among the published ones
   * confirmed.
   */
  lemma {:induction false} CleanLoadReconciles(steps: seq<Step>, more: seq<Step>, run: string,
                                               partitions: seq<seq<ReturnRecord>>, ends: seq<nat>,
                                               positions: seq<nat>, keys: set<string>, targetKeys: seq<string>)
    requires |ends| == |partitions| == |positions|
    requires Covers(partitions, ends, Run(START, steps + more).mock.confirmations)
    requires R.AllReachedEnd(positions, ends) && R.Collected(keys, partitions, positions, run)
    requires Run(START, steps).published <= RS.Spoken(Heard(Run(START, steps), run))
    requires Heard(Run(START, steps), run).rejected == map[]
    requires forall key | key in targetKeys :: key in Run(START, steps).published
    ensures R.Unconfirmed(targetKeys, keys) == []
  {
    forall key | key in targetKeys ensures key in keys {
      HeardIsCollected(steps, more, run, partitions, ends, positions, keys, key);
    }
    R.NoneUnconfirmedExactly(targetKeys, keys);
  }

  /**
   * When nobody sends a document of the run that is refused, there is nothing to assume about
   * rejections: leaving the settle loop before its deadline is enough.
   */
  lemma {:induction false} EarlyExitReconciles(steps: seq<Step>, more: seq<Step>, run: string,
                                               partitions: seq<seq<ReturnRecord>>, ends: seq<nat>,
                                               positions: seq<nat>, keys: set<string>, targetKeys: seq<string>)
    requires run != "" && OthersAreAdmitted(run, steps)
    requires |ends| == |partitions| == |positions|
    requires Covers(partitions, ends, Run(START, steps + more).mock.confirmations)
    requires R.AllReachedEnd(positions, ends) && R.Collected(keys, partitions, positions, run)
    requires RS.Progress(Heard(Run(START, steps), run)) >= |Run(START, steps).published|
    requires forall key | key in targetKeys :: key in Run(START, steps).published
    ensures R.Unconfirmed(targetKeys, keys) == []
  {
    EarlyExitMeansAllClaimed(steps, run);
    CleanLoadReconciles(steps, more, run, partitions, ends, positions, keys, targetKeys);
  }

  /**
   * Conversely: all confirmed, at any later point of the run, means every target key is claimed, and
   * stored too unless an HTTP thread stands right before storing its account.
   */
  lemma {:induction false} ReconciledMeansClaimed(steps: seq<Step>, run: string, partitions: seq<seq<ReturnRecord>>,
                                                  positions: seq<nat>, keys: set<string>, targetKeys: seq<string>)
    requires ComesFrom(partitions, Run(START, steps).mock.confirmations)
    requires R.Collected(keys, partitions, positions, run)
    requires R.Unconfirmed(targetKeys, keys) == []
    ensures var m := Run(START, steps).mock;
            forall key | key in targetKeys :: key in m.store.idempotency && (IsStored(m, key) <==> !IsAwaited(m, key))
    ensures ConsumerOnly(steps) || HttpOnly(steps) ==>
              forall key | key in targetKeys :: IsStored(Run(START, steps).mock, key)
  {
    var m := Run(START, steps).mock;
    EveryRunKeepsInv(steps);
    R.NoneUnconfirmedExactly(targetKeys, keys);
    forall key | key in targetKeys
      ensures key in m.store.idempotency && (IsStored(m, key) <==> !IsAwaited(m, key))
      ensures ConsumerOnly(steps) || HttpOnly(steps) ==> IsStored(m, key)
    {
      var p: nat, i: nat :| R.IsRead(partitions, positions, p, i) && R.CountsFor(partitions[p][i], run)
                            && partitions[p][i].key.value == key;
      assert EventIsTrue(m.store, partitions[p][i]);
      AnnouncedIsStoredExactly(steps, partitions[p][i]);
      if ConsumerOnly(steps) || HttpOnly(steps) {
        ConfirmedMeansStored(steps, partitions[p][i]);
      }
    }
  }

  /**
   * A run that reconciles has every source record accounted for: rejected with its lineage, or a
   * target row whose key Target System has claimed and whose account it holds or is about to, or,
   * for reconciliation passes over it, a target row without a key.
   */
  lemma {:induction false} PassedRunIsAccountedFor(steps: seq<Step>, run: string, partitions: seq<seq<ReturnRecord>>,
                                                   positions: seq<nat>, keys: set<string>, column: seq<Option<string>>,
                                                   e: R.Evidence, waived: bool)
    requires ComesFrom(partitions, Run(START, steps).mock.confirmations)
    requires R.Collected(keys, partitions, positions, run)
    requires e.written == |column| && R.Verdict(e, R.Matched(R.TargetKeys(column), keys), waived) == None
    ensures e.srcRead == |column| + e.rejected && e.lineageRejected == e.rejected
    ensures var m := Run(START, steps).mock;
            forall cell | cell in column && !Missing(cell) ::
              cell.value in m.store.idempotency && (IsStored(m, cell.value) <==> !IsAwaited(m, cell.value))
    ensures ConsumerOnly(steps) || HttpOnly(steps) ==>
              forall cell | cell in column && !Missing(cell) :: IsStored(Run(START, steps).mock, cell.value)
  {
    var targetKeys := R.TargetKeys(column);
    R.PassesExactly(e, targetKeys, keys, waived);
    R.NoneUnconfirmedExactly(targetKeys, keys);
    ReconciledMeansClaimed(steps, run, partitions, positions, keys, targetKeys);
    R.TargetKeysAreThoseNotBlank(column);
  }
}
