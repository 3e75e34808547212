/** What follows from the invariants of the interleaved Load lane, for every run of it. */
module LoadSafety {
  import opened Wrappers
  import opened Messages
  import opened LoadProtocol
  import TS = TargetSystem
  import RS = ReturnStream
  import L = Loader

  lemma {:induction false} EveryRunKeepsInv(steps: seq<Step>)
    ensures Inv(Run(START, steps))
  {
    RunKeepsInv(START, steps);
  }

  /** Running on only adds to what an earlier point of the run had. */
  lemma {:induction false} RunOn(steps: seq<Step>, more: seq<Step>)
    ensures Run(START, steps + more) == Run(Run(START, steps), more)
    ensures Extends(Run(START, steps), Run(START, steps + more))
  {
    EveryRunKeepsInv(steps);
    RunKeepsInv(Run(START, steps), more);
    RunConcat(START, steps, more);
  }

  lemma {:induction false} RunConcat(w: World, steps: seq<Step>, more: seq<Step>)
    ensures Run(w, steps + more) == Run(Run(w, steps), more)
    decreases |more|
  {
    if more == [] {
      assert steps + more == steps;
    } else {
      assert (steps + more)[..|steps + more| - 1] == steps + more[..|more| - 1];
      RunConcat(w, steps, more[..|more| - 1]);
    }
  }

  /**
   * Over every interleaving a key is announced as created at most once, and a created event means
   * its account is stored and its key claimed for that account.
   */
  lemma {:induction false} CreatedAtMostOnce(steps: seq<Step>, i: nat, j: nat)
    requires i < |Run(START, steps).mock.confirmations| && j < |Run(START, steps).mock.confirmations|
    ensures var m := Run(START, steps).mock;
            var r, q := m.confirmations[i], m.confirmations[j];
            && (SaysCreated(r) && SaysCreated(q) && r.key.Some? && r.key == q.key ==> i == j)
            && (SaysCreated(r) ==> r.value.value.accountId in m.store.accounts)
            && (r.key.Some? ==> r.key.value in m.store.idempotency)
  {
    EveryRunKeepsInv(steps);
    var m := Run(START, steps).mock;
    if i < j {
      assert Apart(m.confirmations[i], m.confirmations[j]);
    } else if j < i {
      assert Apart(m.confirmations[j], m.confirmations[i]);
    }
    assert EventIsTrue(m.store, m.confirmations[i]);
  }

  lemma {:induction false} RunNext(w: World, steps: seq<Step>, s: Step)
    ensures Run(w, steps + [s]) == Do(Run(w, steps), s)
  {
    assert (steps + [s])[..|steps|] == steps;
  }

  /** What is committed is not read again, and what is not is: going back leads to the position last committed at. */
  lemma {:induction false} RewindsToCommit(w: World, steps: seq<Step>)
    requires CONSUMER !in w.mock.tasks && CONSUMER !in Run(Do(w, Commit), steps).mock.tasks
    requires forall i | 0 <= i < |steps| :: !steps[i].Commit?
    ensures Do(Run(Do(w, Commit), steps), Rewind).position == w.position
  {
    CommittedStays(Do(w, Commit), steps);
  }

  lemma {:induction false} CommittedStays(w: World, steps: seq<Step>)
    requires forall i | 0 <= i < |steps| :: !steps[i].Commit?
    ensures Run(w, steps).committed == w.committed
  {
    if steps != [] {
      CommittedStays(w, steps[..|steps| - 1]);
      assert !steps[|steps| - 1].Commit?;
    }
  }

  /** What the loader's send and others' put on the topic, and that the key counts as published either way. */
  lemma {:induction false} SendsSay(w: World, doc: Doc, sent: bool, m: Message)
    ensures var w' := Do(w, Offer(doc, sent));
            var identified := !Missing(doc.accountId) && !Missing(doc.dedupKey);
            && w'.published == (if identified then w.published + {doc.dedupKey.value} else w.published)
            && w'.topic == w.topic + (if identified && sent then [Message(doc.dedupKey, Some(doc))] else [])
    ensures Do(w, Foreign(m)).topic == w.topic + [m] && Do(w, Foreign(m)).published == w.published
  {
  }

  // ---- settling ------------------------------------------------------------------------------

  function Heard(w: World, run: string): RS.Verdicts {
    RS.ReadAll(w.seen, run, w.published)
  }

  predicate Speaks(r: ReturnRecord, run: string, key: string) {
    r.key == Some(key) && r.value.Some? && r.value.value.runId == run
  }

  /** A key the loader counts as settled was claimed, or rejected in this run's name. */
  lemma {:induction false} SettledKeyIsApplied(steps: seq<Step>, run: string, key: string)
    ensures var w := Run(START, steps);
            && (key in Heard(w, run).confirmed + Heard(w, run).duplicates ==> key in w.mock.store.idempotency)
            && (key in Heard(w, run).rejected ==> exists r :: r in w.rejections && Speaks(r, run, key))
  {
    var w := Run(START, steps);
    EveryRunKeepsInv(steps);
    RS.ReadMeansLastWord(w.seen, key, run, w.published);
    if key in Heard(w, run).confirmed + Heard(w, run).duplicates {
      var i: nat :| RS.IsLastWord(w.seen, i, key, run, w.published) && RS.KindOf(w.seen[i]) != RS.SaysRejected;
      assert w.seen[i] in w.seen && w.seen[i] !in w.rejections;
      assert EventIsTrue(w.mock.store, w.seen[i]);
    }
    if key in Heard(w, run).rejected {
      var i :| 0 <= i < |w.seen| && RS.SpeaksOf(w.seen[i], key, run, w.published)
               && RS.KindOf(w.seen[i]) == RS.SaysRejected;
      assert w.seen[i] in w.seen;
      assert w.seen[i] in w.mock.confirmations ==> EventIsTrue(w.mock.store, w.seen[i]);
      assert w.seen[i] in w.rejections && Speaks(w.seen[i], run, key);
    }
  }

  /** No key is counted as created by two runs, however many loaders have published it. */
  lemma {:induction false} AcceptedByOneRun(steps: seq<Step>, run: string, other: string, key: string)
    requires key in Heard(Run(START, steps), run).confirmed && key in Heard(Run(START, steps), other).confirmed
    ensures run == other
  {
    var i := CreationHeard(steps, run, key);
    var j := CreationHeard(steps, other, key);
    CreatedAtMostOnce(steps, i, j);
  }

  lemma {:induction false} CreationHeard(steps: seq<Step>, run: string, key: string) returns (i: nat)
    requires key in Heard(Run(START, steps), run).confirmed
    ensures var m := Run(START, steps).mock;
            i < |m.confirmations| && Speaks(m.confirmations[i], run, key) && SaysCreated(m.confirmations[i])
  {
    var w := Run(START, steps);
    EveryRunKeepsInv(steps);
    RS.ReadMeansLastWord(w.seen, key, run, w.published);
    var k: nat :| RS.IsLastWord(w.seen, k, key, run, w.published) && RS.KindOf(w.seen[k]) == RS.SaysCreated;
    assert w.seen[k] in w.seen && w.seen[k] !in w.rejections;
    i :| 0 <= i < |w.mock.confirmations| && w.mock.confirmations[i] == w.seen[k];
    assert EventIsTrue(w.mock.store, w.mock.confirmations[i]);
  }

  /** No unsettled key: every published key is claimed at Target System or rejected for this run. */
  lemma {:induction false} NothingUnsettledMeansAppliedOrRejected(steps: seq<Step>, run: string)
    requires Run(START, steps).published <= RS.Spoken(Heard(Run(START, steps), run))
    ensures var w := Run(START, steps);
            forall key | key in w.published ::
              key in w.mock.store.idempotency || exists r :: r in w.rejections && Speaks(r, run, key)
  {
    var w := Run(START, steps);
    forall key | key in w.published
      ensures key in w.mock.store.idempotency || exists r :: r in w.rejections && Speaks(r, run, key)
    {
      SettledKeyIsApplied(steps, run, key);
      assert key in RS.Spoken(Heard(w, run));
    }
  }

  /** Whoever else sends documents of the run, as the JSON producer does, sends none that is refused. */
  predicate OthersAreAdmitted(run: string, steps: seq<Step>) {
    forall i | 0 <= i < |steps| && steps[i].Foreign? && steps[i].m.body.Some? && steps[i].m.body.value.runId == run ::
      TS.Screen(steps[i].m).Admitted?
  }

  ghost predicate NoRejectionFor(w: World, run: string) {
    && (forall m | m in w.topic ::
          L.SentByLoader(m, w.published) || m.body.None? || m.body.value.runId != run || TS.Screen(m).Admitted?)
    && (forall r | r in w.rejections :: r.value.Some? && r.value.value.runId != run)
  }

  lemma {:induction false} LoaderIsNeverRejected(steps: seq<Step>, run: string)
    requires run != "" && OthersAreAdmitted(run, steps)
    ensures NoRejectionFor(Run(START, steps), run)
  {
    if steps != [] {
      var n := |steps| - 1;
      LoaderIsNeverRejected(steps[..n], run);
      var w, w' := Run(START, steps[..n]), Run(START, steps);
      match steps[n]
      case Offer(_, _) =>
      case Foreign(m) =>
        assert m.body.Some? && m.body.value.runId == run ==> TS.Screen(steps[n].m).Admitted?;
      case Fetch(_) =>
        if CONSUMER !in w.mock.tasks && w.position < |w.topic| {
          var m := w.topic[w.position];
          assert m in w.topic;
          if L.SentByLoader(m, w.published) {
            L.LoaderDocumentsAreAdmitted(m.body.value);
          }
        }
      case _ =>
    }
  }

  /**
   * When nobody sends a document of the run that is refused, the settle loop's count is honest and
   * its answer is the good one: leaving before the deadline means every published key is claimed.
   */
  lemma {:induction false} EarlyExitMeansAllClaimed(steps: seq<Step>, run: string)
    requires run != "" && OthersAreAdmitted(run, steps)
    ensures var w := Run(START, steps);
            && Heard(w, run).rejected == map[]
            && (RS.Progress(Heard(w, run)) >= |w.published| ==>
                  w.published == RS.Spoken(Heard(w, run)) && w.published <= w.mock.store.idempotency.Keys)
  {
    var w := Run(START, steps);
    EveryRunKeepsInv(steps);
    LoaderIsNeverRejected(steps, run);
    forall key ensures key !in Heard(w, run).rejected {
      SettledKeyIsApplied(steps, run, key);
    }
    assert Heard(w, run).rejected == map[];
    RS.CountedTwice(w.seen, run, w.published);
    RS.ReadCollects(w.seen, run, w.published);
    if RS.Progress(Heard(w, run)) >= |w.published| {
      assert w.published - RS.Spoken(Heard(w, run)) == {};
      forall key | key in w.published ensures key in w.mock.store.idempotency {
        assert key !in w.published - RS.Spoken(Heard(w, run));
        SettledKeyIsApplied(steps, run, key);
      }
    }
  }
}
