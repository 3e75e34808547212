/**
 * What a send that never reached the target topic can and cannot hide behind, and when a load can
 * still succeed or come to be rejected. The loader counts a key as published either way, and settles
 * by what the return topics say about it.
 */
module LostSends {
  import opened Text
  import opened Wrappers
  import opened Messages
  import opened LoadProtocol
  import opened LoadSafety
  import opened LoadStorage
  import opened LoadDelivery
  import opened LoadRefinement
  import TS = TargetSystem
  import RS = ReturnStream
  import L = Loader

  /** The run a message belongs to; one that does not parse is answered in the name of the empty run. */
  function RunOf(body: Option<Doc>): string {
    if body.None? then "" else body.value.runId
  }

  predicate Carries(m: Message, run: string, key: string) {
    m.key == Some(key) && RunOf(m.body) == run
  }

  predicate Holds(t: Task, run: string, key: string) {
    t.key == Some(key) && t.doc.runId == run
  }

  /** The step puts the key before Target System in the name of the run. A lost send does not. */
  predicate Produces(s: Step, run: string, key: string) {
    match s
    case Offer(doc, sent) =>
      sent && L.Identify(doc).Ok? && Carries(Message(Some(L.Identify(doc).value.key), Some(doc)), run, key)
    case Foreign(m) => Carries(m, run, key)
    case Request(_, header, doc) => header == Some(key) && doc.runId == run
    case _ => false
  }

  /** Nothing has been said about the key, nothing in hand or still to be read will make anyone say it. */
  ghost predicate Silent(w: World, run: string, key: string) {
    && w.committed <= w.position
    && (forall r | r in w.mock.confirmations || r in w.rejections :: !Speaks(r, run, key))
    && (forall id | id in w.mock.tasks :: !Holds(w.mock.tasks[id], run, key))
    && (forall i | w.committed <= i < |w.topic| :: !Carries(w.topic[i], run, key))
  }

  lemma {:induction false} SilentAdvance(m: Service, id: nat, brokerUp: bool, run: string, key: string)
    requires id in m.tasks && forall j | j in m.tasks :: !Holds(m.tasks[j], run, key)
    requires forall r | r in m.confirmations :: !Speaks(r, run, key)
    ensures var m' := Advanced(m, id, brokerUp);
            && (forall j | j in m'.tasks :: !Holds(m'.tasks[j], run, key))
            && (forall r | r in m'.confirmations :: !Speaks(r, run, key))
  {
    assert forall created :: !Speaks(EventOf(m.tasks[id], created), run, key);
  }

  lemma {:induction false} SilentStays(w: World, s: Step, run: string, key: string)
    requires Silent(w, run, key) && !Produces(s, run, key)
    ensures Silent(Do(w, s), run, key)
  {
    match s
    case Advance(id, brokerUp) =>
      if id in w.mock.tasks {
        SilentAdvance(w.mock, id, brokerUp, run, key);
      }
    case Fetch(brokerUp) =>
      if CONSUMER !in w.mock.tasks && w.position < |w.topic| {
        assert !Carries(w.topic[w.position], run, key);
        assert forall r | r in TS.RejectionsFor(w.topic[w.position]) :: !Speaks(r, run, key);
      }
    case _ =>
  }

  lemma {:induction false} SilentRun(w: World, steps: seq<Step>, run: string, key: string)
    requires Silent(w, run, key) && forall i | 0 <= i < |steps| :: !Produces(steps[i], run, key)
    ensures Silent(Run(w, steps), run, key)
  {
    if steps != [] {
      SilentRun(w, steps[..|steps| - 1], run, key);
      SilentStays(Run(w, steps[..|steps| - 1]), steps[|steps| - 1], run, key);
    }
  }

  lemma {:induction false} SilentIsUnspoken(steps: seq<Step>, run: string, key: string)
    requires Silent(Run(START, steps), run, key)
    ensures key !in RS.Spoken(Heard(Run(START, steps), run))
  {
    var w := Run(START, steps);
    EveryRunKeepsInv(steps);
    RS.ReadCollects(w.seen, run, w.published);
    forall i | 0 <= i < |w.seen| ensures !RS.SpeaksOf(w.seen[i], key, run, w.published) {
      assert w.seen[i] in w.seen;
    }
  }

  /** Every verdict answers something that reached Target System, on the topic or over HTTP. */
  lemma {:induction false} SpokenWasSent(steps: seq<Step>, r: ReturnRecord, run: string, key: string)
    requires r in Run(START, steps).mock.confirmations || r in Run(START, steps).rejections
    requires Speaks(r, run, key)
    ensures exists i :: 0 <= i < |steps| && Produces(steps[i], run, key)
    ensures ConsumerOnly(steps) ==> exists m :: m in Run(START, steps).topic && Carries(m, run, key)
  {
    if forall i | 0 <= i < |steps| :: !Produces(steps[i], run, key) {
      SilentRun(START, steps, run, key);
      assert false;
    }
    if ConsumerOnly(steps) {
      var i :| 0 <= i < |steps| && Produces(steps[i], run, key);
      ProducedIsOnTopic(steps, i, run, key);
    }
  }

  lemma {:induction false} ProducedIsOnTopic(steps: seq<Step>, i: nat, run: string, key: string)
    requires i < |steps| && Produces(steps[i], run, key) && !steps[i].Request?
    ensures exists m :: m in Run(START, steps).topic && Carries(m, run, key)
    decreases |steps|
  {
    var n := |steps| - 1;
    var w := Run(START, steps[..n]);
    if i < n {
      ProducedIsOnTopic(steps[..n], i, run, key);
      var m :| m in w.topic && Carries(m, run, key);
      EveryRunKeepsInv(steps[..n]);
      DoKeepsInv(w, steps[n]);
      assert m in Do(w, steps[n]).topic;
    } else {
      var m := if steps[n].Foreign? then steps[n].m
               else Message(Some(L.Identify(steps[n].doc).value.key), Some(steps[n].doc));
      assert m in Run(START, steps).topic;
    }
  }

  /**
   * A lost send shows when nothing else put its key before Target System in the run's name: the key
   * stays unsettled, however long the loader reads on, and the load fails.
   */
  lemma {:induction false} UnsentKeyIsUnsettled(steps: seq<Step>, run: string, key: string)
    requires key in Run(START, steps).published
    requires forall i | 0 <= i < |steps| :: !Produces(steps[i], run, key)
    ensures var w := Run(START, steps);
            key !in RS.Spoken(Heard(w, run)) && !(w.published <= RS.Spoken(Heard(w, run)))
  {
    SilentRun(START, steps, run, key);
    SilentIsUnspoken(steps, run, key);
  }

  // ---- when a lost send can go unnoticed ------------------------------------------------------

  /** Nobody puts anything more before Target System. */
  predicate Quiet(steps: seq<Step>) {
    forall i | 0 <= i < |steps| :: !steps[i].Offer? && !steps[i].Foreign? && !steps[i].Request?
  }

  ghost predicate HasVerdict(w: World, run: string, key: string) {
    exists r :: (r in w.mock.confirmations || r in w.rejections) && Speaks(r, run, key)
  }

  /** A verdict on the key is on the return topics, or a message with it may still be delivered. */
  ghost predicate Owed(w: World, run: string, key: string) {
    || HasVerdict(w, run, key)
    || (exists i: nat :: w.committed <= i < |w.topic| && Carries(w.topic[i], run, key))
  }

  lemma {:induction false} UnowedIsSilent(w: World, run: string, key: string)
    requires InHand(w) && !Owed(w, run, key)
    ensures Silent(w, run, key)
  {
    if CONSUMER in w.mock.tasks {
      assert !Carries(w.topic[w.position - 1], run, key);
    }
  }

  lemma {:induction false} PublishedKeysAreNotBlank(steps: seq<Step>)
    ensures forall key | key in Run(START, steps).published :: !Missing(Some(key))
  {
    if steps != [] {
      PublishedKeysAreNotBlank(steps[..|steps| - 1]);
    }
  }

  /** What a continuation without commits leaves alone, and the logs it only adds to. */
  predicate OnlyAdds(w: World, w': World) {
    && w'.topic == w.topic && w'.committed == w.committed && w'.published == w.published && w.seen <= w'.seen
    && w.mock.confirmations <= w'.mock.confirmations && w.rejections <= w'.rejections
  }

  function Advances(n: nat): (steps: seq<Step>)
    ensures |steps| == n && Quiet(steps)
  {
    seq(n, _ => Advance(CONSUMER, true))
  }

  lemma {:induction false} FinishIsRun(w: World, n: nat)
    ensures Finish(w, CONSUMER, n, true) == Run(w, Advances(n))
    decreases n
  {
    if n > 0 {
      FinishIsRun(Do(w, Advance(CONSUMER, true)), n - 1);
      assert Advances(n) == [Advance(CONSUMER, true)] + Advances(n - 1);
      RunConcat(w, [Advance(CONSUMER, true)], Advances(n - 1));
      RunNext(w, [], Advance(CONSUMER, true));
      assert [] + [Advance(CONSUMER, true)] == [Advance(CONSUMER, true)];
    }
  }

  function StepsLeft(t: Task): nat {
    match t.pc
    case Claiming => 4
    case Saving => 3
    case Announcing(_) => 2
    case Sending(_) => 1
  }

  lemma {:induction false} ThreadFinishes(w: World, n: nat)
    requires CONSUMER in w.mock.tasks ==> StepsLeft(w.mock.tasks[CONSUMER]) <= n
    ensures var w' := Finish(w, CONSUMER, n, true);
            OnlyAdds(w, w') && w'.position == w.position && w'.mock.tasks.Keys == w.mock.tasks.Keys - {CONSUMER}
    decreases n
  {
    if CONSUMER !in w.mock.tasks {
      IdleStaysIdle(w, CONSUMER, n, true);
    } else {
      ThreadFinishes(Do(w, Advance(CONSUMER, true)), n - 1);
    }
  }

  ghost predicate Answered(w: World, m: Message) {
    if TS.Screen(m).Refused? then TS.RejectionsFor(m)[0] in w.rejections
    else HasVerdict(w, RunOf(m.body), m.key.value)
  }

  lemma {:induction false} AnsweredIsSpokenOf(w: World, m: Message, run: string, key: string)
    requires Answered(w, m) && Carries(m, run, key)
    ensures HasVerdict(w, run, key)
  {
    if TS.Screen(m).Refused? {
      assert Speaks(TS.RejectionsFor(m)[0], run, key);
    }
  }

  lemma {:induction false} DeliveryAnswers(w: World, m: Message)
    requires !w.mock.suppress || TS.Screen(m).Refused?
    ensures Answered(AfterDelivery(w, m, true), m)
  {
    var w' := AfterDelivery(w, m, true);
    if TS.Screen(m).Refused? {
      assert w'.rejections[|w.rejections|] == TS.RejectionsFor(m)[0];
    } else {
      var r := TS.ConfirmationsFor(w.mock.store, m)[0];
      assert w'.mock.confirmations[|w.mock.confirmations|] == r && Speaks(r, RunOf(m.body), m.key.value);
    }
  }

  /** One record fetched and seen through. */
  function DeliverySteps(): (steps: seq<Step>)
    ensures Quiet(steps)
  {
    [Fetch(true)] + Advances(4)
  }

  lemma {:induction false} DeliveryStepsDeliver(w: World)
    requires CONSUMER !in w.mock.tasks && w.position < |w.topic|
    ensures Run(w, DeliverySteps()) == AfterDelivery(w, w.topic[w.position], true)
  {
    RunConcat(w, [Fetch(true)], Advances(4));
    RunNext(w, [], Fetch(true));
    assert [] + [Fetch(true)] == [Fetch(true)];
    FinishIsRun(Do(w, Fetch(true)), 4);
    DeliveryIsApply(w, true);
  }

  /** The record has its verdict, or it was the one the flag hid. */
  ghost predicate Heeded(w: World, w': World, m: Message) {
    if w.mock.suppress && TS.Screen(m).Admitted? then !w'.mock.suppress else Answered(w', m)
  }

  lemma {:induction false} DeliveryHeeds(w: World, m: Message)
    ensures var w' := AfterDelivery(w, m, true);
            OnlyAdds(w, w') && Heeded(w, w', m) && (!w.mock.suppress ==> !w'.mock.suppress)
  {
    if !w.mock.suppress || TS.Screen(m).Refused? {
      DeliveryAnswers(w, m);
    }
  }

  /** Delivers the next n records with nothing in between. */
  lemma {:induction false} Drain(w: World, n: nat) returns (more: seq<Step>)
    requires CONSUMER !in w.mock.tasks && w.position + n <= |w.topic|
    ensures Quiet(more)
    ensures var w' := Run(w, more);
            && OnlyAdds(w, w') && w'.position == w.position + n && w'.mock.tasks == w.mock.tasks
            && (!w.mock.suppress ==> !w'.mock.suppress)
            && (n > 0 ==> Heeded(w, w', w.topic[w.position + n - 1]))
    decreases n
  {
    if n == 0 {
      more := [];
    } else {
      var before := Drain(w, n - 1);
      var w1 := Run(w, before);
      var m := w.topic[w.position + n - 1];
      DeliveryStepsDeliver(w1);
      DeliveryHeeds(w1, m);
      more := before + DeliverySteps();
      RunConcat(w, before, DeliverySteps());
    }
  }

  lemma {:induction false} StillAnswered(w: World, w': World, m: Message)
    requires OnlyAdds(w, w') && Answered(w, m)
    ensures Answered(w', m)
  {
  }

  /** Going back to the committed offset twice gets any uncommitted record its verdict. */
  lemma {:induction false} ReplayAnswers(w: World, i: nat) returns (more: seq<Step>)
    requires InHand(w) && w.committed <= i < |w.topic|
    ensures Quiet(more) && OnlyAdds(w, Run(w, more)) && Answered(Run(w, more), w.topic[i])
  {
    var n := i - w.committed + 1;
    ThreadFinishes(w, 4);
    FinishIsRun(w, 4);
    var idle := Run(w, Advances(4));
    RunNext(w, Advances(4), Rewind);
    var first := Drain(Do(idle, Rewind), n);
    var passed := Run(Do(idle, Rewind), first);
    RunConcat(w, Advances(4) + [Rewind], first);
    var second := Drain(Do(passed, Rewind), n);
    RunNext(w, Advances(4) + [Rewind] + first, Rewind);
    RunConcat(w, Advances(4) + [Rewind] + first + [Rewind], second);
    more := Advances(4) + [Rewind] + first + [Rewind] + second;
    var w' := Run(w, more);
    if !passed.mock.suppress {
      assert Heeded(Do(passed, Rewind), w', w.topic[i]);
    } else {
      assert Answered(passed, w.topic[i]);
      StillAnswered(passed, w', w.topic[i]);
    }
  }

  lemma {:induction false} ReadSpeaks(steps: seq<Step>, r: ReturnRecord, run: string, key: string)
    requires key in Run(START, steps).published && Speaks(r, run, key)
    requires r in Run(START, steps).mock.confirmations || r in Run(START, steps).rejections
    ensures key in RS.Spoken(Heard(Run(START, steps + [Read(r)]), run))
    ensures OnlyAdds(Run(START, steps), Run(START, steps + [Read(r)]))
  {
    var w := Run(START, steps);
    RunNext(START, steps, Read(r));
    var w' := Run(START, steps + [Read(r)]);
    PublishedKeysAreNotBlank(steps);
    RS.ReadCollects(w'.seen, run, w'.published);
    assert RS.SpeaksOf(w'.seen[|w.seen|], key, run, w'.published);
  }

  /**
   * Exactly when a published key can still come to be spoken of with nothing more sent: a verdict on
   * it in the run's name is on the return topics, or an uncommitted message carries it. A send that
   * was lost is therefore hidden precisely by such a message or verdict of another send.
   */
  lemma {:induction false} LostSendIsHiddenExactly(steps: seq<Step>, run: string, key: string)
    requires ConsumerOnly(steps) && key in Run(START, steps).published
    ensures (exists more :: Quiet(more) && key in RS.Spoken(Heard(Run(START, steps + more), run)))
            <==> Owed(Run(START, steps), run, key)
  {
    var w := Run(START, steps);
    ConsumerHasInHand(steps);
    if !Owed(w, run, key) {
      UnowedIsSilent(w, run, key);
      forall more | Quiet(more) ensures key !in RS.Spoken(Heard(Run(START, steps + more), run)) {
        SilentRun(w, more, run, key);
        RunConcat(START, steps, more);
        SilentIsUnspoken(steps + more, run, key);
      }
    } else {
      var more := OwedIsAnswered(steps, run, key);
      assert Quiet(more);
    }
  }

  lemma {:induction false} OwedIsForthcoming(w: World, run: string, key: string) returns (more: seq<Step>)
    requires InHand(w) && Owed(w, run, key)
    ensures Quiet(more) && OnlyAdds(w, Run(w, more)) && HasVerdict(Run(w, more), run, key)
  {
    more := [];
    if !HasVerdict(w, run, key) {
      var i: nat :| w.committed <= i < |w.topic| && Carries(w.topic[i], run, key);
      more := ReplayAnswers(w, i);
      AnsweredIsSpokenOf(Run(w, more), w.topic[i], run, key);
    }
  }

  lemma {:induction false} SomeVerdict(w: World, run: string, key: string) returns (r: ReturnRecord)
    requires HasVerdict(w, run, key)
    ensures (r in w.mock.confirmations || r in w.rejections) && Speaks(r, run, key)
  {
    r :| (r in w.mock.confirmations || r in w.rejections) && Speaks(r, run, key);
  }

  lemma {:induction false} OwedIsAnswered(steps: seq<Step>, run: string, key: string) returns (more: seq<Step>)
    requires InHand(Run(START, steps)) && key in Run(START, steps).published && Owed(Run(START, steps), run, key)
    ensures Quiet(more) && key in RS.Spoken(Heard(Run(START, steps + more), run))
    ensures OnlyAdds(Run(START, steps), Run(START, steps + more))
  {
    var w := Run(START, steps);
    var before := OwedIsForthcoming(w, run, key);
    RunConcat(START, steps, before);
    var r := SomeVerdict(Run(START, steps + before), run, key);
    ReadSpeaks(steps + before, r, run, key);
    more := before + [Read(r)];
    assert steps + before + [Read(r)] == steps + more;
  }

  // ---- the whole load -------------------------------------------------------------------------

  lemma {:induction false} StillOwed(w: World, w': World, run: string, key: string)
    requires OnlyAdds(w, w') && Owed(w, run, key)
    ensures Owed(w', run, key)
  {
    if HasVerdict(w, run, key) {
      var r :| (r in w.mock.confirmations || r in w.rejections) && Speaks(r, run, key);
      assert r in w'.mock.confirmations || r in w'.rejections;
    }
  }

  lemma {:induction false} QuietIsConsumerOnly(steps: seq<Step>, more: seq<Step>)
    requires ConsumerOnly(steps) && Quiet(more)
    ensures ConsumerOnly(steps + more)
  {
    forall i | 0 <= i < |steps + more| ensures !(steps + more)[i].Request? {
      if i >= |steps| {
        assert !more[i - |steps|].Request?;
      }
    }
  }

  lemma {:induction false} StillSpokenOf(w: World, w': World, run: string)
    requires OnlyAdds(w, w')
    ensures RS.Spoken(Heard(w, run)) <= RS.Spoken(Heard(w', run))
  {
    RS.SpokenNeverShrinks(w.seen, w'.seen[|w.seen|..], run, w.published);
    assert w'.seen == w.seen + w'.seen[|w.seen|..];
  }

  lemma {:induction false} InHandAndOwed(steps: seq<Step>, before: seq<Step>, run: string, key: string)
    requires ConsumerOnly(steps) && Quiet(before) && OnlyAdds(Run(START, steps), Run(START, steps + before))
    requires Owed(Run(START, steps), run, key)
    ensures InHand(Run(START, steps + before)) && Owed(Run(START, steps + before), run, key)
  {
    StillOwed(Run(START, steps), Run(START, steps + before), run, key);
    QuietIsConsumerOnly(steps, before);
    ConsumerHasInHand(steps + before);
  }

  lemma {:induction false} QuietAppend(steps: seq<Step>, before: seq<Step>, last: seq<Step>)
    requires Quiet(before) && Quiet(last)
    ensures Quiet(before + last) && steps + before + last == steps + (before + last)
  {
  }

  lemma {:induction false} OneMoreAnswered(steps: seq<Step>, before: seq<Step>, run: string, key: string)
    returns (more: seq<Step>)
    requires ConsumerOnly(steps) && Quiet(before) && OnlyAdds(Run(START, steps), Run(START, steps + before))
    requires key in Run(START, steps).published && Owed(Run(START, steps), run, key)
    ensures Quiet(more) && OnlyAdds(Run(START, steps + before), Run(START, steps + more))
    ensures key in RS.Spoken(Heard(Run(START, steps + more), run))
  {
    InHandAndOwed(steps, before, run, key);
    var last := OwedIsAnswered(steps + before, run, key);
    more := before + last;
    QuietAppend(steps, before, last);
  }

  /** All the keys that are owed a verdict can be given it in one continuation. */
  lemma {:induction false} AllAreAnswered(steps: seq<Step>, run: string, keys: set<string>) returns (more: seq<Step>)
    requires ConsumerOnly(steps) && keys <= Run(START, steps).published
    requires forall key | key in keys :: Owed(Run(START, steps), run, key)
    ensures Quiet(more) && keys <= RS.Spoken(Heard(Run(START, steps + more), run))
    ensures OnlyAdds(Run(START, steps), Run(START, steps + more))
    decreases |keys|
  {
    if keys == {} {
      more := [];
      assert steps + more == steps;
    } else {
      var key :| key in keys;
      var before := AllAreAnswered(steps, run, keys - {key});
      more := OneMoreAnswered(steps, before, run, key);
      StillSpokenOf(Run(START, steps + before), Run(START, steps + more), run);
    }
  }

  /**
   * The load can still end with nothing unsettled exactly when each of its keys is owed a verdict,
   * whichever of its own sends were lost.
   */
  lemma {:induction false} LoadCanSettleExactly(steps: seq<Step>, run: string)
    requires ConsumerOnly(steps)
    ensures var published := Run(START, steps).published;
            (exists more :: Quiet(more) && published <= RS.Spoken(Heard(Run(START, steps + more), run)))
            <==> forall key | key in published :: Owed(Run(START, steps), run, key)
  {
    var published := Run(START, steps).published;
    if forall key | key in published :: Owed(Run(START, steps), run, key) {
      var more := AllAreAnswered(steps, run, published);
      assert Quiet(more);
    } else {
      var key :| key in published && !Owed(Run(START, steps), run, key);
      LostSendIsHiddenExactly(steps, run, key);
    }
  }

  /** Somebody else sends each document under its key, and the loader's own send of it is lost. */
  function SentBeside(docs: seq<Doc>): seq<Step>
    requires forall doc | doc in docs :: L.Identify(doc).Ok?
  {
    if docs == [] then []
    else
      var last := docs[|docs| - 1];
      SentBeside(docs[..|docs| - 1]) +
      [Foreign(Message(Some(L.Identify(last).value.key), Some(last))), Offer(last, false)]
  }

  lemma {:induction false} SentBesideNext(docs: seq<Doc>)
    requires docs != [] && forall doc | doc in docs :: L.Identify(doc).Ok?
    ensures var n := |docs| - 1;
            var key := L.Identify(docs[n]).value.key;
            var w := Run(START, SentBeside(docs[..n]));
            Run(START, SentBeside(docs))
            == w.(topic := w.topic + [Message(Some(key), Some(docs[n]))], published := w.published + {key})
  {
    var n := |docs| - 1;
    var before, sent := SentBeside(docs[..n]), Foreign(Message(Some(L.Identify(docs[n]).value.key), Some(docs[n])));
    RunNext(START, before, sent);
    RunNext(START, before + [sent], Offer(docs[n], false));
    assert SentBeside(docs) == before + [sent] + [Offer(docs[n], false)];
    assert Run(START, before).topic + [sent.m] + [] == Run(START, before).topic + [sent.m];
  }

  lemma {:induction false} SentBesideIsOwed(docs: seq<Doc>, run: string)
    requires forall doc | doc in docs :: L.Identify(doc).Ok? && doc.runId == run
    ensures var w := Run(START, SentBeside(docs));
            && ConsumerOnly(SentBeside(docs)) && w.committed == 0 && |w.topic| == |docs|
            && (forall doc | doc in docs :: L.Identify(doc).value.key in w.published)
            && forall key | key in w.published :: exists i: nat :: i < |w.topic| && Carries(w.topic[i], run, key)
  {
    if docs != [] {
      var n := |docs| - 1;
      assert docs == docs[..n] + [docs[n]];
      SentBesideIsOwed(docs[..n], run);
      SentBesideNext(docs);
      var w, w' := Run(START, SentBeside(docs[..n])), Run(START, SentBeside(docs));
      assert Carries(w'.topic[n], run, L.Identify(docs[n]).value.key);
      forall k | k in w'.published ensures exists i: nat :: i < |w'.topic| && Carries(w'.topic[i], run, k) {
        if k in w.published {
          var i: nat :| i < |w.topic| && Carries(w.topic[i], run, k);
          assert w'.topic[i] == w.topic[i];
        }
      }
    }
  }

  /**
   * The standing case: the JSON producer has the documents on the target topic in the run's name
   * before the loader sends them. Then the loader may lose every single send and succeed.
   */
  lemma {:induction false} ProducerHidesEveryLoss(docs: seq<Doc>, run: string) returns (more: seq<Step>)
    requires forall doc | doc in docs :: L.Identify(doc).Ok? && doc.runId == run
    ensures Quiet(more)
    ensures var w := Run(START, SentBeside(docs) + more);
            && |w.topic| == |docs| && (forall doc | doc in docs :: L.Identify(doc).value.key in w.published)
            && w.published <= RS.Spoken(Heard(w, run))
  {
    SentBesideIsOwed(docs, run);
    more := AllAreAnswered(SentBeside(docs), run, Run(START, SentBeside(docs)).published);
  }

  // ---- rejections -----------------------------------------------------------------------------

  ghost predicate HasRejection(w: World, run: string) {
    exists r :: r in w.rejections && r.value.Some? && r.value.value.runId == run
  }

  /** A message of the run that Target System refuses may still be delivered. */
  ghost predicate RefusalIsDue(w: World, run: string) {
    exists i: nat :: w.committed <= i < |w.topic| && RunOf(w.topic[i].body) == run && TS.Screen(w.topic[i]).Refused?
  }

  lemma {:induction false} NoRejectionComes(w: World, more: seq<Step>, run: string)
    requires w.committed <= w.position && !HasRejection(w, run) && !RefusalIsDue(w, run) && Quiet(more)
    ensures var w' := Run(w, more);
            w'.committed <= w'.position && !HasRejection(w', run) && !RefusalIsDue(w', run)
  {
    if more != [] {
      var n := |more| - 1;
      NoRejectionComes(w, more[..n], run);
      var w1 := Run(w, more[..n]);
      assert !more[n].Foreign? && !more[n].Offer?;
      if more[n].Fetch? && w1.position < |w1.topic| {
        assert TS.Screen(w1.topic[w1.position]).Refused? ==> RunOf(w1.topic[w1.position].body) != run;
      }
    }
  }

  /** With nothing more sent, the run comes to be rejected somewhere exactly when a refusal of it is there or due. */
  lemma {:induction false} RejectionComesExactly(steps: seq<Step>, run: string)
    requires ConsumerOnly(steps)
    ensures (exists more :: Quiet(more) && HasRejection(Run(START, steps + more), run))
            <==> HasRejection(Run(START, steps), run) || RefusalIsDue(Run(START, steps), run)
  {
    var w := Run(START, steps);
    ConsumerHasInHand(steps);
    if HasRejection(w, run) {
      assert Quiet([]) && steps + [] == steps;
    } else if RefusalIsDue(w, run) {
      var i: nat :| w.committed <= i < |w.topic| && RunOf(w.topic[i].body) == run && TS.Screen(w.topic[i]).Refused?;
      var more := ReplayAnswers(w, i);
      RunConcat(START, steps, more);
      assert TS.RejectionsFor(w.topic[i])[0] in Run(w, more).rejections;
    } else {
      forall more | Quiet(more) ensures !HasRejection(Run(START, steps + more), run) {
        NoRejectionComes(w, more, run);
        RunConcat(START, steps, more);
      }
    }
  }

  // ---- one key, twice ---------------------------------------------------------------------------

  /** One document sent, applied and confirmed. */
  lemma {:induction false} FirstSendIsConfirmed() returns (steps: seq<Step>)
    ensures var w, m := Run(START, steps), Message(Some("k1"), Some(KEYED));
            w.topic == [m] && w.published == {"k1"} && Answered(w, m)
  {
    assert !IsWhitespace("k1"[0]) && !IsWhitespace("A1"[0]);
    var first := [Offer(KEYED, true)];
    RunNext(START, [], Offer(KEYED, true));
    assert [] + first == first;
    var w := Run(START, first);
    assert w.topic == [Message(Some("k1"), Some(KEYED))] && w.published == {"k1"};
    DeliveryStepsDeliver(w);
    DeliveryAnswers(w, w.topic[0]);
    RunConcat(START, first, DeliverySteps());
    steps := first + DeliverySteps();
  }

  lemma {:induction false} LostOfferChangesOnlyPublished(w: World)
    ensures Do(w, Offer(KEYED, false)) == w.(published := w.published + {"k1"})
  {
    assert !IsWhitespace("k1"[0]) && !IsWhitespace("A1"[0]);
    assert w.topic + [] == w.topic;
  }

  /**
   * Two documents under one key, the first sent, applied and confirmed, the second lost: nothing is
   * unsettled and the load succeeds, with one message on the topic for two documents read.
   */
  lemma {:induction false} SecondSendIsLostUnnoticed() returns (steps: seq<Step>, second: nat)
    ensures second < |steps| && steps[second] == Offer(KEYED, false)
    ensures var w := Run(START, steps);
            |w.topic| == 1 && w.published == {"k1"} && w.published <= RS.Spoken(Heard(w, "run-1"))
  {
    var first := FirstSendIsConfirmed();
    second := |first|;
    var sent := first + [Offer(KEYED, false)];
    RunNext(START, first, Offer(KEYED, false));
    LostOfferChangesOnlyPublished(Run(START, first));
    var w := Run(START, sent);
    assert w.published == {"k1"};
    StillAnswered(Run(START, first).(published := w.published), w, w.topic[0]);
    var r :| (r in w.mock.confirmations || r in w.rejections) && Speaks(r, "run-1", "k1");
    ReadSpeaks(sent, r, "run-1", "k1");
    RunNext(START, sent, Read(r));
    steps := sent + [Read(r)];
  }
}
