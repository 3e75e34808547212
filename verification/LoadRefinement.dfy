/**
 * The consumer as a thread among steps still refines the exactly-once pass: cut into atomic steps,
 * redelivered and rewound, with the loader and anyone else appending to the log meanwhile.
 */
module LoadRefinement {
  import opened Messages
  import opened LoadProtocol
  import opened LoadStorage
  import TS = TargetSystem

  predicate IsTaken(t: Task, m: Message) {
    TS.Screen(m).Admitted? && t == Task(m.key, TS.Screen(m).accountId, m.body.value, t.pc)
  }

  /** What the consumer has in hand is the record it read last, and that is not committed. */
  predicate InHand(w: World) {
    && w.committed <= w.position <= |w.topic| && w.mock.tasks.Keys <= {CONSUMER}
    && (CONSUMER in w.mock.tasks ==>
        w.committed < w.position && IsTaken(w.mock.tasks[CONSUMER], w.topic[w.position - 1]))
  }

  lemma {:induction false} ConsumerHasInHand(steps: seq<Step>)
    requires ConsumerOnly(steps)
    ensures InHand(Run(START, steps))
  {
    if steps != [] {
      ConsumerHasInHand(steps[..|steps| - 1]);
      assert !steps[|steps| - 1].Request?;
    }
  }

  /** The maps are those of the pass over the first n records, but for what is in hand. */
  predicate Matches(w: World, n: nat) {
    && InHand(w) && w.committed <= n <= |w.topic|
    && var p := TS.Pass(w.topic[..n]);
       if CONSUMER !in w.mock.tasks then w.position <= n && w.mock.store == p
       else
         var t := w.mock.tasks[CONSUMER];
         match t.pc
         case Claiming => w.position <= n + 1 && w.mock.store == p
         case Saving =>
           && w.position <= n + 1 && t.key.value !in p.idempotency
           && w.mock.store == TS.Store(p.idempotency[t.key.value := t.accountId], p.accounts)
         case _ => w.position <= n && w.mock.store == p
  }

  lemma {:induction false} AdvanceMatches(w: World, brokerUp: bool, n: nat) returns (n': nat)
    requires Matches(w, n) && CONSUMER in w.mock.tasks
    ensures n <= n' && Matches(Do(w, Advance(CONSUMER, brokerUp)), n')
  {
    var t, m := w.mock.tasks[CONSUMER], w.topic[w.position - 1];
    var p := TS.Pass(w.topic[..n]);
    n' := n;
    if t.pc.Claiming? && t.key.value in p.idempotency {
      n' := TS.Max(n, w.position);
      TS.OneMoreDelivery(w.topic, w.position - 1, n);
    } else if t.pc.Saving? {
      n' := TS.Max(n, w.position);
      TS.OneMoreDelivery(w.topic, w.position - 1, n);
      assert TS.Apply(p, m) == TS.Claim(p, t.key.value, t.accountId, t.doc);
    }
  }

  lemma {:induction false} StepMatches(w: World, s: Step, n: nat) returns (n': nat)
    requires Matches(w, n) && !s.Request?
    ensures n <= n' && Matches(Do(w, s), n')
  {
    n' := n;
    match s
    case Offer(_, _) => assert Do(w, s).topic[..n] == w.topic[..n];
    case Foreign(_) => assert Do(w, s).topic[..n] == w.topic[..n];
    case Fetch(brokerUp) =>
      if CONSUMER !in w.mock.tasks && w.position < |w.topic| && TS.Screen(w.topic[w.position]).Refused? {
        n' := TS.Max(n, w.position + 1);
        TS.OneMoreDelivery(w.topic, w.position, n);
      }
    case Advance(id, brokerUp) =>
      if id in w.mock.tasks {
        assert id == CONSUMER;
        n' := AdvanceMatches(w, brokerUp, n);
      }
    case _ =>
  }

  /**
   * At any point of any consumer-only run the maps are those of one exactly-once pass over a prefix
   * of the log that reaches past everything committed, but for the one record in hand.
   */
  lemma {:induction false} RunMatchesPass(steps: seq<Step>) returns (n: nat)
    requires ConsumerOnly(steps)
    ensures Matches(Run(START, steps), n)
  {
    if steps == [] {
      n := 0;
    } else {
      var before := RunMatchesPass(steps[..|steps| - 1]);
      assert !steps[|steps| - 1].Request?;
      n := StepMatches(Run(START, steps[..|steps| - 1]), steps[|steps| - 1], before);
    }
  }

  /**
   * With nothing in hand, an admitted record of that prefix has its own document stored exactly when
   * the last document to open a key for its account is that same document.
   */
  lemma {:induction false} OwnDocumentIsStored(steps: seq<Step>) returns (n: nat)
    requires ConsumerOnly(steps) && CONSUMER !in Run(START, steps).mock.tasks
    ensures var w := Run(START, steps);
            && w.position <= n <= |w.topic| && w.mock.store == TS.Pass(w.topic[..n])
            && forall i: nat | TS.Admits(w.topic[..n], i) ::
                 var accountId, body := TS.Screen(w.topic[i]).accountId, w.topic[i].body;
                 (accountId in w.mock.store.accounts && w.mock.store.accounts[accountId] == body.value) <==>
                 TS.IsLastOpener(w.topic[..n], accountId, body)
  {
    n := RunMatchesPass(steps);
    var topic := Run(START, steps).topic[..n];
    forall i: nat | TS.Admits(topic, i)
      ensures var accountId, st := TS.Screen(topic[i]).accountId, TS.Pass(topic);
              (accountId in st.accounts && st.accounts[accountId] == topic[i].body.value) <==>
              TS.IsLastOpener(topic, accountId, topic[i].body)
    {
      TS.OwnDocumentIsStoredExactly(topic, i);
    }
  }
}
