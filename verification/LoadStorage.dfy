/**
 * Whether what is claimed, or announced, is also stored: over every interleaving of the consumer
 * with any number of HTTP threads.
 */
module LoadStorage {
  import opened Text
  import opened Wrappers
  import opened Messages
  import opened LoadProtocol
  import opened LoadSafety
  import TS = TargetSystem

  /** The thread has claimed this key and not yet stored the account. */
  predicate MidSave(m: Service, id: nat, key: string) {
    id in m.tasks && m.tasks[id].pc == Saving && m.tasks[id].key == Some(key)
  }

  predicate IsStored(m: Service, key: string) {
    key in m.store.idempotency && m.store.idempotency[key] in m.store.accounts
  }

  /** An HTTP thread is about to store an account for this key that is not there yet. */
  ghost predicate IsAwaited(m: Service, key: string) {
    exists id :: id != CONSUMER && MidSave(m, id, key) && m.tasks[id].accountId !in m.store.accounts
  }

  ghost predicate ClaimsAreStored(m: Service) {
    forall k | k in m.store.idempotency :: IsStored(m, k) || exists id :: MidSave(m, id, k)
  }

  /** A replay over HTTP is answered with its response, so only the consumer announces duplicates. */
  predicate DuplicatesAreTheConsumers(m: Service) {
    forall id | id in m.tasks && m.tasks[id].pc in {Announcing(false), Sending(false)} :: id == CONSUMER
  }

  /** What the consumer is about to store nobody has announced. */
  predicate ConsumerSavesFirst(m: Service) {
    forall r | r in m.confirmations && r.key.Some? :: !MidSave(m, CONSUMER, r.key.value)
  }

  ghost predicate StorageInv(m: Service) {
    ClaimsAreStored(m) && DuplicatesAreTheConsumers(m) && ConsumerSavesFirst(m)
  }

  lemma {:induction false} ClaimStores(m: Service, id: nat)
    requires ServiceInv(m) && StorageInv(m) && id in m.tasks && m.tasks[id].pc.Claiming?
    ensures StorageInv(Claimed(m, id))
  {
    var m' := Claimed(m, id);
    forall k | k in m'.store.idempotency ensures IsStored(m', k) || exists j :: MidSave(m', j, k) {
      if k !in m.store.idempotency {
        assert MidSave(m', id, k);
      } else if !IsStored(m, k) {
        var j :| MidSave(m, j, k);
        assert MidSave(m', j, k);
      }
    }
    forall r | r in m.confirmations && r.key.Some? ensures !MidSave(m', CONSUMER, r.key.value) {
      assert EventIsTrue(m.store, r);
      assert !MidSave(m, CONSUMER, r.key.value);
    }
  }

  lemma {:induction false} SaveStores(m: Service, id: nat)
    requires ServiceInv(m) && StorageInv(m) && id in m.tasks && m.tasks[id].pc.Saving?
    ensures StorageInv(Saved(m, id))
  {
    var m' := Saved(m, id);
    assert TaskIsSound(m.store, id, m.tasks[id]);
    forall k | k in m'.store.idempotency ensures IsStored(m', k) || exists j :: MidSave(m', j, k) {
      if !IsStored(m, k) {
        var j :| MidSave(m, j, k);
        if j != id {
          assert MidSave(m', j, k);
        }
      }
    }
    forall r | r in m.confirmations && r.key.Some? ensures !MidSave(m', CONSUMER, r.key.value) {
      assert !MidSave(m, CONSUMER, r.key.value);
    }
  }

  /** Announcing and sending take no claim back and save nothing. */
  lemma {:induction false} OthersStillSave(m: Service, m': Service, id: nat)
    requires ServiceInv(m) && StorageInv(m) && m'.store == m.store
    requires id in m.tasks && !m.tasks[id].pc.Saving? && m'.tasks.Keys <= m.tasks.Keys
    requires forall j | j in m.tasks && j != id :: j in m'.tasks && m'.tasks[j] == m.tasks[j]
    ensures ClaimsAreStored(m')
  {
    forall k | k in m'.store.idempotency ensures IsStored(m', k) || exists j :: MidSave(m', j, k) {
      if !IsStored(m, k) {
        var j :| MidSave(m, j, k);
        assert MidSave(m', j, k);
      }
    }
  }

  lemma {:induction false} AnnounceStores(m: Service, id: nat, created: bool)
    requires ServiceInv(m) && StorageInv(m) && id in m.tasks && m.tasks[id].pc == Announcing(created)
    ensures StorageInv(Announced(m, id, created))
  {
    var m' := Announced(m, id, created);
    OthersStillSave(m, m', id);
    forall r | r in m.confirmations && r.key.Some? ensures !MidSave(m', CONSUMER, r.key.value) {
      assert !MidSave(m, CONSUMER, r.key.value);
    }
  }

  lemma {:induction false} SendStores(m: Service, id: nat, created: bool, brokerUp: bool)
    requires ServiceInv(m) && StorageInv(m) && id in m.tasks && m.tasks[id].pc == Sending(created)
    ensures StorageInv(Sent(m, id, created, brokerUp))
  {
    var t, m' := m.tasks[id], Sent(m, id, created, brokerUp);
    OthersStillSave(m, m', id);
    forall r | r in m'.confirmations && r.key.Some? ensures !MidSave(m', CONSUMER, r.key.value) {
      if r in m.confirmations {
        assert !MidSave(m, CONSUMER, r.key.value);
      } else if CONSUMER in m'.tasks {
        assert id != CONSUMER && created && r.key == t.key;
        assert Separate(t, m.tasks[CONSUMER]);
      }
    }
  }

  lemma {:induction false} AdvanceStores(m: Service, id: nat, brokerUp: bool)
    requires ServiceInv(m) && StorageInv(m) && id in m.tasks
    ensures StorageInv(Advanced(m, id, brokerUp))
  {
    match m.tasks[id].pc
    case Claiming => ClaimStores(m, id);
    case Saving => SaveStores(m, id);
    case Announcing(created) => AnnounceStores(m, id, created);
    case Sending(created) => SendStores(m, id, created, brokerUp);
  }

  lemma {:induction false} BeginStores(m: Service, id: nat, key: Option<string>, doc: Doc)
    requires StorageInv(m) && id !in m.tasks && doc.accountId.Some?
    ensures StorageInv(Began(m, id, key, doc))
  {
    var m' := Began(m, id, key, doc);
    forall k | k in m'.store.idempotency ensures IsStored(m', k) || exists j :: MidSave(m', j, k) {
      if !IsStored(m, k) {
        var j :| MidSave(m, j, k);
        assert MidSave(m', j, k);
      }
    }
    forall r | r in m.confirmations && r.key.Some? ensures !MidSave(m', CONSUMER, r.key.value) {
      assert !MidSave(m, CONSUMER, r.key.value);
    }
  }

  lemma {:induction false} FlagStores(m: Service)
    requires StorageInv(m)
    ensures StorageInv(m.(suppress := true))
  {
    var m' := m.(suppress := true);
    forall k | k in m'.store.idempotency ensures IsStored(m', k) || exists j :: MidSave(m', j, k) {
      if !IsStored(m, k) {
        var j :| MidSave(m, j, k);
        assert MidSave(m', j, k);
      }
    }
    forall r | r in m.confirmations && r.key.Some? ensures !MidSave(m', CONSUMER, r.key.value) {
      assert !MidSave(m, CONSUMER, r.key.value);
    }
  }

  lemma {:induction false} StepStores(w: World, s: Step)
    requires Inv(w) && StorageInv(w.mock)
    ensures StorageInv(Do(w, s).mock)
  {
    match s
    case Advance(id, brokerUp) =>
      if id in w.mock.tasks {
        AdvanceStores(w.mock, id, brokerUp);
      }
    case Fetch(_) =>
      if CONSUMER !in w.mock.tasks && w.position < |w.topic| && TS.Screen(w.topic[w.position]).Admitted? {
        BeginStores(w.mock, CONSUMER, w.topic[w.position].key, w.topic[w.position].body.value);
      }
    case Request(id, header, doc) =>
      if id != CONSUMER && id !in w.mock.tasks && TS.Post(TS.EMPTY, header, Some(doc)).1 == 201 {
        BeginStores(w.mock, id, header, doc);
      }
    case Suppress => FlagStores(w.mock);
    case _ =>
  }

  /**
   * Over every interleaving: a claimed key has its account stored, or the thread that claimed it
   * stands right before storing it.
   */
  lemma {:induction false} EveryClaimIsStoredOrBeingStored(steps: seq<Step>)
    ensures StorageInv(Run(START, steps).mock)
  {
    if steps != [] {
      var before := steps[..|steps| - 1];
      EveryClaimIsStoredOrBeingStored(before);
      EveryRunKeepsInv(before);
      StepStores(Run(START, before), steps[|steps| - 1]);
    }
  }

  /**
   * An announced key lacks its account exactly while the HTTP thread that claimed it stands before
   * storing an account that is not there yet; and then the announcement is the consumer's duplicate.
   */
  lemma {:induction false} AnnouncedIsStoredExactly(steps: seq<Step>, r: ReturnRecord)
    requires r in Run(START, steps).mock.confirmations && r.key.Some?
    ensures var m := Run(START, steps).mock;
            && (!IsStored(m, r.key.value) <==> IsAwaited(m, r.key.value))
            && (SaysCreated(r) ==> IsStored(m, r.key.value))
  {
    var m := Run(START, steps).mock;
    EveryRunKeepsInv(steps);
    EveryClaimIsStoredOrBeingStored(steps);
    assert EventIsTrue(m.store, r);
    forall id | MidSave(m, id, r.key.value)
      ensures id != CONSUMER && m.store.idempotency[r.key.value] == m.tasks[id].accountId
    {
      assert TaskIsSound(m.store, id, m.tasks[id]);
    }
    if !IsStored(m, r.key.value) {
      var id :| MidSave(m, id, r.key.value);
      assert m.tasks[id].accountId !in m.store.accounts;
    }
  }

  // ---- one intake only ------------------------------------------------------------------------

  predicate ConsumerOnly(steps: seq<Step>) {
    forall i | 0 <= i < |steps| :: !steps[i].Request?
  }

  predicate HttpOnly(steps: seq<Step>) {
    forall i | 0 <= i < |steps| :: !steps[i].Fetch?
  }

  lemma {:induction false} NoHttpThread(steps: seq<Step>)
    requires ConsumerOnly(steps)
    ensures Run(START, steps).mock.tasks.Keys <= {CONSUMER}
  {
    if steps != [] {
      NoHttpThread(steps[..|steps| - 1]);
      assert !steps[|steps| - 1].Request?;
    }
  }

  lemma {:induction false} OnlyCreationsAnnounced(steps: seq<Step>)
    requires HttpOnly(steps)
    ensures var m := Run(START, steps).mock; CONSUMER !in m.tasks && forall r | r in m.confirmations :: SaysCreated(r)
  {
    if steps != [] {
      var n := |steps| - 1;
      OnlyCreationsAnnounced(steps[..n]);
      EveryClaimIsStoredOrBeingStored(steps[..n]);
      assert !steps[n].Fetch?;
      var m := Run(START, steps[..n]).mock;
      if steps[n].Advance? && steps[n].id in m.tasks {
        OutcomesDiffer(m.tasks[steps[n].id]);
      }
    }
  }

  /** With one intake alone, the consumer or HTTP, any confirmation at all means the account is stored. */
  lemma {:induction false} ConfirmedMeansStored(steps: seq<Step>, r: ReturnRecord)
    requires ConsumerOnly(steps) || HttpOnly(steps)
    requires r in Run(START, steps).mock.confirmations && r.key.Some?
    ensures IsStored(Run(START, steps).mock, r.key.value)
  {
    AnnouncedIsStoredExactly(steps, r);
    if ConsumerOnly(steps) {
      NoHttpThread(steps);
    } else {
      OnlyCreationsAnnounced(steps);
    }
  }

  // ---- both intakes at once -------------------------------------------------------------------

  const KEYED := Doc(Some("A1"), Some("k1"), "run-1", "{}")
  const CLAIMED := START.(mock := Service(TS.Store(map["k1" := "A1"], map[]), false,
                                          map[1 := Task(Some("k1"), "A1", KEYED, Saving)], []))
  const FETCHED_TASK := Task(Some("k1"), "A1", KEYED, Claiming)
  const FETCHED := CLAIMED.(topic := [Message(Some("k1"), Some(KEYED))], position := 1, published := {"k1"},
                            mock := CLAIMED.mock.(tasks := CLAIMED.mock.tasks[CONSUMER := FETCHED_TASK]))

  lemma {:induction false} ThreadClaims()
    ensures Do(Do(START, Request(1, Some("k1"), KEYED)), Advance(1, true)) == CLAIMED
  {
    assert !IsWhitespace("k1"[0]) && !IsWhitespace("A1"[0]);
    var w := Do(START, Request(1, Some("k1"), KEYED));
    assert w.mock.tasks == map[1 := Task(Some("k1"), "A1", KEYED, Claiming)];
  }

  lemma {:induction false} ConsumerMeetsTheKey()
    ensures Do(Do(CLAIMED, Offer(KEYED, true)), Fetch(true)) == FETCHED
  {
    assert !IsWhitespace("k1"[0]) && !IsWhitespace("A1"[0]);
    var w := Do(CLAIMED, Offer(KEYED, true));
    assert w.topic == [Message(Some("k1"), Some(KEYED))] && w.published == {"k1"};
  }

  lemma {:induction false} ConsumerAnnouncesDuplicate()
    ensures var w := Do(Do(Do(FETCHED, Advance(CONSUMER, true)), Advance(CONSUMER, true)), Advance(CONSUMER, true));
            |w.mock.confirmations| == 1 && w.mock.confirmations[0].key == Some("k1") && w.mock.store.accounts == map[]
  {
    var w1 := Do(FETCHED, Advance(CONSUMER, true));
    assert w1.mock.tasks[CONSUMER].pc == Announcing(false);
    var w2 := Do(w1, Advance(CONSUMER, true));
    assert w2.mock.tasks[CONSUMER].pc == Sending(false);
  }

  /**
   * With HTTP threads beside it, not so: thread 1 has claimed the key and not stored the account
   * when the consumer meets the same key, finds it taken and announces a duplicate.
   */
  lemma {:induction false} DuplicateBeforeStorage() returns (steps: seq<Step>)
    ensures var m := Run(START, steps).mock;
            |m.confirmations| == 1 && m.confirmations[0].key == Some("k1") && m.store.accounts == map[]
  {
    ThreadClaims();
    ConsumerMeetsTheKey();
    ConsumerAnnouncesDuplicate();
    steps := [];
    steps := RunOneMore(steps, Request(1, Some("k1"), KEYED));
    steps := RunOneMore(steps, Advance(1, true));
    steps := RunOneMore(steps, Offer(KEYED, true));
    steps := RunOneMore(steps, Fetch(true));
    steps := RunOneMore(steps, Advance(CONSUMER, true));
    steps := RunOneMore(steps, Advance(CONSUMER, true));
    steps := RunOneMore(steps, Advance(CONSUMER, true));
  }

  lemma {:induction false} RunOneMore(steps: seq<Step>, s: Step) returns (longer: seq<Step>)
    ensures Run(START, longer) == Do(Run(START, steps), s)
  {
    longer := steps + [s];
    RunNext(START, steps, s);
  }
}
