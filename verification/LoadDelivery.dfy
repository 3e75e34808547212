/**
 * The atomic steps of one thread, left alone, add up to what the intakes are said to do in one: a
 * record consumed, a request served.
 */
module LoadDelivery {
  import opened Wrappers
  import opened Messages
  import opened LoadProtocol
  import TS = TargetSystem

  /** A thread taking its next n steps with no other step between them. */
  function Finish(w: World, id: nat, n: nat, brokerUp: bool): World
    decreases n
  {
    if n == 0 then w else Finish(Do(w, Advance(id, brokerUp)), id, n - 1, brokerUp)
  }

  /** The record behind the position handled in one step, as the service without threads handles it. */
  function AfterDelivery(w: World, m: Message, brokerUp: bool): World {
    var s := TS.Handle(TS.Intake(w.mock.store, w.mock.suppress, w.mock.confirmations, w.rejections), m, brokerUp);
    w.(position := w.position + 1, rejections := s.rejections,
       mock := Service(s.store, s.suppress, w.mock.tasks, s.confirmations))
  }

  function AfterPost(w: World, header: Option<string>, doc: Doc, brokerUp: bool): World {
    var s := w.mock;
    var (store, status) := TS.Post(s.store, header, Some(doc));
    if status != 201 then w.(mock := s.(store := store))
    else
      w.(mock := Service(store, false, s.tasks,
                         s.confirmations + if brokerUp && !s.suppress
                                           then [TS.Confirmation(doc, doc.accountId.value, header, CREATED)] else []))
  }

  lemma {:induction false} IdleStaysIdle(w: World, id: nat, n: nat, brokerUp: bool)
    requires id !in w.mock.tasks
    ensures Finish(w, id, n, brokerUp) == w
    decreases n
  {
    if n > 0 {
      IdleStaysIdle(w, id, n - 1, brokerUp);
    }
  }

  /** What a thread leaves when it is through, having found the maps as they now are. */
  function Finished(w: World, id: nat, events: seq<ReturnRecord>): World {
    var s := w.mock;
    w.(mock := Service(s.store, false, s.tasks - {id}, s.confirmations + events))
  }

  lemma {:induction false} AnnouncingFinishes(w: World, id: nat, created: bool, n: nat, brokerUp: bool)
    requires id in w.mock.tasks && w.mock.tasks[id].pc == Announcing(created) && n >= 2
    ensures Finish(w, id, n, brokerUp)
         == Finished(w, id, if brokerUp && !w.mock.suppress then [EventOf(w.mock.tasks[id], created)] else [])
  {
    var w1 := Do(w, Advance(id, brokerUp));
    var w2 := Do(w1, Advance(id, brokerUp));
    assert Finish(w, id, n, brokerUp) == Finish(w1, id, n - 1, brokerUp);
    if w.mock.suppress {
      IdleStaysIdle(w1, id, n - 1, brokerUp);
    } else {
      assert w2.mock.tasks == w.mock.tasks - {id};
      assert Finish(w1, id, n - 1, brokerUp) == Finish(w2, id, n - 2, brokerUp);
      IdleStaysIdle(w2, id, n - 2, brokerUp);
    }
  }

  /** From taking up a document that is admitted to being through with it. */
  lemma {:induction false} ClaimingFinishes(w: World, id: nat, key: Option<string>, doc: Doc, brokerUp: bool)
    requires id !in w.mock.tasks && doc.accountId.Some? && (id == CONSUMER ==> key.Some?)
    ensures var s, accountId := w.mock, doc.accountId.value;
            var began := w.(mock := Began(s, id, key, doc));
            var taken := key.Some? && key.value in s.store.idempotency;
            var created := if brokerUp && !s.suppress then [TS.Confirmation(doc, accountId, key, CREATED)] else [];
            var again := if brokerUp && !s.suppress then [TS.Confirmation(doc, accountId, key, DUPLICATE)] else [];
            Finish(began, id, 4, brokerUp) ==
              if taken && id != CONSUMER then w
              else if taken then w.(mock := Service(s.store, false, s.tasks, s.confirmations + again))
              else w.(mock := Service(TS.Store(if key.None? then s.store.idempotency
                                               else s.store.idempotency[key.value := accountId],
                                               s.store.accounts[accountId := doc]),
                                      false, s.tasks, s.confirmations + created))
  {
    var began := w.(mock := Began(w.mock, id, key, doc));
    var w1 := Do(began, Advance(id, brokerUp));
    assert Finish(began, id, 4, brokerUp) == Finish(w1, id, 3, brokerUp);
    if key.Some? && key.value in w.mock.store.idempotency {
      if id == CONSUMER {
        AnnouncingFinishes(w1, id, false, 3, brokerUp);
        assert w1.mock.tasks - {id} == w.mock.tasks;
      } else {
        assert w1.mock.tasks == w.mock.tasks;
        IdleStaysIdle(w1, id, 3, brokerUp);
      }
    } else {
      var w2 := Do(w1, Advance(id, brokerUp));
      assert Finish(w1, id, 3, brokerUp) == Finish(w2, id, 2, brokerUp);
      AnnouncingFinishes(w2, id, true, 2, brokerUp);
      assert w2.mock.tasks - {id} == w.mock.tasks;
    }
  }

  /** The consumer: one record fetched and seen through is one application of it, in every branch. */
  lemma {:induction false} DeliveryIsApply(w: World, brokerUp: bool)
    requires CONSUMER !in w.mock.tasks && w.position < |w.topic|
    ensures Finish(Do(w, Fetch(brokerUp)), CONSUMER, 4, brokerUp) == AfterDelivery(w, w.topic[w.position], brokerUp)
  {
    var m := w.topic[w.position];
    if TS.Screen(m).Refused? {
      IdleStaysIdle(Do(w, Fetch(brokerUp)), CONSUMER, 4, brokerUp);
    } else {
      ClaimingFinishes(w.(position := w.position + 1), CONSUMER, m.key, m.body.value, brokerUp);
      assert w.rejections + [] == w.rejections;
    }
  }

  /** An HTTP thread: one request begun and seen through is one POST, in every branch. */
  lemma {:induction false} RequestIsPost(w: World, id: nat, header: Option<string>, doc: Doc, brokerUp: bool)
    requires id != CONSUMER && id !in w.mock.tasks
    ensures Finish(Do(w, Request(id, header, doc)), id, 4, brokerUp) == AfterPost(w, header, doc, brokerUp)
  {
    if TS.Post(TS.EMPTY, header, Some(doc)).1 == 201 {
      ClaimingFinishes(w, id, header, doc, brokerUp);
    } else {
      IdleStaysIdle(w, id, 4, brokerUp);
    }
  }
}
