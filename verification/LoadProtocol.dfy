/**
 * The Load lane as one system of interleaved steps: the loader's sends, other producers on the
 * same target topic, the mock's consumer thread, its HTTP threads, and the loader's reads of the
 * return topics. Claiming a key, storing the account, testing the suppress flag and sending the
 * confirmation are separate steps, so any thread may run between any two of them.
 */
module LoadProtocol {
  import opened Wrappers
  import opened Messages
  import TS = TargetSystem
  import L = Loader

  /** Where a thread stands in the handling of one screened document. */
  datatype Pc =
    | Claiming                    // about to putIfAbsent
    | Saving                      // has the key (or no key to claim), about to store the account
    | Announcing(created: bool)   // about to test the suppress flag
    | Sending(created: bool)      // about to send the confirmation

  datatype Task = Task(key: Option<string>, accountId: string, doc: Doc, pc: Pc)

  /** The consumer's thread; every other number is an HTTP thread. */
  const CONSUMER: nat := 0

  /** What the threads of the mock share, the threads themselves, and the confirmations sent. */
  datatype Service = Service(store: TS.Store, suppress: bool, tasks: map<nat, Task>, confirmations: seq<ReturnRecord>)

  datatype World = World(
    mock: Service, topic: seq<Message>, position: nat, committed: nat, rejections: seq<ReturnRecord>,
    published: set<string>, seen: seq<ReturnRecord>)

  const START := World(Service(TS.EMPTY, false, map[], []), [], 0, 0, [], {}, [])

  datatype Step =
    | Offer(doc: Doc, sent: bool)                                  // this run's loader
    | Foreign(m: Message)                                          // anyone else on the target topic
    | Fetch(brokerUp: bool)
    | Commit
    | Rewind
    | Request(id: nat, header: Option<string>, doc: Doc)
    | Advance(id: nat, brokerUp: bool)
    | Suppress
    | Read(r: ReturnRecord)                                        // this run's loader, settling

  function EventOf(t: Task, created: bool): ReturnRecord {
    TS.Confirmation(t.doc, t.accountId, t.key, if created then CREATED else DUPLICATE)
  }

  /** The atomic putIfAbsent. A replay still owes a verdict on the topic; over HTTP it is answered 200. */
  function Claimed(m: Service, id: nat): Service
    requires id in m.tasks
  {
    var t := m.tasks[id];
    if t.key.None? then m.(tasks := m.tasks[id := t.(pc := Saving)])
    else if t.key.value !in m.store.idempotency then
      m.(store := m.store.(idempotency := m.store.idempotency[t.key.value := t.accountId]),
         tasks := m.tasks[id := t.(pc := Saving)])
    else if id == CONSUMER then m.(tasks := m.tasks[id := t.(pc := Announcing(false))])
    else m.(tasks := m.tasks - {id})
  }

  function Saved(m: Service, id: nat): Service
    requires id in m.tasks
  {
    var t := m.tasks[id];
    m.(store := m.store.(accounts := m.store.accounts[t.accountId := t.doc]),
       tasks := m.tasks[id := t.(pc := Announcing(true))])
  }

  function Announced(m: Service, id: nat, created: bool): Service
    requires id in m.tasks
  {
    if m.suppress then m.(suppress := false, tasks := m.tasks - {id})
    else m.(tasks := m.tasks[id := m.tasks[id].(pc := Sending(created))])
  }

  function Sent(m: Service, id: nat, created: bool, brokerUp: bool): Service
    requires id in m.tasks
  {
    m.(tasks := m.tasks - {id},
       confirmations := m.confirmations + if brokerUp then [EventOf(m.tasks[id], created)] else [])
  }

  function Advanced(m: Service, id: nat, brokerUp: bool): Service
    requires id in m.tasks
  {
    match m.tasks[id].pc
    case Claiming => Claimed(m, id)
    case Saving => Saved(m, id)
    case Announcing(created) => Announced(m, id, created)
    case Sending(created) => Sent(m, id, created, brokerUp)
  }

  function Began(m: Service, id: nat, key: Option<string>, doc: Doc): Service
    requires doc.accountId.Some?
  {
    m.(tasks := m.tasks[id := Task(key, doc.accountId.value, doc, Claiming)])
  }

  /** A step that is not enabled leaves the world as it is. */
  function Do(w: World, s: Step): World {
    match s
    case Offer(doc, sent) =>
      (match L.Identify(doc)
       case Err(_) => w
       case Ok(id) =>
         w.(published := w.published + {id.key},
            topic := w.topic + if sent then [Message(Some(id.key), Some(doc))] else []))
    case Foreign(m) => w.(topic := w.topic + [m])
    case Fetch(brokerUp) =>
      if CONSUMER in w.mock.tasks || w.position >= |w.topic| then w
      else
        var m := w.topic[w.position];
        (match TS.Screen(m)
         case Refused(_, _) =>
           w.(position := w.position + 1, rejections := w.rejections + if brokerUp then TS.RejectionsFor(m) else [])
         case Admitted(_, _) =>
           w.(position := w.position + 1, mock := Began(w.mock, CONSUMER, m.key, m.body.value)))
    case Commit => if CONSUMER in w.mock.tasks then w else w.(committed := w.position)
    case Rewind => if CONSUMER in w.mock.tasks then w else w.(position := w.committed)
    case Request(id, header, doc) =>
      if id != CONSUMER && id !in w.mock.tasks && TS.Post(TS.EMPTY, header, Some(doc)).1 == 201
      then w.(mock := Began(w.mock, id, header, doc))
      else w
    case Advance(id, brokerUp) => if id in w.mock.tasks then w.(mock := Advanced(w.mock, id, brokerUp)) else w
    case Suppress => w.(mock := w.mock.(suppress := true))
    case Read(r) => if r in w.mock.confirmations || r in w.rejections then w.(seen := w.seen + [r]) else w
  }

  function Run(w: World, steps: seq<Step>): World {
    if steps == [] then w else Do(Run(w, steps[..|steps| - 1]), steps[|steps| - 1])
  }

  // ---- what every step keeps ----------------------------------------------------------------

  predicate SaysCreated(r: ReturnRecord) {
    r.value.Some? && r.value.value.outcome == Some(CREATED)
  }

  /** The thread that claimed its key, until it has announced it. */
  predicate Owns(t: Task) {
    t.pc == Saving || t.pc == Announcing(true) || t.pc == Sending(true)
  }

  predicate TaskIsSound(st: TS.Store, id: nat, t: Task) {
    && (id == CONSUMER ==> t.key.Some?)
    && (Owns(t) && t.key.Some? ==> t.key.value in st.idempotency && st.idempotency[t.key.value] == t.accountId)
    && (Owns(t) && t.pc != Saving ==> t.accountId in st.accounts)
    && (t.pc in {Announcing(false), Sending(false)} ==> t.key.Some? && t.key.value in st.idempotency)
  }

  /** What a confirmation claims is the case: a key it names is claimed, an account it created stored. */
  predicate EventIsTrue(st: TS.Store, r: ReturnRecord) {
    && r.topic == Confirmations && r.value.Some?
    && r.value.value.outcome in {Some(CREATED), Some(DUPLICATE)}
    && (r.key.Some? ==> r.key.value in st.idempotency)
    && (SaysCreated(r) ==> r.value.value.accountId in st.accounts)
    && (SaysCreated(r) && r.key.Some? ==> st.idempotency[r.key.value] == r.value.value.accountId)
  }

  predicate Separate(t: Task, u: Task) {
    Owns(t) && Owns(u) && t.key.Some? ==> t.key != u.key
  }

  predicate NotAnnounced(t: Task, r: ReturnRecord) {
    Owns(t) && SaysCreated(r) && r.key.Some? ==> r.key != t.key
  }

  /** Two creations never name the same key. */
  predicate Apart(r: ReturnRecord, q: ReturnRecord) {
    SaysCreated(r) && SaysCreated(q) && r.key.Some? ==> r.key != q.key
  }

  ghost predicate TasksAreSound(m: Service) {
    forall id | id in m.tasks :: TaskIsSound(m.store, id, m.tasks[id])
  }

  ghost predicate EventsAreTrue(m: Service) {
    forall r | r in m.confirmations :: EventIsTrue(m.store, r)
  }

  /** A thread that owns a key is alone with it, and nothing has announced that key as created yet. */
  ghost predicate OwnersAreAlone(m: Service) {
    && (forall i, j | i in m.tasks && j in m.tasks && i != j :: Separate(m.tasks[i], m.tasks[j]))
    && (forall i, r | i in m.tasks && r in m.confirmations :: NotAnnounced(m.tasks[i], r))
  }

  predicate CreatedOnce(confirmations: seq<ReturnRecord>) {
    forall i, j | 0 <= i < j < |confirmations| :: Apart(confirmations[i], confirmations[j])
  }

  ghost predicate ServiceInv(m: Service) {
    TasksAreSound(m) && EventsAreTrue(m) && OwnersAreAlone(m) && CreatedOnce(m.confirmations)
  }

  predicate ServiceGrows(m: Service, m': Service) {
    TS.Grows(m.store, m'.store) && m.confirmations <= m'.confirmations
  }

  lemma {:induction false} ClaimKeepsInv(m: Service, id: nat)
    requires ServiceInv(m) && id in m.tasks && m.tasks[id].pc.Claiming?
    ensures ServiceInv(Claimed(m, id)) && ServiceGrows(m, Claimed(m, id))
  {
    var t, m' := m.tasks[id], Claimed(m, id);
    assert TS.Grows(m.store, m'.store);
    ClaimKeepsTasks(m, id);
    ClaimKeepsOwners(m, id);
    forall r | r in m'.confirmations ensures EventIsTrue(m'.store, r) {
      assert EventIsTrue(m.store, r);
    }
  }

  lemma {:induction false} ClaimKeepsTasks(m: Service, id: nat)
    requires ServiceInv(m) && id in m.tasks && m.tasks[id].pc.Claiming?
    ensures TasksAreSound(Claimed(m, id))
  {
    var m' := Claimed(m, id);
    forall i | i in m'.tasks && i != id ensures TaskIsSound(m'.store, i, m'.tasks[i]) {
      assert TaskIsSound(m.store, i, m.tasks[i]);
    }
  }

  /** Nobody else owns a key that was free, and nothing announced it. */
  lemma {:induction false} ClaimKeepsOwners(m: Service, id: nat)
    requires ServiceInv(m) && id in m.tasks && m.tasks[id].pc.Claiming?
    ensures OwnersAreAlone(Claimed(m, id))
  {
    var t, m' := m.tasks[id], Claimed(m, id);
    if id in m'.tasks && Owns(m'.tasks[id]) && t.key.Some? {
      assert t.key.value !in m.store.idempotency;
      forall i | i in m.tasks && i != id ensures Separate(m'.tasks[id], m.tasks[i])
          && Separate(m.tasks[i], m'.tasks[id]) {
        assert TaskIsSound(m.store, i, m.tasks[i]);
      }
      forall r | r in m.confirmations ensures NotAnnounced(m'.tasks[id], r) {
        assert EventIsTrue(m.store, r);
      }
    }
  }

  lemma {:induction false} SaveKeepsInv(m: Service, id: nat)
    requires ServiceInv(m) && id in m.tasks && m.tasks[id].pc.Saving?
    ensures ServiceInv(Saved(m, id)) && ServiceGrows(m, Saved(m, id))
  {
  }

  lemma {:induction false} AnnounceKeepsInv(m: Service, id: nat, created: bool)
    requires ServiceInv(m) && id in m.tasks && m.tasks[id].pc == Announcing(created)
    ensures ServiceInv(Announced(m, id, created)) && ServiceGrows(m, Announced(m, id, created))
  {
  }

  lemma {:induction false} OutcomesDiffer(t: Task)
    ensures SaysCreated(EventOf(t, true)) && !SaysCreated(EventOf(t, false))
  {
    assert |CREATED| != |DUPLICATE|;
  }

  lemma {:induction false} SendKeepsInv(m: Service, id: nat, created: bool, brokerUp: bool)
    requires ServiceInv(m) && id in m.tasks && m.tasks[id].pc == Sending(created)
    ensures ServiceInv(Sent(m, id, created, brokerUp)) && ServiceGrows(m, Sent(m, id, created, brokerUp))
  {
    var t := m.tasks[id];
    OutcomesDiffer(t);
    assert created <==> Owns(t);
    var m', r := Sent(m, id, created, brokerUp), EventOf(t, created);
    assert EventIsTrue(m.store, r);
    assert forall q | q in m'.confirmations :: q == r || q in m.confirmations;
    assert forall q | q in m.confirmations :: NotAnnounced(t, q);
    forall i, j | 0 <= i < j < |m'.confirmations| ensures Apart(m'.confirmations[i], m'.confirmations[j]) {
      if j == |m.confirmations| {
        assert m.confirmations[i] in m.confirmations;
      }
    }
  }

  lemma {:induction false} BeginKeepsInv(m: Service, id: nat, key: Option<string>, doc: Doc)
    requires ServiceInv(m) && id !in m.tasks && doc.accountId.Some? && (id == CONSUMER ==> key.Some?)
    ensures ServiceInv(Began(m, id, key, doc)) && ServiceGrows(m, Began(m, id, key, doc))
  {
  }

  ghost predicate ReadsAreReal(w: World) {
    && (forall r | r in w.seen :: r in w.mock.confirmations || r in w.rejections)
    && (forall r | r in w.rejections :: r.topic == Rejections)
  }

  ghost predicate Inv(w: World) {
    ServiceInv(w.mock) && ReadsAreReal(w)
  }

  /** The maps never forget and the logs are only appended to. */
  predicate Extends(w: World, w': World) {
    && ServiceGrows(w.mock, w'.mock)
    && w.topic <= w'.topic && w.rejections <= w'.rejections
    && w.published <= w'.published && w.seen <= w'.seen
  }

  lemma {:induction false} AdvanceKeepsInv(m: Service, id: nat, brokerUp: bool)
    requires ServiceInv(m) && id in m.tasks
    ensures ServiceInv(Advanced(m, id, brokerUp)) && ServiceGrows(m, Advanced(m, id, brokerUp))
  {
    match m.tasks[id].pc
    case Claiming => ClaimKeepsInv(m, id);
    case Saving => SaveKeepsInv(m, id);
    case Announcing(created) => AnnounceKeepsInv(m, id, created);
    case Sending(created) => SendKeepsInv(m, id, created, brokerUp);
  }

  lemma {:induction false} DoKeepsInv(w: World, s: Step)
    requires Inv(w)
    ensures Inv(Do(w, s)) && Extends(w, Do(w, s))
  {
    match s
    case Advance(id, brokerUp) =>
      if id in w.mock.tasks {
        AdvanceKeepsInv(w.mock, id, brokerUp);
      }
    case Fetch(_) =>
      if CONSUMER !in w.mock.tasks && w.position < |w.topic| {
        var m := w.topic[w.position];
        if TS.Screen(m).Admitted? {
          BeginKeepsInv(w.mock, CONSUMER, m.key, m.body.value);
        }
      }
    case Request(id, header, doc) =>
      if id != CONSUMER && id !in w.mock.tasks && TS.Post(TS.EMPTY, header, Some(doc)).1 == 201 {
        BeginKeepsInv(w.mock, id, header, doc);
      }
    case Offer(_, _) =>
    case Foreign(_) =>
    case Commit =>
    case Rewind =>
    case Suppress =>
      assert TasksAreSound(w.mock.(suppress := true));
    case Read(_) =>
  }

  lemma {:induction false} RunKeepsInv(w: World, steps: seq<Step>)
    requires Inv(w)
    ensures Inv(Run(w, steps)) && Extends(w, Run(w, steps))
  {
    if steps != [] {
      RunKeepsInv(w, steps[..|steps| - 1]);
      DoKeepsInv(Run(w, steps[..|steps| - 1]), steps[|steps| - 1]);
    }
  }
}
