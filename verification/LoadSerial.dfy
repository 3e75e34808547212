/**
 * The maps of the interleaved service are those of serving the same documents one at a time, in some
 * order: the consumer and any number of HTTP threads are serializable as far as the maps go.
 */
module LoadSerial {
  import opened Wrappers
  import opened Messages
  import opened LoadProtocol
  import opened LoadSafety
  import opened LoadStorage
  import TS = TargetSystem

  /** A document a thread takes up, with the key it came under, if any. */
  datatype Entry = Entry(header: Option<string>, doc: Doc)

  predicate IsAdmitted(e: Entry) {
    TS.Post(TS.EMPTY, e.header, Some(e.doc)).1 == 201
  }

  /** The entries served one after the other, none begun before the one before it is through. */
  function Serial(entries: seq<Entry>): TS.Store {
    if entries == [] then TS.EMPTY
    else
      var last := entries[|entries| - 1];
      TS.Post(Serial(entries[..|entries| - 1]), last.header, Some(last.doc)).0
  }

  function TakenUp(w: World, s: Step): seq<Entry> {
    match s
    case Fetch(_) =>
      if CONSUMER !in w.mock.tasks && w.position < |w.topic| && TS.Screen(w.topic[w.position]).Admitted?
      then [Entry(w.topic[w.position].key, w.topic[w.position].body.value)] else []
    case Request(id, header, doc) =>
      if id != CONSUMER && id !in w.mock.tasks && IsAdmitted(Entry(header, doc)) then [Entry(header, doc)] else []
    case _ => []
  }

  /** Everything taken up during a run, redelivered records as often as they were. */
  function AllTakenUp(steps: seq<Step>): seq<Entry> {
    if steps == [] then []
    else
      var n := |steps| - 1;
      AllTakenUp(steps[..n]) + TakenUp(Run(START, steps[..n]), steps[n])
  }

  // ---- the order of saving --------------------------------------------------------------------

  function EntryOf(t: Task): Entry {
    Entry(t.key, t.doc)
  }

  /** The thread has not yet found its key taken, nor stored its account. */
  predicate IsOpen(t: Task) {
    t.pc == Claiming || t.pc == Saving
  }

  function Open(m: Service, e: Entry): set<nat> {
    set id | id in m.tasks && IsOpen(m.tasks[id]) && EntryOf(m.tasks[id]) == e
  }

  /** Every entry taken up is saved, or came late to its key, or is in the hands of some thread. */
  ghost predicate AddsUp(m: Service, saved: seq<Entry>, late: seq<Entry>, taken: seq<Entry>) {
    forall e :: multiset(saved)[e] + multiset(late)[e] + |Open(m, e)| == multiset(taken)[e]
  }

  predicate AreAdmitted(m: Service) {
    forall id | id in m.tasks ::
      IsAdmitted(EntryOf(m.tasks[id])) && m.tasks[id].accountId == m.tasks[id].doc.accountId.value
  }

  /** The maps are those of the saved entries, but for the keys of the threads about to save. */
  ghost predicate IsSaveOrder(m: Service, saved: seq<Entry>) {
    var st := Serial(saved);
    && st.accounts == m.store.accounts
    && (forall k | k in st.idempotency :: k in m.store.idempotency && m.store.idempotency[k] == st.idempotency[k])
    && (forall k | k in m.store.idempotency :: k in st.idempotency || exists id :: MidSave(m, id, k))
    && (forall id, k | MidSave(m, id, k) :: k !in st.idempotency)
  }

  predicate CameLate(st: TS.Store, late: seq<Entry>) {
    forall e | e in late :: e.header.Some? && e.header.value in st.idempotency
  }

  ghost predicate Explains(m: Service, saved: seq<Entry>, late: seq<Entry>, taken: seq<Entry>) {
    AreAdmitted(m) && IsSaveOrder(m, saved) && CameLate(m.store, late) && AddsUp(m, saved, late, taken)
  }

  lemma {:induction false} OneLessOpen(m: Service, m': Service, id: nat, e: Entry)
    requires id in m.tasks && IsOpen(m.tasks[id])
    requires forall j | j != id :: (j in m.tasks <==> j in m'.tasks) && (j in m.tasks ==> m'.tasks[j] == m.tasks[j])
    requires id in m'.tasks ==> !IsOpen(m'.tasks[id])
    ensures |Open(m', e)| == |Open(m, e)| - (if e == EntryOf(m.tasks[id]) then 1 else 0)
  {
    assert Open(m', e) == Open(m, e) - {id};
  }

  lemma {:induction false} SameOpen(m: Service, m': Service, id: nat, e: Entry)
    requires id in m.tasks
    requires forall j | j != id :: (j in m.tasks <==> j in m'.tasks) && (j in m.tasks ==> m'.tasks[j] == m.tasks[j])
    requires IsOpen(m.tasks[id]) <==> id in m'.tasks && IsOpen(m'.tasks[id])
    requires id in m'.tasks ==> EntryOf(m'.tasks[id]) == EntryOf(m.tasks[id])
    ensures |Open(m', e)| == |Open(m, e)|
  {
    assert Open(m', e) == Open(m, e);
  }

  lemma {:induction false} SerialNext(saved: seq<Entry>, e: Entry)
    ensures Serial(saved + [e]) == TS.Post(Serial(saved), e.header, Some(e.doc)).0
  {
    assert (saved + [e])[..|saved|] == saved;
  }

  /** The key was free, or there is none: the thread goes on to save. */
  lemma {:induction false} ClaimExplained(m: Service, id: nat, saved: seq<Entry>, late: seq<Entry>, taken: seq<Entry>)
    requires ServiceInv(m) && Explains(m, saved, late, taken) && id in m.tasks && m.tasks[id].pc.Claiming?
    requires m.tasks[id].key.Some? ==> m.tasks[id].key.value !in m.store.idempotency
    ensures Explains(Claimed(m, id), saved, late, taken)
  {
    var m' := Claimed(m, id);
    forall e ensures |Open(m', e)| == |Open(m, e)| {
      SameOpen(m, m', id, e);
    }
    forall k | k in m'.store.idempotency ensures k in Serial(saved).idempotency || exists j :: MidSave(m', j, k) {
      if k !in m.store.idempotency {
        assert MidSave(m', id, k);
      } else if k !in Serial(saved).idempotency {
        var j :| MidSave(m, j, k);
        assert MidSave(m', j, k);
      }
    }
    forall j, k | MidSave(m', j, k) ensures k !in Serial(saved).idempotency {
      assert j != id ==> MidSave(m, j, k);
    }
  }

  /** The key was taken: the entry is late, wherever the thread that took it stands. */
  lemma {:induction false} LateExplained(m: Service, id: nat, saved: seq<Entry>, late: seq<Entry>, taken: seq<Entry>)
    requires ServiceInv(m) && Explains(m, saved, late, taken) && id in m.tasks && m.tasks[id].pc.Claiming?
    requires m.tasks[id].key.Some? && m.tasks[id].key.value in m.store.idempotency
    ensures Explains(Claimed(m, id), saved, late + [EntryOf(m.tasks[id])], taken)
  {
    var m', e := Claimed(m, id), EntryOf(m.tasks[id]);
    OneLess(m, m', id, saved, late, taken);
    SameMidSave(m, m', id);
    StillSaving(m, m', saved);
    assert AreAdmitted(m') && CameLate(m'.store, late + [e]);
  }

  /** The entry leaves the thread's hands for one of the two lists. */
  lemma {:induction false} OneLess(m: Service, m': Service, id: nat, saved: seq<Entry>, late: seq<Entry>,
                                   taken: seq<Entry>)
    requires AddsUp(m, saved, late, taken) && id in m.tasks && IsOpen(m.tasks[id])
    requires forall j | j != id :: (j in m.tasks <==> j in m'.tasks) && (j in m.tasks ==> m'.tasks[j] == m.tasks[j])
    requires id in m'.tasks ==> !IsOpen(m'.tasks[id])
    ensures AddsUp(m', saved, late + [EntryOf(m.tasks[id])], taken)
    ensures AddsUp(m', saved + [EntryOf(m.tasks[id])], late, taken)
  {
    forall e ensures |Open(m', e)| == |Open(m, e)| - (if e == EntryOf(m.tasks[id]) then 1 else 0) {
      OneLessOpen(m, m', id, e);
    }
  }

  lemma {:induction false} SameMidSave(m: Service, m': Service, id: nat)
    requires forall j | j != id :: (j in m.tasks <==> j in m'.tasks) && (j in m.tasks ==> m'.tasks[j] == m.tasks[j])
    requires id in m.tasks ==> !m.tasks[id].pc.Saving?
    requires id in m'.tasks ==> !m'.tasks[id].pc.Saving?
    ensures forall j, k :: MidSave(m, j, k) <==> MidSave(m', j, k)
  {
  }

  lemma {:induction false} StillSaving(m: Service, m': Service, saved: seq<Entry>)
    requires IsSaveOrder(m, saved) && m'.store == m.store
    requires forall j, k :: MidSave(m, j, k) <==> MidSave(m', j, k)
    ensures IsSaveOrder(m', saved)
  {
    forall k | k in m'.store.idempotency ensures k in Serial(saved).idempotency || exists j :: MidSave(m', j, k) {
      if k !in Serial(saved).idempotency {
        var j :| MidSave(m, j, k);
        assert MidSave(m', j, k);
      }
    }
  }

  lemma {:induction false} SaveExplained(m: Service, id: nat, saved: seq<Entry>, late: seq<Entry>, taken: seq<Entry>)
    requires ServiceInv(m) && Explains(m, saved, late, taken) && id in m.tasks && m.tasks[id].pc.Saving?
    ensures Explains(Saved(m, id), saved + [EntryOf(m.tasks[id])], late, taken)
  {
    OneLess(m, Saved(m, id), id, saved, late, taken);
    SaveIsNext(m, id, saved);
  }

  lemma {:induction false} SaveIsNext(m: Service, id: nat, saved: seq<Entry>)
    requires ServiceInv(m) && AreAdmitted(m) && IsSaveOrder(m, saved) && id in m.tasks && m.tasks[id].pc.Saving?
    ensures IsSaveOrder(Saved(m, id), saved + [EntryOf(m.tasks[id])])
  {
    var t, m' := m.tasks[id], Saved(m, id);
    SerialNext(saved, EntryOf(t));
    assert TaskIsSound(m.store, id, t);
    assert t.key.Some? ==> MidSave(m, id, t.key.value);
    var st := Serial(saved + [EntryOf(t)]);
    forall k | k in m'.store.idempotency ensures k in st.idempotency || exists j :: MidSave(m', j, k) {
      if k !in st.idempotency {
        var j :| MidSave(m, j, k);
        assert MidSave(m', j, k);
      }
    }
    forall j, k | MidSave(m', j, k) ensures k !in st.idempotency {
      assert MidSave(m, j, k) && Separate(m.tasks[j], t);
    }
  }

  /** Announcing and sending concern the maps no more. */
  lemma {:induction false} RestExplained(m: Service, m': Service, id: nat, saved: seq<Entry>, late: seq<Entry>,
                                         taken: seq<Entry>)
    requires Explains(m, saved, late, taken) && id in m.tasks && !IsOpen(m.tasks[id]) && m'.store == m.store
    requires forall j | j != id :: (j in m.tasks <==> j in m'.tasks) && (j in m.tasks ==> m'.tasks[j] == m.tasks[j])
    requires id in m'.tasks ==> !IsOpen(m'.tasks[id]) && EntryOf(m'.tasks[id]) == EntryOf(m.tasks[id])
                                && m'.tasks[id].accountId == m.tasks[id].accountId
    ensures Explains(m', saved, late, taken)
  {
    forall e ensures |Open(m', e)| == |Open(m, e)| {
      SameOpen(m, m', id, e);
    }
    StillSaving(m, m', saved);
  }

  lemma {:induction false} AdvanceExplained(m: Service, id: nat, brokerUp: bool, saved: seq<Entry>, late: seq<Entry>,
                                            taken: seq<Entry>) returns (saved': seq<Entry>, late': seq<Entry>)
    requires ServiceInv(m) && Explains(m, saved, late, taken) && id in m.tasks
    ensures Explains(Advanced(m, id, brokerUp), saved', late', taken)
  {
    var t := m.tasks[id];
    saved', late' := saved, late;
    match t.pc
    case Claiming =>
      if t.key.Some? && t.key.value in m.store.idempotency {
        LateExplained(m, id, saved, late, taken);
        late' := late + [EntryOf(t)];
      } else {
        ClaimExplained(m, id, saved, late, taken);
      }
    case Saving =>
      SaveExplained(m, id, saved, late, taken);
      saved' := saved + [EntryOf(t)];
    case Announcing(created) => RestExplained(m, Announced(m, id, created), id, saved, late, taken);
    case Sending(created) => RestExplained(m, Sent(m, id, created, brokerUp), id, saved, late, taken);
  }

  lemma {:induction false} BeginExplained(m: Service, id: nat, header: Option<string>, doc: Doc, saved: seq<Entry>,
                                          late: seq<Entry>, taken: seq<Entry>)
    requires Explains(m, saved, late, taken) && id !in m.tasks && IsAdmitted(Entry(header, doc))
    ensures Explains(Began(m, id, header, doc), saved, late, taken + [Entry(header, doc)])
  {
    var m' := Began(m, id, header, doc);
    forall e ensures |Open(m', e)| == |Open(m, e)| + (if e == Entry(header, doc) then 1 else 0) {
      OneLessOpen(m', m, id, e);
    }
    StillSaving(m, m', saved);
  }

  lemma {:induction false} StepExplained(w: World, s: Step, saved: seq<Entry>, late: seq<Entry>, taken: seq<Entry>)
    returns (saved': seq<Entry>, late': seq<Entry>)
    requires Inv(w) && Explains(w.mock, saved, late, taken)
    ensures Explains(Do(w, s).mock, saved', late', taken + TakenUp(w, s))
  {
    saved', late' := saved, late;
    assert taken + [] == taken;
    match s
    case Advance(id, brokerUp) =>
      if id in w.mock.tasks {
        saved', late' := AdvanceExplained(w.mock, id, brokerUp, saved, late, taken);
      }
    case Fetch(_) =>
      if TakenUp(w, s) != [] {
        var m := w.topic[w.position];
        BeginExplained(w.mock, CONSUMER, m.key, m.body.value, saved, late, taken);
      }
    case Request(id, header, doc) =>
      if TakenUp(w, s) != [] {
        BeginExplained(w.mock, id, header, doc, saved, late, taken);
      }
    case Suppress =>
      var m' := w.mock.(suppress := true);
      StillSaving(w.mock, m', saved);
      forall e ensures Open(m', e) == Open(w.mock, e) {
      }
    case _ =>
  }

  /** At every point of every run the order of saving explains the maps. */
  lemma {:induction false} RunExplained(steps: seq<Step>) returns (saved: seq<Entry>, late: seq<Entry>)
    ensures Explains(Run(START, steps).mock, saved, late, AllTakenUp(steps))
  {
    if steps == [] {
      saved, late := [], [];
      forall e ensures Open(START.mock, e) == {} {
      }
    } else {
      var n := |steps| - 1;
      saved, late := RunExplained(steps[..n]);
      EveryRunKeepsInv(steps[..n]);
      saved, late := StepExplained(Run(START, steps[..n]), steps[n], saved, late, AllTakenUp(steps[..n]));
    }
  }

  // ---- when nothing is half done --------------------------------------------------------------

  lemma {:induction false} LateChangesNothing(saved: seq<Entry>, late: seq<Entry>)
    requires CameLate(Serial(saved), late)
    ensures Serial(saved + late) == Serial(saved)
    decreases |late|
  {
    if late == [] {
      assert saved + late == saved;
    } else {
      var n := |late| - 1;
      assert forall e | e in late[..n] :: e in late;
      LateChangesNothing(saved, late[..n]);
      SerialNext(saved + late[..n], late[n]);
      assert saved + late == saved + late[..n] + [late[n]];
    }
  }

  /**
   * Once no thread stands between taking a document up and having claimed and stored it, the two
   * maps are those of serving everything that was taken up one at a time, in some order.
   */
  lemma {:induction false} SomeSerialOrder(steps: seq<Step>) returns (order: seq<Entry>)
    requires forall id | id in Run(START, steps).mock.tasks :: !IsOpen(Run(START, steps).mock.tasks[id])
    ensures multiset(order) == multiset(AllTakenUp(steps)) && Run(START, steps).mock.store == Serial(order)
  {
    var m := Run(START, steps).mock;
    var saved, late := RunExplained(steps);
    assert forall id, k :: !MidSave(m, id, k);
    assert m.store == Serial(saved);
    LateChangesNothing(saved, late);
    order := saved + late;
    forall e ensures multiset(order)[e] == multiset(AllTakenUp(steps))[e] {
      assert Open(m, e) == {};
    }
  }

  function AsMessages(order: seq<Entry>): (topic: seq<Message>)
    ensures |topic| == |order|
  {
    seq(|order|, i requires 0 <= i < |order| => Message(order[i].header, Some(order[i].doc)))
  }

  lemma {:induction false} SerialIsPass(order: seq<Entry>)
    requires forall e | e in order :: e.header.Some? && IsAdmitted(e)
    ensures Serial(order) == TS.Pass(AsMessages(order))
  {
    if order != [] {
      var n := |order| - 1;
      assert order == order[..n] + [order[n]];
      SerialIsPass(order[..n]);
      assert AsMessages(order)[..n] == AsMessages(order[..n]);
      assert IsAdmitted(order[n]);
    }
  }

  lemma {:induction false} TakenUpIsAdmitted(steps: seq<Step>)
    ensures forall e | e in AllTakenUp(steps) :: IsAdmitted(e)
  {
    if steps != [] {
      TakenUpIsAdmitted(steps[..|steps| - 1]);
    }
  }

  /** When every request carries a key, first-wins holds of both intakes together, along that order. */
  lemma {:induction false} BothIntakesAreFirstWins(steps: seq<Step>) returns (order: seq<Entry>)
    requires forall id | id in Run(START, steps).mock.tasks :: !IsOpen(Run(START, steps).mock.tasks[id])
    requires forall e | e in AllTakenUp(steps) :: e.header.Some?
    ensures multiset(order) == multiset(AllTakenUp(steps))
    ensures TS.IsFirstWins(AsMessages(order), Run(START, steps).mock.store)
  {
    order := SomeSerialOrder(steps);
    TakenUpIsAdmitted(steps);
    forall e | e in order ensures e.header.Some? && IsAdmitted(e) {
      assert e in multiset(order);
      assert e in AllTakenUp(steps);
    }
    SerialIsPass(order);
    TS.PassIsFirstWins(AsMessages(order));
  }
}
