/**
 * The Target System mock: first-wins application of documents, the verdicts it publishes, its
 * two intakes (the consumer on the target topic and POST /v1/accounts), and the claim that
 * consuming at least once leaves the same accounts as consuming exactly once.
 */
module TargetSystem {
  import opened Text
  import opened Wrappers
  import opened Messages

  /** The two maps every intake funnels into. Neither ever loses a key outside a reset. */
  datatype Store = Store(idempotency: map<string, string>, accounts: map<string, Doc>)

  const EMPTY := Store(map[], map[])

  // ---- what one document on the topic means -------------------------------------------

  datatype Screening = Refused(accountId: string, reason: string) | Admitted(key: string, accountId: string)

  /** Decided by the message alone, never by what is stored. */
  function Screen(m: Message): Screening {
    if m.body.None? then Refused("<unparseable>", "invalid_json")
    else if Missing(m.body.value.accountId) then Refused("<unidentified>", "missing_accountId")
    else if Missing(m.key) then Refused(m.body.value.accountId.value, "blank_idempotency_key")
    else Admitted(m.key.value, m.body.value.accountId.value)
  }

  /** The first document to claim a key is stored; later ones with that key change nothing. */
  function Claim(st: Store, key: string, accountId: string, doc: Doc): Store {
    if key in st.idempotency then st
    else Store(st.idempotency[key := accountId], st.accounts[accountId := doc])
  }

  function Apply(st: Store, m: Message): Store {
    match Screen(m)
    case Refused(_, _) => st
    case Admitted(key, accountId) => Claim(st, key, accountId, m.body.value)
  }

  /** One in-order, exactly-once pass over a target log. */
  function Pass(topic: seq<Message>): Store {
    if topic == [] then EMPTY else Apply(Pass(topic[..|topic| - 1]), topic[|topic| - 1])
  }

  predicate Grows(before: Store, after: Store) {
    && before.accounts.Keys <= after.accounts.Keys
    && before.idempotency.Keys <= after.idempotency.Keys
    && forall k | k in before.idempotency :: after.idempotency[k] == before.idempotency[k]
  }

  lemma {:induction false} PassGrows(topic: seq<Message>, n: nat)
    requires n <= |topic|
    ensures Grows(Pass(topic[..n]), Pass(topic))
    decreases |topic|
  {
    if n < |topic| {
      PassGrows(topic[..|topic| - 1], n);
      assert topic[..|topic| - 1][..n] == topic[..n];
    } else {
      assert topic[..n] == topic;
    }
  }

  /** A message the pass has already met is a no-op, however often it is delivered again. */
  lemma {:induction false} RedeliveryChangesNothing(topic: seq<Message>, i: nat)
    requires i < |topic|
    ensures Apply(Pass(topic), topic[i]) == Pass(topic)
  {
    assert topic[..i + 1][..i] == topic[..i];
    PassGrows(topic, i + 1);
  }

  // ---- what a pass leaves behind, said without running it -----------------------------

  predicate Admits(topic: seq<Message>, i: nat) {
    i < |topic| && Screen(topic[i]).Admitted?
  }

  /** What is admitted carries a key and an account, neither blank, and is filed under just these. */
  lemma {:induction false} AdmittedExactly(topic: seq<Message>, i: nat)
    requires i < |topic|
    ensures var m := topic[i];
            && (Admits(topic, i) <==>
                  && m.key.Some? && !IsBlank(m.key.value) && m.body.Some?
                  && m.body.value.accountId.Some? && !IsBlank(m.body.value.accountId.value))
            && (Admits(topic, i) ==>
                  Screen(m).key == m.key.value && Screen(m).accountId == m.body.value.accountId.value)
  {
  }

  /** Message i is the first admitted one with its key. */
  predicate Leads(topic: seq<Message>, i: nat) {
    && Admits(topic, i)
    && forall j: nat | j < i && Admits(topic, j) :: Screen(topic[j]).key != Screen(topic[i]).key
  }

  /** Message i is the last leader for its account. */
  ghost predicate Settles(topic: seq<Message>, i: nat) {
    && Leads(topic, i)
    && forall j: nat | i < j && Leads(topic, j) :: Screen(topic[j]).accountId != Screen(topic[i]).accountId
  }

  ghost predicate HoldsFirstClaims(topic: seq<Message>, idempotency: map<string, string>) {
    && (forall k | k in idempotency :: exists i: nat :: Leads(topic, i) && Screen(topic[i]).key == k)
    && (forall i: nat | Leads(topic, i) ::
          Screen(topic[i]).key in idempotency && idempotency[Screen(topic[i]).key] == Screen(topic[i]).accountId)
  }

  ghost predicate LedAccounts(topic: seq<Message>, accounts: map<string, Doc>) {
    && (forall a | a in accounts :: exists i: nat :: Leads(topic, i) && Screen(topic[i]).accountId == a)
    && (forall i: nat | Leads(topic, i) :: Screen(topic[i]).accountId in accounts)
  }

  ghost predicate HoldsLastLeaders(topic: seq<Message>, accounts: map<string, Doc>) {
    && LedAccounts(topic, accounts)
    && (forall i: nat | Settles(topic, i) ::
          Screen(topic[i]).accountId in accounts && accounts[Screen(topic[i]).accountId] == topic[i].body.value)
  }

  ghost predicate IsFirstWins(topic: seq<Message>, st: Store) {
    HoldsFirstClaims(topic, st.idempotency) && HoldsLastLeaders(topic, st.accounts)
  }

  lemma {:induction false} LeadsInPrefix(topic: seq<Message>, i: nat)
    requires 0 < |topic|
    ensures i < |topic| - 1 ==> (Leads(topic[..|topic| - 1], i) <==> Leads(topic, i))
  {
    var before := topic[..|topic| - 1];
    assert forall j: nat | j < |before| :: before[j] == topic[j];
    if i < |before| {
      assert forall j: nat | j <= i :: Admits(before, j) <==> Admits(topic, j);
    }
  }

  /** Every key is held by its first admitted document, every account by its last leader. */
  lemma {:induction false} PassIsFirstWins(topic: seq<Message>)
    ensures IsFirstWins(topic, Pass(topic))
  {
    if topic != [] {
      var n := |topic| - 1;
      var before := topic[..n];
      PassIsFirstWins(before);
      forall i: nat { LeadsInPrefix(topic, i); }
      var st := Pass(before);
      if Leads(topic, n) {
        LeaderIsNewKey(topic, st.idempotency);
        LeaderIsLastAccount(topic, st.accounts);
      } else {
        FollowerChangesNothing(topic, st);
      }
    }
  }

  lemma {:induction false} LeaderIsNewKey(topic: seq<Message>, idempotency: map<string, string>)
    requires topic != [] && HoldsFirstClaims(topic[..|topic| - 1], idempotency) && Leads(topic, |topic| - 1)
    requires forall i: nat | i < |topic| - 1 :: Leads(topic[..|topic| - 1], i) <==> Leads(topic, i)
    ensures Screen(topic[|topic| - 1]).key !in idempotency
    ensures HoldsFirstClaims(topic,
              idempotency[Screen(topic[|topic| - 1]).key := Screen(topic[|topic| - 1]).accountId])
  {
    var n := |topic| - 1;
    var before, s := topic[..n], Screen(topic[n]);
    assert forall i: nat | i < n :: before[i] == topic[i];
    forall i: nat | Leads(topic, i) && i < n ensures Leads(before, i) && Screen(topic[i]).key != s.key {
      assert Admits(topic, i);
    }
    forall k | k in idempotency ensures exists i: nat :: Leads(topic, i) && Screen(topic[i]).key == k {
      var i: nat :| Leads(before, i) && Screen(before[i]).key == k;
      assert Leads(topic, i) && topic[i] == before[i];
    }
  }

  /** What settled an account and still does was a leader of another account than the new leader's. */
  lemma {:induction false} SettlersBeforeLeader(topic: seq<Message>, i: nat)
    requires topic != [] && Leads(topic, |topic| - 1) && Settles(topic, i) && i < |topic| - 1
    requires forall i: nat | i < |topic| - 1 :: Leads(topic[..|topic| - 1], i) <==> Leads(topic, i)
    ensures Settles(topic[..|topic| - 1], i) && Screen(topic[i]).accountId != Screen(topic[|topic| - 1]).accountId
  {
    var before := topic[..|topic| - 1];
    assert forall j: nat | j < |before| :: before[j] == topic[j];
    assert Leads(before, i);
    forall j: nat | i < j && Leads(before, j) ensures Screen(before[j]).accountId != Screen(before[i]).accountId {
      assert Leads(topic, j);
    }
  }

  lemma {:induction false} LeaderNamesAnAccount(topic: seq<Message>, accounts: map<string, Doc>, doc: Doc)
    requires topic != [] && LedAccounts(topic[..|topic| - 1], accounts) && Leads(topic, |topic| - 1)
    requires forall i: nat | i < |topic| - 1 :: Leads(topic[..|topic| - 1], i) <==> Leads(topic, i)
    ensures LedAccounts(topic, accounts[Screen(topic[|topic| - 1]).accountId := doc])
  {
    var n := |topic| - 1;
    var before, s := topic[..n], Screen(topic[n]);
    forall a | a in accounts && a != s.accountId
      ensures exists i: nat :: Leads(topic, i) && Screen(topic[i]).accountId == a
    {
      var i: nat :| Leads(before, i) && Screen(before[i]).accountId == a;
      assert Leads(topic, i) && topic[i] == before[i];
    }
    forall i: nat | Leads(topic, i) && i < n ensures Screen(topic[i]).accountId in accounts {
      assert Leads(before, i) && before[i] == topic[i];
    }
  }

  lemma {:induction false} LeaderIsLastAccount(topic: seq<Message>, accounts: map<string, Doc>)
    requires topic != [] && HoldsLastLeaders(topic[..|topic| - 1], accounts) && Leads(topic, |topic| - 1)
    requires forall i: nat | i < |topic| - 1 :: Leads(topic[..|topic| - 1], i) <==> Leads(topic, i)
    ensures HoldsLastLeaders(topic,
              accounts[Screen(topic[|topic| - 1]).accountId := topic[|topic| - 1].body.value])
  {
    var n := |topic| - 1;
    var accounts' := accounts[Screen(topic[n]).accountId := topic[n].body.value];
    LeaderNamesAnAccount(topic, accounts, topic[n].body.value);
    forall i: nat | Settles(topic, i) ensures accounts'[Screen(topic[i]).accountId] == topic[i].body.value {
      if i < n {
        SettlersBeforeLeader(topic, i);
        assert topic[..n][i] == topic[i];
      }
    }
  }

  lemma {:induction false} FollowerChangesNothing(topic: seq<Message>, st: Store)
    requires topic != [] && IsFirstWins(topic[..|topic| - 1], st) && !Leads(topic, |topic| - 1)
    requires forall i: nat | i < |topic| - 1 :: Leads(topic[..|topic| - 1], i) <==> Leads(topic, i)
    ensures Apply(st, topic[|topic| - 1]) == st && IsFirstWins(topic, st)
  {
    var n := |topic| - 1;
    var before, s := topic[..n], Screen(topic[n]);
    if s.Admitted? {
      var j: nat :| j < n && Admits(topic, j) && Screen(topic[j]).key == s.key;
      var i := FirstWithKey(topic, j);
      assert Leads(before, i) && before[i] == topic[i];
    }
    FollowerKeepsLeaders(topic);
    forall k | k in st.idempotency ensures exists i: nat :: Leads(topic, i) && Screen(topic[i]).key == k {
      var i: nat :| Leads(before, i) && Screen(before[i]).key == k;
      assert Leads(topic, i) && topic[i] == before[i];
    }
    forall a | a in st.accounts ensures exists i: nat :: Leads(topic, i) && Screen(topic[i]).accountId == a {
      var i: nat :| Leads(before, i) && Screen(before[i]).accountId == a;
      assert Leads(topic, i) && topic[i] == before[i];
    }
  }

  lemma {:induction false} FollowerKeepsLeaders(topic: seq<Message>)
    requires topic != [] && !Leads(topic, |topic| - 1)
    requires forall i: nat | i < |topic| - 1 :: Leads(topic[..|topic| - 1], i) <==> Leads(topic, i)
    ensures forall i: nat | Leads(topic, i) ::
              Leads(topic[..|topic| - 1], i) && topic[i] == topic[..|topic| - 1][i]
    ensures forall i: nat | Settles(topic, i) :: Settles(topic[..|topic| - 1], i)
  {
    var before := topic[..|topic| - 1];
    assert forall i: nat | i < |before| :: before[i] == topic[i];
    forall i: nat | Settles(topic, i) ensures Settles(before, i) {
      assert Leads(before, i);
      forall j: nat | i < j && Leads(before, j)
        ensures Screen(before[j]).accountId != Screen(before[i]).accountId
      {
        assert Leads(topic, j);
      }
    }
  }

  lemma {:induction false} FirstWithKey(topic: seq<Message>, j: nat) returns (i: nat)
    requires Admits(topic, j)
    ensures i <= j && Leads(topic, i) && Screen(topic[i]).key == Screen(topic[j]).key
  {
    if h: nat :| h < j && Admits(topic, h) && Screen(topic[h]).key == Screen(topic[j]).key {
      i := FirstWithKey(topic, h);
    } else {
      i := j;
    }
  }

  lemma {:induction false} LastLeader(topic: seq<Message>, i: nat) returns (j: nat)
    requires Leads(topic, i)
    ensures i <= j && Settles(topic, j) && Screen(topic[j]).accountId == Screen(topic[i]).accountId
    decreases |topic| - i
  {
    if h: nat :| i < h && Leads(topic, h) && Screen(topic[h]).accountId == Screen(topic[i]).accountId {
      j := LastLeader(topic, h);
    } else {
      j := i;
    }
  }

  /** The last document to open a key for the account. */
  ghost predicate IsLastOpener(topic: seq<Message>, accountId: string, body: Option<Doc>) {
    exists j: nat :: Settles(topic, j) && Screen(topic[j]).accountId == accountId && topic[j].body == body
  }

  /**
   * A message's own document is the one its account ends up with exactly when the last document to
   * open a key for that account is that same document. A second document under a claimed key is
   * confirmed as a duplicate and kept nowhere.
   */
  lemma {:induction false} OwnDocumentIsStoredExactly(topic: seq<Message>, i: nat)
    requires Admits(topic, i)
    ensures var accountId, st := Screen(topic[i]).accountId, Pass(topic);
            (accountId in st.accounts && st.accounts[accountId] == topic[i].body.value) <==>
            IsLastOpener(topic, accountId, topic[i].body)
  {
    var accountId, st := Screen(topic[i]).accountId, Pass(topic);
    PassIsFirstWins(topic);
    if accountId in st.accounts {
      var h: nat :| Leads(topic, h) && Screen(topic[h]).accountId == accountId;
      var j := LastLeader(topic, h);
      assert st.accounts[accountId] == topic[j].body.value;
    }
  }

  /** With keys and accounts all different, every admitted document is stored as it is. */
  lemma {:induction false} DistinctDocumentsAreAllStored(topic: seq<Message>, i: nat)
    requires Admits(topic, i)
    requires forall j: nat | Admits(topic, j) && j != i ::
               Screen(topic[j]).key != Screen(topic[i]).key && Screen(topic[j]).accountId != Screen(topic[i]).accountId
    ensures Screen(topic[i]).accountId in Pass(topic).accounts
    ensures Pass(topic).accounts[Screen(topic[i]).accountId] == topic[i].body.value
  {
    PassIsFirstWins(topic);
    assert Settles(topic, i);
  }

  // ---- at-least-once delivery ---------------------------------------------------------

  /** The consumer's view of a one-partition target log. `furthest` only records how far it ever got. */
  datatype Consumer = Consumer(topic: seq<Message>, position: nat, committed: nat, furthest: nat, store: Store)

  datatype Action =
    | Produce(m: Message)
    | Deliver
    | Commit
    | Rewind     // a restart or rebalance: resume from the committed offset

  function Max(a: nat, b: nat): nat {
    if a < b then b else a
  }

  function Act(c: Consumer, a: Action): Consumer {
    match a
    case Produce(m) => c.(topic := c.topic + [m])
    case Deliver =>
      if c.position < |c.topic|
      then c.(position := c.position + 1,
              furthest := Max(c.furthest, c.position + 1),
              store := Apply(c.store, c.topic[c.position]))
      else c
    case Commit => c.(committed := c.position)
    case Rewind => c.(position := c.committed)
  }

  function Schedule(c: Consumer, actions: seq<Action>): Consumer {
    if actions == [] then c
    else Act(Schedule(c, actions[..|actions| - 1]), actions[|actions| - 1])
  }

  predicate Refines(c: Consumer) {
    && c.position <= c.furthest <= |c.topic|
    && c.committed <= c.furthest
    && c.store == Pass(c.topic[..c.furthest])
  }

  lemma {:induction false} ActRefines(c: Consumer, a: Action)
    requires Refines(c)
    ensures Refines(Act(c, a))
  {
    match a
    case Produce(m) =>
      assert (c.topic + [m])[..c.furthest] == c.topic[..c.furthest];
    case Deliver =>
      if c.position < c.furthest {
        assert c.topic[..c.furthest][c.position] == c.topic[c.position];
        RedeliveryChangesNothing(c.topic[..c.furthest], c.position);
      } else if c.position < |c.topic| {
        var reached := c.topic[..c.position + 1];
        assert reached[..|reached| - 1] == c.topic[..c.position];
      }
    case Commit =>
    case Rewind =>
  }

  lemma {:induction false} OneMoreDelivery(topic: seq<Message>, position: nat, furthest: nat)
    requires position < |topic| && position <= furthest <= |topic|
    ensures Apply(Pass(topic[..furthest]), topic[position]) == Pass(topic[..Max(furthest, position + 1)])
  {
    ActRefines(Consumer(topic, position, position, furthest, Pass(topic[..furthest])), Deliver);
  }

  /**
   * Whatever the order of produce, delivery, commit and rewind, the idempotency map and the
   * accounts are those of one in-order pass over the log up to the furthest position reached.
   */
  lemma {:induction false} AtLeastOnceRefinesExactlyOnce(actions: seq<Action>)
    ensures
      var c := Schedule(Consumer([], 0, 0, 0, EMPTY), actions);
      Refines(c) && IsFirstWins(c.topic[..c.furthest], c.store)
  {
    var c := Schedule(Consumer([], 0, 0, 0, EMPTY), actions);
    if actions != [] {
      AtLeastOnceRefinesExactlyOnce(actions[..|actions| - 1]);
      ActRefines(Schedule(Consumer([], 0, 0, 0, EMPTY), actions[..|actions| - 1]), actions[|actions| - 1]);
    }
    PassIsFirstWins(c.topic[..c.furthest]);
  }

  // ---- the service itself -------------------------------------------------------------

  datatype Ruling = Created | AlreadyApplied | Rejected(accountId: string, reason: string)

  function Rule(st: Store, m: Message): Ruling {
    match Screen(m)
    case Refused(accountId, reason) => Rejected(accountId, reason)
    case Admitted(key, _) => if key in st.idempotency then AlreadyApplied else Created
  }

  /** `accepted` counts the keys claimed. */
  lemma {:induction false} OneClaimPerCreation(st: Store, m: Message)
    ensures |Apply(st, m).idempotency| == |st.idempotency| + (if Rule(st, m).Created? then 1 else 0)
  {
    if Rule(st, m).Created? {
      assert Apply(st, m).idempotency.Keys == st.idempotency.Keys + {Screen(m).key};
    }
  }

  function Confirmation(doc: Doc, accountId: string, key: Option<string>, outcome: string): ReturnRecord {
    ReturnRecord(Confirmations, key, Some(Event(doc.runId, accountId, Some(outcome), None)))
  }

  function Rejection(body: Option<Doc>, accountId: string, key: Option<string>, reason: string): ReturnRecord {
    ReturnRecord(Rejections, key,
                 Some(Event(if body.None? then "" else body.value.runId, accountId, None, Some(reason))))
  }

  /** What ruling on m puts on the confirmation topic when nothing suppresses or loses it. */
  function ConfirmationsFor(st: Store, m: Message): seq<ReturnRecord> {
    match Rule(st, m)
    case Rejected(_, _) => []
    case Created => [Confirmation(m.body.value, Screen(m).accountId, m.key, CREATED)]
    case AlreadyApplied => [Confirmation(m.body.value, Screen(m).accountId, m.key, DUPLICATE)]
  }

  function RejectionsFor(m: Message): seq<ReturnRecord> {
    match Screen(m)
    case Refused(accountId, reason) => [Rejection(m.body, accountId, m.key, reason)]
    case Admitted(_, _) => []
  }

  /** What the threads of the mock share, as far as the consumer is concerned. */
  datatype Intake = Intake(store: Store, suppress: bool,
                           confirmations: seq<ReturnRecord>, rejections: seq<ReturnRecord>)

  /** One consumed record; the flag waits for a document that would be confirmed. */
  function Handle(s: Intake, m: Message, brokerUp: bool): Intake {
    Intake(Apply(s.store, m), s.suppress && Screen(m).Refused?,
           s.confirmations + (if brokerUp && !s.suppress then ConfirmationsFor(s.store, m) else []),
           s.rejections + (if brokerUp then RejectionsFor(m) else []))
  }

  /** A refused record leaves one rejection, if the broker takes it, with the run of the document where there is one. */
  lemma {:induction false} RefusalSays(s: Intake, key: Option<string>, body: Option<Doc>, brokerUp: bool)
    requires body.None? || key.None? || IsBlank(key.value)
             || body.value.accountId.None? || IsBlank(body.value.accountId.value)
    ensures var noAccount := body.Some? && (body.value.accountId.None? || IsBlank(body.value.accountId.value));
            var event :=
              if body.None? then Event("", "<unparseable>", None, Some("invalid_json"))
              else if noAccount then Event(body.value.runId, "<unidentified>", None, Some("missing_accountId"))
              else Event(body.value.runId, body.value.accountId.value, None, Some("blank_idempotency_key"));
            var after := Handle(s, Message(key, body), brokerUp);
            && after.store == s.store && after.suppress == s.suppress && after.confirmations == s.confirmations
            && after.rejections
               == s.rejections + (if brokerUp then [ReturnRecord(Rejections, key, Some(event))] else [])
  {
    assert s.confirmations + [] == s.confirmations;
  }

  /**
   * An admitted record leaves one confirmation, unless the flag or the broker loses it: created, with
   * claim and account stored, when its key was free, and otherwise a duplicate with nothing stored.
   */
  lemma {:induction false} AdmissionSays(s: Intake, key: string, doc: Doc, accountId: string, brokerUp: bool)
    requires !IsBlank(key) && doc.accountId == Some(accountId) && !IsBlank(accountId)
    ensures var known := key in s.store.idempotency;
            var event := Event(doc.runId, accountId, Some(if known then "duplicate" else "created"), None);
            var after := Handle(s, Message(Some(key), Some(doc)), brokerUp);
            && after.store.idempotency == (if known then s.store.idempotency else s.store.idempotency[key := accountId])
            && after.store.accounts == (if known then s.store.accounts else s.store.accounts[accountId := doc])
            && !after.suppress && after.rejections == s.rejections
            && after.confirmations == s.confirmations +
                 (if brokerUp && !s.suppress then [ReturnRecord(Confirmations, Some(key), Some(event))] else [])
  {
    assert s.rejections + [] == s.rejections;
  }

  /** Whether the n-th record ever consumed finds the broker up. */
  predicate IsUp(sends: seq<bool>, n: nat) {
    n < |sends| ==> sends[n]
  }

  /** Records consumed one after the other, `first` of them having been consumed before. */
  function HandleAll(s: Intake, messages: seq<Message>, sends: seq<bool>, first: nat): Intake {
    if messages == [] then s
    else
      var n := |messages| - 1;
      Handle(HandleAll(s, messages[..n], sends, first), messages[n], IsUp(sends, first + n))
  }

  lemma {:induction false} HandleNext(s: Intake, topic: seq<Message>, from: nat, position: nat, sends: seq<bool>,
                                      first: nat)
    requires from <= position < |topic|
    ensures HandleAll(s, topic[from..position + 1], sends, first)
         == Handle(HandleAll(s, topic[from..position], sends, first), topic[position],
                   IsUp(sends, first + (position - from)))
  {
    var longer := topic[from..position + 1];
    assert longer[..|longer| - 1] == topic[from..position];
  }

  /** A POST without the header skips the idempotency map altogether. */
  function Post(st: Store, header: Option<string>, body: Option<Doc>): (Store, int) {
    if body.None? then (st, 400)
    else if Missing(body.value.accountId) then (st, 422)
    else if header.Some? && IsBlank(header.value) then (st, 422)
    else
      var doc, accountId := body.value, body.value.accountId.value;
      if header.None? then (st.(accounts := st.accounts[accountId := doc]), 201)
      else (Claim(st, header.value, accountId, doc), if header.value in st.idempotency then 200 else 201)
  }

  lemma {:induction false} PostGrows(st: Store, header: Option<string>, body: Option<Doc>)
    ensures Grows(st, Post(st, header, body).0)
    ensures Post(st, header, body).1 in {200, 201} && header.Some? ==>
              header.value in Post(st, header, body).0.idempotency
    ensures Post(st, header, body).1 == 201 && header.Some? ==> header.value !in st.idempotency
    ensures Post(st, header, body).1 == 200 ==> Post(st, header, body).0 == st
  {
  }

  /** Every answer of a POST and what it leaves in the maps. */
  lemma {:induction false} PostSays(st: Store, header: Option<string>, body: Option<Doc>)
    ensures var (after, status) := Post(st, header, body);
            var identified := body.Some? && body.value.accountId.Some? && !IsBlank(body.value.accountId.value);
            var blankKey := header.Some? && IsBlank(header.value);
            var known := header.Some? && header.value in st.idempotency;
            && (status == 400 <==> body.None?)
            && (status == 422 <==> body.Some? && (!identified || blankKey))
            && (status == 200 <==> identified && !blankKey && known)
            && (status == 201 <==> identified && !blankKey && !known)
            && (status != 201 ==> after == st)
            && (status == 201 ==>
                  var accountId := body.value.accountId.value;
                  && after.accounts == st.accounts[accountId := body.value]
                  && after.idempotency == if header.None? then st.idempotency
                                          else st.idempotency[header.value := accountId])
  {
  }

  /** One `poll`: how many records it returns, and after how many of them the loop dies, if it does. */
  datatype Poll = Poll(size: nat, diesAfter: Option<nat>)

  /** Where one poll taken up at `start` leaves off on a log of that length, and whether it dies there. */
  function Stop(start: nat, poll: Poll, length: nat): (nat, bool)
    requires start <= length
  {
    var end := if start + poll.size <= length then start + poll.size else length;
    if poll.diesAfter.Some? && start + poll.diesAfter.value < end then (start + poll.diesAfter.value, true)
    else (end, false)
  }

  /** What a loop started there commits, and how far it gets. */
  function Reach(start: nat, polls: seq<Poll>, length: nat): (nat, nat)
    requires start <= length
    decreases |polls|
  {
    if polls == [] then (start, start)
    else
      var (position, died) := Stop(start, polls[0], length);
      if died then (start, position) else Reach(position, polls[1..], length)
  }

  lemma {:induction false} ReachNext(start: nat, polls: seq<Poll>, i: nat, length: nat)
    requires start <= length && i < |polls|
    ensures Reach(start, polls[i..], length) ==
              var (position, died) := Stop(start, polls[i], length);
              if died then (start, position) else Reach(position, polls[i + 1..], length)
  {
    assert polls[i..][1..] == polls[i + 1..];
  }

  /** A loop that is not interrupted and polls often enough applies and commits the whole log. */
  lemma {:induction false} UninterruptedLoopReachesEnd(start: nat, polls: seq<Poll>, length: nat)
    requires start <= length <= start + |polls|
    requires forall poll | poll in polls :: poll.size > 0 && poll.diesAfter == None
    ensures Reach(start, polls, length) == (length, length)
    decreases polls
  {
    if polls != [] {
      var (position, died) := Stop(start, polls[0], length);
      assert polls[0] in polls && forall poll | poll in polls[1..] :: poll in polls;
      UninterruptedLoopReachesEnd(position, polls[1..], length);
    }
  }

  /** Polls that do not die are all committed; one that dies is not, and ends the loop where it died. */
  lemma {:induction false} DeadPollIsNotCommitted(start: nat, before: seq<Poll>, last: Poll, length: nat)
    requires start <= length && forall poll | poll in before :: poll.diesAfter == None
    ensures var (committed, position) := Reach(start, before, length);
            var (committed', position') := Reach(start, before + [last], length);
            var end := if position + last.size <= length then position + last.size else length;
            && committed == position
            && (if last.diesAfter.Some? && position + last.diesAfter.value < end
                then committed' == committed && position' == position + last.diesAfter.value
                else committed' == position' == end)
    decreases |before|
  {
    if before == [] {
      assert before + [last] == [last];
      ReachNext(start, [last], 0, length);
      assert [last][0..] == [last] && [last][1..] == [];
    } else {
      assert before[0] in before && forall poll | poll in before[1..] :: poll in before;
      assert (before + [last])[0] == before[0] && (before + [last])[1..] == before[1..] + [last];
      DeadPollIsNotCommitted(Stop(start, before[0], length).0, before[1..], last, length);
    }
  }

  predicate Progressed(topic: seq<Message>, committed: nat, furthest: nat, position: nat, newFurthest: nat) {
    committed <= position <= newFurthest <= |topic| && newFurthest == Max(furthest, position)
  }

  class TargetSystemMock {
    var accounts: map<string, Doc>
    var idempotency: map<string, string>
    var received: nat
    var accepted: nat
    var duplicates: nat
    var injectedFailures: nat
    var confirmationsPublished: nat
    var rejectionsPublished: nat
    var consumed: nat
    var suppressNextConfirmation: bool
    // The two return logs, as far as this producer has appended to them.
    var confirmations: seq<ReturnRecord>
    var rejections: seq<ReturnRecord>

    constructor ()
      ensures Held() == EMPTY && confirmations == rejections == []
      ensures received == accepted == duplicates == 0 && !suppressNextConfirmation
    {
      accounts, idempotency := map[], map[];
      received, accepted, duplicates, injectedFailures := 0, 0, 0, 0;
      confirmationsPublished, rejectionsPublished, consumed := 0, 0, 0;
      suppressNextConfirmation := false;
      confirmations, rejections := [], [];
    }

    function Held(): Store
      reads this
    {
      Store(idempotency, accounts)
    }

    function State(): Intake
      reads this
    {
      Intake(Held(), suppressNextConfirmation, confirmations, rejections)
    }

    method SuppressNext()
      modifies this`suppressNextConfirmation
      ensures suppressNextConfirmation
    {
      suppressNextConfirmation := true;
    }

    /** `brokerUp` is whether the synchronous send succeeds; a failed one is only logged. */
    method PublishConfirmation(doc: Doc, accountId: string, key: Option<string>, outcome: string, brokerUp: bool)
      modifies this`confirmations, this`confirmationsPublished, this`suppressNextConfirmation
      ensures !suppressNextConfirmation
      ensures confirmations == old(confirmations) +
                               (if old(suppressNextConfirmation) || !brokerUp then []
                                else [Confirmation(doc, accountId, key, outcome)])
      ensures confirmationsPublished - old(confirmationsPublished) == |confirmations| - |old(confirmations)|
    {
      if suppressNextConfirmation {
        suppressNextConfirmation := false;
        return;
      }
      if brokerUp {
        confirmations := confirmations + [Confirmation(doc, accountId, key, outcome)];
        confirmationsPublished := confirmationsPublished + 1;
      }
    }

    method PublishRejection(body: Option<Doc>, key: Option<string>, accountId: string, reason: string, brokerUp: bool)
      modifies this`rejections, this`rejectionsPublished
      ensures rejections == old(rejections) + (if brokerUp then [Rejection(body, accountId, key, reason)] else [])
      ensures rejectionsPublished - old(rejectionsPublished) == |rejections| - |old(rejections)|
    {
      if brokerUp {
        rejections := rejections + [Rejection(body, accountId, key, reason)];
        rejectionsPublished := rejectionsPublished + 1;
      }
    }

    method ApplyDocument(m: Message, brokerUp: bool)
      modifies this
      ensures State() == Handle(old(State()), m, brokerUp)
      ensures confirmationsPublished - old(confirmationsPublished) == |confirmations| - |old(confirmations)|
      ensures rejectionsPublished - old(rejectionsPublished) == |rejections| - |old(rejections)|
      ensures received == old(received) + 1 && consumed == old(consumed)
      ensures accepted == old(accepted) + (if Rule(old(Held()), m).Created? then 1 else 0)
      ensures duplicates == old(duplicates) + (if Rule(old(Held()), m).AlreadyApplied? then 1 else 0)
    {
      received := received + 1;
      if m.body.None? {
        PublishRejection(None, m.key, "<unparseable>", "invalid_json", brokerUp);
        return;
      }
      var doc := m.body.value;
      if Missing(doc.accountId) {
        PublishRejection(m.body, m.key, "<unidentified>", "missing_accountId", brokerUp);
        return;
      }
      var accountId := doc.accountId.value;
      if Missing(m.key) {
        PublishRejection(m.body, m.key, accountId, "blank_idempotency_key", brokerUp);
        return;
      }
      Admit(m, doc, accountId, brokerUp);
    }

    /** A record past the screening: claimed and stored, or a replay; a verdict either way. */
    method Admit(m: Message, doc: Doc, accountId: string, brokerUp: bool)
      requires Screen(m).Admitted? && m.body == Some(doc) && doc.accountId == Some(accountId)
      modifies this
      ensures State() == Handle(old(State()), m, brokerUp)
      ensures confirmationsPublished - old(confirmationsPublished) == |confirmations| - |old(confirmations)|
      ensures rejectionsPublished == old(rejectionsPublished) && received == old(received) && consumed == old(consumed)
      ensures accepted == old(accepted) + (if Rule(old(Held()), m).Created? then 1 else 0)
      ensures duplicates == old(duplicates) + (if Rule(old(Held()), m).AlreadyApplied? then 1 else 0)
    {
      if m.key.value in idempotency {
        duplicates := duplicates + 1;
        PublishConfirmation(doc, accountId, m.key, DUPLICATE, brokerUp);
        return;
      }
      idempotency := idempotency[m.key.value := accountId];
      accounts := accounts[accountId := doc];
      accepted := accepted + 1;
      PublishConfirmation(doc, accountId, m.key, CREATED, brokerUp);
    }

    /** `injected` is the status of a deliberately injected failure, if the dice call for one. */
    method HandlePost(injected: Option<int>, header: Option<string>, body: Option<Doc>, brokerUp: bool)
      returns (status: int)
      requires injected.Some? ==> injected.value in {429, 503}
      modifies this
      ensures injected.Some? ==> Held() == old(Held()) && status == injected.value
      ensures injected.None? ==> (Held(), status) == Post(old(Held()), header, body)
      ensures rejections == old(rejections)
      ensures status == 201 ==>
                confirmations == old(confirmations) +
                                 (if brokerUp && !old(suppressNextConfirmation)
                                  then [Confirmation(body.value, body.value.accountId.value, header, CREATED)] else [])
      ensures status != 201 ==> confirmations == old(confirmations)
      ensures suppressNextConfirmation <==> old(suppressNextConfirmation) && status != 201
      ensures confirmationsPublished - old(confirmationsPublished) == |confirmations| - |old(confirmations)|
      ensures rejectionsPublished == old(rejectionsPublished) && consumed == old(consumed)
      ensures received == old(received) + 1
      ensures injectedFailures == old(injectedFailures) + (if injected.Some? then 1 else 0)
      ensures accepted == old(accepted) + (if status == 201 then 1 else 0)
      ensures duplicates == old(duplicates) + (if status == 200 then 1 else 0)
    {
      received := received + 1;
      if injected.Some? {
        injectedFailures := injectedFailures + 1;
        return injected.value;
      }
      if body.None? {
        return 400;
      }
      var doc := body.value;
      if Missing(doc.accountId) {
        return 422;
      }
      var accountId := doc.accountId.value;
      if header.Some? && IsBlank(header.value) {
        return 422;
      }
      if header.Some? && header.value in idempotency {
        duplicates := duplicates + 1;
        return 200;
      }
      if header.Some? {
        idempotency := idempotency[header.value := accountId];
      }
      accounts := accounts[accountId := doc];
      accepted := accepted + 1;
      PublishConfirmation(doc, accountId, header, CREATED, brokerUp);
      return 201;
    }

    /**
     * Consumes from the committed offset. Each poll returns at most `size` records; they are
     * applied one by one and committed together, unless the loop dies part-way, in which case
     * nothing of that batch is committed and the next loop on this log meets it again.
     * `furthest` is how far any earlier loop got.
     */
    method ConsumeLoop(topic: seq<Message>, committed: nat, polls: seq<Poll>, sends: seq<bool>, furthest: nat)
      returns (newCommitted: nat, newFurthest: nat)
      requires committed <= furthest <= |topic|
      requires Held() == Pass(topic[..furthest])
      modifies this
      ensures committed <= newCommitted <= newFurthest <= |topic| && furthest <= newFurthest
      ensures Held() == Pass(topic[..newFurthest])
      ensures received - old(received) == consumed - old(consumed) >= newCommitted - committed
      ensures (newCommitted, committed + (consumed - old(consumed))) == Reach(committed, polls, |topic|)
      ensures var n := consumed - old(consumed);
              && newFurthest == Max(furthest, committed + n)
              && State() == HandleAll(old(State()), topic[committed..committed + n], sends, old(consumed))
    {
      newCommitted, newFurthest := committed, furthest;
      var position := committed;
      ghost var before, counted := State(), consumed;
      for i := 0 to |polls|
        invariant newCommitted == position && consumed - old(consumed) == position - committed
        invariant received - old(received) == position - committed
        invariant Progressed(topic, committed, furthest, position, newFurthest)
        invariant HasConsumed(before, counted, topic, committed, position, furthest, sends)
        invariant Reach(committed, polls, |topic|) == Reach(position, polls[i..], |topic|)
      {
        ReachNext(position, polls, i, |topic|);
        var died;
        position, died := ConsumeBatch(topic, committed, position, furthest, polls[i], sends, before, counted);
        newFurthest := Max(furthest, position);
        if died {
          return;
        }
        newCommitted := position;
      }
      assert Reach(position, polls[|polls|..], |topic|) == (position, position);
    }

    /** One poll, record by record, up to its end or until the loop dies; nothing is committed here. */
    method ConsumeBatch(topic: seq<Message>, ghost committed: nat, start: nat, ghost furthest: nat, poll: Poll,
                        sends: seq<bool>, ghost before: Intake, ghost counted: nat)
      returns (position: nat, died: bool)
      requires committed <= start <= |topic| && furthest <= |topic|
      requires HasConsumed(before, counted, topic, committed, start, furthest, sends)
      modifies this
      ensures start <= position <= |topic| && received - old(received) == position - start
      ensures (position, died) == Stop(start, poll, |topic|)
      ensures HasConsumed(before, counted, topic, committed, position, furthest, sends)
    {
      var end := if start + poll.size <= |topic| then start + poll.size else |topic|;
      ghost var stop := Stop(start, poll, |topic|).0;
      position, died := start, false;
      while position < end
        invariant start <= position <= stop && received - old(received) == position - start
        invariant HasConsumed(before, counted, topic, committed, position, furthest, sends)
      {
        if poll.diesAfter == Some(position - start) {
          return position, true;
        }
        ConsumeNext(topic, committed, position, furthest, sends, before, counted);
        position := position + 1;
      }
    }

    method ConsumeNext(topic: seq<Message>, ghost committed: nat, position: nat, ghost furthest: nat,
                       sends: seq<bool>, ghost before: Intake, ghost counted: nat)
      requires committed <= position < |topic| && furthest <= |topic|
      requires HasConsumed(before, counted, topic, committed, position, furthest, sends)
      modifies this
      ensures received == old(received) + 1
      ensures HasConsumed(before, counted, topic, committed, position + 1, furthest, sends)
    {
      HandleNext(before, topic, committed, position, sends, counted);
      ConsumeOne(topic, position, Max(furthest, position), sends);
    }

    ghost predicate HasConsumed(before: Intake, counted: nat, topic: seq<Message>, committed: nat, position: nat,
                                furthest: nat, sends: seq<bool>)
      requires committed <= position <= |topic| && furthest <= |topic|
      reads this
    {
      && consumed == counted + (position - committed) && Held() == Pass(topic[..Max(furthest, position)])
      && State() == HandleAll(before, topic[committed..position], sends, counted)
    }

    method ConsumeOne(topic: seq<Message>, position: nat, ghost furthest: nat, sends: seq<bool>)
      requires position < |topic| && position <= furthest <= |topic| && Held() == Pass(topic[..furthest])
      modifies this
      ensures consumed == old(consumed) + 1 && received == old(received) + 1
      ensures State() == Handle(old(State()), topic[position], IsUp(sends, old(consumed)))
      ensures Held() == Pass(topic[..Max(furthest, position + 1)])
    {
      OneMoreDelivery(topic, position, furthest);
      var brokerUp := IsUp(sends, consumed);
      consumed := consumed + 1;
      ApplyDocument(topic[position], brokerUp);
    }
  }
}
