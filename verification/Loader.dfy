/**
 * The Loader: the read loop over the JSON lines, and its two sinks. The Kafka sink publishes and
 * settles afterwards; the HTTP sink posts with retries and learns each verdict inline.
 */
module Loader {
  import opened Wrappers
  import opened Messages
  import opened Text
  import opened Collections
  import opened Settlement
  import RS = ReturnStream
  import TS = TargetSystem

  /** One line of a JSON file. The text of a document is its payload. */
  datatype Line = Blank | Unparseable(text: string, problem: string) | Json(doc: Doc)

  datatype LoadFailure = LoadFailure(accountId: string, status: int, message: string)

  datatype Identity = Identity(accountId: string, key: string)

  function RequireField(doc: Doc, field: Option<string>, path: string): Result<string, LoadFailure> {
    if Missing(field)
    then Err(LoadFailure(if doc.accountId.Some? then doc.accountId.value else "<unidentified>", 0,
                         "missing required field '" + path + "'"))
    else Ok(field.value)
  }

  function Identify(doc: Doc): Result<Identity, LoadFailure> {
    match RequireField(doc, doc.accountId, "accountId")
    case Err(e) => Err(e)
    case Ok(accountId) =>
      match RequireField(doc, doc.dedupKey, "migration.dedupKey")
      case Err(e) => Err(e)
      case Ok(key) => Ok(Identity(accountId, key))
  }

  predicate Offerable(line: Line) {
    line.Json? && Identify(line.doc).Ok?
  }

  /** The keys of the documents that pass the identity check, in line order. */
  function Offered(lines: seq<Line>): seq<string> {
    if lines == [] then []
    else
      var last := lines[|lines| - 1];
      Offered(lines[..|lines| - 1]) + (if Offerable(last) then [Identify(last.doc).value.key] else [])
  }

  function DocumentsIn(lines: seq<Line>): nat {
    if lines == [] then 0
    else DocumentsIn(lines[..|lines| - 1]) + (if lines[|lines| - 1].Blank? then 0 else 1)
  }

  /** What was wrong with the documents refused while reading, in line order. */
  function ReadErrors(lines: seq<Line>): seq<LoadError> {
    if lines == [] then []
    else
      ReadErrors(lines[..|lines| - 1]) +
      (match lines[|lines| - 1]
       case Blank => []
       case Unparseable(text, problem) => [LoadError("<unparseable>", 0, "invalid JSON: " + problem, text)]
       case Json(doc) =>
         (match Identify(doc)
          case Err(e) => [LoadError(e.accountId, e.status, e.message, doc.payload)]
          case Ok(_) => []))
  }

  /** The account and the payload of the last document offered under a key. */
  function AccountIdsIn(lines: seq<Line>): map<string, string> {
    if lines == [] then map[]
    else
      var before, last := AccountIdsIn(lines[..|lines| - 1]), lines[|lines| - 1];
      if Offerable(last) then before[Identify(last.doc).value.key := Identify(last.doc).value.accountId] else before
  }

  function PayloadsIn(lines: seq<Line>): map<string, string> {
    if lines == [] then map[]
    else
      var before, last := PayloadsIn(lines[..|lines| - 1]), lines[|lines| - 1];
      if Offerable(last) then before[Identify(last.doc).value.key := last.doc.payload] else before
  }

  /** Whether the n-th send ends up on the log. */
  predicate Lands(sends: seq<bool>, n: nat) {
    n < |sends| ==> sends[n]
  }

  function SentOn(lines: seq<Line>, sends: seq<bool>): seq<Message> {
    if lines == [] then []
    else
      var before, last := lines[..|lines| - 1], lines[|lines| - 1];
      SentOn(before, sends) +
      (if Offerable(last) && Lands(sends, |Offered(before)|)
       then [Message(Some(Identify(last.doc).value.key), Some(last.doc))] else [])
  }

  // ---- what is read and offered, said of the lines alone --------------------------------------

  /** A document is identified by its account and its dedup key, neither missing, null or blank. */
  lemma {:induction false} IdentifiedExactly(doc: Doc)
    ensures var noAccount := doc.accountId.None? || IsBlank(doc.accountId.value);
            var noKey := doc.dedupKey.None? || IsBlank(doc.dedupKey.value);
            && (Identify(doc).Ok? <==> !noAccount && !noKey)
            && (Identify(doc).Ok? ==> Identify(doc).value == Identity(doc.accountId.value, doc.dedupKey.value))
            && (Identify(doc).Err? ==>
                  && Identify(doc).error.status == 0
                  && Identify(doc).error.accountId
                     == (if doc.accountId.Some? then doc.accountId.value else "<unidentified>")
                  && Identify(doc).error.message
                     == "missing required field '" + (if noAccount then "accountId" else "migration.dedupKey") + "'")
  {
  }

  lemma {:induction false} OneMoreLine(lines: seq<Line>)
    requires lines != []
    ensures forall line :: line in lines <==> line in lines[..|lines| - 1] || line == lines[|lines| - 1]
  {
    assert lines == lines[..|lines| - 1] + [lines[|lines| - 1]];
  }

  lemma {:induction false} OneMoreDocument(lines: seq<Line>)
    requires lines != []
    ensures var n := |lines| - 1;
            |set i | 0 <= i < |lines| && !lines[i].Blank?|
            == |set i | 0 <= i < n && !lines[..n][i].Blank?| + if lines[n].Blank? then 0 else 1
  {
    var n := |lines| - 1;
    var before := set i | 0 <= i < n && !lines[..n][i].Blank?;
    assert (set i | 0 <= i < |lines| && !lines[i].Blank?) == before + (if lines[n].Blank? then {} else {n});
  }

  /** Every line that is not blank counts as a document, and each is offered or stands in the error list. */
  lemma {:induction false} DocumentsAreCounted(lines: seq<Line>)
    ensures DocumentsIn(lines) == |set i | 0 <= i < |lines| && !lines[i].Blank?|
    ensures DocumentsIn(lines) == |Offered(lines)| + |ReadErrors(lines)|
  {
    if lines != [] {
      var n := |lines| - 1;
      DocumentsAreCounted(lines[..n]);
      OneMoreDocument(lines);
    }
  }

  /** A key is offered exactly when some line holds a document with it that is identified. */
  lemma {:induction false} OfferedExactly(lines: seq<Line>, key: string)
    ensures key in Offered(lines) <==>
              !IsBlank(key) && exists line :: line in lines && line.Json? && line.doc.dedupKey == Some(key)
                                              && line.doc.accountId.Some? && !IsBlank(line.doc.accountId.value)
  {
    if lines != [] {
      OfferedExactly(lines[..|lines| - 1], key);
      OneMoreLine(lines);
    }
  }

  predicate IsReadErrorOf(line: Line, e: LoadError) {
    match line
    case Blank => false
    case Unparseable(text, problem) => e == LoadError("<unparseable>", 0, "invalid JSON: " + problem, text)
    case Json(doc) =>
      match Identify(doc)
      case Err(f) => e == LoadError(f.accountId, f.status, f.message, doc.payload)
      case Ok(_) => false
  }

  /** The read-time errors: lines that are no JSON, and documents without identity, each with its text. */
  lemma {:induction false} ReadErrorsExactly(lines: seq<Line>, e: LoadError)
    ensures e in ReadErrors(lines) <==> exists line :: line in lines && IsReadErrorOf(line, e)
  {
    if lines != [] {
      var n := |lines| - 1;
      ReadErrorsExactly(lines[..n], e);
      OneMoreLine(lines);
      assert e in ReadErrors(lines) <==> e in ReadErrors(lines[..n]) || IsReadErrorOf(lines[n], e);
    }
  }

  /** The last line that offers the key offers it for this account, with this payload. */
  predicate IsLastOffer(lines: seq<Line>, i: nat, key: string, accountId: string, payload: string) {
    && i < |lines| && lines[i].Json? && Identify(lines[i].doc) == Ok(Identity(accountId, key))
    && payload == lines[i].doc.payload
    && forall j | i < j < |lines| && lines[j].Json? && Identify(lines[j].doc).Ok? ::
         Identify(lines[j].doc).value.key != key
  }

  /** Under a key offered more than once the last document is remembered for the error list. */
  lemma {:induction false} LastOfferedIsRemembered(lines: seq<Line>, key: string)
    ensures key in PayloadsIn(lines) <==> key in Offered(lines)
    ensures key in AccountIdsIn(lines) <==> key in Offered(lines)
    ensures key in Offered(lines) ==>
              exists i :: IsLastOffer(lines, i, key, AccountIdsIn(lines)[key], PayloadsIn(lines)[key])
  {
    if lines != [] {
      var n := |lines| - 1;
      var others := lines[..n];
      LastOfferedIsRemembered(others, key);
      if Offerable(lines[n]) && Identify(lines[n].doc).value.key == key {
        assert IsLastOffer(lines, n, key, AccountIdsIn(lines)[key], PayloadsIn(lines)[key]);
      } else if key in Offered(others) {
        var i :| IsLastOffer(others, i, key, AccountIdsIn(others)[key], PayloadsIn(others)[key]);
        assert forall j | 0 <= j < n :: lines[j] == others[j];
        assert IsLastOffer(lines, i, key, AccountIdsIn(others)[key], PayloadsIn(others)[key]);
      }
    }
  }

  predicate IsSentAt(lines: seq<Line>, sends: seq<bool>, i: nat, m: Message) {
    && i < |lines| && lines[i].Json? && Identify(lines[i].doc).Ok?
    && m == Message(lines[i].doc.dedupKey, Some(lines[i].doc))
    && (|Offered(lines[..i])| < |sends| ==> sends[|Offered(lines[..i])|])
  }

  lemma {:induction false} SentAtNext(lines: seq<Line>, sends: seq<bool>, m: Message)
    requires lines != []
    ensures var n := |lines| - 1;
            (exists i :: IsSentAt(lines, sends, i, m)) <==>
              (exists i :: IsSentAt(lines[..n], sends, i, m)) || IsSentAt(lines, sends, n, m)
  {
    var n := |lines| - 1;
    forall i: nat | i < n ensures IsSentAt(lines, sends, i, m) <==> IsSentAt(lines[..n], sends, i, m) {
      assert lines[..n][..i] == lines[..i];
    }
  }

  lemma {:induction false} LastIsSent(lines: seq<Line>, sends: seq<bool>, m: Message)
    requires lines != []
    ensures var n := |lines| - 1;
            m in SentOn(lines, sends) <==> m in SentOn(lines[..n], sends) || IsSentAt(lines, sends, n, m)
  {
  }

  /** The topic holds the offered documents whose send landed, each whole and under its own key. */
  lemma {:induction false} SentExactly(lines: seq<Line>, sends: seq<bool>, m: Message)
    ensures m in SentOn(lines, sends) <==> exists i :: IsSentAt(lines, sends, i, m)
  {
    if lines != [] {
      SentExactly(lines[..|lines| - 1], sends, m);
      SentAtNext(lines, sends, m);
      LastIsSent(lines, sends, m);
    }
  }

  /** As many messages as offers when none is lost, and never more. */
  lemma {:induction false} SentOncePerOffer(lines: seq<Line>, sends: seq<bool>)
    ensures |SentOn(lines, sends)| <= |Offered(lines)|
    ensures (forall sent | sent in sends :: sent) ==> |SentOn(lines, sends)| == |Offered(lines)|
  {
    if lines != [] {
      SentOncePerOffer(lines[..|lines| - 1], sends);
      var k := |Offered(lines[..|lines| - 1])|;
      assert k < |sends| ==> sends[k] in sends;
    }
  }

  /** What the loader publishes is always admitted by Target System, so never rejected by it. */
  lemma {:induction false} LoaderDocumentsAreAdmitted(doc: Doc)
    requires Identify(doc).Ok?
    ensures TS.Screen(Message(Some(Identify(doc).value.key), Some(doc))).Admitted?
    ensures TS.Post(TS.EMPTY, Some(Identify(doc).value.key), Some(doc)).1 == 201
  {
  }

  datatype Report = Report(documentsRead: nat, tally: Tally, errors: seq<LoadError>, exitCode: nat)

  /** The identity the acceptance suite checks as its tenth criterion. */
  predicate Balances(r: Report) {
    r.documentsRead == r.tally.accepted + r.tally.duplicates + |r.errors| + r.tally.unsettled
  }

  lemma {:induction false} NeitherNor(published: set<string>, v: RS.Verdicts)
    ensures published - v.confirmed - v.duplicates - v.rejected.Keys == published - RS.Spoken(v)
  {
  }

  // ---- kafka ------------------------------------------------------------------------------

  class KafkaSink {
    var published: set<string>
    var rawByKey: map<string, string>
    var accountIdByKey: map<string, string>
    // What this producer has durably appended to the target topic.
    var topic: seq<Message>

    constructor ()
      ensures published == {} && topic == [] && rawByKey == accountIdByKey == map[]
    {
      published, rawByKey, accountIdByKey, topic := {}, map[], map[], [];
    }

    /** `sent` is whether the asynchronous send ends up on the log; the key counts as published either way. */
    method Offer(doc: Doc, sent: bool) returns (r: Result<string, LoadFailure>)
      modifies this
      ensures Identify(doc).Err? ==>
                r == Err(Identify(doc).error) && published == old(published) && topic == old(topic)
                && rawByKey == old(rawByKey) && accountIdByKey == old(accountIdByKey)
      ensures Identify(doc).Ok? ==>
                var id := Identify(doc).value;
                && r == Ok(id.key) && published == old(published) + {id.key}
                && topic == old(topic) + (if sent then [Message(Some(id.key), Some(doc))] else [])
                && rawByKey == old(rawByKey)[id.key := doc.payload]
                && accountIdByKey == old(accountIdByKey)[id.key := id.accountId]
    {
      var accountId := RequireField(doc, doc.accountId, "accountId");
      if accountId.Err? {
        return Err(accountId.error);
      }
      var dedupKey := RequireField(doc, doc.dedupKey, "migration.dedupKey");
      if dedupKey.Err? {
        return Err(dedupKey.error);
      }
      if sent {
        topic := topic + [Message(Some(dedupKey.value), Some(doc))];
      }
      published := published + {dedupKey.value};
      rawByKey := rawByKey[dedupKey.value := doc.payload];
      accountIdByKey := accountIdByKey[dedupKey.value := accountId.value];
      return Ok(dedupKey.value);
    }

    method Settle(run: string, anyPartition: bool, polls: seq<seq<ReturnRecord>>)
      returns (t: Tally, v: RS.Verdicts, used: nat)
      ensures used <= |polls| && v == RS.ReadAll(Flatten(polls[..used]), run, published)
      ensures RS.StopsAt(used, run, published, anyPartition, polls)
      ensures t.published == |published| == t.accepted + t.duplicates + |t.errors| + t.unsettled
      ensures t.accepted == |Those(published, v.confirmed, v.duplicates, v.rejected.Keys, WasAccepted)|
      ensures t.duplicates == |Those(published, v.confirmed, v.duplicates, v.rejected.Keys, WasDuplicate)|
      ensures OneErrorEach(t.errors, v.rejected.Keys * published, Retain(v.rejected, published),
                           accountIdByKey, rawByKey)
      ensures t.unsettled == |published - RS.Spoken(v)|
    {
      v, used := RS.Settle(run, published, anyPartition, polls);
      t := SettleAgainst(published, v.confirmed, v.duplicates, v.rejected, accountIdByKey, rawByKey);
      NeitherNor(published, v);
    }
  }

  predicate SentByLoader(m: Message, published: set<string>) {
    && m.key.Some? && m.key.value in published && m.body.Some?
    && Identify(m.body.value).Ok? && Identify(m.body.value).value.key == m.key.value
  }

  /** The read loop. `sends[i]` is the fate of the i-th send, lost when false. */
  method OfferAll(sink: KafkaSink, lines: seq<Line>, sends: seq<bool>)
    returns (documentsRead: nat, errors: seq<LoadError>)
    requires sink.published == {} && sink.topic == [] && sink.rawByKey == sink.accountIdByKey == map[]
    modifies sink
    ensures documentsRead == DocumentsIn(lines) == |Offered(lines)| + |errors|
    ensures errors == ReadErrors(lines) && sink.published == Elements(Offered(lines))
    ensures sink.accountIdByKey == AccountIdsIn(lines) && sink.rawByKey == PayloadsIn(lines)
    ensures sink.topic == SentOn(lines, sends) && forall m | m in sink.topic :: SentByLoader(m, sink.published)
  {
    errors, documentsRead := [], 0;
    var offers := 0;
    for i := 0 to |lines|
      invariant documentsRead == DocumentsIn(lines[..i]) == offers + |errors| && errors == ReadErrors(lines[..i])
      invariant sink.published == Elements(Offered(lines[..i])) && offers == |Offered(lines[..i])|
      invariant sink.accountIdByKey == AccountIdsIn(lines[..i]) && sink.rawByKey == PayloadsIn(lines[..i])
      invariant sink.topic == SentOn(lines[..i], sends)
      invariant forall m | m in sink.topic :: SentByLoader(m, sink.published)
    {
      assert lines[..i + 1][..i] == lines[..i];
      match lines[i] {
        case Blank =>
        case Unparseable(text, problem) =>
          documentsRead := documentsRead + 1;
          errors := errors + [LoadError("<unparseable>", 0, "invalid JSON: " + problem, text)];
        case Json(doc) =>
          documentsRead := documentsRead + 1;
          var sent := Lands(sends, offers);
          var offer := sink.Offer(doc, sent);
          match offer {
            case Ok(key) =>
              ElementsNext(Offered(lines[..i]), key);
              offers := offers + 1;
            case Err(e) =>
              errors := errors + [LoadError(e.accountId, e.status, e.message, doc.payload)];
          }
      }
    }
    assert lines[..|lines|] == lines;
  }

  lemma {:induction false} NoneLeft(published: set<string>, spoken: set<string>)
    ensures |published - spoken| == 0 <==> published <= spoken
  {
    if |published - spoken| == 0 {
      assert published - spoken == {};
      assert forall key | key in published :: key !in published - spoken;
    } else {
      assert exists key :: key in published - spoken;
    }
  }

  /** A whole load. `polls` is what the settle loop is handed before its deadline. */
  method LoadThroughKafka(run: string, lines: seq<Line>, sends: seq<bool>, anyPartition: bool,
                          polls: seq<seq<ReturnRecord>>)
    returns (r: Report, published: set<string>, topic: seq<Message>, v: RS.Verdicts, used: nat)
    ensures published == Elements(Offered(lines)) && r.documentsRead == DocumentsIn(lines)
    ensures topic == SentOn(lines, sends) && forall m | m in topic :: SentByLoader(m, published)
    ensures used <= |polls| && v == RS.ReadAll(Flatten(polls[..used]), run, published)
    ensures RS.StopsAt(used, run, published, anyPartition, polls)
    ensures r.tally.published == |published| && r.tally.unsettled == |published - RS.Spoken(v)|
    ensures r.tally.accepted == |Those(published, v.confirmed, v.duplicates, v.rejected.Keys, WasAccepted)|
    ensures r.tally.duplicates == |Those(published, v.confirmed, v.duplicates, v.rejected.Keys, WasDuplicate)|
    ensures r.errors == ReadErrors(lines) + r.tally.errors
    ensures OneErrorEach(r.tally.errors, v.rejected.Keys * published, Retain(v.rejected, published),
                         AccountIdsIn(lines), PayloadsIn(lines))
    ensures r.documentsRead == r.tally.accepted + r.tally.duplicates + |r.errors| + r.tally.unsettled
                               + (|Offered(lines)| - |published|)
    ensures Balances(r) <==> Distinct(Offered(lines))
    ensures r.exitCode == 0 <==> published <= RS.Spoken(v)
  {
    var sink := new KafkaSink();
    var documentsRead, errors := OfferAll(sink, lines, sends);
    published, topic := sink.published, sink.topic;
    var tally;
    tally, v, used := sink.Settle(run, anyPartition, polls);
    r := Report(documentsRead, tally, errors + tally.errors, if tally.unsettled > 0 then 1 else 0);
    NoneLeft(published, RS.Spoken(v));
    DistinctExactly(Offered(lines));
  }

  // ---- http -------------------------------------------------------------------------------

  /** A request another client gets served before ours. */
  datatype Posting = Posting(header: Option<string>, body: Option<Doc>, brokerUp: bool)

  /**
   * What one attempt meets. The request may be lost on its way in, the response on its way out; an
   * interrupt may come before the request is served or after; a gateway may answer without Target
   * System seeing the request.
   */
  datatype Fault =
    | RequestLost
    | ResponseLost
    | Interrupted(served: bool)
    | GatewayAnswers(code: int)
    | Clean

  datatype Attempt = Attempt(others: seq<Posting>, fault: Fault, throttled: Option<bool>, brokerUp: bool)

  /** A gateway claims in Target System's place that something was stored. The sink cannot tell. */
  predicate IsForged(a: Attempt) {
    a.fault.GatewayAnswers? && a.fault.code in {200, 201}
  }

  function Served(st: TS.Store, others: seq<Posting>): TS.Store {
    if others == [] then st
    else
      var last := others[|others| - 1];
      TS.Post(Served(st, others[..|others| - 1]), last.header, last.body).0
  }

  predicate Reaches(a: Attempt) {
    a.fault.Clean? || a.fault.ResponseLost? || a.fault == Interrupted(true)
  }

  /** What one attempt leaves at Target System, and the status that comes back, if one does. */
  function Exchange(st: TS.Store, key: string, doc: Doc, a: Attempt): (TS.Store, Option<int>) {
    var before := Served(st, a.others);
    if a.fault.GatewayAnswers? then (before, Some(a.fault.code))
    else if !Reaches(a) then (before, None)
    else
      var (after, answer) := if a.throttled.Some? then (before, if a.throttled.value then 429 else 503)
                             else TS.Post(before, Some(key), Some(doc));
      (after, if a.fault.Clean? then Some(answer) else None)
  }

  predicate IsTransient(status: Option<int>, a: Attempt) {
    if status.None? then !a.fault.Interrupted? else status.value == 429 || status.value >= 500
  }

  /** The first k attempts of a send, whatever comes back; `used` attempts were made before it. */
  function After(st: TS.Store, key: string, doc: Doc, network: nat -> Attempt, used: nat, k: nat): TS.Store {
    if k == 0 then st else Exchange(After(st, key, doc, network, used, k - 1), key, doc, network(used + k - 1)).0
  }

  function StatusOf(st: TS.Store, key: string, doc: Doc, network: nat -> Attempt, used: nat, k: nat): Option<int> {
    Exchange(After(st, key, doc, network, used, k), key, doc, network(used + k)).1
  }

  predicate IsRetried(st: TS.Store, key: string, doc: Doc, network: nat -> Attempt, used: nat, k: nat) {
    IsTransient(StatusOf(st, key, doc, network, used, k), network(used + k))
  }

  /** How many attempts a send makes, the first k having been retried. */
  function Tries(st: TS.Store, key: string, doc: Doc, network: nat -> Attempt, used: nat, k: nat, maxRetries: int): nat
    decreases maxRetries - k
  {
    if k > maxRetries then k
    else if k == maxRetries || !IsRetried(st, key, doc, network, used, k) then k + 1
    else Tries(st, key, doc, network, used, k + 1, maxRetries)
  }

  /** A send ends with the first attempt that is not to be retried, or with the last one allowed. */
  lemma {:induction false} TriesExactly(st: TS.Store, key: string, doc: Doc, network: nat -> Attempt, used: nat, k: nat,
                                        maxRetries: int)
    requires k <= maxRetries
    ensures var n := Tries(st, key, doc, network, used, k, maxRetries);
            && k < n <= maxRetries + 1
            && (forall j: nat | k <= j < n - 1 :: IsRetried(st, key, doc, network, used, j))
            && (n <= maxRetries ==> !IsRetried(st, key, doc, network, used, n - 1))
    decreases maxRetries - k
  {
    if k < maxRetries && IsRetried(st, key, doc, network, used, k) {
      TriesExactly(st, key, doc, network, used, k + 1, maxRetries);
    }
  }

  /** Whether the request is served, and what comes back, fault by fault. */
  lemma {:induction false} ExchangeSays(st: TS.Store, key: string, doc: Doc, a: Attempt)
    ensures var before := Served(st, a.others);
            var (after, status) := Exchange(st, key, doc, a);
            var (posted, answer) := TS.Post(before, Some(key), Some(doc));
            var served := a.fault in {Clean, ResponseLost, Interrupted(true)};
            && after == (if served && a.throttled.None? then posted else before)
            && (a.fault.GatewayAnswers? ==> status == Some(a.fault.code))
            && (a.fault == Clean ==>
                  status == Some(match a.throttled case None => answer case Some(t) => if t then 429 else 503))
            && (a.fault in {RequestLost, ResponseLost, Interrupted(true), Interrupted(false)} ==> status == None)
  {
  }

  /** What the last status says of the document. */
  function Ending(accountId: string, status: Option<int>, a: Attempt): Option<LoadFailure> {
    match status
    case None => Some(LoadFailure(accountId, 0, if a.fault.Interrupted? then "interrupted" else "transport failure"))
    case Some(code) =>
      if code in {200, 201} then None
      else Some(LoadFailure(accountId, code, if IsTransient(status, a) then "still failing" else "permanent rejection"))
  }

  datatype Sending = Sending(store: TS.Store, attempts: nat, status: Option<int>, failure: Option<LoadFailure>)

  /** A whole send. */
  function Sent(st: TS.Store, id: Identity, doc: Doc, network: nat -> Attempt, used: nat, maxRetries: int): (s: Sending)
    ensures maxRetries >= 0 ==> 1 <= s.attempts <= maxRetries + 1
  {
    if maxRetries < 0 then Sending(st, 0, None, Some(LoadFailure(id.accountId, 0, "retry loop exhausted")))
    else
      TriesExactly(st, id.key, doc, network, used, 0, maxRetries);
      var n := Tries(st, id.key, doc, network, used, 0, maxRetries);
      var status := StatusOf(st, id.key, doc, network, used, n - 1);
      Sending(After(st, id.key, doc, network, used, n), n, status,
              Ending(id.accountId, status, network(used + n - 1)))
  }

  lemma {:induction false} LastTry(st: TS.Store, id: Identity, doc: Doc, network: nat -> Attempt, used: nat, k: nat,
                                   maxRetries: int)
    requires 0 <= maxRetries && Tries(st, id.key, doc, network, used, 0, maxRetries) == k + 1
    ensures Sent(st, id, doc, network, used, maxRetries)
         == Sending(After(st, id.key, doc, network, used, k + 1), k + 1,
                    StatusOf(st, id.key, doc, network, used, k),
                    Ending(id.accountId, StatusOf(st, id.key, doc, network, used, k), network(used + k)))
  {
  }

  lemma {:induction false} TriesFrom(st: TS.Store, key: string, doc: Doc, network: nat -> Attempt, used: nat, k: nat,
                                     maxRetries: int)
    requires k <= maxRetries
    ensures Tries(st, key, doc, network, used, k, maxRetries) ==
              if k == maxRetries || !IsRetried(st, key, doc, network, used, k) then k + 1
              else Tries(st, key, doc, network, used, k + 1, maxRetries)
  {
  }

  /** One more attempt of a send under way: either it is the last, or it is retried. */
  lemma {:induction false} OneMoreTry(st: TS.Store, id: Identity, doc: Doc, network: nat -> Attempt, used: nat, k: nat,
                                      maxRetries: int)
    requires k <= maxRetries
    requires Tries(st, id.key, doc, network, used, 0, maxRetries)
          == Tries(st, id.key, doc, network, used, k, maxRetries)
    ensures var a := network(used + k);
            var (after, status) := Exchange(After(st, id.key, doc, network, used, k), id.key, doc, a);
            && After(st, id.key, doc, network, used, k + 1) == after
            && (k == maxRetries || !IsTransient(status, a) ==>
                  Sent(st, id, doc, network, used, maxRetries)
                  == Sending(after, k + 1, status, Ending(id.accountId, status, a)))
            && (k < maxRetries && IsTransient(status, a) ==>
                  Tries(st, id.key, doc, network, used, 0, maxRetries)
                  == Tries(st, id.key, doc, network, used, k + 1, maxRetries))
  {
    TriesFrom(st, id.key, doc, network, used, k, maxRetries);
    if k == maxRetries || !IsRetried(st, id.key, doc, network, used, k) {
      LastTry(st, id, doc, network, used, k, maxRetries);
    }
  }

  /** Giving up means every attempt allowed was made, or there was an interrupt, or a status that is final. */
  lemma {:induction false} GivesUpExactly(st: TS.Store, id: Identity, doc: Doc, network: nat -> Attempt, used: nat,
                                          maxRetries: int)
    requires maxRetries >= 0
    ensures var s := Sent(st, id, doc, network, used, maxRetries);
            && 1 <= s.attempts <= maxRetries + 1
            && (forall k: nat | k < s.attempts - 1 :: IsRetried(st, id.key, doc, network, used, k))
            && (s.failure.Some? && s.attempts <= maxRetries ==>
                  if s.status.None? then network(used + s.attempts - 1).fault.Interrupted?
                  else s.status.value !in {200, 201, 429} && s.status.value < 500)
            && (s.failure.None? <==> s.status in {Some(200), Some(201)})
            && (s.failure.Some? ==>
                  && s.failure.value.accountId == id.accountId
                  && s.failure.value.status == (if s.status.None? then 0 else s.status.value)
                  && s.failure.value.message ==
                       if s.status.Some? then
                         if s.status.value == 429 || s.status.value >= 500 then "still failing"
                         else "permanent rejection"
                       else if network(used + s.attempts - 1).fault.Interrupted? then "interrupted"
                       else "transport failure")
  {
    TriesExactly(st, id.key, doc, network, used, 0, maxRetries);
  }

  /** What is tried again: no answer but for an interrupt, too many requests, or an error of the server's. */
  lemma {:induction false} RetriedExactly(st: TS.Store, id: Identity, doc: Doc, network: nat -> Attempt, used: nat,
                                          maxRetries: int, k: nat)
    requires k + 1 < Sent(st, id, doc, network, used, maxRetries).attempts
    ensures match StatusOf(st, id.key, doc, network, used, k)
            case None => !network(used + k).fault.Interrupted?
            case Some(code) => code == 429 || code >= 500
  {
    TriesExactly(st, id.key, doc, network, used, 0, maxRetries);
    assert IsRetried(st, id.key, doc, network, used, k);
  }

  /** A document offered: refused for what it lacks, or sent. */
  function Offering(st: TS.Store, doc: Doc, network: nat -> Attempt, used: nat, maxRetries: int): Sending {
    match Identify(doc)
    case Err(e) => Sending(st, 0, None, Some(e))
    case Ok(id) => Sent(st, id, doc, network, used, maxRetries)
  }

  datatype HttpLoad = HttpLoad(store: TS.Store, attempts: nat, accepted: nat, duplicates: nat, errors: seq<LoadError>)

  function ErrorOf(failure: Option<LoadFailure>, payload: string): seq<LoadError> {
    match failure
    case None => []
    case Some(f) => [LoadError(f.accountId, f.status, f.message, payload)]
  }

  function OneLine(before: HttpLoad, line: Line, network: nat -> Attempt, maxRetries: int): HttpLoad {
    match line
    case Blank => before
    case Unparseable(text, problem) =>
      before.(errors := before.errors + [LoadError("<unparseable>", 0, "invalid JSON: " + problem, text)])
    case Json(doc) =>
      var s := Offering(before.store, doc, network, before.attempts, maxRetries);
      HttpLoad(s.store, before.attempts + s.attempts,
               before.accepted + (if s.status == Some(201) then 1 else 0),
               before.duplicates + (if s.status == Some(200) then 1 else 0),
               before.errors + ErrorOf(s.failure, doc.payload))
  }

  /** The lines one after the other, each attempt meeting what the network has in store for it. */
  function LoadOver(st: TS.Store, lines: seq<Line>, network: nat -> Attempt, maxRetries: int): HttpLoad {
    if lines == [] then HttpLoad(st, 0, 0, 0, [])
    else OneLine(LoadOver(st, lines[..|lines| - 1], network, maxRetries), lines[|lines| - 1], network, maxRetries)
  }

  /** A line that is no JSON, or a document refused or not sent: the row has its text, and its account if it has one. */
  predicate IsHttpErrorOf(line: Line, e: LoadError) {
    match line
    case Blank => false
    case Unparseable(text, problem) => e == LoadError("<unparseable>", 0, "invalid JSON: " + problem, text)
    case Json(doc) => e.raw == doc.payload && (Identify(doc).Ok? ==> Some(e.accountId) == doc.accountId)
  }

  lemma {:induction false} OneLineSays(before: HttpLoad, line: Line, network: nat -> Attempt, maxRetries: int)
    ensures var after := OneLine(before, line, network, maxRetries);
            && |before.errors| <= |after.errors| <= |before.errors| + 1
            && before.errors <= after.errors
            && (|after.errors| > |before.errors| ==> IsHttpErrorOf(line, after.errors[|before.errors|]))
            && after.accepted + after.duplicates + |after.errors|
               == before.accepted + before.duplicates + |before.errors| + if line.Blank? then 0 else 1
  {
    if line.Json? && Identify(line.doc).Ok? && maxRetries >= 0 {
      GivesUpExactly(before.store, Identify(line.doc).value, line.doc, network, before.attempts, maxRetries);
    }
  }

  /** Every document is accepted, a duplicate or in the error list, with its own text and account. */
  lemma {:induction false} HttpErrorsSay(st: TS.Store, lines: seq<Line>, network: nat -> Attempt, maxRetries: int)
    ensures var load := LoadOver(st, lines, network, maxRetries);
            && load.accepted + load.duplicates + |load.errors| == |set i | 0 <= i < |lines| && !lines[i].Blank?|
            && forall e | e in load.errors :: exists line :: line in lines && IsHttpErrorOf(line, e)
  {
    if lines != [] {
      var n := |lines| - 1;
      HttpErrorsSay(st, lines[..n], network, maxRetries);
      OneMoreLine(lines);
      OneLineSays(LoadOver(st, lines[..n], network, maxRetries), lines[n], network, maxRetries);
      OneMoreDocument(lines);
      assert lines[n] in lines;
    }
  }

  // ---- what a normal return is worth ----------------------------------------------------------

  predicate ClaimsFor(p: Posting, key: string) {
    p.header == Some(key) && !Missing(Some(key)) && p.body.Some? && !Missing(p.body.value.accountId)
  }

  /** During this attempt Target System comes to claim the key, for this load or for another client. */
  predicate Claims(a: Attempt, key: string) {
    (Reaches(a) && a.throttled.None?) || exists p :: p in a.others && ClaimsFor(p, key)
  }

  predicate ClaimsIn(network: nat -> Attempt, used: nat, j: nat, key: string) {
    Claims(network(used + j), key)
  }

  lemma {:induction false} PostClaimsExactly(st: TS.Store, p: Posting, key: string)
    ensures key in TS.Post(st, p.header, p.body).0.idempotency <==> key in st.idempotency || ClaimsFor(p, key)
  {
  }

  lemma {:induction false} ServedClaimsExactly(st: TS.Store, others: seq<Posting>, key: string)
    ensures key in Served(st, others).idempotency <==>
              key in st.idempotency || exists p :: p in others && ClaimsFor(p, key)
  {
    if others != [] {
      var n := |others| - 1;
      ServedClaimsExactly(st, others[..n], key);
      PostClaimsExactly(Served(st, others[..n]), others[n], key);
      assert forall p :: p in others <==> p in others[..n] || p == others[n] by {
        assert others == others[..n] + [others[n]];
      }
    }
  }

  lemma {:induction false} AfterClaimsExactly(st: TS.Store, id: Identity, doc: Doc, network: nat -> Attempt, used: nat,
                                              k: nat)
    requires Identify(doc) == Ok(id)
    ensures id.key in After(st, id.key, doc, network, used, k).idempotency <==>
              id.key in st.idempotency || exists j: nat :: j < k && ClaimsIn(network, used, j, id.key)
  {
    if k > 0 {
      AfterClaimsExactly(st, id, doc, network, used, k - 1);
      var before, a := After(st, id.key, doc, network, used, k - 1), network(used + k - 1);
      ServedClaimsExactly(before, a.others, id.key);
      PostClaimsExactly(Served(before, a.others), Posting(Some(id.key), Some(doc), true), id.key);
      assert id.key in After(st, id.key, doc, network, used, k).idempotency <==>
               id.key in before.idempotency || ClaimsIn(network, used, k - 1, id.key);
    }
  }

  /**
   * A send returns normally with its key unclaimed exactly when a gateway gave the answer that ended
   * it, no attempt got through to Target System unthrottled, and no other client claimed the key.
   */
  lemma {:induction false} FalseConfirmationExactly(st: TS.Store, id: Identity, doc: Doc, network: nat -> Attempt,
                                                    used: nat, maxRetries: int)
    requires Identify(doc) == Ok(id) && maxRetries >= 0
    ensures var s := Sent(st, id, doc, network, used, maxRetries);
            s.failure.None? && id.key !in s.store.idempotency <==>
              && IsForged(network(used + s.attempts - 1)) && id.key !in st.idempotency
              && forall j: nat | j < s.attempts :: !ClaimsIn(network, used, j, id.key)
  {
    var s := Sent(st, id, doc, network, used, maxRetries);
    GivesUpExactly(st, id, doc, network, used, maxRetries);
    AfterClaimsExactly(st, id, doc, network, used, s.attempts);
  }

  /** It happens: one answer from a gateway, and Target System holds nothing. */
  lemma {:induction false} ForgedAnswerIsBelieved(id: Identity, doc: Doc, used: nat, maxRetries: nat)
    requires Identify(doc) == Ok(id)
    ensures var s := Sent(TS.EMPTY, id, doc, _ => Attempt([], GatewayAnswers(201), None, true), used, maxRetries);
            s.failure == None && s.attempts == 1 && s.store == TS.EMPTY
  {
    var network: nat -> Attempt := _ => Attempt([], GatewayAnswers(201), None, true);
    assert Exchange(TS.EMPTY, id.key, doc, network(used)) == (TS.EMPTY, Some(201));
    assert After(TS.EMPTY, id.key, doc, network, used, 0) == TS.EMPTY;
    assert !IsRetried(TS.EMPTY, id.key, doc, network, used, 0);
    assert After(TS.EMPTY, id.key, doc, network, used, 1) == TS.EMPTY;
  }

  // ---- what a send leaves behind --------------------------------------------------------------

  lemma {:induction false} ServedGrows(st: TS.Store, others: seq<Posting>)
    ensures TS.Grows(st, Served(st, others))
  {
    if others != [] {
      var n := |others| - 1;
      ServedGrows(st, others[..n]);
      TS.PostGrows(Served(st, others[..n]), others[n].header, others[n].body);
    }
  }

  /** Target System claims the key because of this attempt. */
  predicate Creates(st: TS.Store, key: string, doc: Doc, a: Attempt) {
    Reaches(a) && a.throttled.None? && TS.Post(Served(st, a.others), Some(key), Some(doc)).1 == 201
  }

  /** A creation means the key was free and is claimed; 200 or 201 that it is claimed, unless a gateway said so. */
  lemma {:induction false} ExchangeIsTrue(st: TS.Store, key: string, doc: Doc, a: Attempt)
    ensures var (after, status) := Exchange(st, key, doc, a);
            && TS.Grows(st, after)
            && (Creates(st, key, doc, a) ==> key !in st.idempotency && key in after.idempotency)
            && (status in {Some(200), Some(201)} ==> key in after.idempotency || IsForged(a))
            && (status == Some(201) ==> Creates(st, key, doc, a) || IsForged(a))
            && (IsForged(a) ==> status == Some(a.fault.code))
  {
    ServedGrows(st, a.others);
    TS.PostGrows(Served(st, a.others), Some(key), Some(doc));
  }

  predicate CreatedAt(st: TS.Store, key: string, doc: Doc, network: nat -> Attempt, used: nat, k: nat) {
    Creates(After(st, key, doc, network, used, k), key, doc, network(used + k))
  }

  lemma {:induction false} AfterGrows(st: TS.Store, key: string, doc: Doc, network: nat -> Attempt, used: nat, k: nat)
    ensures var after := After(st, key, doc, network, used, k);
            && TS.Grows(st, after)
            && forall j: nat | j < k && CreatedAt(st, key, doc, network, used, j) ::
                 key !in st.idempotency && key in after.idempotency
  {
    if k > 0 {
      AfterGrows(st, key, doc, network, used, k - 1);
      ExchangeIsTrue(After(st, key, doc, network, used, k - 1), key, doc, network(used + k - 1));
    }
  }

  predicate CreatedDuring(st: TS.Store, key: string, doc: Doc, network: nat -> Attempt, used: nat, n: nat) {
    exists k: nat :: k < n && CreatedAt(st, key, doc, network, used, k)
  }

  /** What a send claims is so, but for what a gateway forged; and it claims no key that was claimed before. */
  lemma {:induction false} SentIsTrue(st: TS.Store, id: Identity, doc: Doc, network: nat -> Attempt, used: nat,
                                      maxRetries: int)
    ensures var s := Sent(st, id, doc, network, used, maxRetries);
            && TS.Grows(st, s.store)
            && (CreatedDuring(st, id.key, doc, network, used, s.attempts) ==>
                  id.key !in st.idempotency && id.key in s.store.idempotency)
            && (s.failure.None? <==> s.status in {Some(200), Some(201)})
            && (s.failure.None? && !IsForged(network(used + s.attempts - 1)) ==> id.key in s.store.idempotency)
            && (s.status == Some(201) && !IsForged(network(used + s.attempts - 1)) ==>
                  CreatedDuring(st, id.key, doc, network, used, s.attempts))
  {
    var s := Sent(st, id, doc, network, used, maxRetries);
    AfterGrows(st, id.key, doc, network, used, s.attempts);
    if maxRetries >= 0 {
      var k := s.attempts - 1;
      ExchangeIsTrue(After(st, id.key, doc, network, used, k), id.key, doc, network(used + k));
      assert Creates(After(st, id.key, doc, network, used, k), id.key, doc, network(used + k)) ==>
          CreatedAt(st, id.key, doc, network, used, k);
    }
  }

  // ---- the sink -------------------------------------------------------------------------------

  method ServeOthers(server: TS.TargetSystemMock, others: seq<Posting>)
    modifies server
    ensures server.Held() == Served(old(server.Held()), others) && TS.Grows(old(server.Held()), server.Held())
  {
    for i := 0 to |others|
      invariant server.Held() == Served(old(server.Held()), others[..i])
      invariant TS.Grows(old(server.Held()), server.Held())
    {
      assert others[..i + 1][..i] == others[..i];
      TS.PostGrows(server.Held(), others[i].header, others[i].body);
      var _ := server.HandlePost(None, others[i].header, others[i].body, others[i].brokerUp);
    }
    assert others[..|others|] == others;
  }

  class HttpSink {
    const maxRetries: int
    var retries: nat
    var accepted: nat
    var duplicates: nat
    // Requests put on the wire so far, the keys Target System claimed because of one of them, and the
    // answers a gateway gave that read as its confirmation.
    var attempts: nat
    ghost var created: set<string>
    ghost var forged: nat

    constructor (maxRetries: int)
      ensures this.maxRetries == maxRetries
      ensures retries == accepted == duplicates == attempts == forged == 0 && created == {}
    {
      this.maxRetries := maxRetries;
      retries, accepted, duplicates, attempts := 0, 0, 0, 0;
      created, forged := {}, 0;
    }

    ghost predicate Honest(server: TS.TargetSystemMock)
      reads this, server
    {
      created <= server.idempotency.Keys && accepted <= |created| + forged
    }

    /** One request as the network and the server let it happen: its status, if one comes back. */
    method Request(server: TS.TargetSystemMock, key: string, doc: Doc, a: Attempt) returns (status: Option<int>)
      modifies server, this`attempts
      ensures (server.Held(), status) == Exchange(old(server.Held()), key, doc, a)
      ensures attempts == old(attempts) + 1
    {
      attempts := attempts + 1;
      ServeOthers(server, a.others);
      if a.fault.RequestLost? || (a.fault.Interrupted? && !a.fault.served) {
        return None;
      }
      if a.fault.GatewayAnswers? {
        return Some(a.fault.code);
      }
      var injected := match a.throttled case None => None case Some(t) => Some(if t then 429 else 503);
      var answer := server.HandlePost(injected, Some(key), Some(doc), a.brokerUp);
      return if a.fault.ResponseLost? || a.fault.Interrupted? then None else Some(answer);
    }

    method Send(server: TS.TargetSystemMock, id: Identity, doc: Doc, network: nat -> Attempt)
      returns (failure: Option<LoadFailure>)
      requires Identify(doc) == Ok(id) && Honest(server)
      modifies server, this
      ensures var s := Sent(old(server.Held()), id, doc, network, old(attempts), maxRetries);
              && server.Held() == s.store && attempts == old(attempts) + s.attempts && failure == s.failure
              && accepted == old(accepted) + (if s.status == Some(201) then 1 else 0)
              && duplicates == old(duplicates) + (if s.status == Some(200) then 1 else 0)
      ensures Honest(server) && TS.Grows(old(server.Held()), server.Held())
      ensures created == old(created) + (if CreatedDuring(old(server.Held()), id.key, doc, network, old(attempts),
                                                          attempts - old(attempts)) then {id.key} else {})
      ensures created - old(created) !! old(server.idempotency.Keys)
      ensures attempts - old(attempts) <= (if maxRetries < 0 then 0 else maxRetries + 1)
      ensures attempts - old(attempts) == (if maxRetries < 0 then 0 else 1) + retries - old(retries)
      ensures failure.None? ==> id.key in server.idempotency || forged == old(forged) + 1
      ensures forged == old(forged) || (forged == old(forged) + 1 && failure.None? && exists n :: IsForged(network(n)))
      ensures accepted + duplicates == old(accepted + duplicates) + (if failure.None? then 1 else 0)
      ensures accepted >= old(accepted) && duplicates >= old(duplicates)
    {
      ghost var st, used := server.Held(), attempts;
      failure := Attempting(server, id, doc, network);
      SentIsTrue(st, id, doc, network, used, maxRetries);
      ghost var n := attempts - used;
      if CreatedDuring(st, id.key, doc, network, used, n) {
        created := created + {id.key};
      }
      if failure.None? && IsForged(network(used + n - 1)) {
        forged := forged + 1;
      }
    }

    /** The retry loop. */
    method Attempting(server: TS.TargetSystemMock, id: Identity, doc: Doc, network: nat -> Attempt)
      returns (failure: Option<LoadFailure>)
      modifies server, this`attempts, this`retries, this`accepted, this`duplicates
      ensures var s := Sent(old(server.Held()), id, doc, network, old(attempts), maxRetries);
              && server.Held() == s.store && attempts == old(attempts) + s.attempts && failure == s.failure
              && retries == old(retries) + (if maxRetries < 0 then 0 else s.attempts - 1)
              && accepted == old(accepted) + (if s.status == Some(201) then 1 else 0)
              && duplicates == old(duplicates) + (if s.status == Some(200) then 1 else 0)
    {
      ghost var st, used := server.Held(), attempts;
      var attempt := 0;
      while attempt <= maxRetries
        invariant 0 <= attempt && (maxRetries < 0 ==> attempt == 0) && (maxRetries >= 0 ==> attempt <= maxRetries)
        invariant attempts - used == attempt == retries - old(retries)
        invariant server.Held() == After(st, id.key, doc, network, used, attempt)
        invariant Tries(st, id.key, doc, network, used, 0, maxRetries)
               == Tries(st, id.key, doc, network, used, attempt, maxRetries)
        invariant accepted == old(accepted) && duplicates == old(duplicates)
        decreases maxRetries - attempt
      {
        var meets := network(attempts);
        OneMoreTry(st, id, doc, network, used, attempt, maxRetries);
        var status := Request(server, id.key, doc, meets);
        var ended;
        ended, failure := Judge(id.accountId, attempt, status, meets);
        if ended {
          return;
        }
        attempt := attempt + 1;
      }
      return Some(LoadFailure(id.accountId, 0, "retry loop exhausted"));
    }

    /** What becomes of the document after this attempt; if nothing yet, a retry is counted. */
    method Judge(accountId: string, attempt: nat, status: Option<int>, a: Attempt)
      returns (ended: bool, failure: Option<LoadFailure>)
      modifies this`retries, this`accepted, this`duplicates
      ensures ended <==> attempt == maxRetries || !IsTransient(status, a)
      ensures ended ==> failure == Ending(accountId, status, a)
      ensures retries == old(retries) + (if ended then 0 else 1)
      ensures accepted == old(accepted) + (if status == Some(201) then 1 else 0)
      ensures duplicates == old(duplicates) + (if status == Some(200) then 1 else 0)
    {
      if status.None? {
        if a.fault.Interrupted? {
          return true, Some(LoadFailure(accountId, 0, "interrupted"));
        }
        if attempt == maxRetries {
          return true, Some(LoadFailure(accountId, 0, "transport failure"));
        }
        retries := retries + 1;
        return false, None;
      }
      if status.value == 200 {
        duplicates := duplicates + 1;
        return true, None;
      }
      if status.value == 201 {
        accepted := accepted + 1;
        return true, None;
      }
      var transientFailure := status.value == 429 || status.value >= 500;
      if !transientFailure {
        return true, Some(LoadFailure(accountId, status.value, "permanent rejection"));
      }
      if attempt == maxRetries {
        return true, Some(LoadFailure(accountId, status.value, "still failing"));
      }
      retries := retries + 1;
      return false, None;
    }

    method Offer(server: TS.TargetSystemMock, doc: Doc, network: nat -> Attempt) returns (failure: Option<LoadFailure>)
      requires Honest(server)
      modifies server, this
      ensures var s := Offering(old(server.Held()), doc, network, old(attempts), maxRetries);
              && server.Held() == s.store && attempts == old(attempts) + s.attempts && failure == s.failure
              && accepted == old(accepted) + (if s.status == Some(201) then 1 else 0)
              && duplicates == old(duplicates) + (if s.status == Some(200) then 1 else 0)
      ensures Honest(server) && TS.Grows(old(server.Held()), server.Held())
      ensures old(created) <= created && created - old(created) !! old(server.idempotency.Keys)
      ensures accepted + duplicates == old(accepted + duplicates) + (if failure.None? then 1 else 0)
      ensures Identify(doc).Err? ==> failure == Some(Identify(doc).error) && created == old(created)
                                     && attempts - retries == old(attempts - retries)
      ensures Identify(doc).Ok? ==>
                && created <= old(created) + {Identify(doc).value.key}
                && attempts - retries == old(attempts - retries) + (if maxRetries < 0 then 0 else 1)
                && (failure.None? ==> Identify(doc).value.key in server.idempotency || forged == old(forged) + 1)
      ensures forged == old(forged) || (forged == old(forged) + 1 && failure.None? && exists n :: IsForged(network(n)))
    {
      var identity := Identify(doc);
      match identity {
        case Err(e) => return Some(e);
        case Ok(id) => failure := Send(server, id, doc, network);
      }
    }
  }

  /** One line of the read loop: whether it is a document, and what was wrong with it. */
  method OfferLine(sink: HttpSink, server: TS.TargetSystemMock, line: Line, network: nat -> Attempt)
    returns (read: nat, errors: seq<LoadError>)
    requires sink.Honest(server)
    modifies server, sink
    ensures forall before: seq<LoadError> ::
              HttpLoad(server.Held(), sink.attempts, sink.accepted, sink.duplicates, before + errors)
              == OneLine(HttpLoad(old(server.Held()), old(sink.attempts), old(sink.accepted), old(sink.duplicates),
                                  before), line, network, sink.maxRetries)
    ensures read == (if line.Blank? then 0 else 1)
    ensures sink.accepted + sink.duplicates + |errors| == old(sink.accepted + sink.duplicates) + read
    ensures sink.Honest(server) && TS.Grows(old(server.Held()), server.Held())
    ensures sink.attempts - sink.retries
         == old(sink.attempts - sink.retries) + (if Offerable(line) && sink.maxRetries >= 0 then 1 else 0)
    ensures old(sink.created) <= sink.created && sink.created - old(sink.created) !! old(server.idempotency.Keys)
    ensures sink.created <= old(sink.created) + (if Offerable(line) then {Identify(line.doc).value.key} else {})
    ensures errors == [] && Offerable(line) && sink.forged == old(sink.forged) ==>
              Identify(line.doc).value.key in server.idempotency
    ensures sink.forged >= old(sink.forged)
    ensures sink.forged != old(sink.forged) ==> exists n :: IsForged(network(n))
  {
    match line {
      case Blank => return 0, [];
      case Unparseable(text, problem) =>
        return 1, [LoadError("<unparseable>", 0, "invalid JSON: " + problem, text)];
      case Json(doc) =>
        var failure := sink.Offer(server, doc, network);
        return 1, ErrorOf(failure, doc.payload);
    }
  }

  /**
   * A whole load through the HTTP sink: every document read is accounted for, every attempt but a
   * document's first is a retry, and no more documents are reported accepted than there are keys
   * Target System claimed on this run's behalf, but for the answers a gateway forged.
   */
  method LoadThroughHttp(server: TS.TargetSystemMock, maxRetries: int, lines: seq<Line>, network: nat -> Attempt)
    returns (r: Report, attempts: nat, ghost created: set<string>, ghost forged: nat)
    modifies server
    ensures HttpLoad(server.Held(), attempts, r.tally.accepted, r.tally.duplicates, r.errors)
         == LoadOver(old(server.Held()), lines, network, maxRetries)
    ensures TS.Grows(old(server.Held()), server.Held())
    ensures r.documentsRead == DocumentsIn(lines) && Balances(r) && r.tally.unsettled == 0 == r.exitCode
    ensures attempts == (if maxRetries < 0 then 0 else |Offered(lines)|) + r.tally.retries
    ensures created <= Elements(Offered(lines)) && created <= server.idempotency.Keys - old(server.idempotency.Keys)
    ensures r.tally.accepted <= |created| + forged
    ensures r.errors == [] && forged == 0 ==> Elements(Offered(lines)) <= server.idempotency.Keys
    ensures (forall n :: !IsForged(network(n))) ==> forged == 0
  {
    var sink := new HttpSink(maxRetries);
    var errors: seq<LoadError> := [];
    var documentsRead := 0;
    for i := 0 to |lines|
      invariant fresh(sink) && sink.maxRetries == maxRetries && sink.Honest(server)
      invariant HttpLoad(server.Held(), sink.attempts, sink.accepted, sink.duplicates, errors)
             == LoadOver(old(server.Held()), lines[..i], network, maxRetries)
      invariant TS.Grows(old(server.Held()), server.Held())
      invariant documentsRead == DocumentsIn(lines[..i]) == sink.accepted + sink.duplicates + |errors|
      invariant sink.attempts == (if maxRetries < 0 then 0 else |Offered(lines[..i])|) + sink.retries
      invariant sink.created <= Elements(Offered(lines[..i]))
      invariant sink.created !! old(server.idempotency.Keys)
      invariant errors == [] && sink.forged == 0 ==> Elements(Offered(lines[..i])) <= server.idempotency.Keys
      invariant (forall n :: !IsForged(network(n))) ==> sink.forged == 0
    {
      assert lines[..i + 1][..i] == lines[..i];
      ghost var before := HttpLoad(server.Held(), sink.attempts, sink.accepted, sink.duplicates, errors);
      var read, more := OfferLine(sink, server, lines[i], network);
      documentsRead, errors := documentsRead + read, errors + more;
      assert HttpLoad(server.Held(), sink.attempts, sink.accepted, sink.duplicates, errors)
          == OneLine(before, lines[i], network, maxRetries);
      if Offerable(lines[i]) {
        ElementsNext(Offered(lines[..i]), Identify(lines[i].doc).value.key);
      }
    }
    assert lines[..|lines|] == lines;
    var tally := Tally(sink.accepted + sink.duplicates, sink.accepted, sink.duplicates, 0, sink.retries, []);
    r := Report(documentsRead, tally, errors, 0);
    attempts, created, forged := sink.attempts, sink.created, sink.forged;
  }
}
