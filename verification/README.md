# The migration lane, modelled and proved

This project models the programs that move account records from a source extract to Target System
and that decide, at the end, whether every record arrived exactly once and whether that can be
shown. The models follow the code branch by branch; the theorems are about the code as it is, also
where it does something its comments do not say.

- **Load lane.** `TargetSystem` is the service with its first-wins idempotency map, its two intakes
  and its two return topics, and the refinement of exactly-once by at-least-once. `LoadProtocol`
  cuts the same work into atomic steps of any number of threads beside the loader, other producers
  and the settle reads. Over every run of it, `LoadSafety` says what is claimed and announced,
  `LoadStorage` what is stored, `LoadDelivery` and `LoadRefinement` how the steps add up to the
  service and to the exactly-once pass, `LoadSerial` why both intakes together are serializable, and
  `LostSends` what a lost send can hide behind.
  `ReturnStream`, `Settlement` and `Loader` are the loader's settle loop, its set-difference and its
  two sinks. `Recon` and `Agreement` are reconciliation's own read of the confirmations and why it
  agrees with the loader.
- **Scheduling.** `Scheduler` is the depth-first order of the Dataform actions.
- **Migration lane.** `Lane` and `Warehouse` are the two stages that purge and append to shared
  tables, and their replay after crashes. `Batching` is the numbering, grouping and checking of
  emitted batches; `RunBatches` and `Doors` the in-memory engine and its tallies.
- **Documents and files.** `JsonPath`, `JsonObjects` and `Mapping` write target documents;
  `Checksums`, `Digits` and `Text` are the manifest and how its two readers see text; `Extract` is
  the extract split, `Names` and `BundleRead` the bundle and its reading by sorted file names, `Rows`
  and `Money` the delimited rows and the balances.

Values are datatypes and functions; objects whose methods update them in place (`TargetSystemMock`,
`KafkaSink`, `HttpSink`, `Sorter`, `Warehouse`, `Counters`, `JsonObject`) are classes proved against
those functions. Lemmas carry `{:induction false}`, so that no proof rests on automatic induction.
`dafny verify dfyconfig.toml` checks the project.

## Where the code and its comments differ

The models do what the code does; these are the places where a reader of the comments would expect
something else.

- `published.add` runs whatever becomes of the send, although the comment beside it says a failed
  key never enters the set (`LoaderApp.java:316-324`). The key then shows up as unsettled when
  nothing else put it before Target System in the run's name (`UnsentKeyIsUnsettled`), and the load
  fails. As a rule something else does: with `--sinks both`, the default, the JSON producer sends
  every document of the run under the same key to the same topic (`sinks.py:281-292`), so that the
  loader may lose all its sends and succeed (`ProducerHidesEveryLoss`). Two lines of one key, or a
  run repeated under its id, hide a loss too (`SecondSendIsLostUnnoticed`).
  `LostSendIsHiddenExactly` and, for the whole load, `LoadCanSettleExactly` are the exact conditions.
- The data files are read in the order of their sorted names, whose sequence numbers are padded to
  three digits (`pipeline.py:209`, `artefacts.json:30`). From a thousand files on, that is not the
  order they were written in: `SequenceIsSortedExactly`, `ThousandFilesLoseTheirOrder`. Which
  records are read, and how many, does not depend on it.
- The bundle holds the error list, the manifest and the report beside the data files, and the
  manifest lists the data files only. The file processor passes over members not listed; Java's
  `verify` would report all three (`OnlyOtherMembersUnlisted`).
- A confirmation read after a rejection of the same key leaves the rejection in place
  (`ReturnStream.java:112-128`), so the count that ends the loop can be reached with a key
  unanswered: `StopsWithAKeyUnanswered`. `CountIsHonestExactly` is the exact condition.
- `confirmedTargetRows` subtracts distinct keys from rows, so an unconfirmed key on two rows makes
  it too high: `ConfirmedRowsOverstated`, and `ConfirmedRowsExactly` for when it is right.
- A duplicate event can precede the storage of its account when HTTP threads run beside the
  consumer: `DuplicateBeforeStorage`. `AnnouncedIsStoredExactly` is the exact condition.
- An account keeps the document of the last record that opened a key for it, so a target row can be
  confirmed without its own document being what is stored: `OwnDocumentIsStoredExactly`.
- The HTTP sink believes any 200 or 201, also one that a gateway gave without Target System having
  seen the request (`LoaderApp.java:488-497`): `ForgedAnswerIsBelieved`. `FalseConfirmationExactly`
  is the exact condition, and the contracts count such answers as forged.
- Target rows without a key are passed over by the confirmation match (`ReconService.java:442`),
  hence the third case of `PassedRunIsAccountedFor`.
- String cells are stripped when parsed (`tds.py:223-226`), although values are said to be kept raw;
  `StringArrivesRawExactly` says which do arrive raw.
- A required target path without the dollar sign is written to without complaint and then raises in
  the required check (`tds.py:206-207`), which nobody catches: the third outcome of `MapRecord`.
- The quantize call is outside the guarded conversion in both places it occurs (`tds.py:248`,
  `mapping.py:58`): an amount of more than 28 digits is an uncaught exception, not a reject.
- The extractor's blank test and line ends are Java's, the reader's are Python's: a line of no-break
  spaces is reported and not read, a line with a NEL inside is read twice.
- An empty extract yields one file whose payload is a single line end, counted as one record.
- With a negative `maxRetries` no attempt is made at all, and the attempts are then not one plus the
  retries; the contracts of `Send` and `LoadThroughHttp` say so.

## Model

| member | source | states |
|---|---|---|
| TargetSystem.RedeliveryChangesNothing | apps/target-system-mock/src/main/java/ro/mig/vault/TargetSystemMock.java:370-413 | Applying any message of the log a second time, at any later point, changes neither the idempotency map nor the accounts. |
| TargetSystem.AdmittedExactly | apps/target-system-mock/src/main/java/ro/mig/vault/TargetSystemMock.java:370-393 | A record is admitted if and only if it parses and has an account and a key, neither missing nor blank, and it is filed under just these. |
| TargetSystem.PassIsFirstWins | apps/target-system-mock/src/main/java/ro/mig/vault/TargetSystemMock.java:394-412 | An in-order pass leaves every key with the account of its first admissible document, and every account with the document of its last key-opening document; nothing else is held. Said over log positions, without running the pass. |
| TargetSystem.AtLeastOnceRefinesExactlyOnce | apps/target-system-mock/src/main/java/ro/mig/vault/TargetSystemMock.java:340-413 | For every schedule of produce, deliver, commit and rewind, the two maps equal one exactly-once pass over the log up to the furthest position ever reached. |
| TargetSystem.OneMoreDelivery | apps/target-system-mock/src/main/java/ro/mig/vault/TargetSystemMock.java:346-351 | Delivering a record at or before the furthest position, met before or not, gives the pass over the log up to the further of the two positions. |
| TargetSystem.OwnDocumentIsStoredExactly | apps/target-system-mock/src/main/java/ro/mig/vault/TargetSystemMock.java:394-412 | After a pass, an admitted record has its own document stored if and only if the last record to open a key for its account carries that document. |
| TargetSystem.DistinctDocumentsAreAllStored | apps/target-system-mock/src/main/java/ro/mig/vault/TargetSystemMock.java:394-412 | So where no key and no account is used twice, every admitted document is stored as it came. |
| TargetSystem.OneClaimPerCreation | apps/target-system-mock/src/main/java/ro/mig/vault/TargetSystemMock.java:394-411 | The number of claimed keys grows by one exactly when a document is ruled newly created. |
| TargetSystem.PostGrows | apps/target-system-mock/src/main/java/ro/mig/vault/TargetSystemMock.java:220-256 | A POST never loses a claim or an account; 200 and 201 with a key mean the key is claimed, 201 that it was free, 200 that nothing changed. |
| TargetSystem.TargetSystemMock.ApplyDocument | apps/target-system-mock/src/main/java/ro/mig/vault/TargetSystemMock.java:370-413 | One consumed record moves the maps, the flag and the two return logs as the rule says, whichever way its send goes, and every counter with them. |
| TargetSystem.TargetSystemMock.Admit | apps/target-system-mock/src/main/java/ro/mig/vault/TargetSystemMock.java:394-412 | The part behind the screening: claim and account for a free key, neither for a taken one, a verdict either way. |
| TargetSystem.RefusalSays | apps/target-system-mock/src/main/java/ro/mig/vault/TargetSystemMock.java:373-392 | What a refused record leaves: one rejection with the account, the run and the reason for its case, and nothing else. |
| TargetSystem.AdmissionSays | apps/target-system-mock/src/main/java/ro/mig/vault/TargetSystemMock.java:394-412 | What an admitted record leaves: claim and account exactly when the key was free, and one event that says created or duplicate, unless the flag or the broker loses it. |
| TargetSystem.TargetSystemMock.HandlePost | apps/target-system-mock/src/main/java/ro/mig/vault/TargetSystemMock.java:197-257 | Status, maps, return logs, suppress flag and all counters of one POST in every branch, injected failures first; only a 201 publishes and only a 201 spends the flag. |
| TargetSystem.PostSays | apps/target-system-mock/src/main/java/ro/mig/vault/TargetSystemMock.java:211-256 | Each status exactly when its test is the first that does not hold, and what a 201 puts into the maps. |
| TargetSystem.TargetSystemMock.PublishConfirmation | apps/target-system-mock/src/main/java/ro/mig/vault/TargetSystemMock.java:280-312 | The suppress flag is spent by the next publication, whether or not the broker takes it; otherwise one event is appended when the send succeeds. |
| TargetSystem.TargetSystemMock.PublishRejection | apps/target-system-mock/src/main/java/ro/mig/vault/TargetSystemMock.java:421-446 | One rejection event carrying the document's run, or the empty run when the body did not parse, appended when the send succeeds. |
| TargetSystem.TargetSystemMock.ConsumeOne | apps/target-system-mock/src/main/java/ro/mig/vault/TargetSystemMock.java:346-351 | One record of a batch: maps, flag and both logs move as its handling says, and the furthest position with them. |
| TargetSystem.TargetSystemMock.ConsumeBatch | apps/target-system-mock/src/main/java/ro/mig/vault/TargetSystemMock.java:346-356 | One poll ends at its size, at the end of the log or where it dies, whichever comes first; the logs hold the verdicts of exactly the records handled, in their order. |
| TargetSystem.TargetSystemMock.ConsumeLoop | apps/target-system-mock/src/main/java/ro/mig/vault/TargetSystemMock.java:346-358 | What is committed and how far the loop gets are those of its polls taken in order up to the first that dies; maps, flag and both return logs are those of handling the records from the committed offset to there, one after the other; the maps are those of one pass up to the furthest position. |
| TargetSystem.UninterruptedLoopReachesEnd | apps/target-system-mock/src/main/java/ro/mig/vault/TargetSystemMock.java:346-358 | A loop that does not die and polls often enough applies and commits the whole log. |
| TargetSystem.DeadPollIsNotCommitted | apps/target-system-mock/src/main/java/ro/mig/vault/TargetSystemMock.java:346-356 | Polls before the one that dies are committed, that one is not, and the loop ends at the record it died at. |
| LoadProtocol.ClaimKeepsInv | apps/target-system-mock/src/main/java/ro/mig/vault/TargetSystemMock.java:394-408 | The atomic claim keeps the service invariant: one owner per unannounced key, claims behind every event, no two creations of a key. |
| LoadProtocol.SaveKeepsInv | apps/target-system-mock/src/main/java/ro/mig/vault/TargetSystemMock.java:410-411 | Storing the account keeps the service invariant. |
| LoadProtocol.AnnounceKeepsInv | apps/target-system-mock/src/main/java/ro/mig/vault/TargetSystemMock.java:285-290 | Testing and clearing the suppress flag keeps the service invariant. |
| LoadProtocol.SendKeepsInv | apps/target-system-mock/src/main/java/ro/mig/vault/TargetSystemMock.java:301-311 | Sending the event, or losing it, keeps the service invariant; in particular no second created event for a key. |
| LoadProtocol.DoKeepsInv | apps/target-system-mock/src/main/java/ro/mig/vault/TargetSystemMock.java:340-413 | Each of the nine kinds of step of loader, other producers, consumer, HTTP threads and settle reads keeps the invariant and only extends logs and maps. |
| LoadProtocol.RunKeepsInv | apps/target-system-mock/src/main/java/ro/mig/vault/TargetSystemMock.java:340-413 | So does every finite run, from any world that satisfies it. |
| LoadSafety.CreatedAtMostOnce | apps/target-system-mock/src/main/java/ro/mig/vault/TargetSystemMock.java:238-255 | Over every interleaving of consumer and HTTP threads a key has at most one created event, a created event has its account stored, and any event has its key claimed. |
| LoadStorage.EveryClaimIsStoredOrBeingStored | apps/target-system-mock/src/main/java/ro/mig/vault/TargetSystemMock.java:238-255 | Over every interleaving of consumer and HTTP threads a claimed key has its account stored, or the thread that claimed it stands right before storing it; only the consumer announces duplicates, and never of a key it is itself about to store. |
| LoadStorage.AnnouncedIsStoredExactly | apps/target-system-mock/src/main/java/ro/mig/vault/TargetSystemMock.java:394-412 | Over every interleaving an announced key lacks its account if and only if an HTTP thread stands before storing for that key an account not there yet; a created event never does. |
| LoadStorage.OnlyCreationsAnnounced | apps/target-system-mock/src/main/java/ro/mig/vault/TargetSystemMock.java:244-254 | With HTTP as only intake every event says created. |
| LoadStorage.ConfirmedMeansStored | apps/target-system-mock/src/main/java/ro/mig/vault/TargetSystemMock.java:405-412 | With one intake alone, the consumer or HTTP, created and duplicate events alike mean the account is stored. |
| LoadStorage.DuplicateBeforeStorage | apps/target-system-mock/src/main/java/ro/mig/vault/TargetSystemMock.java:238-255 | The failing case occurs: a seven-step run in which a duplicate is announced while no account is stored. |
| LoadDelivery.ClaimingFinishes | apps/target-system-mock/src/main/java/ro/mig/vault/TargetSystemMock.java:394-412 | A thread left alone with a document it took up: what it leaves in maps, flag and events, for the consumer and for an HTTP thread, whether or not the key was taken. |
| LoadDelivery.DeliveryIsApply | apps/target-system-mock/src/main/java/ro/mig/vault/TargetSystemMock.java:370-413 | The atomic steps of the consumer, left alone, add up to the one-step application used in the refinement: maps, flag, events and rejections. |
| LoadDelivery.RequestIsPost | apps/target-system-mock/src/main/java/ro/mig/vault/TargetSystemMock.java:197-257 | Those of an HTTP thread add up to one POST, in every branch. |
| LoadRefinement.RunMatchesPass | apps/target-system-mock/src/main/java/ro/mig/vault/TargetSystemMock.java:340-413 | At any point of any run without HTTP threads the maps are those of one exactly-once pass over a prefix of the log reaching past everything committed, but for the one record in hand. |
| LoadRefinement.OwnDocumentIsStored | apps/target-system-mock/src/main/java/ro/mig/vault/TargetSystemMock.java:394-412 | In such a run, with nothing in hand, an admitted record of that prefix has its own document stored if and only if the last record to open a key for its account carries that document. |
| LoadSerial.RunExplained | apps/target-system-mock/src/main/java/ro/mig/vault/TargetSystemMock.java:238-255 | At any point of any run of both intakes the maps are those of the documents saved so far, served one at a time in the order of saving, but for the keys threads have claimed and not yet saved; everything else taken up came late to its key or is in some thread's hands. |
| LoadSerial.SomeSerialOrder | apps/target-system-mock/src/main/java/ro/mig/vault/TargetSystemMock.java:394-412 | So once no thread stands between taking a document up and having stored it, both maps are those of serving exactly the documents taken up, one at a time, in some order. |
| LoadSerial.BothIntakesAreFirstWins | apps/target-system-mock/src/main/java/ro/mig/vault/TargetSystemMock.java:394-412 | With a key on every request, the first-wins characterisation holds of consumer and HTTP threads together, along that order. |
| LoadSafety.RunOn | apps/target-system-mock/src/main/java/ro/mig/vault/TargetSystemMock.java:340-413 | A longer run keeps all claims, accounts, events and published keys of its beginning. |
| LoadSafety.RewindsToCommit | apps/target-system-mock/src/main/java/ro/mig/vault/TargetSystemMock.java:351-356 | Whatever happens after a commit, going back leads to the position committed at. |
| LoadSafety.SendsSay | apps/loader-app/src/main/java/ro/mig/loader/LoaderApp.java:299-324 | What an offer and anyone else's send put on the topic, and that the key counts as published whether or not the send lands. |
| LoadSafety.SettledKeyIsApplied | apps/loader-app/src/main/java/ro/mig/loader/ReturnStream.java:107-128 | A key the loader counts as confirmed or duplicate is claimed at Target System; one it counts as rejected has a rejection event of its run. |
| LoadSafety.NothingUnsettledMeansAppliedOrRejected | apps/loader-app/src/main/java/ro/mig/loader/LoaderApp.java:344-346 | Unsettled zero means each published key is claimed or has a rejection of this run, over all interleavings. |
| LoadSafety.LoaderIsNeverRejected | apps/loader-app/src/main/java/ro/mig/loader/LoaderApp.java:299-302 | When every document others send in the run's name is one Target System admits, as those of the JSON producer beside the loader, no rejection of the run ever appears. |
| LoadSafety.EarlyExitMeansAllClaimed | apps/loader-app/src/main/java/ro/mig/loader/ReturnStream.java:100-130 | Then leaving the settle loop before its deadline means every published key is claimed. |
| LoadSafety.AcceptedByOneRun | apps/loader-app/src/main/java/ro/mig/loader/ReturnStream.java:112-128 | No key is counted as created by two runs, over all interleavings. |
| LostSends.SpokenWasSent | apps/loader-app/src/main/java/ro/mig/loader/LoaderApp.java:316-324 | Every confirmation and every rejection of a key in a run's name answers something that reached Target System under that key and run: over every interleaving a request or a message, with the consumer as only intake a message on the topic. |
| LostSends.UnsentKeyIsUnsettled | apps/loader-app/src/main/java/ro/mig/loader/LoaderApp.java:316-324 | Hence a published key that nothing put before Target System in the run's name is unsettled, however long the loader reads, and the load fails. |
| LostSends.LostSendIsHiddenExactly | apps/loader-app/src/main/java/ro/mig/loader/LoaderApp.java:316-324 | With the consumer as only intake, a published key can still come to be spoken of with nothing more sent if and only if a verdict on it in the run's name is on the return topics or an uncommitted message carries it. |
| LostSends.ReplayAnswers | apps/target-system-mock/src/main/java/ro/mig/vault/TargetSystemMock.java:340-358 | From any state an uncommitted record gets its verdict by going back to the committed offset at most twice, one-shot suppression notwithstanding. |
| LostSends.LoadCanSettleExactly | apps/loader-app/src/main/java/ro/mig/loader/LoaderApp.java:344-346 | With the consumer as only intake, a load can still end with nothing unsettled, nothing more being sent, if and only if each of its published keys is owed a verdict in that sense. |
| LostSends.ProducerHidesEveryLoss | pipelines/common/sinks.py:281-292 | With the JSON producer sending the same documents to the same topic in the run's name, the loader may lose every one of its sends and still end with nothing unsettled. |
| LostSends.RejectionComesExactly | apps/target-system-mock/src/main/java/ro/mig/vault/TargetSystemMock.java:370-392 | With the consumer as only intake, a run can come to have a rejection, nothing more being sent, if and only if it has one or an uncommitted message of the run is one Target System refuses. |
| LostSends.SecondSendIsLostUnnoticed | apps/loader-app/src/main/java/ro/mig/loader/LoaderApp.java:316-324 | A run in which the second of two sends under one key is lost, one message is on the topic and nothing is unsettled. |
| ReturnStream.ReadMeansLastWord | apps/loader-app/src/main/java/ro/mig/loader/ReturnStream.java:107-128 | Each collection holds exactly the awaited keys whose last qualifying confirmation has that outcome, or that were ever rejected; characterised over record positions, not by the edits. |
| ReturnStream.ReadFieldsExactly | apps/loader-app/src/main/java/ro/mig/loader/ReturnStream.java:107-128 | The same said of the records' own fields: key awaited and not blank, value of this run, the topic for a rejection, the outcome for a duplicate. |
| ReturnStream.ReasonIsOfTheLastRejection | apps/loader-app/src/main/java/ro/mig/loader/ReturnStream.java:112-113 | The reason kept for a rejected key is that of the last rejection of it in this run, or "unspecified". |
| ReturnStream.ReadCollects | apps/loader-app/src/main/java/ro/mig/loader/ReturnStream.java:107-128 | Confirmed and duplicate keys are disjoint, all three collections stay within the awaited keys, and their union is the awaited keys with a qualifying record. |
| ReturnStream.SpokenNeverShrinks | apps/loader-app/src/main/java/ro/mig/loader/ReturnStream.java:107-128 | Reading on never makes a key unspoken. |
| ReturnStream.CountedTwice | apps/loader-app/src/main/java/ro/mig/loader/ReturnStream.java:101-103 | The loop's count is off by exactly the keys that are rejected and also confirmed. |
| ReturnStream.HonestCount | apps/loader-app/src/main/java/ro/mig/loader/ReturnStream.java:100-130 | If no key is confirmed after its rejection, reaching the count means every awaited key has a verdict. |
| ReturnStream.DishonestCount | apps/loader-app/src/main/java/ro/mig/loader/ReturnStream.java:100-130 | If some key is, there is a set of awaited keys for which the loop stops with one of them unanswered. |
| ReturnStream.CountIsHonestExactly | apps/loader-app/src/main/java/ro/mig/loader/ReturnStream.java:100-130 | Hence the exit test is right, for all awaited sets and all stopping points, if and only if no key is confirmed after a rejection in the log. |
| ReturnStream.StopsWithAKeyUnanswered | apps/loader-app/src/main/java/ro/mig/loader/ReturnStream.java:112-128 | Two records on which the loop stops with a key never mentioned. |
| ReturnStream.Settle | apps/loader-app/src/main/java/ro/mig/loader/ReturnStream.java:72-133 | The polling loop returns the verdicts of what it read, stops at the first poll that reaches the count, and an early exit under the condition above leaves nothing unanswered. |
| Settlement.EveryKeyHasOneFate | apps/loader-app/src/main/java/ro/mig/loader/LoaderApp.java:378-403 | The four classes partition the published keys, whatever the overlaps between the inputs. |
| Settlement.MoreVerdictsNeverUnsettle | apps/loader-app/src/main/java/ro/mig/loader/LoaderApp.java:402-403 | More verdicts never raise the number of unsettled keys. |
| Settlement.ForeignKeysChangeNothing | apps/loader-app/src/main/java/ro/mig/loader/LoaderApp.java:382-384 | Only what was said about published keys matters. |
| Settlement.EditsPickFates | apps/loader-app/src/main/java/ro/mig/loader/LoaderApp.java:382-390 | The retain and remove edits in the code's order amount to rejected before duplicate before created. |
| Settlement.ErrorsFor | apps/loader-app/src/main/java/ro/mig/loader/LoaderApp.java:392-400 | One error per rejected key, with its reason, account and raw line or their defaults. |
| Settlement.ErrorsSayExactly | apps/loader-app/src/main/java/ro/mig/loader/LoaderApp.java:392-400 | The error rows are, one per key, the account and payload remembered for it or their defaults, and the text with Target System's reason. |
| Settlement.SettleAgainst | apps/loader-app/src/main/java/ro/mig/loader/LoaderApp.java:375-406 | The tally: the class sizes, unsettled as the size of a set (so never negative), one error per rejected published key, and all of it adding up to the published keys. |
| Loader.LoaderDocumentsAreAdmitted | apps/loader-app/src/main/java/ro/mig/loader/LoaderApp.java:243-253 | What passes the loader's identity check is never refused by Target System on either intake. |
| Loader.IdentifiedExactly | apps/loader-app/src/main/java/ro/mig/loader/LoaderApp.java:243-253 | A document passes if and only if account and dedup key are neither missing, null nor blank; what the failure says otherwise. |
| Loader.DocumentsAreCounted | apps/loader-app/src/main/java/ro/mig/loader/LoaderApp.java:107-125 | Every line that is not blank counts once, and is offered or stands in the error list. |
| Loader.OfferedExactly | apps/loader-app/src/main/java/ro/mig/loader/LoaderApp.java:107-115 | The keys offered are those of the identified documents, said of the lines alone. |
| Loader.ReadErrorsExactly | apps/loader-app/src/main/java/ro/mig/loader/LoaderApp.java:116-125 | The read-time errors are those of the lines that are no JSON and of the documents without identity, each with its text. |
| Loader.LastOfferedIsRemembered | apps/loader-app/src/main/java/ro/mig/loader/LoaderApp.java:325-326 | For a key offered more than once the account and payload remembered are those of the last line with it. |
| Loader.SentExactly | apps/loader-app/src/main/java/ro/mig/loader/LoaderApp.java:309-324 | The topic holds exactly the identified documents whose send landed, whole and under their own key. |
| Loader.SentOncePerOffer | apps/loader-app/src/main/java/ro/mig/loader/LoaderApp.java:309-324 | One message per offer when no send is lost, and never more. |
| Loader.KafkaSink.Offer | apps/loader-app/src/main/java/ro/mig/loader/LoaderApp.java:299-327 | A document without identity changes nothing; any other key counts as published whether or not its send succeeds. |
| Loader.KafkaSink.Settle | apps/loader-app/src/main/java/ro/mig/loader/LoaderApp.java:330-346 | The settled tally: accepted and duplicates are the sizes of their classes among the published keys, one error per rejected published key with its account and payload, unsettled the keys not spoken of, and all of it adds up; read up to the first poll that reaches the count. |
| Loader.OfferAll | apps/loader-app/src/main/java/ro/mig/loader/LoaderApp.java:105-125 | Documents read are offers plus read-time errors, the errors are those of the bad lines in order, the published set is that of the offered keys, and the topic holds the offered documents whose send landed. |
| Loader.LoadThroughKafka | apps/loader-app/src/main/java/ro/mig/loader/LoaderApp.java:104-162 | documentsRead = accepted + duplicates + errors + unsettled + repeated-key offers, each number pinned to its own class of published keys, so the report identity of criterion 10 holds exactly when the offered keys are distinct; the errors are those of reading and then one per rejected key; exit code zero exactly when every published key was spoken of. |
| Loader.HttpSink.Request | apps/target-system-mock/src/main/java/ro/mig/vault/TargetSystemMock.java:197-257 | One request under a network that may lose it or its answer, an interrupt before or after it is served, or a gateway that answers anything in its place: exactly what Target System holds afterwards and which status comes back. |
| Loader.ExchangeSays | apps/target-system-mock/src/main/java/ro/mig/vault/TargetSystemMock.java:197-257 | Fault by fault: whether the request is served and what comes back. |
| Loader.ExchangeIsTrue | apps/target-system-mock/src/main/java/ro/mig/vault/TargetSystemMock.java:197-257 | At most this key is created by a request, and then it was free; 200 or 201 means the key is claimed unless a gateway said so. |
| Loader.TriesExactly | apps/loader-app/src/main/java/ro/mig/loader/LoaderApp.java:461-526 | A send makes at most maxRetries + 1 attempts, each but the last met something transient, and it stops short of them only at something that is not. |
| Loader.GivesUpExactly | apps/loader-app/src/main/java/ro/mig/loader/LoaderApp.java:461-526 | It gives up before the last attempt allowed only when interrupted or at a final status, and returns normally exactly at 200 or 201. |
| Loader.RetriedExactly | apps/loader-app/src/main/java/ro/mig/loader/LoaderApp.java:470-515 | What is tried again: no answer but for an interrupt, 429, or 500 and above. |
| Loader.HttpSink.Judge | apps/loader-app/src/main/java/ro/mig/loader/LoaderApp.java:470-515 | What becomes of the document after an attempt: settled, failed with its status, or one retry counted. |
| Loader.SentIsTrue | apps/loader-app/src/main/java/ro/mig/loader/LoaderApp.java:461-526 | A normal return means the key is claimed unless the last answer was forged; 201 that this send created it, likewise; and a key it created was not claimed before. |
| Loader.FalseConfirmationExactly | apps/loader-app/src/main/java/ro/mig/loader/LoaderApp.java:488-497 | A send returns normally with its key unclaimed if and only if a gateway gave the last answer, no attempt got through to Target System unthrottled, nobody else claimed the key meanwhile and it was free. |
| Loader.ForgedAnswerIsBelieved | apps/loader-app/src/main/java/ro/mig/loader/LoaderApp.java:493-496 | It happens: one 201 from a gateway, and Target System holds nothing. |
| Loader.HttpSink.Attempting | apps/loader-app/src/main/java/ro/mig/loader/LoaderApp.java:461-526 | The retry loop: attempts, retries, what Target System holds, the counters and the failure are those of a send as characterised above. |
| Loader.HttpSink.Send | apps/loader-app/src/main/java/ro/mig/loader/LoaderApp.java:461-526 | The same, with what it is worth: attempts are one plus the retries, created keys were not there before, accepted never exceeds the keys this run created and the answers forged. |
| Loader.OfferLine | apps/loader-app/src/main/java/ro/mig/loader/LoaderApp.java:105-125 | One line: what it adds to the load's state, its errors and its counters. |
| Loader.HttpErrorsSay | apps/loader-app/src/main/java/ro/mig/loader/LoaderApp.java:107-125 | Over HTTP every document is accepted, a duplicate or in the error list, with its own text and account. |
| Loader.LoadThroughHttp | apps/loader-app/src/main/java/ro/mig/loader/LoaderApp.java:104-132 | Target System's maps, the attempts, the counters and the errors are those of the lines sent one after the other; documentsRead = accepted + duplicates + errors always, retries are the attempts minus the documents sent, accepted is at most the keys claimed for this run and the answers forged, and without either errors or forged answers every offered key is claimed. |
| Recon.ReadConfirmations | apps/recon-service/src/main/java/ro/mig/recon/ReconService.java:458-497 | The positions are those of the polls used, the first after which every partition has reached its end offset ends the read, and all are used when it is late; a key is read if and only if a record below the positions has it, not blank, with a value of this run. |
| Recon.PollUntilEnd | apps/recon-service/src/main/java/ro/mig/recon/ReconService.java:470-497 | The polling loop: up to the first poll after which every partition has reached its end. |
| Recon.CollectedExactly | apps/recon-service/src/main/java/ro/mig/recon/ReconService.java:484-506 | The same of any collection the read can make, said of the records' own fields. |
| Recon.OtherRunsChangeNothing | apps/recon-service/src/main/java/ro/mig/recon/ReconService.java:499-506 | Two reads that see the same records of the run collect the same keys, whatever other runs have on the topic. |
| Recon.TargetKeysAreThoseNotBlank | apps/recon-service/src/main/java/ro/mig/recon/ReconService.java:439-446 | The key list holds every target key that is not blank, and is shorter than the rows exactly when some key is. |
| Recon.MatchConfirmations | apps/recon-service/src/main/java/ro/mig/recon/ReconService.java:404-425 | The unconfirmed list has each unmatched key once, in target order; all confirmed means every target key is among the confirmations. |
| Recon.UnconfirmedLists | apps/recon-service/src/main/java/ro/mig/recon/ReconService.java:414-422 | The list is duplicate-free and holds exactly the target keys without a confirmation. |
| Recon.NoneUnconfirmedExactly | apps/recon-service/src/main/java/ro/mig/recon/ReconService.java:393-395 | It is empty if and only if every target key is confirmed. |
| Recon.ConfirmedRowsExactly | apps/recon-service/src/main/java/ro/mig/recon/ReconService.java:384-386 | The reported confirmed rows are never too few, and right if and only if no unconfirmed key is on two rows. |
| Recon.ConfirmedRowsOverstated | apps/recon-service/src/main/java/ro/mig/recon/ReconService.java:384-386 | Two rows and no confirmation reported as one confirmed row. |
| Recon.VerdictExactly | apps/recon-service/src/main/java/ro/mig/recon/ReconService.java:304-369 | Each failure exactly when its test is the first that does not hold, balance, lineage and orphans before the stream whether it was read or not; a pass exactly when none fails. |
| Recon.PassesExactly | apps/recon-service/src/main/java/ro/mig/recon/ReconService.java:304-369 | With the stream read, the run passes if and only if the equation closes, the lineage agrees, no target is an orphan and every key is confirmed; without it, if and only if the first three hold and that is waived. |
| Agreement.HeardIsCollected | apps/recon-service/src/main/java/ro/mig/recon/ReconService.java:458-497 | What the loader heard as settled, a full read of the same log taken later collects too. |
| Agreement.CleanLoadReconciles | apps/recon-service/src/main/java/ro/mig/recon/ReconService.java:404-425 | A load that ends with nothing unsettled and nothing rejected reconciles: all target keys among the published ones are confirmed. |
| Agreement.EarlyExitReconciles | apps/recon-service/src/main/java/ro/mig/recon/ReconService.java:404-425 | When no document of the run is one Target System refuses, leaving the settle loop early is enough for that. |
| Agreement.ReconciledMeansClaimed | apps/recon-service/src/main/java/ro/mig/recon/ReconService.java:404-425 | Conversely, all confirmed means every target key is claimed, and its account stored if and only if no HTTP thread stands right before storing it; with one intake alone it is stored. |
| Agreement.PassedRunIsAccountedFor | apps/recon-service/src/main/java/ro/mig/recon/ReconService.java:304-369 | In a run that passes, the source records are rejected with lineage or are target rows whose key is blank or claimed, the account stored if and only if no HTTP thread stands right before storing it; with one intake alone it is stored. |
| Scheduler.WalkGoesBack | local/scripts/run_dataform.py:84-111 | Along any dependency walk from an ordered action, each action met stands strictly earlier. |
| Scheduler.SortedMeansNoCycle | local/scripts/run_dataform.py:84-111 | A topological order leaves no action on a cycle. |
| Scheduler.Sorter.Visit | local/scripts/run_dataform.py:95-107 | The recursive visit with its three shared collections: it terminates, and either the name is done with the order kept and the visiting set restored, or a named action is on a cycle. |
| Scheduler.CurrentExactly | local/scripts/run_dataform.py:90 | The graph has, under each name, the action last listed under it, whole, and no others. |
| Scheduler.SortedIsOrderOf | local/scripts/run_dataform.py:84-111 | An order of the graph is one of the list: the last action listed under each name, as listed, each name once, and every dependency that is listed strictly earlier. |
| Scheduler.CyclesAreRounds | local/scripts/run_dataform.py:97-103 | A cycle of the graph is a round of listed actions, each listing the next among its dependencies. |
| Scheduler.OrderActions | local/scripts/run_dataform.py:84-111 | For every list of actions: an order of the list in that sense if and only if no round of listed dependencies exists; otherwise the error names an action on one. |
| Lane.SourceRowsExactly | pipelines/file_processor/pipeline.py:239-280 | A row is in the source table if and only if it is what some line of the bundle that is a record parses to, under its file and its two keys. |
| Lane.ParseRejectsExactly | pipelines/file_processor/pipeline.py:239-280 | A parse reject and its lineage row are there if and only if some record line does not parse, with the parser's fault and the line. |
| Lane.TargetRowsExactly | pipelines/json_producer/pipeline.py:77-118 | A row is in the target table if and only if it is the document some enriched source row maps to and that document validates. |
| Lane.MapRejectsExactly | pipelines/json_producer/pipeline.py:80-112 | A downstream reject and its lineage row are there if and only if some enriched source row is refused: by the mapper with its fault at stage Map, or by the validator with its fault at stage Schema. |
| Lane.RecordsAreCounted | pipelines/file_processor/pipeline.py:209-214 | Records read are the lines that are records, each line once. |
| Lane.ParseAccountsForEveryRecord | pipelines/file_processor/pipeline.py:239-280 | Every record read is a source row or a reject, and every reject has a lineage row. |
| Lane.MapAccountsForEveryRow | pipelines/json_producer/pipeline.py:77-118 | Every source row is a target row or a reject, and every reject has a lineage row. |
| Lane.CleanPassBalances | pipelines/file_processor/pipeline.py:349-424 | After one clean pass, source read = target + rejects and lineage = rejects. |
| Lane.LineageExplainsEveryReject | pipelines/file_processor/pipeline.py:402-417 | The lineage rows of a clean pass explain its rejects one by one: same run, stage, reason and detail, a parse reject under the name of its own content. |
| Lane.MapIgnoresOrder | pipelines/json_producer/pipeline.py:161-199 | Mapping a permutation of the rows gives a permutation of the results. |
| Lane.HistoryOutOfReach | pipelines/file_processor/pipeline.py:349-363 | No history of attempts changes rows outside the slices they purge and write. |
| Lane.CompleteAttemptLands | pipelines/file_processor/pipeline.py:349-424 | A complete attempt has, in the slice it purged, exactly what it wrote, whatever was there. |
| Lane.ReplayConverges | pipelines/json_producer/pipeline.py:143-199 | For every history of crashed and repeated attempts of any runs around them, a complete parse of a run and a complete production after it leave its rows in all four tables equal, as multisets, to one clean pass. |
| Lane.RecoveredRunBalances | pipelines/json_producer/pipeline.py:143-199 | So the balancing equation closes on the tables of a recovered run. |
| Lane.OtherRunsUntouched | pipelines/file_processor/pipeline.py:349-363 | No history of one run's attempts moves a row of another run. |
| Lane.PurgesExactly | pipelines/file_processor/pipeline.py:349-363 | The deletes of the two jobs, table by table in their order: all of the run's rows, or those of the stages the producer redoes. |
| Warehouse.Warehouse.Delete | pipelines/file_processor/pipeline.py:354-363 | Counting first and deleting only when there is something leaves the table as an unconditional delete would. |
| Warehouse.WritesAreBatches | pipelines/file_processor/pipeline.py:376-417 | However the rows are cut into batches, and those of different tables interleaved: what reaches each table is what was to be written to it, in order, and no batch is empty. |
| Warehouse.Batches | pipelines/file_processor/pipeline.py:376-417 | The batches are those cut by the sizes given. |
| Warehouse.TakingsAreRespected | pipelines/file_processor/pipeline.py:376-417 | Each batch holds the next so many of the pending rows of its table. |
| Warehouse.Warehouse.ParseAndWrite | pipelines/file_processor/pipeline.py:315-417 | The job against the tables is the attempt at its purges and batches that ends where the budget does, complete if and only if the budget suffices; read = written + rejected. |
| Warehouse.Warehouse.RecordLedger | pipelines/file_processor/pipeline.py:437-460 | The run's ledger row is replaced, or removed when it dies between the two statements, or left alone when it dies before; the rows of other runs stay. |
| Warehouse.Warehouse.RunFileProcessor | pipelines/file_processor/pipeline.py:315-461 | The whole job: the attempt that the budget allows, however its rows are batched, the counters balanced whatever the bundle holds, and exactly one ledger row of the run saying so if and only if the budget covers it too. |
| Warehouse.Warehouse.RunJsonProducer | pipelines/json_producer/pipeline.py:143-199 | The JSON producer against the tables, mapping the run's source rows and writing in batches of any sizes, is the attempt that ends where the budget does, complete if and only if the budget suffices. |
| Batching.GroupsKeepEverything | pipelines/json_producer/pipeline.py:245-252 | For any batch ids at all, grouping keeps every document in order and makes no empty batch. |
| Batching.GroupsAreStretches | pipelines/json_producer/pipeline.py:245-252 | For any batch ids the batches are the rows cut where the id changes: every row under its own id, no two neighbours alike. |
| Batching.TotalCountsExactly | pipelines/json_producer/pipeline.py:234-243 | The tallies by id add up to the documents emitted if and only if no id recurs. |
| Batching.ChecksAreSound | pipelines/json_producer/pipeline.py:260-282 | For any id sequence: if the checks pass with as many rows as written, no id recurs, every batch but the one with the greatest id is full, and that one holds one to size documents. |
| Batching.NumberedRowsGroupRegularly | pipelines/json_producer/pipeline.py:214-222 | Rows numbered i div size give ceil(n / size) batches, all full but the last, whose concatenation is the input. |
| Batching.ChecksAreComplete | pipelines/json_producer/pipeline.py:260-282 | For rows so numbered the checks pass if and only if their number equals written. |
| Batching.EmitBatches | pipelines/json_producer/pipeline.py:225-290 | The streaming loop and the checks: what is emitted, for each of the three failures exactly when it is raised, and the soundness above on success. |
| Doors.TallyIsSound | pipelines/common/doors.py:166-193 | After counting any doors the tally balances and its reasons add up to the rejects. |
| Doors.TallyCountsExactly | pipelines/common/doors.py:166-172 | Written and each reason are counted as often as they occur, and a reason is listed if and only if it does. |
| Doors.MergeCountsTogether | pipelines/common/doors.py:199-204 | Merging two tallies is counting both inputs together. |
| Doors.Counters.Record | pipelines/common/doors.py:166-172 | One more record read and counted through its door. |
| Doors.Counters.MergeFrom | pipelines/common/doors.py:199-204 | Merging in place, reason by reason in any order, gives the merged value and leaves the other tally alone, or doubles this one when merged into itself. |
| RunBatches.BatchOnlyStamps | pipelines/common/engine.py:99-138 | The batch a record is routed in shows in its reject and nowhere else. |
| RunBatches.BatchBalances | pipelines/common/engine.py:197-206 | Every batch balances, reasons add up to its rejects, and each reject carries its id. |
| RunBatches.RecordsExactly | pipelines/common/engine.py:190-195 | Records are the lines without their ends that are neither blank nor the header. |
| RunBatches.SurvivorsExactly | pipelines/common/engine.py:112-138 | A document survives if and only if some record parses and maps to it and it validates. |
| RunBatches.RejectsExactly | pipelines/common/engine.py:99-152 | A reject is there if and only if its line is refused by parser, mapper or validator, at that stage, with that fault and under its source key. |
| RunBatches.ReasonsAreCounted | pipelines/common/engine.py:197-206 | The counters list each reason exactly as often as the rejects give it. |
| RunBatches.BatchCountExactly | pipelines/common/engine.py:210-216 | floor(survivors / size) full batches, and one more if and only if records trail. |
| RunBatches.BatchingIsComplete | pipelines/common/engine.py:190-216 | The documents of all batches are the survivors in order and their counters merged count the whole input. |
| RunBatches.RunBatches | pipelines/common/engine.py:167-216 | The generator: all of the above for every input and every size of at least one. |
| JsonPath.GetAfterPut | pipelines/common/mapping.py:248-258 | Reading at or below a path just written gives the value written, or goes into it. |
| JsonPath.PutMakesObjects | pipelines/common/mapping.py:252-257 | Above the path written there is an object at every step. |
| JsonPath.PutElsewhereUnseen | pipelines/common/tds.py:199-215 | A path that is neither prefix nor extension reads as before, also where a non-object gave way. |
| JsonPath.LastPutWins | pipelines/common/mapping.py:248-258 | Of two writes to a path only the second shows. |
| JsonPath.PutsApartCommute | pipelines/common/mapping.py:248-258 | Writes to incomparable paths may be swapped. |
| JsonPath.AssembledHoldsLast | pipelines/common/mapping.py:326-357 | In a document of many writes to equal or incomparable paths, each path holds its last value. |
| JsonPath.AssembledHoldsNothingElse | pipelines/common/mapping.py:326-357 | And no path away from all of them holds anything. |
| JsonPath.ResolvePath | pipelines/common/tds.py:199-215 | The dotted-path walk is reading along the non-empty steps; only a path without the dollar is an error. |
| JsonPath.PartsOfBoth | pipelines/common/tds.py:208-214 | The steps of two paths with a dot between are those of both. |
| JsonPath.PartsOfOne | pipelines/common/tds.py:208-214 | A text without a dot is one step, or none when it is empty; with the law above this says all steps of all paths. |
| JsonPath.PartsReadBack | pipelines/common/tds.py:208-214 | So a path written from steps has just these steps. |
| JsonObjects.JsonObject.SetPath | pipelines/common/mapping.py:248-258 | On dictionaries in memory, written in place: the document becomes the one with the value put there, new dictionaries are fresh, nothing outside the document changes. |
| JsonObjects.JsonObject.IsFilled | pipelines/common/mapping.py:369-370 | Whether a path resolves to something that is neither null nor the empty string. |
| JsonObjects.Copy | pipelines/common/mapping.py:261-270 | The copy stands for the same value in dictionaries of its own. |
| Mapping.DocumentHoldsExactly | pipelines/common/mapping.py:323-360 | For pairwise incomparable target paths the document holds exactly the last value written per path, provenance included, and nothing elsewhere. |
| Mapping.ProvenanceStands | pipelines/common/mapping.py:355-357 | Whatever the rules wrote, the document has the run at the path of runId, the source key at that of sourceKey and the account key at that of dedupKey. |
| Mapping.RuleValuesStand | pipelines/common/mapping.py:326-352 | At any other target path it has what the last rule for it gives that is not an optional absence, and nothing when there is none. |
| Mapping.FirstFaultExactly | pipelines/common/mapping.py:326-346 | Mapping fails with a fault if and only if the first rule to meet one meets that: no field to read, what the transform raises, or an unknown target. |
| Mapping.FilledExactly | pipelines/common/mapping.py:365-371 | The check lets a required path pass if and only if it starts at the root and something stands there, neither null nor the empty string. |
| Mapping.MapRecord | pipelines/common/mapping.py:323-371 | A fault where the rules put it; otherwise the document assembled from all writes if and only if every required path can be resolved and is filled, refused for one that is empty, or ended by the uncaught error for one without the dollar sign. |
| Mapping.CheckRequired | pipelines/common/mapping.py:362-371 | Names a required path that is empty, or one on which resolving raises, and none when all are filled, in any order of the set. |
| Digits.ValueInvertsPrint | apps/common/src/main/java/ro/mig/common/Checksums.java:65 | Decimal printing loses nothing. |
| Digits.BothReadersReadPrinted | apps/common/src/main/java/ro/mig/common/Checksums.java:81 | Both languages' number parsers read back every printed count that fits a long. |
| Digits.LongRangeExactly | apps/common/src/main/java/ro/mig/common/Checksums.java:81 | A printed number is a long if and only if it fits 64 bits with its sign; Python reads any. |
| Digits.NumeralsExactly | pipelines/file_processor/pipeline.py:118 | A text is a number to Python if and only if it is an optional sign and digits, and to Java only then. |
| Checksums.Render | apps/common/src/main/java/ro/mig/common/Checksums.java:59-68 | The text is the three header lines and one line per entry, each ended. |
| Checksums.ManifestSays | apps/common/src/main/java/ro/mig/common/Checksums.java:59-68 | The manifest of one file, spelled out. |
| Checksums.Parse | apps/common/src/main/java/ro/mig/common/Checksums.java:70-84 | The line loop with its early exception gives the fold over the lines, a file named twice keeping its last entry. |
| Checksums.PiecesInvertUnlines | apps/common/src/main/java/ro/mig/common/Checksums.java:72 | Cutting at line ends gives back the lines written. |
| Checksums.EntryLineReadsBack | apps/common/src/main/java/ro/mig/common/Checksums.java:73-81 | A rendered entry line trims and splits back into its entry. |
| Checksums.BothReadPlainly | pipelines/file_processor/pipeline.py:110-119 | Java's and Python's line ends, trimming, spaces and number parsing both meet what the round trip needs. |
| Checksums.CharactersExactly | pipelines/file_processor/pipeline.py:110-119 | The characters each side takes for line ends and for spaces. |
| Checksums.FewFieldsExactly | apps/common/src/main/java/ro/mig/common/Checksums.java:77-80 | A line of one or two fields is an exception to Java and skipped by Python. |
| Checksums.ReadingInvertsRendering | apps/common/src/main/java/ro/mig/common/Checksums.java:59-84 | So each reader reads a rendered manifest as the map of its entries. |
| Checksums.NothingLostExactly | apps/common/src/main/java/ro/mig/common/Checksums.java:81 | Every entry is found again, and the map is as large as the list, if and only if no file name is used twice. |
| Checksums.CountRecords | apps/common/src/main/java/ro/mig/common/Checksums.java:42-57 | The byte loop counts the lines of the payload, an unended last line among them. |
| Checksums.CountingLineEndsCountsRecords | pipelines/file_processor/pipeline.py:128-132 | Counting line ends, plus one for an unended last line, is counting lines: the Python counter agrees with the Java one. |
| Checksums.WrittenLinesAreCounted | apps/common/src/main/java/ro/mig/common/Checksums.java:42-57 | A payload of lines written one by one counts as many records. |
| Checksums.Verify | apps/common/src/main/java/ro/mig/common/Checksums.java:91-116 | Each discrepancy is reported once and nothing else is; the list is empty if and only if the key sets match and every digest and count does. |
| Checksums.ProblemsByKind | apps/common/src/main/java/ro/mig/common/Checksums.java:93-114 | What is reported of a name, kind by kind; a file found is held against both digest and count. |
| Extract.Split | apps/extractor-app/src/main/java/ro/mig/extractor/ExtractorApp.java:134-169 | Order kept; every file but the last has exactly the split size (one for a size below one), the last is empty only when alone; kept lines and errors as specified line by line. |
| Extract.FilesAreFull | apps/extractor-app/src/main/java/ro/mig/extractor/ExtractorApp.java:158-166 | Every file but the last has the size asked for, or one for any size below, and only the file of an empty extract is empty. |
| Extract.ReadableExactly | apps/extractor-app/src/main/java/ro/mig/extractor/ExtractorApp.java:143-150 | A row is readable if and only if it is neither blank nor has a NUL in it. |
| Extract.ReadableBoth | apps/extractor-app/src/main/java/ro/mig/extractor/ExtractorApp.java:141-150 | Row by row and in order. |
| Extract.KeptExactly | apps/extractor-app/src/main/java/ro/mig/extractor/ExtractorApp.java:151-160 | Kept are the readable rows but for the first so many, taken as failed reads. |
| Extract.HeaderIsNoRow | apps/extractor-app/src/main/java/ro/mig/extractor/ExtractorApp.java:59-61 | The first line of an extract is its header and no row. |
| Extract.ErrorsExactly | apps/extractor-app/src/main/java/ro/mig/extractor/ExtractorApp.java:146-156 | A row is in the error list if and only if it has a NUL in it or is one of the first readable ones, with its number, its reason and its text cut to 120 characters. |
| Extract.NothingVanishes | apps/extractor-app/src/main/java/ro/mig/extractor/ExtractorApp.java:143-156 | Records written plus errors are the rows that are not blank. |
| Extract.ErrorsNameTheirRows | apps/extractor-app/src/main/java/ro/mig/extractor/ExtractorApp.java:146-154 | Every error names a row, its reason and its truncated text. |
| Extract.ErrorsAreInOrder | apps/extractor-app/src/main/java/ro/mig/extractor/ExtractorApp.java:148-153 | Errors are in row order and name no row twice. |
| Extract.FileCount | apps/extractor-app/src/main/java/ro/mig/extractor/ExtractorApp.java:158-166 | As many files as it takes, and one for an empty extract. |
| Extract.ManifestCountsRecords | apps/extractor-app/src/main/java/ro/mig/extractor/ExtractorApp.java:67-73 | The manifest's counts add up to the records written, except that an empty extract is claimed as one. |
| Extract.BundleVerifies | apps/extractor-app/src/main/java/ro/mig/extractor/ExtractorApp.java:67-78 | The .DAT payloads of a bundle pass verification against their own rendered manifest, whichever side reads it. |
| Extract.Run | apps/extractor-app/src/main/java/ro/mig/extractor/ExtractorApp.java:52-73 | The whole extraction: conservation, manifest counts and intact bundle for every input. |
| Extract.LinesArriveExactly | pipelines/file_processor/pipeline.py:210-213 | For all lines: downstream reads back the lines themselves if and only if each is free of Python line ends and neither blank to Python nor a header. |
| Names.Sort | pipelines/file_processor/pipeline.py:209 | The names in the order Python sorts strings in. |
| Names.SortedIsUnique | pipelines/file_processor/pipeline.py:209 | A set of names has one sorted order. |
| Names.NamesDiffer | apps/common/src/main/java/ro/mig/common/Artefacts.java:96-101 | Different sequence numbers give different names, also where the number does not fit the width. |
| Names.NamesSay | contracts/artefacts.json:16-30 | The names of the first and the forty-second file, spelled out. |
| Names.SequenceIsSortedExactly | contracts/artefacts.json:16-30 | The data files sort in their sequence if and only if there are fewer than a thousand of them. |
| BundleRead.BundleMembers | apps/extractor-app/src/main/java/ro/mig/extractor/ExtractorApp.java:67-82 | In the bundle with its error list, manifest and report, the members with the data ending are exactly the sequenced files, each under its number. |
| BundleRead.BundleIsTrusted | pipelines/file_processor/pipeline.py:181-196 | The extractor's bundle passes the file processor's checks against the manifest found in it, and that manifest lists exactly the data files. |
| BundleRead.DistrustedExactly | pipelines/file_processor/pipeline.py:181-196 | A bundle is refused if and only if some listed file is absent, changed, or of another length than listed. |
| BundleRead.OnlyOtherMembersUnlisted | apps/common/src/main/java/ro/mig/common/Checksums.java:91-116 | Held against the whole bundle, Java's verification would report the error list, the manifest and the report as not listed, and nothing else. |
| BundleRead.ReadBundle | pipelines/file_processor/pipeline.py:209-214 | The reading loop yields the records of the data files in the order of their sorted names, each with its file's name, and counts them. |
| BundleRead.RecordsNameTheirFile | pipelines/file_processor/pipeline.py:209-214 | The records that name a file are exactly what that file yields, in order. |
| BundleRead.LinesAreReadInOrder | pipelines/file_processor/pipeline.py:209-214 | Their lines are those of the files one after the other. |
| BundleRead.OrderIsImmaterial | pipelines/file_processor/pipeline.py:209-214 | In whatever order the files are gone through, the same records come out of them, as many of each. |
| BundleRead.BundleReadsBack | pipelines/file_processor/pipeline.py:209-214 | However the extract was split, downstream reads what its lines yield one by one, as many of each and so the same src_read; in their order when there are fewer than a thousand files. |
| BundleRead.SourceReadIsReported | pipelines/file_processor/pipeline.py:210-213 | The records read are the records reported, as many of each, if and only if no line is broken up downstream and each is a record there; where no line is broken up, src_read never exceeds the number reported and equals it under the same condition. |
| BundleRead.OrderIsKeptExactly | pipelines/file_processor/pipeline.py:209 | For files whose records tell them apart, the extract comes out in its order if and only if there are fewer than a thousand. |
| BundleRead.ThousandFilesLoseTheirOrder | pipelines/file_processor/pipeline.py:209 | A thousand one-line files are read with their lines out of order, and with none missing. |
| Extract.TornLineIsReadTwice | pipelines/file_processor/pipeline.py:210-213 | A line with one of the other separators inside is reported once and read twice. |
| Extract.NoBreakSpaceIsNotRead | apps/extractor-app/src/main/java/ro/mig/extractor/ExtractorApp.java:143-145 | A line of no-break spaces is reported and never read. |
| Money.CentsAreReadExactly | pipelines/common/tds.py:241-248 | An amount to the cent is read as itself, or crashes uncaught, exactly by whether it fits 28 digits. |
| Money.BalanceReadsBack | harness/generate.py:79-82 | The formatted balance is read as the same amount, sign and all. |
| Money.BalanceRoundTrip | pipelines/common/mapping.py:48-58 | From source cents through the parser to the target: the canonical text of the same amount, for every amount of up to 26 integer digits. |
| Money.CanonicalMeansItsAmount | pipelines/common/mapping.py:58 | Canonical texts stand for their amounts, and different amounts have different texts. |
| Money.RoundsToNearest | pipelines/common/tds.py:248 | Half-even rounding is never off by more than half a unit. |
| Rows.Parse | pipelines/common/tds.py:319-362 | For the delimited layout, the field loop stops at the first field that cannot be read and otherwise holds one value per field. |
| Rows.ChompTakesOffLineEnds | pipelines/common/tds.py:359 | All line ends behind a row come off, and nothing else. |
| Rows.AccountRowSays | harness/generate.py:96-108 | In the record of an account row every field has its own cell's text, under the name the layout gives it. |
| Rows.FieldByField | pipelines/common/tds.py:336-353 | A record comes out if and only if every field can be read, and holds what each reads. |
| Rows.FieldFaultExactly | pipelines/common/tds.py:326-353 | Why a field cannot be read: no such column, nothing where something is required, a value of another kind, or the uncaught quantize. |
| Rows.FirstFaultExactly | pipelines/common/tds.py:326-353 | The record's fault is that of its first field that has one. |
| Rows.TrimTakesOffSpaces | pipelines/common/tds.py:223-226 | Stripping removes spaces at both ends and stops at the first other character. |
| Rows.StringArrivesRawExactly | pipelines/common/tds.py:223-229 | A string cell arrives as it is if and only if it is not empty and neither begins nor ends in a space. |
| Rows.RowReadsBack | harness/generate.py:96-108 | A row without delimiter or newline in its cells parses back cell by cell, stripped, empty becoming absent. |
| Rows.AccountBalanceArrives | harness/generate.py:96-108 | Whatever else is in the row, its balance reaches the target as the canonical text of the source's amount. |
| Rows.AccountRowIsReadExactly | pipelines/common/tds.py:319-355 | The account rows refused are exactly those with a blank cell or an unreadable date. |
| Rows.RowIsHeaderExactly | pipelines/common/tds.py:283-292 | A data row is taken for the header exactly when its cells are the column names. |
| TargetSystem.TargetSystemMock.SuppressNext | apps/target-system-mock/src/main/java/ro/mig/vault/TargetSystemMock.java:475-480 | The admin call arms the one-shot suppression and touches nothing else. |
| LoadProtocol.BeginKeepsInv | apps/target-system-mock/src/main/java/ro/mig/vault/TargetSystemMock.java:370-393 | Taking up a screened document keeps the service invariant. |
| LoadDelivery.AnnouncingFinishes | apps/target-system-mock/src/main/java/ro/mig/vault/TargetSystemMock.java:285-311 | A thread about to announce ends with its event appended, or suppressed, or lost, and the maps untouched. |
| Settlement.Restrict | apps/loader-app/src/main/java/ro/mig/loader/LoaderApp.java:378-403 | The key sets after the edits are the three fates among the published keys, and what is left over is the unsettled count. |
| Loader.HttpSink.Offer | apps/loader-app/src/main/java/ro/mig/loader/LoaderApp.java:441-447 | A document without identity is refused before anything is sent; any other is sent under its key as above. |
| Recon.ReadTargetKeys | apps/recon-service/src/main/java/ro/mig/recon/ReconService.java:439-446 | The loop drops null and blank keys and keeps the order. |
| Recon.ReadPortion | apps/recon-service/src/main/java/ro/mig/recon/ReconService.java:483-490 | One partition's share of a poll moves that position by its size, up to the end of the log, and collects exactly its keyed events of the run. |
| Scheduler.ByName | local/scripts/run_dataform.py:90 | The graph has exactly the names of the actions given, each under its own name; which action stands under it is the matter of CurrentExactly. |
| Lane.ParseRejectsSurvive | pipelines/json_producer/pipeline.py:155-159 | Parse-stage rejects and lineage outlive every JSON-producer attempt, whose purge spares them. |
| Lane.ProducedSurvives | pipelines/json_producer/pipeline.py:143-199 | What the last complete production wrote stands at the end, in each slice it purged. |
| Warehouse.Warehouse.RunJob | pipelines/file_processor/pipeline.py:349-424 | Purges then writes, one budget unit each, stopping exactly where the budget ends; the tables are those of the attempt recorded. |
| Warehouse.ParseLines | pipelines/file_processor/pipeline.py:239-280 | The per-line counters and the rows for the three tables, all of the run and of the parse stage. |
| Warehouse.MapRows | pipelines/json_producer/pipeline.py:77-118 | The rows for the three tables, all of the run and of a downstream stage. |
| Batching.GroupRows | pipelines/json_producer/pipeline.py:245-252 | The loop with its open batch emits the maximal stretches of equal ids and the tally of each. |
| Batching.CheckBatches | pipelines/json_producer/pipeline.py:260-282 | The three checks in their order: each failure exactly when its check is the first that does not hold, success exactly when all hold. |
| Batching.ShortBatches | pipelines/json_producer/pipeline.py:261-263 | Some batch other than the greatest-id one is not full. |
| RunBatches.Stream | pipelines/common/engine.py:177-216 | The cut of the records into stretches that each end with their size-th document, and what trails. |
| RunBatches.Take | pipelines/common/engine.py:197-206 | One record routed, counted and kept; a document is added at most once. |
| JsonObjects.JsonObject.Assign | pipelines/common/mapping.py:256-258 | Setting one key changes that key only and takes over the value's dictionaries. |
| JsonObjects.JsonObject.Descend | pipelines/common/mapping.py:252-257 | After one step down there is a dictionary there, the one that was or a new one in place of anything else. |
| Mapping.ApplyRules | pipelines/common/mapping.py:326-352 | The rule loop writes what the rules yield in order, and stops at the first fault. |
| Mapping.AddProvenance | pipelines/common/mapping.py:355-357 | The three provenance writes follow the rules' writes. |
| Checksums.PiecesAcrossLineEnd | pipelines/file_processor/pipeline.py:210 | A line end cuts a text into two that are read apart. |
| Extract.Package | apps/extractor-app/src/main/java/ro/mig/extractor/ExtractorApp.java:64-73 | The bundle and the entries for the files, the counts taken from the payloads themselves. |
| Extract.BundleMatchesEntries | apps/extractor-app/src/main/java/ro/mig/extractor/ExtractorApp.java:67-73 | Entries and payloads agree file by file, also when a name is used twice. |
| Money.PlainDecimalReads | pipelines/common/tds.py:243 | A sign, digits, a point and digits are read as their value at as many places as follow the point. |
| Money.SignsExactly | pipelines/common/tds.py:243 | A sign is taken off, once. |
| Money.NumeralsExactly | pipelines/common/tds.py:243 | An integer has no places; a point may lead or trail, but there must be a digit. |
| Money.OnePointAtMost | pipelines/common/tds.py:243 | A second point makes it no number. |
| Money.QuantizeExactly | pipelines/common/tds.py:248 | Quantizing appends zeros or rounds half to even at the place asked for, and fails if and only if more than twenty-eight digits would be needed. |
| Money.ScaleZeroIsNotQuantized | pipelines/common/tds.py:248 | At scale zero a cell keeps the places it has. |
| Money.SmallDecimalSays | pipelines/common/mapping.py:58 | Where the text of a decimal turns to an exponent, and where it does not yet. |
| Money.CentsText | pipelines/common/mapping.py:58 | The text of a two-place decimal has at least one digit before the point and two after. |
| Money.BalanceSays | harness/generate.py:79-82 | The formatted balance: sign, at least eleven digits filled up with zeros, point, two digits. |
| Text.SplitInvertsJoin | harness/generate.py:96-108 | Pieces free of the separator come back from their joining. |
| Text.SplitBoth | pipelines/common/tds.py:324 | A separator keeps the pieces of two texts apart, whatever they are. |
| Text.BlankExactly | apps/extractor-app/src/main/java/ro/mig/extractor/ExtractorApp.java:143 | Blank is made of the twenty-five characters Java takes for whitespace, and of nothing else. |

## Left out

- Kafka, Cloud Storage, BigQuery, HTTP, PGP, tar and token code: topics are append-only sequences with read positions, tables sequences of rows compared as multisets, and the network a choice of lost, answered or interrupted requests.
- SHA-256, JSON parsing, JSON Schema validation and the individual transforms other than `to_decimal`: parameters of the models; no property of them is needed.
- Clocks, backoff durations and jitter: a deadline is the end of the polls handed over.
- Beam internals: a ParDo is a map over the rows; rows reach their tables in batches of any sizes, the order between tables arbitrary, while those for one table keep theirs in `Warehouse` and need not in `Lane`.
- The Dataform models and the enrichment join: one row in, one row out (`enrich`); the curated table, which is rebuilt whole, is not among the tables whose other runs are untouched.
- BigQuery's refusal to delete buffered rows, load quotas and `min_load_rows`: a delete succeeds.
- `handleReset` and the loss of the service's process: a reset starts a new epoch, and a restarted consumer finds its maps.
- The service without a producer (no bootstrap), and a message without a body, which the parser does not accept as text at all.
- The wording of failure messages behind their first words, which carry no decision.
- GET, stats and health endpoints, the Retry-After header, the lane and run prefixes of artefact names, reports, command lines.
- The orphan-key query and the other SQL counts of reconciliation: numbers in `Evidence`.
- The date and int branches of `_coerce`, the fixed-width and JSON layouts: a reader given to the field type; numerals with exponents, underscores, infinities or NaN, which `Decimal` accepts, are not among those `PlainDecimal` reads.
- Characters beyond the basic plane and non-ASCII digits, which both number parsers also accept.
- Python's recursion limit in `order_actions`.
- LostSends.LostSendIsHiddenExactly: for runs whose only intake is the consumer; with HTTP threads beside it `SpokenWasSent` and `UnsentKeyIsUnsettled` hold, which say that only something sent can hide a loss.
- LostSends.LoadCanSettleExactly: likewise, and so `RejectionComesExactly`.
- LoadSerial.SomeSerialOrder: the order need not respect real time; a document that came late to its key stands at its end.
- LoadRefinement.RunMatchesPass: for runs whose only intake is the consumer, as a POST is not on the log that the pass is over.
- Rows.Parse: the delimited layout only, with the date and int readers as parameters.
- TargetSystem.TargetSystemMock.ConsumeLoop: one partition; with several, the order between keys of different partitions is not fixed, and the loader keys its messages so that one key stays in one partition.
- Agreement.CleanLoadReconciles: the partitions cover the confirmations up to the end offsets; that the broker serves what it has acknowledged is assumed.
- JsonObjects.JsonObject.SetPath: the loop that walks down is written as recursion, one dictionary per call; an empty path, on which the code fails, is required away as the mappings never have one.
- Extract.BundleVerifies: file names and digests without spaces or control characters, the digest not beginning with the comment sign, and a run id without line ends; the same for `BundleIsTrusted`.
