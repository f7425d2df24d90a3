# Verified model of the Canonical API server

This project models the parts of the Canonical API server that keep durable or shared state
under concurrency, and the hand-written encodings they rest on, and proves what they promise
over every input, every run or every reachable state. `dafny verify dfyconfig.toml` checks it.

* **Quote protocol** (`Quote*.dfy`). Create calls, retry calls and background workers interleave
  statement by statement over the quote, operation and event tables. A worker's status write has
  no guard on the old status; the status graph is safe because of an argument about the whole
  protocol, which is what `QuoteInvariant` carries. The advisory lock of a (subject, key) pair and
  the row lock of a quote are abstract mutexes, reads see committed rows at the time of the
  statement, writes of an open transaction appear at commit, and any process may stop anywhere.
  `QuoteProgress` shows that the locks cannot deadlock and that every state can run to rest;
  `QuoteSettlement` shows exactly which unfinished quotes can still be finished: those a process
  attends. A create that commits and then crashes strands its quote for good. `QuoteSerial` shows
  that every interleaving has the tables and answers of a serial run, and `QuoteContexts` that the
  context a create stores was active at some moment of the call. `QuoteOutcomes` says what each
  transaction answers and stores, `QuoteResults` that a quote shows what its worker wrote.
  `QuoteStore` is the same three transactions as methods that update tables in place.
* **Observation ledger** (`Observation*.dfy`, `EventValidation.dfy`). Hash-chained streams under
  interleaved deliveries, the memory store with its three collections, and event validation.
  `ObservationProgress` shows that deliveries wait only for their own stream and can all finish.
  The memory store gives a receipt's time back as the server formatted it; the database casts it
  to microseconds and prints six fraction digits (`Timestamps.dfy`).
* **Admission** (`Admission*.dfy`). The sliding windows; samples may arrive in any order because
  the clock is read before the mutex is taken.
* **Telemetry** (`Telemetry*.dfy`). Emitters, initialisations and guard drops as program counters;
  `TelemetryLifecycle` shows that every logger is closed once and none is leaked.
* **Registrations** (`Registration*.dfy`, `WebsitePrinting.dfy`, `Rfc3339.dfy`,
  `Fingerprint.dfy`). Validation, the timestamp scanner and the keyed fingerprint;
  `RegistrationGrammar` says what each field check accepts in terms of characters.
* **Listing** (`Pagination.dfy`, `QuoteListing.dfy`, `TimestampOrder.dfy`). Cursor pagination for
  any order, and the two orders in use: the database compares whole microseconds, the in-memory
  branch compares RFC 3339 texts.
* **Assessments, breaker, shutdown** (`Assessment*.dfy`, `Breaker.dfy`, `Shutdown.dfy`).

Conventions. SHA-256, HMAC, URL parsing and calendar parsing are function parameters; a theorem
that would need collision freedom concludes instead with an explicit collision. Clocks, fresh
identifiers and what the network returns are parameters of each step. Integers are unbounded
except where a width matters (`checked_add` on 64-bit sequences, saturating 32-bit counters, byte
arithmetic of the scanner). Text is a sequence of Unicode scalar values; `Utf8Text` gives its bytes
where the code counts or hashes bytes.

Where a property does not hold for every input, the model states exactly where it does.

* The quotas hold at a call's own clock sample for every history exactly when the call is not
  overtaken by a later sample, or the clock is still in its first ten minutes (`AdmissionOrder`).
* A database replay repeats the time text of the acceptance exactly when that text has six
  fraction digits (`ReplayTextExactly`).
* The two listings agree exactly when no two of the subject's records are swapped
  (`PagesAgreeExactly`). Two records in different microseconds are swapped when one trimmed
  fraction is a proper prefix of the other within a second, as .1 is of .12; two records in one
  microsecond are a tie to the database, and swapped when the ids there go against the texts.
  Equal fraction widths rule out the first way and not the second.
* Resubmitting an accepted registration is the identity exactly when its printed website URL has
  at most 2048 bytes (`ResubmissionIsIdentity`); a path of accented letters grows threefold when
  it is percent-encoded (`WebsitePrinting`).
* An unfinished quote can be finished exactly while a process attends it (`FinishableExactly`).

## Model

| member | source | states |
|---|---|---|
| QuoteTables.FindOperationSpec | src/persistence.rs:519-544 | the operation found for (owner, key) is a row of that pair, and nothing is found only when no row has it |
| QuoteStore.Store.InsertEvent | src/persistence.rs:579-616 | appends one event with the next identity value |
| QuoteStore.Store.CreateQuote | src/persistence.rs:63-162 | the create transaction run alone: new tables and outcome equal `CreateTx`; every other outcome leaves the tables unchanged |
| QuoteStore.Store.RetryQuote | src/persistence.rs:164-234 | the retry transaction run alone equals `RetryTx`; every refusal leaves the tables unchanged |
| QuoteStore.Store.UpdateQuote | src/persistence.rs:329-363 | the unguarded status write run alone equals `UpdateTx`; it fails only for a quote the owner does not have |
| QuoteStore.Store.GetQuote | src/persistence.rs:618-627 | finds a quote exactly when the owner has it |
| QuoteOutcomes.KeyOfCreate | src/persistence.rs:75-83 | after a create, a second create with its key gets its quote when the requests are equal and a key-reuse error otherwise, a retry with that key is refused, and neither changes a table |
| QuoteOutcomes.KeyOfRetry | src/persistence.rs:173-181 | after a retry, a second retry with its key gets its quote when it names the same one and a key-reuse error otherwise, a create with that key is refused, and neither changes a table |
| QuoteInvariant.StepInv | src/persistence.rs:63-363 | every statement, commit, crash, arrival and context edit keeps the protocol invariant |
| QuoteInvariant.RunInv | src/persistence.rs:63-363 | so does every run |
| QuoteInvariant.ReachableInv | src/persistence.rs:63-363 | it holds in every reachable state |
| QuoteTheorems.OneWriterPerQuote | src/lib.rs:881-946 | in every interleaving at most one process still has status writes to make to a quote, and then the quote is queued or analyzing |
| QuoteTheorems.StatusChangesFollowTheGraph | src/persistence.rs:329-363 | every committed status change is queued to analyzing, analyzing to completed or failed, or failed to queued, and new rows are queued |
| QuoteTheorems.QuoteRowStep | src/persistence.rs:183-216 | one step changes a row only along the graph and never its owner, request or context snapshot |
| QuoteTheorems.HistoryIsAPath | src/persistence.rs:183-216 | the statuses a quote has held form a path from queued that ends at the stored status; analysis and error are present exactly in completed and failed |
| QuoteTheorems.LatestEventSpec | src/persistence.rs:365-395 | the latest event is the one with the greatest sequence of that quote and owner, and none exists only when there is no event |
| QuoteTheorems.EventLogIsTheStatusHistory | src/persistence.rs:579-616 | in every reachable state the event log of a quote is its status history in sequence order, and the latest event agrees with the row |
| QuoteTheorems.OneOperationPerKey | src/persistence.rs:546-577 | each (subject, key) has at most one operation row |
| QuoteTheorems.EffectsHappenOncePerKey | src/persistence.rs:63-234 | of all calls with one (subject, key) at most one had an effect, and replays return its quote |
| QuoteTheorems.LateCallIsSettled | src/persistence.rs:75-83 | a call arriving after the key was used is bound to the recorded row |
| QuoteTheorems.ReplayIsReadOnly | src/persistence.rs:173-181 | through every further interleaving such a call writes no table and no event, spawns no worker, and answers with the recorded quote when it is the same kind of call with an equal request, or an equal quote for a retry, and with a key-reuse error otherwise |
| QuoteTheorems.RepliesCompareRequests | src/persistence.rs:75-181 | of two calls with one key, the first of which had an effect, the other reports that quote only if it asks for the same thing, and a key-reuse error only if it does not |
| QuoteTheorems.CallCommitIsSerial | src/persistence.rs:63-234 | at its commit an interleaved create or retry does exactly what it would do run alone on the committed tables |
| QuoteTheorems.WorkCommitIsSerial | src/persistence.rs:329-363 | the same for a worker's write |
| QuoteSerial.AnswerIsSerial | src/persistence.rs:75-234 | a call answered without a commit, by replay or refusal, is answered as it would be run alone on the tables of that moment |
| QuoteSerial.StepIsSerial | src/persistence.rs:63-363 | every step completes at most one transaction, and does to the tables what that transaction does run alone |
| QuoteSerial.EveryRunIsSerial | src/persistence.rs:63-363 | every interleaving, crashes included, ends in the tables of the serial run of its transactions in commit and answer order, with the same outcomes |
| QuoteSerial.AnswersAreLogged | src/persistence.rs:63-234 | every answer given is the outcome of a transaction of that serial run |
| QuoteTheorems.PrimaryKeysNeverCollide | src/persistence.rs:498-577 | inside its writes a call is the only one with its key and its fresh id, and neither is in the tables |
| QuoteTheorems.SnapshotsAreImmutable | src/persistence.rs:94-144 | no run changes a quote's owner, request or context, and each worker analyses the stored context |
| QuoteResults.WorkCommitStores | src/persistence.rs:329-363 | in every interleaving the commit of a result stores the very analysis or code the worker wrote, on a quote that was queued or analyzing |
| QuoteResults.CompletedIsFinal | src/persistence.rs:183-190 | a completed quote keeps its row, and so its analysis, through every later run |
| QuoteResults.FailedUntilRetried | src/persistence.rs:183-216 | a failed quote keeps its row, and so its code, until a retry of it commits |
| QuoteResults.ResultWasWritten | src/lib.rs:915-932 | in every run each analysis or code a quote holds was written by a worker of that quote, as it stands |
| QuoteContexts.CreatedContextWasActive | src/persistence.rs:85-105 | the context a create reports and stores was its owner's active one at a moment between its arrival and its answer |
| QuoteContexts.ActiveIsLatestEdit | src/persistence.rs:85-105 | through every run the active context of an owner is what its latest edit left |
| QuoteProgress.NoDeadlock | src/persistence.rs:498-511 | in every state with a process some process can take its next step without a crash |
| QuoteProgress.BlockedExactly | src/persistence.rs:498-511 | a process cannot step exactly while another call with its very owner and key is past its lock, or another process has a write to its very quote under way |
| QuoteProgress.StepIsCloser | src/lib.rs:881-946 | a process's own step lowers the number of steps it has left or ends it, and touches no other process |
| QuoteProgress.CanComeToRest | src/lib.rs:629-946 | from every state all running calls and workers can finish, in a bounded number of their own steps |
| QuoteProgress.RestIsInevitable | src/lib.rs:629-946 | without new calls and crashes every schedule has at most sixteen steps for each process, and where no process can step none is left |
| QuoteSettlement.AttendedStep | src/lib.rs:881-946 | a step other than a crash never leaves a queued or analyzing quote without a process |
| QuoteSettlement.UnfinishedIsAttended | src/lib.rs:881-946 | after every crash-free run each queued or analyzing quote has the process that will write its next status |
| QuoteSettlement.CrashFreeRunsSettle | src/lib.rs:629-946 | after every crash-free run the system can come to rest, with every quote completed or failed |
| QuoteSettlement.StrandedForever | src/persistence.rs:183-190 | a queued or analyzing quote that no process attends keeps its row through every later run, since retry accepts failed quotes only |
| QuoteSettlement.FinishableExactly | src/lib.rs:881-946 | in every reachable state an unfinished quote can be finished by some run exactly when a process attends it |
| QuoteSettlement.RestLeavesOnlyStranded | src/lib.rs:629-946 | every reachable state, whatever crashed before, can run to rest, and what is then unfinished is exactly what was stranded |
| QuoteSettlement.CrashStrands | src/lib.rs:629-740 | in every state where a create call can start, its commit followed by a crash strands its quote |
| QuoteSettlement.StrandedIsReachable | src/lib.rs:629-740 | a stranded quote is reachable |
| Text.DecimalRoundTrip | src/readiness_observation_ingest.rs:876-876 | decimal text of a sequence number is digits and reads back as the number |
| Text.NibbleRoundTrip | src/readiness_observation_ingest.rs:824-830 | hex digits and nibbles name each other, and only lower-case digits decode |
| Text.HexLowerLoop | src/readiness_observation_ingest.rs:886-895 | the loop writes the two digits of each byte in order |
| Text.HexInjective | src/readiness_observation_ingest.rs:886-895 | different bytes have different hex text |
| Text.DecodeDigits | src/readiness_observation_ingest.rs:814-820 | the nibble loop returns the bytes whose hex the 64 digits are, and fails only when there are none |
| Text.ParseSignature | src/readiness_observation_ingest.rs:809-822 | accepts exactly `v1=` followed by the lower-case hex of 32 bytes, and returns those bytes |
| Utf8Text.Utf8Injective | src/pre_interest.rs:595-598 | different texts have different bytes |
| ObservationLedger.AppendKeepsLedger | src/readiness_observation_ingest.rs:640-770 | appending the next record keeps every stream a chain |
| ObservationLedger.IngestKeepsLedger | src/readiness_observation_ingest.rs:615-773 | every delivery run alone keeps every stream a chain |
| ObservationTheorems.IngestRecorded | src/readiness_observation_ingest.rs:640-678 | a recorded event is answered Duplicate with its receipt exactly when payload and sequence agree, and EventConflict otherwise; nothing is written |
| ObservationTheorems.IngestNew | src/readiness_observation_ingest.rs:679-770 | a new event is recorded exactly when its sequence is one more than the records of its stream and fits 64 bits, with the head as its prior digest; every other is SequenceConflict |
| ObservationTheorems.IngestBounded | src/readiness_observation_ingest.rs:201-203 | a bound on the records changes one thing: what would be recorded in a full store is refused as unavailable |
| ObservationChain.HeadIsValid | src/readiness_observation_ingest.rs:848-884 | every head digest is `sha256:` and 64 lower-case hex digits |
| ObservationTheorems.HeadSpelledOut | src/readiness_observation_ingest.rs:697-718 | the head of an empty stream is `sha256:` and 64 zeros, and of any other the digest of its last record |
| ObservationChain.PreimageInjective | src/readiness_observation_ingest.rs:870-884 | the newline-joined text determines prior digest, payload digest, event id and sequence |
| ObservationChain.EqualHeadsAgree | src/readiness_observation_ingest.rs:870-884 | equal heads: the last records agree in all the digest covers, or their preimages collide |
| ObservationChain.HeadCommitsToHistory | src/readiness_observation_ingest.rs:697-718 | two streams with equal heads have the same ordered (event id, payload digest) list, or a collision is exhibited |
| ObservationChain.HistoryDeterminesHead | src/readiness_observation_ingest.rs:697-718 | equal histories have equal heads |
| ObservationProtocol.InsertCannotFail | src/readiness_observation_ingest.rs:720-766 | a record built from a current lookup, cursor and fresh receipt violates none of the three uniqueness constraints |
| ObservationProtocol.StepInv | src/readiness_observation_ingest.rs:615-773 | every statement, commit and crash of interleaved deliveries keeps the ledger invariant |
| ObservationProtocol.RunInv | src/readiness_observation_ingest.rs:615-773 | so does every run |
| ObservationProtocol.ReachableInv | src/readiness_observation_ingest.rs:615-773 | it holds in every reachable state |
| ObservationTheorems.StreamsAreChains | src/readiness_observation_ingest.rs:679-718 | every reachable stream has sequences 1..n, distinct event ids, and each prior digest is the preceding record's (the zero digest first) |
| ObservationTheorems.ConstraintsNeverFire | src/readiness_observation_ingest.rs:720-766 | no insert of an interleaved delivery meets a primary key, sequence or receipt constraint, against committed rows or rows of other open transactions |
| ObservationTheorems.ReceiptsAreStable | src/readiness_observation_ingest.rs:640-678 | an event id of a stream is accepted at most once; every exact replay gets the receipt id of the acceptance and one and the same stored form of its time; a conflict has other content |
| ObservationTheorems.ReplayTextExactly | src/readiness_observation_ingest.rs:644-671 | a database replay repeats the time text of the acceptance exactly when that text has six fraction digits |
| ObservationTheorems.WholeSecondIsReprinted | src/readiness_observation_ingest.rs:644-671 | an acceptance on a whole second is replayed with six zeros |
| ObservationTheorems.LateDeliveryIsSettled | src/readiness_observation_ingest.rs:640-678 | a delivery that arrives once its event is recorded is bound to that record |
| ObservationTheorems.LateDeliveryIsReadOnly | src/readiness_observation_ingest.rs:640-678 | through every further interleaving it writes nothing and is answered Duplicate exactly when payload and sequence match, EventConflict otherwise |
| ObservationTheorems.AnswerIsSerial | src/readiness_observation_ingest.rs:615-773 | every interleaved delivery is answered, and leaves the table, as it would run alone at that moment |
| ObservationTheorems.EveryRunIsSerial | src/readiness_observation_ingest.rs:615-773 | every interleaving, crashes included, has the table and answers of a serial run in answer order |
| ObservationProgress.BlockedExactly | src/readiness_observation_ingest.rs:626-639 | a delivery cannot step exactly while it is at its start and another delivery to its very stream is past the lock |
| ObservationProgress.NoDeadlock | src/readiness_observation_ingest.rs:626-639 | in every state with a delivery under way one of them can take its next step |
| ObservationProgress.StepsAreBounded | src/readiness_observation_ingest.rs:615-773 | in every schedule, crashes and arrivals included, a delivery takes at most five steps |
| ObservationProgress.CrashFrees | src/readiness_observation_ingest.rs:626-639 | a delivery that dies leaves the table and all answers as they were and frees its stream |
| ObservationProgress.CanFinish | src/readiness_observation_ingest.rs:615-773 | a delivery that is not blocked can finish in its own steps alone, answered as it would be alone |
| ObservationProgress.CanComeToRest | src/readiness_observation_ingest.rs:615-773 | from every reachable state all deliveries under way can finish, each with an answer, in at most five steps apiece |
| Timestamps.PrintedBackExactly | src/readiness_observation_ingest.rs:644-671 | for any rounding that keeps whole microseconds, the printed text equals the formatted one exactly for six fraction digits |
| TimestampOrder.SecondsReadBack | src/contract.rs:167-174 | the printed date and time read back, field by field, as the fourteen digits of the clock |
| TimestampOrder.FractionReadsBack | src/contract.rs:167-174 | the printed fraction, filled up with zeros to nine digits, reads back as the nanoseconds |
| ObservationTheorems.ReachableHeadsCommit | src/readiness_observation_ingest.rs:697-718 | the head of any reachable stream commits to its history, also across two servers |
| ObservationMemory.MemoryStore.constructor | src/readiness_observation_ingest.rs:284-289 | the store starts empty |
| ObservationMemory.MemoryStore.Store | src/readiness_observation_ingest.rs:159-233 | the in-place store answers and ends as `StoreMemory` with the 10,000-record bound |
| ObservationMemory.StoreAgrees | src/readiness_observation_ingest.rs:159-233 | one delivery: the three collections answer as a scan of the ledger and keep representing it |
| ObservationMemory.MemoryAgreesWithLedger | src/readiness_observation_ingest.rs:159-233 | on every request sequence the memory store answers as the bounded ledger scan |
| ObservationMemory.BoundIsInvisibleUntilFull | src/readiness_observation_ingest.rs:201-203 | the bound changes nothing while the unbounded ledger stays within it |
| ObservationMemory.StoresAgreeFrom | src/readiness_observation_ingest.rs:644-671 | two stores with one hash keep the same rows and answer alike up to the time text of replays |
| ObservationMemory.MemoryAgreesWithDatabaseUntilFull | src/readiness_observation_ingest.rs:159-233 | until the capacity is exceeded memory and database give the same kind of outcome and receipt id on every request sequence, and equal answers exactly when every replayed record was accepted at a time with six fraction digits |
| ObservationMemory.ReplayReturnsOriginalReceipt | src/readiness_observation_ingest.rs:175-189 | an exact replay returns the original receipt after any further deliveries, full or not |
| ObservationMemory.CursorsSumToEvents | src/readiness_observation_ingest.rs:205-227 | in every reachable store the cursor sequences sum to the number of stored events, within the capacity |
| EventValidation.ValidateEvidence | src/readiness_observation_ingest.rs:539-566 | accepts exactly when the ids are distinct and every item is valid, and then the set holds exactly the ids |
| EventValidation.ValidateReferences | src/readiness_observation_ingest.rs:584-591 | accepts exactly when the references are distinct and all name evidence of the event |
| EventValidation.ValidateAssertions | src/readiness_observation_ingest.rs:568-592 | accepts exactly when the (framework, control) pairs are distinct and every assertion and reference is valid |
| EventValidation.ValidateEvent | src/readiness_observation_ingest.rs:521-594 | accepts exactly the valid events |
| EventValidation.ValidEventExactly | src/readiness_observation_ingest.rs:94-140 | validity in terms of lengths, counts, digests and times alone: which events are accepted |
| EventValidation.ValidEventIsAdmissible | src/readiness_observation_ingest.rs:94-140 | a validated event is what the ledger theorems ask of a delivery |
| Admission.DiscardLoop | src/lib.rs:426-432 | pops expired timestamps from the front only |
| Admission.QuoteAdmission.constructor | src/lib.rs:358-366 | the windows start empty |
| Admission.QuoteAdmission.OldestSubject | src/lib.rs:401-405 | a tracked subject with the least first timestamp |
| Admission.QuoteAdmission.CheckSubmission | src/lib.rs:377-423 | the in-place windows end and answer as `Check`; an evicted subject would be the oldest |
| AdmissionTheorems.RunAccounts | src/lib.rs:377-432 | for any order of samples the windows are accounted for by the log of accepted calls |
| AdmissionTheorems.EvictionIsNeverReached | src/lib.rs:384-422 | for any order of samples every timestamp held per subject is still held globally, no subject window is empty, tracked subjects never exceed the global count, and the eviction branch is not taken |
| AdmissionTheorems.QuotasHold | src/lib.rs:390-418 | after any run at most 500 accepted calls overall and 5 per subject lie within the window before the greatest sample |
| AdmissionTheorems.QuotasHoldInOrder | src/lib.rs:390-418 | with non-decreasing samples the quotas hold at every call |
| AdmissionTheorems.AdmittedByCounting | src/lib.rs:377-423 | with non-decreasing samples a call is admitted exactly when fewer than 500 admitted calls, and fewer than 5 of its subject, lie in the ten minutes before it |
| AdmissionTheorems.RejectionConsumesNothing | src/lib.rs:390-418 | a rejected call does not change the outcome of a next call whose sample is not earlier |
| AdmissionTheorems.RejectionNeverCosts | src/lib.rs:390-418 | for any order of samples a rejected call never costs a later one its admission |
| AdmissionTheorems.HintSpec | src/lib.rs:434-439 | the hint lies in 1..601, is 601 for a timestamp of the present or later and 1 for an expired window; between them it reaches past the expiry of the earliest timestamp and is at most a second late |
| AdmissionTheorems.RejectionsOnlySweep | src/lib.rs:384-418 | a run of rejections leaves what one sweep would leave |
| AdmissionTheorems.HintIsSufficient | src/lib.rs:390-439 | with non-decreasing samples a caller that waits the hint, with only rejections in between, passes the gate that refused it |
| AdmissionOrder.QuotasHoldUnlessOvertaken | src/lib.rs:377-423 | both quotas hold in the window that ends at the sample of a call that is not overtaken |
| AdmissionOrder.QuotasHoldAtTheStart | src/lib.rs:377-423 | both hold for any order of samples while nothing can have expired |
| AdmissionOrder.SubjectQuotaFails | src/lib.rs:378-388 | for every overtaken sample past the first ten minutes some history admits a sixth call of one subject inside its window |
| AdmissionOrder.GlobalQuotaFails | src/lib.rs:378-388 | and some history a 501st call overall |
| AdmissionOrder.SubjectQuotaExactly | src/lib.rs:377-423 | the per-subject quota holds at a call for every history with these samples exactly when it is not overtaken or the clock is in its first ten minutes |
| AdmissionOrder.GlobalQuotaExactly | src/lib.rs:377-423 | the same for the global quota |
| Telemetry.StepInv | src/telemetry.rs:76-149 | every step of emitters, initialisations and drops keeps the logger invariant |
| Telemetry.ReachableInv | src/telemetry.rs:76-149 | it holds in every reachable state |
| Telemetry.NoEmissionIntoAClosedLogger | src/telemetry.rs:76-110 | an emission uses the logger in the slot, which is neither closed nor about to be closed |
| Telemetry.GuardCountNeverUnderflows | src/telemetry.rs:133-149 | the count equals the live owners, so the underflow branch is never taken |
| Telemetry.GuardedStep | src/telemetry.rs:117-149 | a step between states with live guards closes nothing and builds only into an empty slot |
| Telemetry.OneLoggerPerLifetime | src/telemetry.rs:117-149 | in any stretch where the count stays above zero at most one logger is built and none is retired |
| TelemetryLifecycle.EveryLoggerIsAccounted | src/telemetry.rs:76-149 | in every reachable state each logger built is in exactly one of three places: the slot, a thread about to close it, or the closed ones |
| TelemetryLifecycle.OnlyTheSlotIsOpen | src/telemetry.rs:101-108 | when no thread is retiring or closing, the logger in the slot is the only one open |
| TelemetryLifecycle.ClosedOnce | src/telemetry.rs:101-108 | a logger about to be closed is not closed yet |
| TelemetryLifecycle.LastDropCloses | src/telemetry.rs:133-149 | the drop of the last guard, undisturbed, empties the slot and closes its logger |
| TelemetryLifecycle.SeekerEmits | src/telemetry.rs:76-100 | a thread with something to log, undisturbed, reaches the logger in the slot, building one when the slot is empty |
| TelemetryLifecycle.EmitterComesAndGoes | src/telemetry.rs:76-87 | logging with a logger in the slot, undisturbed, starts, emits and leaves no trace |
| TelemetryLifecycle.InitBecomesLive | src/telemetry.rs:117-127 | an initialisation, undisturbed, counts its guard, emits and returns it |
| Telemetry.SomeThreadCanProceed | src/telemetry.rs:76-149 | the mutex and the read/write lock cannot deadlock |
| Rfc3339.ParseTwo | src/pre_interest.rs:792-799 | the byte arithmetic stays in range and yields at most 99 |
| Rfc3339.ParseTwoReadsNumbers | src/pre_interest.rs:792-799 | a two-digit field is read exactly when two digits in range stand there |
| Rfc3339.IsRfc3339 | src/pre_interest.rs:737-790 | accepts exactly the 20 to 35 character date-times of section 5.6 of RFC 3339 with upper-case T and Z and the coded ranges |
| Registration.ValidateRegistration | src/pre_interest.rs:373-504 | the scanner loop and the expression checks together give `Validate` |
| RegistrationTheorems.AcceptedIsWellFormed | src/pre_interest.rs:373-504 | every accepted registration is free of NUL, lists its interests in declaration order, and has a colon in its timestamp and none in its revision |
| RegistrationTheorems.InterestOrderIsIrrelevant | src/pre_interest.rs:442-452 | permuting the interests of a request changes nothing, errors included |
| RegistrationTheorems.InOrderKeepsTheSet | src/pre_interest.rs:449-449 | ordering the interests loses none |
| RegistrationIdempotence.EmailIdempotent | src/pre_interest.rs:617-649 | a normalised address normalises to itself |
| RegistrationIdempotence.EmailIsLowered | src/pre_interest.rs:617-649 | an accepted address becomes its trimmed text lowered; `EmailCharacters` says what lowering does |
| RegistrationGrammar.EmailExactly | src/pre_interest.rs:617-649 | an address is accepted exactly when its trimmed text is a local part and two or more labels within 320 bytes; every other is an e-mail error |
| RegistrationGrammar.EmailCharacters | src/pre_interest.rs:644-648 | an accepted address has the length of the trimmed text, no ASCII capital, and each character equal to that of the text or its small letter |
| RegistrationGrammar.EmailsAlikeExactly | src/pre_interest.rs:617-649 | two accepted addresses normalise alike exactly when their trimmed texts differ in ASCII case only |
| RegistrationGrammar.TrimExactly | src/pre_interest.rs:617-618 | trimming removes whitespace at the ends, all of it, and nothing else |
| RegistrationGrammar.HumanTextExactly | src/pre_interest.rs:660-673 | a name is accepted with each run of whitespace squeezed to one space exactly when it has no control character and what is left is not empty and within the limit |
| RegistrationGrammar.LocaleExactly | src/pre_interest.rs:696-735 | a locale is accepted, as its trimmed text, exactly when that is a language of two or three letters and subtags of two to eight letters or digits within 35 bytes |
| RegistrationGrammar.InterestsExactly | src/pre_interest.rs:442-452 | one to nine interests without repetition are accepted and kept as a set, and which error the others get |
| RegistrationGrammar.InterestsAscend | src/pre_interest.rs:449-449 | accepted interests are kept in declaration order |
| RegistrationGrammar.RefusalExactly | src/pre_interest.rs:373-504 | which error a request gets, the first that applies, and acceptance when none does |
| RegistrationIdempotence.HumanTextIdempotent | src/pre_interest.rs:660-673 | a normalised name normalises to itself |
| RegistrationIdempotence.HumanTextIdentifiesWords | src/pre_interest.rs:660-673 | accepted names normalise alike exactly when they have the same words |
| RegistrationIdempotence.ResubmissionIsIdentity | src/pre_interest.rs:373-504 | where printed URLs are canonical, resubmitting an accepted registration returns it unchanged exactly when its printed URL, if any, has at most 2048 bytes |
| WebsitePrinting.PercentPrinterIsCanonical | src/pre_interest.rs:675-694 | a parser that prints https texts percent-encoded accepts what it prints and prints it again |
| WebsitePrinting.AccentedWebsite | src/pre_interest.rs:675-694 | a website of 13 bytes and n accented letters is accepted when 13 + 2n bytes fit, and its printed form fits exactly when 13 + 6n do |
| WebsitePrinting.AccentedResubmission | src/pre_interest.rs:373-504 | any accepted request may carry that website, and is then resubmittable exactly when 13 + 6n is at most 2048 |
| WebsitePrinting.ResubmissionCanFail | src/pre_interest.rs:675-694 | a concrete accepted request, with 400 such letters, whose resubmission fails |
| Fingerprint.ListDecodes | src/pre_interest.rs:532-536 | the uncounted interest list ends exactly at the first field with a colon |
| Fingerprint.PreimageInjective | src/pre_interest.rs:515-567 | on well-formed registrations equal encodings mean equality in every field but the request id, and conversely |
| Fingerprint.MessageInjective | src/pre_interest.rs:515-567 | the same for the bytes fed to the MAC |
| Fingerprint.FingerprintIdentifies | src/pre_interest.rs:515-567 | accepted registrations share a fingerprint exactly when they agree outside the request id or exhibit a MAC collision |
| Fingerprint.Mac.UpdateField | src/pre_interest.rs:595-598 | feeds the value and a terminator |
| Fingerprint.Mac.UpdateOptional | src/pre_interest.rs:600-608 | feeds a tagged field, or two zero bytes for an absent value |
| Fingerprint.FeedInterests | src/pre_interest.rs:532-534 | the loop feeds the interest names in order |
| Fingerprint.DeriveRequestFingerprint | src/pre_interest.rs:515-567 | refuses keys under 32 bytes and otherwise authenticates exactly the encoded registration |
| Pagination.Listing | src/persistence.rs:312-315 | the records of a set, each once, strictly by rank and id descending |
| Pagination.ListingUnique | src/lib.rs:1025-1030 | a set has one such listing |
| Pagination.SkipToIsKeyset | src/lib.rs:1031-1038 | for any order, skipping to the cursor's position equals the keyset condition, and an unknown or foreign cursor leaves nothing in either |
| Pagination.QuoteListResponse | src/contract.rs:118-136 | truncates to the limit and names the last kept record exactly when more rows exist |
| Pagination.ClampLimit | src/lib.rs:1004-1004 | the limit asked for when it lies in 1..100, the nearer bound outside, and 25 by default |
| Pagination.PageSpec | src/persistence.rs:255-320 | a page is the front of what remains, and its cursor stands for all the rest |
| Pagination.WalkIsComplete | src/contract.rs:118-136 | with any inserts between requests, following the cursor visits in strict listing order, fills every page but the last, and at the end has visited everything that was there at the start |
| Pagination.WalkVisitsEachOnce | src/contract.rs:118-136 | each record there at the start is visited at exactly one place |
| Pagination.WalkShowsOwnOnly | src/persistence.rs:255-320 | a walk shows its subject only records of its own that are stored by then |
| Pagination.WalkEnds | src/contract.rs:118-136 | the walk ends once its pages have room for more records than the subject has |
| TimestampOrder.TextOrderExactly | src/contract.rs:167-174 | formatted times order as texts as they do in time, and oppositely exactly where one trimmed fraction is a proper prefix of the other within a second |
| QuoteListing.ByTextIsTextOrder | src/lib.rs:1025-1030 | the rank used for the in-memory listing is the comparison of the texts, then of the ids |
| QuoteListing.ListMemory | src/lib.rs:1016-1041 | the in-memory listing returns the rows of a keyset query in text order |
| QuoteListing.ListQuotes | src/lib.rs:998-1044 | the handler over memory answers as the paged keyset query in text order |
| QuoteListing.ListingsAgreeExactly | src/lib.rs:1025-1030 | the order of the texts and the order of the instants list a set alike exactly when no two of its records clash |
| QuoteListing.SamePagesExactly | src/persistence.rs:247-327 | two orders answer every cursor and limit alike exactly when they agree on every pair of the subject's records |
| QuoteListing.PairSwapsExactly | src/persistence.rs:283-286 | text order and database order agree on a pair with distinct ids exactly when it is not swapped |
| QuoteListing.SwappedIsOpposite | src/persistence.rs:283-286 | a swapped pair is listed in opposite ways |
| QuoteListing.PagesAgreeExactly | src/lib.rs:998-1044 | for any monotone rounding to microseconds, memory answers every cursor and limit as the database would exactly when no two of the subject's records are swapped |
| QuoteListing.EqualWidthsAgree | src/lib.rs:1025-1030 | records with fractions of one width and in different microseconds are never swapped |
| QuoteListing.TenthsClash | src/lib.rs:1025-1030 | .1 seconds and .12 seconds of one second clash and are swapped |
| QuoteListing.TiesSwap | src/persistence.rs:283-286 | whatever the rounding, some two records one nanosecond apart, of equal fraction widths, do not clash and are swapped, because the database sees a tie |
| QuoteListing.WholeMicrosSwapByClash | src/persistence.rs:283-286 | for times in whole microseconds only a clash swaps |
| Assessments.Find | src/lib.rs:1311-1324 | returns a live record of that id and subject, or none exists |
| Assessments.Store.constructor | src/lib.rs:269-307 | queue and map start empty |
| Assessments.Store.CreateReadinessAssessment | src/lib.rs:1211-1271 | the in-place map and queue end and answer as `Submit` |
| Assessments.Store.RecordQuoteOperation | src/lib.rs:691-697 | a quote handler's write overwrites one entry |
| AssessmentTheorems.StepInv | src/lib.rs:1211-1271 | submissions and quote writes keep the pairing of map and queue |
| AssessmentTheorems.RunInv | src/lib.rs:1211-1271 | so does every run |
| AssessmentTheorems.ReachableInv | src/lib.rs:1211-1271 | in every reachable state the queue is within 1024, ids and keys of live records are distinct, and every assessment entry names a live record of the same subject, key and request |
| AssessmentTheorems.OutcomesAreExact | src/lib.rs:1212-1230 | when a call creates, replays or is refused, exactly, and with which record; a creation queues its record, makes its entry and keeps every other record but the one evicted; storage is never unavailable on replay |
| AssessmentTheorems.QuoteWriteTakesKey | src/lib.rs:691-697 | a quote handler's write takes its key over: every submission with it is then refused, and all other keys are answered as before |
| AssessmentTheorems.EvictionTakesOnlyItsOwnEntry | src/lib.rs:1253-1268 | a creation removes another entry exactly when the queue is full and it is the evicted record's own |
| AssessmentTheorems.ReplayLasts | src/lib.rs:1212-1230 | a created record is replayed through fewer than 1024 further creations, and other requests for its key are refused |
| AssessmentTheorems.ReplayEnds | src/lib.rs:1253-1268 | the 1024th further creation evicts it and frees its key |
| Breaker.CircuitState.constructor | src/gemini.rs:189-193 | the circuit starts closed |
| Breaker.CircuitState.BeforeRequest | src/gemini.rs:152-162 | refuses inside the open period, and an expired period is cleared |
| Breaker.CircuitState.RecordSuccess | src/gemini.rs:164-168 | closes the circuit |
| Breaker.CircuitState.RecordFailure | src/gemini.rs:170-176 | counts with saturation and opens from the threshold on |
| Breaker.CircuitIsSummary | src/gemini.rs:152-176 | after every history the two fields summarise the failures since the last reset |
| Breaker.RefusesExactly | src/gemini.rs:152-176 | after every history a request is refused exactly when five or more failures were recorded since the last reset and the latest is under 30 seconds old |
| Breaker.ResetForgets | src/gemini.rs:158-168 | only what follows a reset decides |
| Breaker.TripNeedsFiveFailures | src/gemini.rs:170-176 | after a reset fewer than five failures never open the circuit |
| Breaker.ExpiryRecovers | src/gemini.rs:152-162 | a request 30 seconds after the latest failure is let through and closes the circuit |
| Breaker.ExecuteWithRetries | src/gemini.rs:73-150 | at most three attempts; the first response not to be retried, or the third, decides, after waits of 250 and 500 ms; the result is that response's analysis exactly when it has a valid one, and otherwise the error of its kind |
| Breaker.FailureVotes | src/gemini.rs:56-71 | an admitted request counts as a failure exactly for a transport error, a lost body or a retryable status |
| Shutdown.ActionsAreExact | src/shutdown.rs:86-133 | over every event list the reducer starts a drain and forces exactly where the timeline of the list says |
| Shutdown.ActionsAreOrdered | src/shutdown.rs:86-133 | at most one StartGraceful, at most one Force, and no StartGraceful after a Force |
| Shutdown.FinalStateIsExact | src/shutdown.rs:86-133 | `forced_by` is set exactly in Forcing, by the forcing event; the count is at most 2 and equals the signals up to forcing |
| Shutdown.TriggerIsFirstWake | src/shutdown.rs:86-133 | the recorded trigger is the event that ended normal running, for good |
| Shutdown.VerdictMeans | src/shutdown.rs:256-306 | there is no verdict while the server runs; it is failure when the server failed, the forcing event of the timeline when one forced, and a graceful end otherwise |
| Shutdown.EventsSpec | src/shutdown.rs:231-387 | only what is received before the server ends or the channel closes reaches the reducer |
| Shutdown.EofForcesOnlyAfterInterrupt | src/shutdown.rs:113-118 | an EOF forces only at a terminal whose drain a SIGINT began |
| Shutdown.OnEvent | src/shutdown.rs:307-384 | the event arm keeps timer and effects in step with the reducer |
| Shutdown.OnServerEnd | src/shutdown.rs:256-306 | the server arm reports the outcome, stops a failing server unless it was stopped before, and leaves no timer running |
| Shutdown.Serve | src/shutdown.rs:231-387 | over everything the select yields: the outcome is the reducer's verdict on the events received; a drain with one timer exactly when a signal began it, one force exactly when an event forced or the server failed, one EOF watcher exactly after an interrupt at a terminal, and no timer outlives the loop |

## Left out

- HTTP routing, headers, WebSocket streaming, security headers, JSON parsing and serialisation: input and output plumbing.
- Model attempt start and finish (`src/persistence.rs:397-465`): one guarded insert and update per worker, after its status writes; it would add only easy members.
- The in-memory quote create and retry branches (`src/lib.rs:671-702`, `src/lib.rs:777-806`): they drop the read guard before writing and give no exactly-once promise; only their writes to the shared map appear, as `QuoteWrite`.
- How PostgreSQL implements locks, row-level security and the NUL-joined advisory key; an accepted idempotency key may contain `/`, which the table's check refuses, and the model has no such check.
- Database errors, an invalid stored row or an invalid context record (`src/persistence.rs:101-103`) appear as a process that stops without an answer.
- Bearer and shared authentication, flags, webhooks, the web data plane, framework catalogues and the work queue: wrappers, static data or single-pass checks.
- Key ring parsing and signature search (`src/readiness_observation_ingest.rs:348-450`); only the signature text format is modelled.
- Records are never deleted between pages, and a time is the fourteen digits of its UTC date and time with a nanosecond count; calendar arithmetic and years beyond 9999 are not modelled.
- The rounding of a timestamptz cast is a parameter that keeps whole microseconds and, where order matters, never reverses two times.
- `Telemetry` models threads as values of a state machine, so locks are conditions on steps and not objects; overflow of the guard count is not modelled.
- The prompt, its size limit and the analysis schema in `src/gemini.rs`: what an attempt receives is a parameter.
- QuoteSerial.EveryRunIsSerial: a create carries the context it read, so edits of the active context have no place in the serial order; `QuoteContexts` says when that context was active.
- WebsitePrinting.PercentPrinter is not the URL standard: it keeps all ASCII as it is and ignores dot segments, fragments and international hosts, none of which the websites used here have.
- Pagination.SortByRank and QuoteListing.SortByText stand for the library sort; iterator chains (`filter`, `position`, `find`) are functions.
- Registration.NormalizeWebsite: the URL parser and its checks are one parameter, assumed to print no NUL, or canonical text, where a theorem says so.
