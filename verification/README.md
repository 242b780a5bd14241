# BridgeSAT in Dafny

A model of the stateful core of BridgeSAT, an adaptive SAT practice service with an offline client,
and proofs about it. Every module follows one component:

- **Offline sync.** `SyncProtocol` is the protocol at the grain of single store and network
  operations, with lost, repeated and late messages and crashes; `OfflineQueue`, `OfflineSync` and
  `SyncServer` are the queue, the client and the idempotent server log as classes, which
  `SyncRefinement` proves to be runs of the protocol; `SyncDelivery` builds from those runs the one
  that delivers everything, `SyncOutcomes` says in numbers what one sync does to each event, and
  `SyncMutex` is the promise mutex around `sync`.
- **Hashing.** `Sha256` proves the hand-written SHA-256 against FIPS 180-4; `JsonText`,
  `CanonicalJson` and `JsonAgreement` prove the canonical JSON uniquely decodable, `JsonTransport`
  says exactly when client and server hash the same text, and `JsonLaws` pins the texts themselves.
- **Learner state.** `Learner` defines the projections as folds, `LearnerStoreModel` proves the
  transactional store keeps them, `Episodes` follows runtime episodes from candidate to outbox.
- **Deletion and migration.** `Deletion` is the multi-transaction protocol with its competing
  writers, `DeletionService` the methods behind it, `Migrations` the migration runner.
- **Policy and verifier.** `Sessions`, `Policy`, `ReasoningGate`, `ProposalVerifier` with
  `ProposalLaws`, and `Orchestrator`.
- **Algorithms.** `Hierarchy` (bounded breadth-first search), `Dedup` (near-duplicate removal),
  `Retrieval` (deterministic reranking) with `RankingLaws` (what the ranking rewards),
  `Parentheses` (matched stripping). `Ordering` and `Common` hold what they share.

Code that changes state is a class or a method with loops, proved against a specification function
or predicate; what the code is for is then proved of that specification, over all inputs or over
all runs. For each main operation some of these theorems say what it does in the terms of its inputs
and in numbers, without the functions of the specification, so that a specification and a method
that are wrong in the same way do not verify.

## Where the code and its promises differ

- `verify_proposal` documents a rationale verdict, but every rejection returns the dataclass
  default `rationale_accepted = True` (`ProposalVerifier.RationaleFlagMeansGroundedIff`,
  `RejectionKeepsRationaleFlag`).
- The client and the server hash the same text exactly for payloads whose strings hold no units
  above tilde other than unpaired surrogates, whose objects have no undefined field and whose floats
  Python prints as JavaScript does (`JsonTransport.HashedTextsAgreeIff`, `AccentsDisagree` of
  `JsonAgreement`, `UndefinedFieldDisagrees` and `SmallFloatDisagrees`); an event whose payload
  breaks this is rejected for good as an integrity failure.
- `sha256` allocates through a 32-bit shift, so it is defined exactly for messages of fewer than
  2^31 - 8 bytes (`Sha256.CodePaddedLengthIsFips`).
- `complete_index_deletion` without an index handle reports a deletion as verified although the
  delete was never delivered (`Deletion.VerifiedWithoutIndexCanKeepMemories`). A verified student is
  gone exactly if no memory was delivered to the index after the last delivery of a delete
  (`Deletion.VerifiedMeansGoneIff`).
- "An LLM outage never breaks a session", but a reply that is JSON and no object, or whose action is
  an array or an object, raises after the answer is committed, and so does one that names a bounded
  action with a reason that holds a NUL or half a surrogate pair: the answer stays stored, the
  session stays in ANSWER_EVALUATED, where it takes no further answer, and there is no agent event.
  Next to an exception of the call that the code does not catch these are all such replies
  (`Orchestrator.Breaks`, `Orchestrator.BreaksIff`,
  `Orchestrator.SessionOrchestrator.EvaluateAnswer`; `ArraysBreak`, `ReasonBreaks`,
  `RenderedReasonIsStored` and `NoSecondAnswer` of `Orchestrator`).
- The policy promotes after recent right answers, but `SessionOrchestrator` does not hand it the
  recent answers: no answer that it evaluates makes the next item harder unless the model says so
  (`Orchestrator.OnlyTheModelPromotes`). app/sync/service.py:1738 does hand them on.
- A hint level below zero scores like a high one, so "validated iff correct with hint level at most
  2" holds for levels from 0 on (`Episodes.ScoreReachesThresholdIff`).
- `prerequisites_of` with `max_hops` 0 returns nothing, although its documentation puts the skill
  itself at hop 0; every other limit is answered as documented (`Hierarchy.AsDocumentedIff`).
- `retrieve` never sees a difficulty on a record, so the requested difficulty has no effect
  (`Retrieval.RequestedDifficultyHasNoEffect`); and "explicit no-result" looks only at the first
  `max_results` places, so incomplete records there hide a complete one behind them
  (`Retrieval.IncompleteHidesComplete`; exactly when, in `Retrieval.CollectHits`).
- Sections 7 and 8 of docs/SYNC_PROTOCOL.md have the client retry events until they are acknowledged,
  but the server refuses for good every event that is not above the last accepted device sequence.
  An event that waits for its retry is lost as soon as a later one is accepted
  (`SyncDelivery.OvertakingRun`), also in the very batch that refused it only for now
  (`SyncServer.OvertakenAfterIff`): no continuation logs it (`SyncProtocol.OvertakenForever`) and the
  next sync marks it failed (`SyncDelivery.OvertakenFails`). Everything in the queue can still be
  delivered exactly if the events not yet logged have different sequences above the last accepted one
  (`SyncDelivery.DeliverableIff`); the run that does it assumes that the server finds nothing else
  wrong with them.
- An event of a batch stays in flight after a sync, until the next restore, exactly if the client
  could not read the body of the answer (a malformed success; an error whose body is null or whose
  detail has no `includes`) or the server refused the batch as a whole, a refusal that names no event
  (`OfflineSync.StaysInFlightIff`).

## Model

| member | source | states |
|---|---|---|
| SyncProtocol.StepKeepsInv | web/offline-core.js:493-643 | every single store or network operation of any task, in any interleaving, keeps: nothing enqueued is lost, envelopes stay as they were enqueued, the log has no repeats and rises in device sequence, only logged ids are deleted or acknowledged |
| SyncProtocol.ServerKeepsInv | app/infrastructure/event_store.py:20-64 | processing a batch, however often and late it is delivered, keeps the same invariant |
| SyncProtocol.StepGrows | app/sync/service.py:568-676 | no step removes anything from the log or takes the last sequence back, and what is appended lies above it |
| SyncProtocol.RunKeepsInv | web/offline-core.js:493-643 | over every run the invariant holds, log, enqueued events and last sequence only grow, and what was appended lies above the last sequence of the start |
| SyncProtocol.ExactlyOnce | web/offline-core.js:493-643 | after any run: every enqueued id is queued or logged, logged at most once and in rising device sequence, nothing else is logged or acknowledged, and an empty queue means the log is exactly the enqueued set |
| SyncProtocol.OvertakenForever | app/sync/service.py:704-736 | an event that is not logged although a sequence from its own on was accepted is logged in no continuation |
| SyncServer.EventStore.AppendLearningEvent | app/infrastructure/event_store.py:20-64 | appends exactly when the id is new; a duplicate is ignored or raised, any other error rolls back; no repeats ever |
| SyncServer.EventStore.ProcessBatch | app/sync/service.py:509-692 | sort, verdict loop with the running maximum, and the final advance yield the log, the last sequence and the three answer lists of the specification; the answers, as a multiset of ids, are the events of the batch |
| SyncServer.ServeSound | app/sync/service.py:526-692 | a batch only extends the log, by its accepted events, without repeats; an id is reported duplicate only if logged; each event gets one answer |
| SyncServer.EveryEventIsAnswered | app/sync/service.py:526-692 | an id is named in the reply if and only if it is an event of the batch |
| SyncServer.EachEventIsAnswered | app/sync/service.py:532-676 | for a well-formed batch without equal ids or sequences, which of the three lists of the reply names an event and with which flag, if and only if: malformed and late ones are rejected for good, logged ones are duplicates, refused ones rejected with the flag of the refusal, the rest accepted |
| SyncServer.AnswerIs | app/sync/service.py:532-676 | the same with equal sequences: an event also comes too late if another one of its sequence with a smaller id was accepted |
| SyncServer.LoggedAfterIff | app/sync/service.py:532-676 | with distinct positive sequences an event is logged after its batch if and only if it was before, or nothing else is wrong with it and its sequence is above the last accepted one |
| SyncServer.InOrderIsTaken | app/sync/service.py:532-676 | a batch without fault, of distinct sequences, each logged or above the last accepted one, is logged and acknowledged as a whole |
| SyncServer.ServeInSequence | app/sync/service.py:568-676 | the log stays in rising device sequence, and a batch appends only above the last accepted sequence |
| SyncServer.OvertakenIsRefused | app/sync/service.py:568-588 | no batch logs an overtaken event, and every answer to it is a refusal for good |
| SyncServer.OvertakenAfterIff | app/sync/service.py:666-676 | after a batch an event is overtaken if and only if it was before or a later event of the batch was accepted, even when its own refusal was to be retried |
| SyncServer.RedeliveryHasNoEffect | app/sync/service.py:559-676 | delivering any events of a batch again, in any order and number, with the same findings, changes neither log nor last sequence and accepts nothing |
| SyncServer.LoggedHasNoEffect | app/sync/service.py:559-564 | nor does delivering logged events again, whatever the findings are by then |
| OfflineQueue.PendingEventQueue.Enqueue | web/offline-core.js:502-513 | stores one pending record under the event id |
| OfflineQueue.PendingEventQueue.All | web/offline-core.js:498-500 | lists every stored record once |
| OfflineQueue.PendingEventQueue.Dequeue | web/offline-core.js:515-533 | returns the batch and marks exactly its records in flight |
| OfflineQueue.PrefixIsBatch | web/offline-core.js:515-533 | the first 100 of the sorted ready records are sorted, ready, repeat-free, and come before every ready record left behind |
| OfflineQueue.BatchIsPrefix | web/offline-core.js:515-533 | whatever meets that description is those first 100 |
| OfflineQueue.BatchIsUnique | web/offline-core.js:515-533 | a queue has one batch at a time, whatever order the store lists it in |
| OfflineQueue.PendingEventQueue.MarkAcknowledged | web/offline-core.js:535-541 | deletes the record and notes the acknowledgement |
| OfflineQueue.PendingEventQueue.MarkRejected | web/offline-core.js:543-556 | an unknown id changes nothing; a retryable failure re-queues with one more attempt and its delay, any other marks the record failed |
| OfflineQueue.PendingEventQueue.Restore | web/offline-core.js:558-567 | every in-flight record, and no other, waits again with the delay of its attempts |
| OfflineQueue.WritesKeepRecords | web/offline-core.js:515-567 | flipping, rejecting and restoring never drop or re-key a record |
| OfflineQueue.RestoreFreesAll | web/offline-core.js:558-567 | after a restore nothing is in flight and what was is ready within fifteen minutes |
| OfflineQueue.BackOffGrows | web/offline-core.js:483-487 | delays grow strictly over the first five attempts, never shrink and never exceed fifteen minutes |
| OfflineSync.OfflineSyncClient.SyncOnce | web/offline-core.js:597-643 | for every fate of the request, the new queue, log and acknowledgements as a function of the old ones, and exactly-once accounting preserved |
| OfflineSync.OfflineSyncClient.HandleOutcome | web/offline-core.js:616-642 | the queue, the acknowledgements and the result after a network error, an HTTP error with a readable or unreadable body, a malformed body, a refusal or a delivered answer |
| OfflineSync.OfflineSyncClient.AcknowledgeAll | web/offline-core.js:632-638 | each accepted or duplicate id leaves the queue and is acknowledged |
| OfflineSync.SyncKeepsAccount | web/offline-core.js:597-643 | a whole sync loses, repeats and invents no event, whatever happens to the request |
| OfflineSync.EnqueueKeepsAccount | web/offline-core.js:502-513 | enqueueing a fresh id keeps the account |
| OfflineSync.RestoreKeepsAccount | web/offline-core.js:558-567 | a restore keeps the account |
| OfflineSync.UnnamedStaysInFlight | web/offline-core.js:629-642 | after any reply an event is still in flight if and only if the reply names it nowhere |
| OfflineSync.StaysInFlightIff | web/offline-core.js:616-642 | after a sync an event of its batch is still in flight if and only if the client could not read the body or the server refused the batch as a whole; a batch that fails the schema is answered by an error status |
| SyncOutcomes.EventWithoutReply | web/offline-core.js:616-642 | after a request without a delivered reply: a record waits with one more attempt and 5, 15, 60, 300 or 900 seconds, unless the error says that the device is not registered, which fails it, or the answer is unreadable or a refusal, which leave it in flight |
| SyncOutcomes.EventAfterReply | web/offline-core.js:629-642 | after a delivered reply a record is gone and acknowledged if and only if it was accepted or a duplicate, waits if and only if its rejection is retryable, and fails if and only if it is not |
| SyncOutcomes.DeliveredEvent | web/offline-core.js:597-643 | end to end, over log, last sequence and finding: gone if and only if logged before or now, waiting if and only if refused for now, failed in all other cases |
| SyncOutcomes.OthersStay | web/offline-core.js:616-642 | a sync changes no other record, except that the refusal of a batch fails one with the empty id |
| SyncOutcomes.RestOfTheSync | app/sync/service.py:509-692 | the server works through a batch if and only if the request arrives in its schema, only a delivered reply acknowledges, and which outcome the client reports |
| SyncOutcomes.BatchIs | web/offline-core.js:515-533 | a batch in numbers: at most 100 due records by sequence and id, missing sequences last, and full if it leaves a due one behind |
| SyncOutcomes.RestoredIs | web/offline-core.js:558-567 | a restore in numbers: the delay of the attempts so far, 0, 5, 15, 60, 300 or 900 seconds |
| OfflineSync.SyncIsRound | web/offline-core.js:597-643 | a delivered sync of a batch that is in order for the server logs, acknowledges and removes exactly the batch |
| OfflineSync.RoundShrinks | web/offline-core.js:529-532 | with every pending record ready, one accepted round takes 100 of them or all, whatever else the queue holds |
| OfflineSync.DrainsInRounds | web/offline-core.js:515-541 | n pending events leave max(0, n - 100k) after k accepted syncs, so exactly ceil(n/100) empty the queue of them, all logged and acknowledged; failed and in-flight records stay as they are |
| SyncRefinement.SyncIsProtocolRun | web/offline-core.js:597-643 | every sync of the client, whatever happens to its request, is a run of single store and network operations of the protocol, with none of them outstanding at the end |
| SyncRefinement.RestoreIsProtocolRun | web/offline-core.js:558-567 | so is a restore, put by put |
| SyncRefinement.EnqueueIsProtocolRun | web/offline-core.js:502-513 | so is an enqueue |
| SyncRefinement.FlipLoop | web/offline-core.js:529-531 | the puts of a dequeue, one at a time, flip exactly the batch |
| SyncRefinement.MarkLoop | web/offline-core.js:543-556 | the gets and puts of the rejections, one at a time, give the marked queue |
| SyncRefinement.AckLoop | web/offline-core.js:535-541 | the deletes and puts of the acknowledgements, one at a time, remove exactly the acknowledged ids |
| SyncRefinement.RejectionsAreDistinct | app/sync/service.py:526-692 | the server rejects no event of a batch twice |
| SyncDelivery.ClientRunIsProtocolRun | web/offline-core.js:502-643 | any sequence of fresh enqueues, reloads and syncs, with any fates of the requests, is a run of the protocol |
| SyncDelivery.DeliverableIff | app/sync/service.py:568-588 | from a reachable state some run settles every event not refused for good if and only if those not yet logged have different sequences above the last accepted one; the run is one in which the server finds no other fault |
| SyncDelivery.CanStillBeDelivered | web/offline-core.js:515-643 | the run for the one direction: a crash that loses all outstanding operations, one reload and ceil(n/100) delivered syncs, assuming verdicts without any other fault, leave every such event logged, acknowledged and out of the queue, with nothing outstanding |
| SyncDelivery.SettledWereDeliverable | app/sync/service.py:568-588 | the other direction: whatever the server finds and in any interleaving, what gets logged had different sequences above the last accepted one |
| SyncDelivery.OvertakingRun | web/offline-core.js:543-556 | a run of two events and one failed request after which the first event waits in the queue, never refused, and is logged in no continuation |
| SyncDelivery.OvertakenFails | web/offline-core.js:639-641 | the next delivered sync that carries an overtaken event marks it failed |
| SyncDelivery.Drain | web/offline-core.js:515-643 | with the pending events in order, syncs that take the real batch of the queue each time and meet no other fault end with no pending event after exactly ceil(n/100) of them |
| SyncMutex.StepKeepsInv | web/offline-core.js:584-595 | every stretch between two awaits keeps: one owner, of the run in the field, and every other run settled |
| SyncMutex.MutualExclusion | web/offline-core.js:584-595 | over all runs with any callers and wake-up order, an unsettled run is the one in _syncInFlight, so there is at most one |
| SyncMutex.OnlyTheOwnerClears | web/offline-core.js:590-594 | the field is cleared only by the owner of its settled run and never overwritten; the identity test always succeeds |
| SyncMutex.RunsAreSerial | web/offline-core.js:584-590 | a run starts only when every earlier one is settled |
| SyncMutex.AlwaysProgress | web/offline-core.js:584-595 | while a caller is unfinished some step brings one caller nearer to the end and none further away |
| Sha256.Sha256 | web/offline-core.js:27-69 | text of the FIPS 180-4 digest for every message of fewer than 2^31 - 8 bytes, an error for every longer one |
| Sha256.PadMessage | web/offline-core.js:28-34 | the padded array is the section 5.1.1 padding; RangeError exactly when the 32-bit shift wraps |
| Sha256.CodePaddedLengthIsFips | web/offline-core.js:30 | the allocated length is the standard length if and only if n + 8 < 2^31, otherwise too short for the message |
| Sha256.PadLength | web/offline-core.js:30-34 | the padded length is the least multiple of 64 that is at least n + 9 |
| Sha256.PadShape | web/offline-core.js:31-34 | message, marker, zeros up to the last eight bytes |
| Sha256.LengthField | web/offline-core.js:33-34 | the last eight bytes are the base-256 digits of the length in bits |
| Sha256.PadInjective | web/offline-core.js:28-34 | different messages have different padded forms |
| Sha256.PaddedBytes | web/offline-core.js:33-34 | the two 32-bit writes are the 64-bit length of the standard |
| Sha256.LoadWords | web/offline-core.js:43-45 | the first schedule loop reads the block as sixteen big-endian words |
| Sha256.ExtendWords | web/offline-core.js:46-50 | the in-place schedule loop computes the recursive schedule of section 6.2.2 |
| Sha256.RunRounds | web/offline-core.js:51-63 | the round loop on eight locals computes the 64-fold round function |
| Sha256.AddInto | web/offline-core.js:64-67 | the eight additions at the end of a block |
| Sha256.RunBlocks | web/offline-core.js:42-68 | the outer loop keeps the trace of hash values, block by block |
| Sha256.HashView | web/offline-core.js:36-68 | the arrays end with the fold of the compression over all blocks |
| Sha256.RotrRotates | web/offline-core.js:71-73 | the shifts are a rotation for every amount in use |
| Sha256.SigmasAre | web/offline-core.js:47-57 | the four sums of rotations of section 4.1.2 with their amounts |
| Sha256.ChChooses | web/offline-core.js:55 | Ch takes bits of y where x has ones and of z elsewhere |
| Sha256.MajIsMajority | web/offline-core.js:58 | Maj is the majority of three bits |
| Sha256.SumWraps | web/offline-core.js:49-66 | additions are modulo 2^32 |
| Sha256.FirstWordsAre | web/offline-core.js:43-45 | the first sixteen words have the bytes of the block, high byte first |
| Sha256.OtherWordsAre | web/offline-core.js:46-50 | the recurrence of section 6.2.2 for the other words |
| Sha256.RoundIs | web/offline-core.js:53-62 | one round of section 6.2.2, on the constants and words in order |
| Sha256.BlocksAre | web/offline-core.js:36-68 | initial value, rounds and final sums of each block, over all blocks |
| Sha256.RoundConstants | web/offline-core.js:13-25 | each round constant is the fraction of the cube root of its prime, at its place |
| Sha256.InitialConstants | web/offline-core.js:36-39 | each initial word is the fraction of the square root of its prime |
| Sha256.WordTextReads | web/offline-core.js:68 | every word takes eight lower-case hex digits that give the word back |
| Sha256.HashTextShape | web/offline-core.js:68 | the digest text is 64 lower-case hex digits, which spell the eight words in order |
| JsonText.QuoteReads | web/offline-core.js:87-93 | every quoted string, control characters, pairs and lone surrogates included, is read back |
| JsonText.DecimalReads | web/offline-core.js:93 | the text of every integer gives the integer back |
| JsonText.QuoteLengths | app/domain/events.py:37-38 | the client never writes more units than the server, as many only for agreeable strings, which both write alike |
| JsonLaws.EscapesAre | app/domain/events.py:37-38 | which units each side escapes, with the letter or the four digits of the escape |
| JsonLaws.QuotedIs | web/offline-core.js:88 | a quoted string is its escaped units in order; only JavaScript keeps surrogate pairs |
| CanonicalJson.CanonicalReads | web/offline-core.js:80-94 | whatever follows, the printed text is read as the value up to key order and no further |
| CanonicalJson.Decodes | web/offline-core.js:80-94 | a decoder recovers every value from its canonical text, up to key order |
| CanonicalJson.SameTextIff | web/offline-core.js:80-94 | two values have the same text if and only if they are equal up to key order |
| CanonicalJson.KeyOrderIsForgotten | web/offline-core.js:83-92 | the insertion order of keys does not show |
| JsonLaws.WordsAre | web/offline-core.js:81-94 | null, true, false, [] and {}, with undefined and non-finite numbers as null |
| JsonLaws.ArrayTextIs | web/offline-core.js:82 | an array is its elements between brackets, with commas and no spaces |
| JsonLaws.ObjectTextIs | web/offline-core.js:83-92 | an object, however inserted, starts with the smallest key by UTF-16 code unit, a colon and its value, and goes on with the rest after a comma |
| JsonLaws.OrdersDiffer | app/domain/events.py:37-38 | a key with a surrogate pair comes before one from U+E000 on for the client and after it for the server |
| Ordering.StringLeqIs | web/offline-core.js:523-527 | strings are ordered by the first unit that differs, a prefix first |
| CanonicalJson.HashedTextDetermines | web/offline-core.js:96-99 | the hashed text determines type and payload for types without NUL, in both directions |
| JsonLaws.HashedTextIs | web/offline-core.js:96-99 | what is hashed is the event type, a NUL and the canonical text |
| JsonTransport.HashedTextsAgreeIff | web/offline-core.js:80-157 | for every payload: the text the client hashes is the text the server hashes of what JSON.stringify carried, if and only if no object has an undefined field, Python prints its floats as JavaScript does, and strings and keys hold only units up to tilde and unpaired surrogates |
| JsonTransport.PyCanonicalReads | app/domain/events.py:37-46 | whatever follows, the server text is read as the value in code-point key order and no further |
| JsonTransport.SameTextIsIntact | app/domain/events.py:37-46 | equal texts leave no room for a field lost on the way or a float printed otherwise |
| JsonAgreement.TextsAgreeIff | app/domain/events.py:37-46 | of one value that both sides hold, the two printers write the same text if and only if its strings and keys are agreeable |
| JsonAgreement.PrintableAsciiAgrees | app/domain/events.py:37-38 | printable ASCII always agrees |
| JsonAgreement.AccentsDisagree | app/domain/events.py:37-38 | concrete strings, an accented letter and an emoji, for which the two texts differ |
| JsonTransport.UndefinedFieldDisagrees | web/offline-core.js:81-92 | the concrete payloads with one undefined field, which disagree |
| JsonTransport.SmallFloatDisagrees | app/domain/events.py:37-46 | the concrete float 1e-7, which disagrees |
| Learner.WeightBounds | app/domain/learner.py:38-52 | weights lie in 0..1.375 and are zero exactly for validity zero |
| Learner.WeightFactors | app/domain/learner.py:13-52 | the factors of a weight: 0.75, 1 and 1.25 by difficulty, 0.8, 0.55 and 0.3 for hints, 0.35 for a repetition, 1.1 for a transfer |
| Learner.SkillState.RecordAttempt | app/domain/learner.py:74-84 | the in-place update is one step of the fold |
| Learner.ProjectionTotals | app/domain/learner.py:66-84 | alpha and beta are 2 plus the weights of right and wrong valid answers, the count is their number |
| Learner.ProjectionIs | app/domain/learner.py:66-84 | over any log with nonnegative weights: mastery is (2 + right) / (4 + right + wrong), confidence an eighth of all weights up to 1, each streak the length of the last run of equal valid answers |
| Learner.OneMoreAnswer | app/domain/learner.py:66-84 | one more valid answer of positive weight, whenever it arrives, strictly raises mastery if right and strictly lowers it if wrong, and raises confidence until that is full |
| Learner.EvidenceIsConserved | app/domain/learner.py:66-84 | alpha + beta is 4 plus the sum of all weights |
| Learner.MasteryInUnitInterval | app/domain/learner.py:66-69 | mastery lies strictly between 0 and 1 |
| Learner.OneStreakAtMost | app/domain/learner.py:74-84 | at most one streak is nonzero |
| Learner.ProjectionForgetsOrder | app/domain/learner.py:66-84 | any permutation of the log gives the same alpha, beta, count and mastery |
| Learner.IncrementIsRecount | app/infrastructure/learner_store.py:349-420 | one more row and one more item if new is the same as recounting all rows |
| Learner.StatesNeverGoDown | app/domain/learner.py:154-159 | recorded states of one misconception never go down over a run |
| Learner.RecordedStateIs | app/domain/learner.py:154-159 | a stored state is confirmed if and only if at least three observations on at least two items were counted, and observed if and only if it is the first |
| LearnerStoreModel.LearnerStore.RecordAnswerEvaluation | app/infrastructure/learner_store.py:169-430 | succeeds exactly on an admissible call; then the log and the attempts grow by this answer, field by field, and every table is the fold of the accepted log; otherwise no table changes |
| LearnerStoreModel.LearnerStore.CheckCall | app/infrastructure/learner_store.py:190-248 | the guards of a call decide admissibility |
| LearnerStoreModel.LearnerStore.AdmissibleIff | app/infrastructure/learner_store.py:190-278 | the guards written out, field by field |
| LearnerStoreModel.LearnerStore.UpdateSkill | app/infrastructure/learner_store.py:280-347 | the written row is the projection of the extended log |
| LearnerStoreModel.LearnerStore.InsertEvidence | app/infrastructure/learner_store.py:349-420 | the stored state is what a recount including the new row gives |
| LearnerStoreModel.LearnerStore.TransitionSession | app/infrastructure/learner_store.py:134-167 | moves a session exactly along the transition table |
| LearnerStoreModel.LearnerStore.CreateSession | app/infrastructure/learner_store.py:83-123 | writes event and session together for a known student, or neither |
| LearnerStoreModel.LearnerStore.CountMisconceptionEvidence | app/infrastructure/learner_store.py:493-505 | counts rows and distinct items of one misconception |
| LearnerStoreModel.SkillTableSnoc | app/infrastructure/learner_store.py:280-347 | the skill table stays the fold, for every student and skill, after one more answer |
| LearnerStoreModel.ObservationsSnoc | app/infrastructure/learner_store.py:349-420 | the evidence table stays the listing of the named misconceptions |
| Episodes.EpisodeBuilder.StartRuntimeCandidate | app/memory/episode_builder.py:183-227 | adds one candidate with exactly the given fields for an active student, otherwise changes nothing |
| Episodes.EpisodeBuilder.SelectCandidates | app/memory/episode_builder.py:242-254 | the candidates of student, session and skill, newest first |
| Episodes.EpisodeBuilder.NewestTransferCandidate | app/memory/episode_builder.py:242-265 | the newest candidate whose trigger is another item, if there is one |
| Episodes.EpisodeBuilder.CompleteRuntimeCandidate | app/memory/episode_builder.py:229-315 | resolves exactly that candidate, or rolls back for an inactive student |
| Episodes.StepKeepsInv | app/memory/episode_builder.py:85-315 | the outbox upserts are exactly the validated episodes, once each, with their final contents |
| Episodes.StepResolvesOne | app/memory/episode_builder.py:229-315 | one step resolves at most one candidate and touches no resolved episode |
| Episodes.ResolutionIsFinal | app/memory/episode_builder.py:85-315 | over any run a resolved episode never changes again |
| Episodes.ScoreReachesThresholdIff | app/domain/memory.py:136-145 | the score reaches the threshold if and only if the answer is correct with a hint level from 0 to 2 |
| Episodes.ResolutionIs | app/memory/episode_builder.py:229-315 | a resolution field by field: the awaited answer, its score of 1, 0.8, 0.5, 0.2 or 0, and validated if and only if that is at least 0.5 and the intervention has a name |
| Deletion.StepKeepsInv | app/memory/deletion.py:154-332 | status, deletion row, outbox, index and locks of every student agree after every transaction or delivery |
| Deletion.OthersUntouched | app/memory/deletion.py:154-332 | a transaction leaves the rows of every other student alone |
| Deletion.EnabledIff | app/memory/deletion.py:25-41 | when each transaction can commit, in terms of status, state, lock and rows of the student |
| Deletion.StatesAfter | app/memory/deletion.py:154-332 | what each transaction does to status, state and lock |
| Deletion.RowAfter | app/memory/deletion.py:213-268 | what it does to an outbox row: erasing leaves a fresh delete row alone, a write never resets a row, only a delivery changes one |
| Deletion.MemoryAfter | app/memory/worker.py:153-200 | what it does to a memory in the index: only deliveries change it |
| Deletion.StepMovesForward | app/memory/deletion.py:25-41 | the state moves forward along the allowed transitions only |
| Deletion.RunMovesForward | app/memory/deletion.py:25-41 | over any run; verified and failed are final |
| Deletion.RunKeepsIndexEmpty | app/memory/episode_builder.py:106-181 | after erasure no guarded write, rebuild or late delivery fills the index again |
| Deletion.DeletionNeverResurrects | app/memory/deletion.py:213-313 | active iff no deletion row, deleted iff verified; once erased only the delete row remains; once that is delivered the index stays empty |
| Deletion.FinalizationNeverRaises | app/memory/deletion.py:289-313 | a completion that began never meets the error its finalization guards against |
| Deletion.VerifiedByIndexMeansGone | app/memory/deletion.py:238-332 | a verification that asked the index means gone, for good |
| Deletion.VerifiedWithoutIndexCanKeepMemories | app/memory/deletion.py:238-246 | a run without an index handle that is reported verified while memories are still indexed |
| Deletion.IndexFollowsDeliveries | app/memory/worker.py:153-200 | over any run the index holds something of a student if and only if the last delivery about the student was one of a memory |
| Deletion.VerifiedMeansGoneIff | app/memory/deletion.py:238-332 | a verified student is gone in every later state if and only if the last delivery before the verification was not one of a memory; having asked the index, or a delete row marked delivered, is enough |
| DeletionService.MemoryDeletion.RequestDeletion | app/memory/deletion.py:154-211 | is the request step, or changes nothing |
| DeletionService.MemoryDeletion.DeletePersonalRows | app/memory/deletion.py:45-139 | the loop over the statements removes exactly the rows of the student from every table |
| DeletionService.ErasedRowsAre | app/memory/deletion.py:45-139 | which rows an erasure keeps: those of other students, for branches and items by the owner of their session |
| DeletionService.DeletionOrder | app/memory/deletion.py:45-139 | each table once, and branches and items before the sessions that name their owner |
| DeletionService.MemoryDeletion.ExecuteSqliteDeletion | app/memory/deletion.py:213-268 | is the erasing step; an illegal transition rolls rows and outbox back |
| DeletionService.MemoryDeletion.CompleteIndexDeletion | app/memory/deletion.py:238-332 | the delete row is tried once if due; verified if and only if there is no index or it can report that nothing is left; otherwise failed for a dead letter, else pending; nothing of any other student changes |
| DeletionService.MemoryDeletion.Deliver | app/memory/worker.py:153-200 | one delivery attempt is one step |
| DeletionService.MemoryDeletion.RebuildDelete | scripts/rebuild_memory_index.py:203-230 | phase one leaves only the delete row and empties the index if it is delivered |
| DeletionService.MemoryDeletion.RebuildUpserts | scripts/rebuild_memory_index.py:239-243 | phase two delivers exactly what the tables hold |
| DeletionService.MemoriesAre | scripts/rebuild_memory_index.py:30-80 | the memories to deliver are the validated episodes and the facts of the student |
| DeletionService.MemoryDeletion.RebuildStudent | scripts/rebuild_memory_index.py:170-249 | after a full rebuild the index holds exactly the memories of the student; other students are untouched |
| Migrations.Database.MigrateDatabase | app/infrastructure/migration_runner.py:51-93 | applies the pending migrations in order; stops at the first failure with its work thrown away; refuses a newer database unchanged |
| Migrations.PendingIsRest | app/infrastructure/migration_runner.py:43-75 | with a prefix applied, the pending list is the rest |
| Migrations.StepKeepsInv | app/infrastructure/migration_runner.py:51-93 | each step of concurrent runners applies at most the next migration |
| Migrations.MigrationsRunOnce | app/infrastructure/migration_runner.py:51-93 | over any run with failures and crashes the committed state is the in-order fold of a prefix |
| Migrations.SuccessIsComplete | app/infrastructure/pg.py:154-169 | after one successful run the schema is the whole fold |
| Policy.CollectReusableActions | app/agent/policy.py:157-168 | the recalled actions are the distinct reusable names in order of first appearance |
| Policy.FloorIsExecutable | app/agent/policy.py:135-450 | for every input: no repeated action, fallback allowed, every next state legal, a hard action is the only allowed one |
| Policy.ConflictRecursionEnds | app/agent/policy.py:231-264 | the recursion on conflicting strategies ends after one level |
| Policy.ConflictOnlyWidens | app/agent/policy.py:231-264 | a conflict adds the recalled actions and leaves the fallback alone |
| Policy.DifficultyStaysOnScale | app/agent/policy.py:266-450 | difficulty 1..3 stays there, moves one step at most and only as the action says |
| Policy.NextStatesFollowTable | app/agent/policy.py:14-26 | every derived next state is the one of the table, except that repeating a skill no error points at adapts practice |
| Policy.FallbackIsExplained | app/agent/policy.py:135-450 | the reason names the rule that chose the action, and episodes are cited only for a recall |
| Policy.ForcedActionIs | app/agent/policy.py:135-285 | for every input, which action is forced, with the whole decision: two minutes or less, a strategy recalled as the only one, an unmastered prerequisite, and nothing else |
| Policy.OpenChoiceIs | app/agent/policy.py:283-450 | for every input without a forced action, conflicts included, an if-and-only-if in numbers for each fallback action, its difficulty and payload, and for each action on offer |
| Policy.PromotionIsMonotone | app/domain/learner.py:102-118 | more mastery, confidence or right answers and fewer errors never take a promotion away |
| Policy.DecisionIsLegal | app/agent/policy.py:452-459 | the decision is allowed and its next state legal |
| Sessions.RunsNeverReturn | app/domain/sessions.py:34-105 | a session never returns to an earlier stage, and only practice repeats |
| Orchestrator.ChoiceIsLegal | app/agent/orchestrator.py:245-303 | the next state is legal on the policy and on the model path; a reply that names a bounded action decides, any other leaves the choice to the policy |
| Orchestrator.PolicyChoiceIs | app/agent/orchestrator.py:171-215 | end to end, the next action after an answer without a decision of the model, in numbers over the stored row, the misconception, its observations, the time left and the recalled strategies |
| Orchestrator.OnlyTheModelPromotes | app/agent/orchestrator.py:189-208 | here the difficulty is raised if and only if the model names that action: the recent answers that a promotion counts are not handed on |
| Orchestrator.NextStateIs | app/agent/orchestrator.py:74-86 | the next state of every choice of model or policy |
| Orchestrator.RecordedAnswerIs | app/agent/orchestrator.py:111-170 | the recorded answer field by field: right, weight by difficulty and hints, misconception of the wrong choice |
| Orchestrator.DecideWithModel | app/agent/orchestrator.py:259-303 | raises if and only if the reply cannot be read: an uncaught exception of the call, JSON that is no object, or an action that is an array or an object |
| Orchestrator.DecisionIsNamed | app/agent/orchestrator.py:286-298 | the model decides if and only if its reply names a bounded action, and then for that one |
| Orchestrator.BreaksIff | app/agent/orchestrator.py:286-298 | a reply breaks if and only if it cannot be read or one of the reasons of its decision is a string with a NUL or a surrogate |
| Orchestrator.SessionOrchestrator.RecordAnswer | app/agent/orchestrator.py:123-217 | succeeds exactly on an admissible answer, which is then recorded, and hands the policy the updated skill row and the counted observations; otherwise nothing changes |
| Orchestrator.SessionOrchestrator.CloseAnswer | app/agent/orchestrator.py:217-237 | logs the choice with the reasons of the model and closes with its legal transition, or changes nothing if and only if the reply breaks |
| Orchestrator.SessionOrchestrator.EvaluateAnswer | app/agent/orchestrator.py:111-237 | an answer that is not recorded changes nothing; a recorded one is decided and closed if and only if the reply does not break, else it stays stored with the session in ANSWER_EVALUATED and no agent event |
| Orchestrator.MasteryIsDefined | app/domain/learner.py:66-69 | the mastery division never divides by zero for weighed answers |
| ProposalVerifier.VerifyProposal | app/agent/hybrid.py:448-662 | guards, nested loops and early returns compute the verdict |
| ProposalVerifier.EpisodeOkForClaim | app/agent/hybrid.py:389-429 | finds no problem exactly when the episode supports the claim |
| ProposalVerifier.CheckEpisodeClaim | app/agent/hybrid.py:610-634 | the inner loop with its early return is the fold over the references |
| ProposalVerifier.CheckClaims | app/agent/hybrid.py:604-652 | the outer loop is the fold over the claims |
| ProposalVerifier.AcceptedIffSafe | app/agent/hybrid.py:448-662 | accepted if and only if guard, state, episode and content conditions hold and every claim citing the selected episode is supported |
| ProposalLaws.AcceptedIff | app/agent/hybrid.py:448-662 | accepted if and only if, written out over action, boundary, event, selected episode, selected content and the claims that cite the selection |
| ProposalLaws.RationaleIff | app/agent/hybrid.py:595-662 | on an accepted proposal the flag, written out over prohibited phrase, citations and signals |
| ProposalLaws.ReasonIs | app/agent/hybrid.py:448-634 | the reason of a rejection is the first fault in the order of the guards |
| ProposalLaws.AcceptedNotes | app/agent/hybrid.py:476-662 | which notes an accepted proposal carries, apart from those about its claims |
| ProposalVerifier.RationaleFlag | app/agent/hybrid.py:595-662 | on accepted proposals the flag is groundedness, on rejected ones the default |
| ProposalVerifier.RationaleFlagMeansGroundedIff | app/agent/hybrid.py:372-380 | the flag means grounded exactly for proposals that are accepted or grounded anyway |
| ProposalVerifier.RejectionKeepsRationaleFlag | app/agent/hybrid.py:372-380 | a rejected proposal with a prohibited phrase whose flag says accepted |
| ProposalVerifier.ClaimOrderIrrelevant | app/agent/hybrid.py:604-662 | neither verdict depends on the order of the claims |
| ProposalVerifier.BareFallbackAccepted | app/agent/hybrid.py:448-662 | proposing the bare fallback for a current event is accepted, for every input |
| ReasoningGate.SemanticReasoningNeeded | app/agent/hybrid.py:203-231 | needed exactly with two open actions; the reasons listed are exactly those that hold |
| ReasoningGate.ChooseMode | app/agent/hybrid.py:234-270 | a model is asked exactly when nothing forces the action and everything needed is available; otherwise the one reason is the first obstacle in order |
| ReasoningGate.GatePolicy | app/agent/hybrid.py:234-270 | for derived boundaries the empty-boundary answer never occurs |
| Hierarchy.PrerequisitesOf | app/knowledge/hierarchy.py:16-39 | on any graph and max_hops: the skills within reach, once each, by hop and then alphabetically |
| Hierarchy.VisitFrontier | app/knowledge/hierarchy.py:28-38 | one hop of the loop lists exactly the skills at that distance |
| Hierarchy.HopIsShortestPath | app/knowledge/hierarchy.py:16-39 | hops are shortest path lengths, in both directions |
| Hierarchy.AsDocumentedIff | app/knowledge/hierarchy.py:16-25 | the answer is the documented set of skills, the skill itself at hop 0, if and only if the limit is not 0 |
| Dedup.Deduplicate | app/ingestion/review.py:259-294 | the kept rows, the reports and the two fields written into every row |
| Dedup.FindDuplicate | app/ingestion/review.py:270-288 | the two lookups give the report of the first match |
| Dedup.KeptAreDistinct | app/ingestion/review.py:259-294 | no kept row is redundant given those before it |
| Dedup.KeptPairwise | app/ingestion/review.py:253-294 | kept rows differ in hash, and near ones of one source stay below 0.94 |
| Dedup.KeptIff | app/ingestion/review.py:253-294 | a row is dropped if and only if an earlier kept row has its hash, or has its source, shares 94 per cent of all tokens and it has five of them |
| Dedup.KeptAndDroppedPartition | app/ingestion/review.py:259-294 | kept and dropped rows partition the input |
| Dedup.ReportsMatchDropped | app/ingestion/review.py:259-294 | one report per dropped row, in order, naming a kept row |
| Dedup.ReportNamesEarlierKept | app/ingestion/review.py:269-289 | the canonical row is an earlier kept one; exact iff equal content exists |
| Dedup.DedupIdempotent | app/ingestion/review.py:259-294 | running it on the kept rows removes nothing |
| Dedup.JaccardBounds | app/ingestion/review.py:253-256 | similarity is symmetric, in 0..1, and 1 on equal nonempty sets |
| Retrieval.Rerank | app/knowledge/local_backend.py:534-593 | the scoring loop and the sort give the ranking |
| Retrieval.RankingIsSortedPermutation | app/knowledge/local_backend.py:581-593 | every candidate once with its own score, best first |
| Retrieval.RankingIsDeterministic | app/knowledge/local_backend.py:500-593 | any permutation of candidates with distinct ids has the same ranking |
| RankingLaws.EarlierHitLeads | app/knowledge/local_backend.py:552-557 | of two candidates alike in everything else an earlier full-text hit leads by 0.25 for each place, down to the fifth |
| RankingLaws.HitLeadsMiss | app/knowledge/local_backend.py:552-557 | a hit leads a miss by 1 less 0.25 for each place |
| RankingLaws.ExactSkillLeads | app/knowledge/local_backend.py:558-559 | the requested skill leads by 3 |
| RankingLaws.ExactSubskillLeads | app/knowledge/local_backend.py:560-561 | the requested subskill leads by 2 |
| RankingLaws.DifficultiesCompared | app/knowledge/local_backend.py:562-565 | a record with a difficulty gets 0.8 for the requested one, a quarter less for each step away |
| RankingLaws.ContentTypesCompared | app/knowledge/local_backend.py:566-569 | the requested content type counts 1, and a lesson or worked example 1.5 when the query asks how |
| RankingLaws.RecentlyShownTrails | app/knowledge/local_backend.py:570-571 | recently shown content trails by 1 |
| RankingLaws.NearerHopLeads | app/knowledge/local_backend.py:572-573 | within two hops each hop costs 0.48, and farther ones get nothing of the 1.2 |
| RankingLaws.MisconceptionLeads | app/knowledge/local_backend.py:574-575 | the misconception in the body leads by 1.5 |
| RankingLaws.SharedWordsCompared | app/knowledge/local_backend.py:576-579 | each shared word, up to four, counts 0.25 |
| RankingLaws.TiesAreBroken | app/knowledge/local_backend.py:582-592 | equal scores: the lower full-text place within the first six, then content id, then version |
| RankingLaws.AnnotatedIs | app/knowledge/local_backend.py:500-513 | what a candidate carries of the search: its full-text place and the place of its skill |
| Retrieval.CollectHits | app/knowledge/local_backend.py:372-385 | the entries with complete metadata among the first max_results, with their places; explicit no-result iff there is none |
| Retrieval.HitsAreUnique | app/knowledge/local_backend.py:372-385 | that description leaves one list |
| RankingLaws.AnswerIs | app/knowledge/citations.py:10-59 | an answer lists exactly the citable ones of the first max_results places, with the citable fields written out |
| Retrieval.Retrieve | app/knowledge/local_backend.py:358-385 | annotate, rerank, collect |
| Retrieval.RetrievalIsDeterministic | app/infrastructure/migrations_pg/0005_knowledge_fts.py:16 | rows keyed by content id in any order give one answer |
| Retrieval.IncompleteHidesComplete | app/knowledge/local_backend.py:372-427 | two published rows that pass the filters of the search for their skill: with max_results 1 the answer is explicit no-result although one of them is complete, because the one without a licence name ranks first |
| Parentheses.OuterPairMatches | scripts/verify_memory_parity.py:126-137 | the index scan decides whether the outer pair matches |
| Parentheses.StripOuterParentheses | scripts/verify_memory_parity.py:123-138 | strips until the outer pair does not match |
| Parentheses.WrappedIffDepthStaysPositive | scripts/verify_memory_parity.py:126-137 | matching means balanced contents, which is a depth positive until the end |
| Parentheses.StripIsMaximal | scripts/verify_memory_parity.py:123-138 | the number of pairs removed is the largest that match each other |
| Parentheses.StripResult | scripts/verify_memory_parity.py:123-138 | never wrapped, idempotent, balance kept |
| Parentheses.WrappingIsIgnoredIff | scripts/verify_memory_parity.py:123-138 | parentheses around an expression do not show in the result if and only if it is balanced |

## Left out

- HTTP routes, tokens, PostgreSQL roles and row-level security: a table is a map or a sequence, a transaction is all or nothing, and a rollback restores the saved tables.
- The DOM, the service worker and the IndexedDB wrappers; the store is a map, and `All` lists it in any order.
- Transport, prompts and the parsing of model text: a proposal is an arbitrary value, and whether the rationale contains a prohibited phrase is a field of it; a reply to the orchestrator is an arbitrary JSON value or one of the ways to have none.
- What the database refuses other than the reasons of a model, such as a NUL in an id, and lost connections.
- The rest of app/sync/service.py: integrity and size, dependencies and what applying an event does are one verdict per event, found before the duplicate check or after the sequence checks; the verdicts are arbitrary, and only `SyncDelivery.CanStillBeDelivered` chooses them. There is one student with one device.
- app/memory/worker.py and app/memory/outbox.py beyond one delivery attempt: claiming, leases and retry delays; a delivery is one step, and the step relation allows it at any time.
- Clocks, uuids and random numbers are parameters; "fresh" is a precondition of enqueueing, and times are integers.
- Floating point: weights, masteries, scores and similarities are reals, and rounding is not modelled.
- Wording checks of `verify_explanation` and `verify_summary`, token revalidation, staleness decay, temporary offline mastery, question picking and hint decisions: independent guards or small pure functions that add no harder property.
- Text normalisation, tokenising and lower-casing: the words of a query, a body or an identity text are given, and so are the digests of `Dedup`; rows carry a source id.
- UTF-8 encoding of the hashed text: `Sha256` starts from bytes and `CanonicalJson` ends with code units.
- Functions, symbols, big integers, holes in arrays and objects with `toJSON` in a payload; `-0` is the integer 0.
- The digits of floats: a float is the text that JavaScript prints for it, and what Python prints for it is a function on texts, of which `JsonTransport` asks that it prints a float and reads its own text back unchanged.
- The texts of failure codes: an HTTP status or a server code is kept as one word.
- `localeCompare` of event ids is taken to be the order of code units.
- `store.put` and `store.delete` that fail: a crash between two operations is modelled, an error of the store itself is not.
- The SQL of the search before its result rows, and the query expansion: rows, full-text hits and expanded skills are arguments of `Retrieve`.
- Two episodes created at the same instant: the order between them is that of the episode ids, where the query leaves it open.
- `build_candidate`, fact promotion and intervention statistics.
- Legacy mastery imports, snapshots and reports.
- Which migration files exist: the list is fixed, and a migration is a function on schemas.
