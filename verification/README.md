# Verified model of the employee-records backend

A Dafny model of the stateful core of the backend, with proofs of what it promises over whole runs. `dafny verify dfyconfig.toml` checks all of it.

The model has four parts.

**The transactional outbox** (`OutboxModel`, `OutboxProtocol`, `OutboxDelivery`, `OutboxExclusion`, `OutboxLifecycle`, `OutboxDispatcher`, `Projections`, `IsoTimestamp`). `OutboxProtocol` is a step system: events are added, workers fetch batches, lock, run handlers, mark, crash and replay, in any interleaving, on one monotone clock. The projections are functions from events to rows. `OutboxDispatcher` is the same protocol as classes over mutable collections; every add, drain and replay extends one history of steps from the empty outbox that leads to the present collections, so everything proved about runs of one dispatcher holds of them (`OutboxDispatcher.CollectionsSound` and `OutboxDispatcher.CollectionsBoundWork` say so for two results). Handlers and `mark_sent` may end in any of three ways; a record of the replies says which, and a drain is specified by them. Subscribers are registered before the dispatcher is made. Two settings are kept apart. With any number of workers the model claims mutual exclusion under a deadline discipline and the safety of the read models; the row lifecycle is claimed for one dispatcher, because the lock does not look at the status and the marks are not fenced. A `mark_sent` may take effect and then raise anywhere; only the finality of SENT and mutual exclusion depend on it, and both say how.

**Master data** (`MasterVersioning`). Read the newest active version, insert the next one, supersede the old one: three steps that interleave freely with those of other writers, with the unique (code, version) index as compare-and-set.

**The document store** (`DocumentStore`, `DocumentHistory`, `DocumentFamilies`, `DocumentService`, `VersionChain`, `Retention`, `Signature`, `DocumentMetadata`, `AttachCompensation`). The metadata rows, the DOCUMENT and ARCHIVE buckets and the signature requests are one state; attach, delete, lock, hold, sweep and signature actions are its steps, each with the crashes inside it. `DocumentStore` reduces every step to one change per file; `DocumentHistory` and `DocumentFamilies` prove what all runs keep; `DocumentService` is the same store as a class whose methods take exactly these steps. `AttachCompensation` works on raw rows, below the normalised view, with a fault at any point of the upload and of the try block.

**Data migrations** (`EventBackfill`, `TruthBoundary`, `EmployeeCode`, `EmployeeCodeMigration`, `ServiceBookRewrites`, `ServiceBookCutover`). Each script is modelled as loops over collections and proved against a specification whose laws are proved separately. The unique indexes that `backend/app_platform/db/runtime.py` puts on record ids and employee codes are part of the model, so a run may raise in the middle; what it leaves is stated.

`Prelude` and `Text` hold the option and result types, whitespace stripping, case folding, the code-point order of strings, and decimal fields.

## Where the code and its own words differ

- The head comment of `backend/contexts/documents/infrastructure/retention_job.py:4-6` says that superseded rows with successors are never touched. The code has no such check; the model follows the code, and `DocumentFamilies.SupersedesForest` therefore speaks of present predecessors only.
- The same comment calls the job idempotent. `DocumentService.SecondRunIdle` gives the exact condition: it fails for delete delays below one day. A sweep that dies between moving the blob and dating the row leaves an archived document that the next sweep marks "missing" (`DocumentHistory.SweepResumes`).
- Even with one dispatcher SENT is not final: a `mark_sent` that takes effect and then raises leads to a failure of the SENT row (`OutboxLifecycle.LostReplyUndoesSent`), and with one dispatcher no other SENT row ever leaves it (`OutboxLifecycle.SentIsLeftIffHeld`).
- The lock does not exclude by its deadline alone: after such a reply two workers can publish one event with no deadline passed (`OutboxExclusion.LostReplyBreaksExclusion`).
- The rollback of an attach restores what can be read, except for a predecessor whose stored row is not settled (`AttachCompensation.BlankNameNotRestored`); a failure at the scan event of the upload, outside the try block, leaves the uploaded row and blob.
- The local version traversal returns nothing for an absent identifier, the Mongo one the rows that descend from it (`VersionChain.PathsAgreeOnAbsent`).
- A payload with a denied key in a list inside a list is reported by the check and not cleaned by the sanitiser (`TruthBoundary.NestedListsKeepTheirKeys`).
- The backfill looks stored ids up stripped and inserts them unstripped: an id with a blank in front makes the second run raise on the unique index (`EventBackfill.PaddedIdStopsTheSecondRun`).
- Planning employee codes again can swap two employees who agree in engagement date and creation time (`EmployeeCode.LettersCanSwapTies`). Where a new code is still another employee's present one, the migration stops at the unique index, or, before a runtime has put it there, passes documents on to the wrong employee (`EmployeeCodeMigration.HeldCodeStops`).

## Model

| member | source | states |
|---|---|---|
| `IsoTimestamp.IsoOrderIsTimeOrder` | backend/app_platform/outbox/repo.py:64-86 | For all UTC instants of the years 1 to 9999, comparing `isoformat()` strings is comparing instants, also when a zero microsecond drops the fraction. |
| `OutboxModel.TotalBackoffClosedForm` | backend/app_platform/outbox/repo.py:133-139 | The delays before attempts 2 to n add up to 2^(n-1)-1 seconds for n <= 13 and to 4095+3600*(n-13) seconds above. |
| `OutboxDispatcher.OutboxRepository.AddEvent` | backend/app_platform/outbox/repo.py:42-48 | One fresh PENDING row is added exactly when no row has the id and, for an event with a key, none has its name, version and key; otherwise nothing changes, and a new key on a known id is reported. |
| `OutboxDispatcher.OutboxRepository.GetPending` | backend/app_platform/outbox/repo.py:58-90 | Returns PENDING and FAILED rows with attempts left, next date reached and no lock in force, and no others, each once, oldest first; what it leaves out of these is no older, and nothing is left out unless the batch is full. |
| `OutboxDispatcher.OutboxRepository.LockForProcessing` | backend/app_platform/outbox/repo.py:92-107 | Compare-and-set on `locked_until`: true exactly when the row was free or its deadline strictly past; only that row changes. |
| `OutboxDispatcher.OutboxRepository.MarkSent` | backend/app_platform/outbox/repo.py:109-119 | Unless it raises before the write: SENT, lock and error cleared, attempts kept; an unknown id changes nothing. It may also raise after the write. |
| `OutboxDispatcher.OutboxRepository.MarkFailed` | backend/app_platform/outbox/repo.py:121-155 | One attempt more, the error noted, the lock given back; FAILED with the date min(3600, 2^attempts so far) seconds ahead, or DEAD_LETTER without one exactly when the limit is reached. |
| `OutboxDispatcher.OutboxRepository.GetSent` | backend/app_platform/outbox/repo.py:157-168 | Returns SENT rows of the wanted names only, each once, oldest first, all of them unless the batch is full. |
| `OutboxDispatcher.EventBus.Publish` | backend/app_platform/event_bus/bus.py:20-25 | Runs the handlers of the name in order of subscription, each reaching the read models once, up to the first that raises. |
| `OutboxDispatcher.EventBus.Subscribe` | backend/app_platform/event_bus/bus.py:17-18 | Appends one handler under one name and leaves the other names alone. |
| `OutboxDispatcher.ReadModelStore.AppendEntry` | backend/contexts/documents/repository/audit_timeline_repository.py:50-61 | Inserts the entry unless its event has one; no entry ever changes. |
| `OutboxDispatcher.ReadModelStore.InsertAuditLog` | backend/contexts/audit/repository/audit_repository.py:6-23 | Inserts the row unless one has its event, action and resource type. |
| `OutboxDispatcher.RegisterDocumentsSubscribers` | backend/contexts/documents/application/subscribers.py:66-67 | The timeline handler is appended once under each of the document event names, and under no other. |
| `OutboxDispatcher.OutboxDispatcher.DrainOnce` | backend/app_platform/outbox/dispatcher.py:32-64 | The batch is the oldest due rows, all of them unless it is full; each of its events with an id is attempted once, in order; a row ends SENT exactly when no handler and not the mark of its attempt raised, and failed with that error otherwise; read models and the record of all replies are what the attempts make of them, every other row stays, and the history of the outbox is extended by steps of one dispatcher. |
| `OutboxDispatcher.OpenRowIsAttempted` | backend/app_platform/outbox/dispatcher.py:32-64 | A row that is PENDING or FAILED with attempts left, unlocked and with its date reached, is attempted by a drain unless the batch is full; a SENT or DEAD_LETTER row stays as it is. |
| `OutboxDispatcher.OutboxDispatcher.RunForever` | backend/app_platform/outbox/dispatcher.py:66-70 | Drain, pause, and whatever services add meanwhile, as often as the loop runs: the drains are chained, the pauses last at least the interval, and if as many drains as there are attempts find room in the batch, all dates reached and all locks run out, every row with an id that was there is SENT or DEAD_LETTER. |
| `OutboxDispatcher.RetriesEnd` | backend/app_platform/outbox/dispatcher.py:66-70 | That many such drains, among any others and with any arrivals, end every row that has an id in SENT or DEAD_LETTER: failures come back until they are done. |
| `OutboxDispatcher.OutboxDispatcher.AddEvent` | backend/app_platform/outbox/repo.py:42-48 | An add between drains extends the same history, so a drain may follow it. |
| `OutboxDispatcher.OutboxDispatcher.ReplaySent` | backend/app_platform/outbox/dispatcher.py:86-123 | The batch is the oldest SENT rows of the wanted names, all of them unless it is full; exactly its events with an id are published, in order; the result counts the publishes in which no handler raised; outbox and read models stay as they are. |
| `OutboxDispatcher.ReplayIsInvisible` | backend/app_platform/outbox/dispatcher.py:103-123 | Publishing any SENT events again, whichever handlers raise, leaves the read models as they are. |
| `OutboxDispatcher.CollectionsSound` | backend/app_platform/outbox/dispatcher.py:32-123 | After any sequence of adds, drains and replays, on the collections themselves: statuses fit attempts, a SENT event with the timeline handler is on the timeline, every timeline row is the row of an outbox event, and none repeats. |
| `OutboxDispatcher.CollectionsBoundWork` | backend/app_platform/outbox/dispatcher.py:32-64 | After any such sequence the attempts completed are at most the number of outbox rows times max_attempts. |
| `OutboxDispatcher.PublishIsRun` | backend/app_platform/event_bus/bus.py:20-25 | A publish with given handler outcomes is exactly the corresponding sequence of handler steps. |
| `Projections.DeliverKeepsProjected` | backend/contexts/documents/application/subscribers.py:30-64 | If the read models are the image of the set of deliveries, they still are after one more delivery, repeated or not. |
| `Projections.TimelineRowShows` | backend/contexts/documents/application/subscribers.py:31-64 | An event has a timeline row exactly when its payload names a document or a file, and the row is then the one that tells of it: document and file name stripped, each standing in for the other, the first of nine times that is there or else the event's own, and name, actor, department and payload of the event. |
| `Projections.AuditRowShows` | backend/contexts/audit/application/subscribers.py:13-70 | The audit row of an event is the one row that tells of it: action by name, kind and id of the thing by the beginning of the name, the actor or "system". |
| `Projections.ActionsSay` | backend/contexts/audit/application/subscribers.py:14-38 | The 23 event names that have an action of their own, and which. |
| `Projections.RedeliveryChangesNothing` | backend/contexts/documents/repository/audit_timeline_repository.py:50-61 | A delivery made before leaves timeline and audit log as they are. |
| `Projections.SameDeliveriesSameReadModels` | backend/contexts/audit/repository/audit_repository.py:12-22 | Two read models built from the same set of deliveries, in whatever order and number, hold the same rows. |
| `OutboxProtocol.RunConsistent` | backend/app_platform/outbox/dispatcher.py:32-123 | In every interleaving of any number of workers, crashes and replays, rows are never lost and every copy of an event is the event of its row. |
| `OutboxDelivery.ExactlyOncePerEvent` | backend/app_platform/outbox/dispatcher.py:54-64 | In every run each event has at most one timeline row and each audit key one audit row; every row names an outbox event and tells of it field by field; every delivered event that names a document, and every one delivered to the audit log, is told of; every SENT event has had every subscribed handler complete. |
| `OutboxDelivery.SentEventIsOnTheTimeline` | backend/contexts/documents/application/subscribers.py:30-64 | In every run a SENT event whose name has the timeline handler, and whose payload names a document or file, has a timeline row that tells of it. |
| `OutboxDelivery.SentEventIsAudited` | backend/contexts/audit/application/subscribers.py:12-70 | In every run a SENT event whose name has the audit handler has an audit row that tells of it. |
| `OutboxDelivery.OrderAndRepetitionDoNotMatter` | backend/app_platform/outbox/dispatcher.py:86-123 | Two runs that delivered the same events, however often and in whatever order, end with the same read models. |
| `OutboxDelivery.ReplayOfSentIsInvisible` | backend/app_platform/outbox/dispatcher.py:86-123 | In every run, a replay step of any worker changes no read model and no outbox row, whichever handler raises and whatever became of the rows since they were read as SENT. |
| `OutboxDelivery.IdempotencyKeysStayUnique` | backend/app_platform/outbox/repo.py:42-48 | In every run no two rows share an idempotency key. |
| `OutboxExclusion.AtMostOneHolder` | backend/app_platform/outbox/repo.py:92-107 | With any number of workers on shared stale batches: if workers that do not crash finish with an event by their own deadline, and no holder of it has its `mark_sent` take effect and then raise, at most one is between lock and mark of that event. |
| `OutboxExclusion.AbandonedLockOutlivesCrash` | backend/app_platform/outbox/repo.py:96-106 | Under the same two conditions on the event, the lock of a crashed worker is not taken until strictly after its deadline. |
| `OutboxExclusion.SecondLockIffOverrun` | backend/app_platform/outbox/repo.py:92-107 | A second worker can lock a held event exactly when the holder has overrun its deadline. |
| `OutboxExclusion.OverrunBreaksExclusion` | backend/app_platform/outbox/dispatcher.py:41-64 | A run in which a worker overruns and two workers publish one event at the same time. |
| `OutboxExclusion.LostReplyBreaksExclusion` | backend/app_platform/outbox/dispatcher.py:54-64 | The second condition is needed: a run that ends at time 0, no deadline passed, with two workers publishing one event, after a third one lost the reply of its `mark_sent` and marked the row failed. |
| `OutboxLifecycle.RowAccounting` | backend/app_platform/outbox/repo.py:109-155 | In every run of one dispatcher: PENDING has 0 attempts, FAILED 1 to max-1 and a next date, DEAD_LETTER exactly max; locks = attempts + (1 if SENT) + interrupted locks + the lock held now, less 1 where a `mark_sent` took effect, raised and still stands. |
| `OutboxLifecycle.FailedRowIsDated` | backend/app_platform/outbox/repo.py:132-153 | In every run of one dispatcher a FAILED row has as its next date the time of its last failure and min(3600, 2^(attempts-1)) seconds. |
| `OutboxLifecycle.FailedRowComesBack` | backend/app_platform/outbox/repo.py:67-88 | Unless a lock is in force, an idle dispatcher may fetch that row from this date on and not before. |
| `OutboxLifecycle.OpenRowIsFetched` | backend/app_platform/outbox/repo.py:65-88 | In every run of one dispatcher a row that is neither SENT nor DEAD_LETTER, unlocked and with its date reached, may be fetched by an idle dispatcher. |
| `OutboxLifecycle.DeadLetterTakesTheWholeBackoff` | backend/app_platform/outbox/repo.py:132-153 | In every run of one dispatcher on a monotone clock, dead letter comes no sooner after the first failure than the sum of all backoff delays, in closed form. |
| `OutboxLifecycle.TerminalForever` | backend/app_platform/outbox/repo.py:109-155 | With one dispatcher, a row that is SENT or DEAD_LETTER at the end of a run in which no `mark_sent` took effect and raised never changes again, whatever happens afterwards. |
| `OutboxLifecycle.DeadLetterForever` | backend/app_platform/outbox/repo.py:121-155 | With one dispatcher a DEAD_LETTER row never changes again, in every run. |
| `OutboxLifecycle.SentIsLeftIffHeld` | backend/app_platform/outbox/dispatcher.py:55-64 | With one dispatcher, some continuation makes a SENT row anything else if and only if the dispatcher still holds the row, which it does only after a `mark_sent` that took effect and raised. |
| `OutboxLifecycle.LostReplyUndoesSent` | backend/app_platform/outbox/dispatcher.py:55-64 | A `mark_sent` that takes effect and then raises leads to a FAILED row: SENT is left. |
| `OutboxLifecycle.AttemptsUsePotential` | backend/app_platform/outbox/repo.py:121-155 | Each completed attempt lowers what is left of the attempts over all rows, lost replies included; no step but an add raises it, and an add by at most max. |
| `OutboxLifecycle.WorkIsBounded` | backend/app_platform/outbox/dispatcher.py:32-64 | N events cost at most N * max completed attempts, counting with them the standing marks whose reply was lost, in every run of one dispatcher. |
| `MasterVersioning.VersionsAreConsecutive` | backend/app_platform/db/runtime.py:605-626 | Under any interleaving of create, update and deprecate steps and crashes, the versions of a code are exactly 1 to n, each once, and version n is active. |
| `MasterVersioning.NeighboursLinked` | backend/app_platform/reference_data/api/versioning_helpers.py:101-124 | `previous_version_id` always names the version below; `superseded_by` of an inactive version names the version above. |
| `MasterVersioning.NewestIsSequentialOutcome` | backend/app_platform/reference_data/api/versioned_router.py:418-428 | The newest record is what the successful inserts, taken one after another in version order, make of each other. |
| `MasterVersioning.VersionsAreEdits` | backend/app_platform/reference_data/api/versioning_helpers.py:32-98 | In every run version 1 holds what was created, and each later version differs from the one below exactly as its operation says: an update overrides name, description and metadata keys that it gives, a deprecation sets its four keys, and all else is kept. |
| `MasterVersioning.ReadableIffNamed` | backend/app_platform/reference_data/api/versioned_router.py:58-70 | A record can be read, and so revised, exactly when it has a code and a name to show. |
| `MasterVersioning.OneActiveIffNothingAwaited` | backend/app_platform/reference_data/api/versioned_router.py:418-428 | Exactly one record of a code is active if and only if no successful insert still owes (or by a crash never made) its supersede step. |
| `MasterVersioning.SecondInsertLoses` | backend/app_platform/db/runtime.py:605-626 | Of two writers that read the same version, the second insert fails on the unique index. |
| `MasterVersioning.IdsStayUnique` | backend/app_platform/reference_data/api/versioning_helpers.py:42-44 | Record ids are unique in every run. |
| `MasterVersioning.MasterCollection.FindNewestActive` | backend/app_platform/reference_data/api/versioned_router.py:198-208 | Returns the active record of the highest version, none exactly when no version is active. |
| `MasterVersioning.MasterCollection.InsertOne` | backend/app_platform/reference_data/api/versioned_router.py:357-357 | Inserts unless (code, version) is taken; then nothing changes. |
| `MasterVersioning.MasterCollection.CreateMasterRecord` | backend/app_platform/reference_data/api/versioned_router.py:331-357 | Refused as existing exactly when the stripped upper-case code has an active record; otherwise version 1 is stored as given, unless it is taken; a success is the uninterrupted run of check and insert, a refusal changes nothing. |
| `MasterVersioning.MasterCollection.ReviseMasterRecord` | backend/app_platform/reference_data/api/versioned_router.py:391-428 | Not found exactly when no version is active; a success stores the next version, edited field by field as the patch says and linked to the newest active one, which it supersedes; it is the uninterrupted run of read, insert and supersede; a refusal changes nothing. |
| `VersionChain.ListVersionChain` | backend/contexts/documents/repository/metadata_repository.py:376-430 | On every store with the version invariant the worklist ends and returns, sorted by version and without repetition, the connected component under supersedes links; for an absent id the rows that descend from it. |
| `VersionChain.VersionChainLocal` | backend/contexts/documents/repository/metadata_repository.py:434-462 | The local loop ends on every store and returns the same component, nothing for an absent id. |
| `VersionChain.ComponentUnique` | backend/contexts/documents/repository/metadata_repository.py:376-462 | The component is unique, so both paths return the same rows. |
| `VersionChain.PathsAgreeOnAbsent` | backend/contexts/documents/repository/metadata_repository.py:441-442 | For an absent id the two paths agree exactly when no row supersedes it. |
| `VersionChain.UnbranchedVersionsConsecutive` | backend/contexts/documents/repository/metadata_repository.py:427-430 | Where no document is superseded twice, the listed versions are consecutive. |
| `VersionChain.WalkEndsIffNoCycle` | backend/contexts/documents/repository/metadata_repository.py:403-406 | On any store the Mongo backward walk ends if and only if it meets no cycle. |
| `VersionChain.VersionedWalkEnds` | backend/contexts/documents/repository/metadata_repository.py:403-406 | With the version invariant it always ends. |
| `DocumentStore.StepIsChange` | backend/contexts/documents/infrastructure/storage_ops.py:558-616 | Seen from one file, every action, crashed or not, is one change that its guard permits, and leaves the history in step with it. |
| `DocumentStore.RunSound` | backend/contexts/documents/infrastructure/retention_job.py:91-153 | In every run: blobs keep the uploaded bytes, an archived row has no blob in DOCUMENT, a held row has one, an archive date respects the archive delay. |
| `DocumentHistory.HoldSafety` | backend/contexts/documents/infrastructure/lock_ops.py:83-208 | Whenever a row is held its blob is in DOCUMENT and it is not archived; and until its release no run removes it, touches its blob or changes identifier, version, link or currency. |
| `DocumentHistory.RemovedInTime` | backend/contexts/documents/infrastructure/retention_job.py:54-76 | In every run a sweep drops a row or its archived blob only at or after upload + archive delay + delete delay. |
| `DocumentHistory.BytesStay` | backend/contexts/documents/infrastructure/retention_job.py:100-120 | Every crash point of `_archive` leaves the bytes in DOCUMENT or ARCHIVE while the row exists. |
| `DocumentStore.TornHasNoBlob` | backend/contexts/documents/infrastructure/storage_ops.py:612-616 | In every run a file whose deletion was cut short has no blob in DOCUMENT, and gets none again. |
| `DocumentHistory.SecondSweepIdle` | backend/contexts/documents/infrastructure/retention_job.py:54-76 | A second sweep of a row at the same instant does nothing, exactly unless the first archived it and its delete delay is not positive. |
| `DocumentHistory.SweepResumes` | backend/contexts/documents/infrastructure/retention_job.py:100-120 | A sweep cut short and run again ends as the uninterrupted one, except that a moved but unmarked document is marked "missing". |
| `DocumentHistory.CompletedMeansLocked` | backend/contexts/documents/application/signature_service.py:98-110 | In every run every signature request is in shape, and a COMPLETED one has its document locked or gone from DOCUMENT. |
| `DocumentHistory.LocksLast` | backend/contexts/documents/domain/validation.py:303-305 | A lock is never cleared while the row remains, and when the row goes the blob is gone. |
| `DocumentFamilies.SupersedesForest` | backend/contexts/documents/application/commands.py:176-214 | In every run identifiers are unique, a row with a present predecessor is one version above it, and the predecessor is not current unless the attach died in between. |
| `DocumentFamilies.SupersededIsNotCurrent` | backend/contexts/documents/application/commands.py:230-232 | Without a crash inside an attach, no row that a present row supersedes is current. |
| `DocumentFamilies.HalfDoneAttachLeavesTwoCurrent` | backend/contexts/documents/application/commands.py:225-232 | An attach that dies between its two writes leaves both the new and the superseded row current. |
| `DocumentFamilies.TraversalMayRely` | backend/contexts/documents/repository/metadata_repository.py:403-406 | The store of every run meets the invariant under which the version traversal ends. |
| `DocumentService.Store.FindByDocumentId` | backend/contexts/documents/repository/metadata_repository.py:128-150 | Finds a row with the identifier, none exactly when there is none. |
| `DocumentService.Store.Attach` | backend/contexts/documents/application/commands.py:176-232 | The checks on the superseded document and their order; success is exactly the attach step, refusal changes nothing. |
| `DocumentService.Store.DeleteDocument` | backend/contexts/documents/infrastructure/storage_ops.py:573-616 | Deletes exactly when the blob exists and the row is neither held, locked nor superseded; refusal changes nothing. |
| `DocumentService.Store.LockDocuments` | backend/contexts/documents/infrastructure/lock_ops.py:25-56 | Under the statuses APPROVED and APPLIED, in any case, locks exactly the listed files that have a plain name and a blob, making a row where there is none; under any other status none. |
| `DocumentService.Store.ApplyLegalHold` | backend/contexts/documents/infrastructure/lock_ops.py:94-120 | Sets the hold with its stripped reason; applying it again keeps the first time and author; all other fields stay. |
| `DocumentService.Store.ReleaseLegalHold` | backend/contexts/documents/infrastructure/lock_ops.py:165-189 | Answers whether there was a hold; if so the row is no longer held and otherwise as before, if not nothing changes. |
| `DocumentService.Store.ArchiveDocument` | backend/contexts/documents/infrastructure/retention_job.py:91-120 | Moves the blob to ARCHIVE and dates the row; without a blob marks it missing. |
| `DocumentService.Store.PermanentDelete` | backend/contexts/documents/infrastructure/retention_job.py:139-153 | Drops the archived blob and the row. |
| `DocumentService.Store.RunRetention` | backend/contexts/documents/infrastructure/retention_job.py:35-78 | Exactly the rows whose upload lies the archive delay of the governing policy back are archived, with their bytes moved; exactly those whose archive date lies its delete delay back are gone; held rows and all other files stay; the counters are the numbers of archived, deleted, held and ungoverned rows. |
| `DocumentService.SweepIsByDates` | backend/contexts/documents/infrastructure/retention_job.py:42-76 | What a sweep does to one file, by the dates and delays alone. |
| `DocumentService.SecondRunIdle` | backend/contexts/documents/infrastructure/retention_job.py:54-76 | A second whole sweep at the same instant changes no file, if and only if no row that the first one archived has a delete delay below one day. |
| `DocumentService.Store.CreateRequest` | backend/contexts/documents/application/signature_service.py:50-71 | Succeeds exactly for an existing blob and valid signers, and stores a pending request with those signers. |
| `DocumentService.Store.Sign` | backend/contexts/documents/application/signature_service.py:82-111 | Goes through exactly for the employee the pending request waits for; notes time and file with that signer; the last signature completes the request and locks the document, and nothing else is touched. |
| `DocumentService.Store.Decline` | backend/contexts/documents/application/signature_service.py:121-138 | Goes through exactly for that employee; notes time and stripped reason and declines the request. |
| `DocumentService.Store.Cancel` | backend/contexts/documents/application/signature_service.py:147-161 | Goes through exactly for a pending request and a caller who is allowed, and cancels it. |
| `Retention.SelectGoverns` | backend/contexts/documents/domain/retention.py:28-64 | The sort-based choice is the first policy with the fewest stars among those whose three values are stars or equal the subject's, blanks and case apart; none exactly when there is no such policy. |
| `Signature.ValidateSigners` | backend/contexts/documents/domain/signature_request.py:67-83 | Accepts exactly non-empty lists of objects with distinct non-blank ids, reports the first problem otherwise. |
| `Signature.NewRequestShaped` | backend/contexts/documents/application/signature_service.py:60-71 | A request from validated signers starts with no one signed and the signers distinct. |
| `Signature.AttemptKeepsShape` | backend/contexts/documents/domain/signature_request.py:86-95 | A successful act comes from the next signer; signing extends the signed prefix, COMPLETED exactly when all signed, DECLINED exactly when that signer declined. |
| `Signature.SignWrites` | backend/contexts/documents/domain/signature_request.py:86-95 | A signature goes through exactly for the first signer who has neither signed nor declined of a pending request, and writes what the source writes. |
| `Signature.DeclineWrites` | backend/contexts/documents/domain/signature_request.py:86-95 | The same for a refusal to sign. |
| `Signature.TerminalAbsorbs` | backend/contexts/documents/domain/signature_request.py:86-88 | COMPLETED, DECLINED and CANCELLED admit no further act. |
| `Signature.OneEmployeeMayAct` | backend/contexts/documents/domain/signature_request.py:89-95 | A pending request admits exactly one employee. |
| `Signature.AtMostOneSuccessPerSigner` | backend/contexts/documents/domain/signature_request.py:86-95 | However many acts are tried, at most as many succeed as there are signers. |
| `Signature.ListPendingForSigner` | backend/contexts/documents/repository/signature_request_repository.py:61-82 | Returns only pending requests whose turn it is, and all of them while the 500-row limit is not reached. |
| `Signature.PendingIsOneTurn` | backend/contexts/documents/repository/signature_request_repository.py:79-81 | A pending request is the turn of exactly one employee, who is among its signers. |
| `DocumentMetadata.NormalizeTwice` | backend/contexts/documents/repository/metadata_repository.py:542-591 | Normalising twice equals normalising once if and only if filename, identifier and original name are not blank and no lock field is falsy with a text. |
| `DocumentMetadata.NormalizeSays` | backend/contexts/documents/repository/metadata_repository.py:542-591 | The normalised row, field by field: which fields it has, how texts are stripped and cased, what stands in for names, the bounds of the numbers, and when the flags are set. |
| `DocumentMetadata.ShowExamples` | backend/contexts/documents/repository/metadata_repository.py:698-704 | How values that are no strings are written out and read as numbers. |
| `DocumentMetadata.ViewIsSettled` | backend/contexts/documents/repository/metadata_repository.py:542-591 | What a read returns meets that condition. |
| `DocumentMetadata.TagListSound` | backend/contexts/documents/repository/metadata_repository.py:671-685 | Tags come out ascending, distinct, exactly the cleaned non-empty entries, and stay so. |
| `DocumentMetadata.NormalizeTagList` | backend/contexts/documents/repository/metadata_repository.py:671-685 | The loop with its seen set computes that list. |
| `AttachCompensation.Documents.Upsert` | backend/contexts/documents/repository/metadata_repository.py:152-164 | Merges the normalised row field by field into the stored one. |
| `AttachCompensation.Documents.Upload` | backend/contexts/documents/infrastructure/storage_ops.py:339-405 | Blob, row, event; a failed row write takes the blob back, a failed event leaves both; the scan event is published exactly by a completed upload. |
| `AttachCompensation.Documents.Attach` | backend/contexts/documents/application/commands.py:216-327 | A failure anywhere in the try block leaves the bucket as before and every read view as before, the predecessor if and only if its stored row is settled; without one, the new views, and the events in order. |
| `AttachCompensation.WriteThenRead` | backend/contexts/documents/repository/metadata_repository.py:152-164 | Writing settled data over a row and reading gives the normalised data, whatever was stored. |
| `AttachCompensation.FailureRestores` | backend/contexts/documents/application/commands.py:322-327 | Wherever the try block stopped, each read view is restored, the predecessor exactly when its stored row is settled. |
| `AttachCompensation.SuccessReads` | backend/contexts/documents/application/commands.py:225-232 | Without a failure the new file, its predecessor and all others read as the attach says. |
| `AttachCompensation.NewFileSays` | backend/contexts/documents/application/commands.py:219-223 | The new file then shows the fields of the caller, cleaned, and otherwise those of its upload. |
| `AttachCompensation.PredecessorSays` | backend/contexts/documents/application/commands.py:225-227 | The predecessor then is not current and otherwise as before. |
| `AttachCompensation.BlankNameNotRestored` | backend/contexts/documents/application/commands.py:325-326 | A stored original name of one blank is not restored: it reads as the filename afterwards. |
| `EventBackfill.Collections.Backfill` | backend/scripts/mongodb/service_event_records_backfill_support.py:94-174 | The nested loops compute the specified records, stream rows and counters, dry runs included; where the unique index refuses a record the run raises and what was written before stays. |
| `EventBackfill.Collections.InsertMany` | backend/app_platform/db/runtime.py:483-487 | Inserts in order up to the first record whose id is stored already, and says whether there was one. |
| `EventBackfill.Collections.SortEvents` | backend/scripts/mongodb/service_event_records_backfill_support.py:116-149 | Sorts the events of a stream into valid, unstored, repeated and unnamed. |
| `EventBackfill.EveryEventCounted` | backend/scripts/mongodb/service_event_records_backfill_support.py:102-147 | events_found = written + existing + duplicate + missing, always. |
| `EventBackfill.RecordsTell` | backend/scripts/mongodb/service_event_records_backfill_support.py:17-31 | Every record that a run has written tells of one event of one stream, the first under its stripped id: employee, position from 1, dates of the range or else of the event, stamp. |
| `EventBackfill.StreamRowTells` | backend/scripts/mongodb/service_event_records_backfill_support.py:34-47 | The stream row counts the distinct ids of the stream and bears the latest of the stamps; other rows stay. |
| `EventBackfill.IdsStayUnique` | backend/app_platform/db/runtime.py:483-487 | Record ids stay unique across streams and runs, wherever a run raises. |
| `EventBackfill.IdsAfter` | backend/scripts/mongodb/service_event_records_backfill_support.py:166-172 | After a run that does not raise the stored ids, stripped, are the old ones and those of the legacy events of streams with an employee; unstripped, the same holds of ids without blanks around them. |
| `EventBackfill.TrimmedNeverRaises` | backend/scripts/mongodb/service_event_records_backfill_support.py:140-172 | A run over ids without blanks around them never raises, whatever is stored. |
| `EventBackfill.SecondRunIdle` | backend/scripts/mongodb/service_event_records_backfill_support.py:122-149 | After a run that did not raise, a second run writes no record; it raises if and only if some stripped legacy id was neither stored before nor occurs without blanks; with trimmed ids never. |
| `EventBackfill.PaddedIdStopsTheSecondRun` | backend/scripts/mongodb/service_event_records_backfill_support.py:122-172 | One id with a blank in front: the first run stores it, the second raises on the index and leaves the records as they are. |
| `EventBackfill.VerifyCutover` | backend/scripts/mongodb/service_event_records_backfill_support.py:204-254 | The verifier computes the seven data checks. |
| `EventBackfill.BackfillMeetsItsCheck` | backend/scripts/mongodb/service_event_records_backfill_support.py:269-277 | After a full run into empty collections all data checks hold if and only if every legacy event has an id, ids are globally unique, and none lies in a stream without employee; and then the run has not raised. |
| `TruthBoundary.PathsIffDenied` | backend/scripts/mongodb/service_book_truth_boundary_cleanup_support.py:67-83 | A path is reported exactly when a denied key occurs at some depth. |
| `TruthBoundary.PathsAreReported` | backend/scripts/mongodb/service_book_truth_boundary_cleanup_support.py:67-83 | The reported texts are exactly the written forms of the paths that lead to a denied key and pass none before. |
| `TruthBoundary.DeniedSomewhere` | backend/scripts/mongodb/service_book_truth_boundary_cleanup_support.py:67-83 | A denied key occurs at some depth exactly when some path leads to one. |
| `TruthBoundary.DeniedExactly` | backend/scripts/mongodb/service_book_truth_boundary_cleanup_support.py:13-42 | Which keys are denied, blanks and case apart. |
| `TruthBoundary.ClassifySays` | backend/scripts/mongodb/service_book_truth_boundary_cleanup_support.py:86-118 | Four kinds of events are deleted; approved events and two manual kinds are sanitised exactly if some path in the payload leads to a denied key; nothing else is touched. |
| `TruthBoundary.AfterEntrySays` | backend/scripts/mongodb/service_book_truth_boundary_cleanup_support.py:57-64 | An entry of the scan acts on the first row under its stripped entry id, and without one under its id: deletes it, or sanitises its payload and marks it, or leaves it. |
| `TruthBoundary.SanitizeLaws` | backend/scripts/mongodb/service_book_truth_boundary_cleanup_support.py:121-137 | On any JSON tree sanitising is idempotent and the identity without denied paths; none remain if and only if no list directly inside a list held a denied key. |
| `TruthBoundary.CleanedSound` | backend/scripts/mongodb/service_book_truth_boundary_cleanup_support.py:121-137 | A value changes if and only if the sanitiser can reach a denied key in it. |
| `TruthBoundary.ScalarsSurvive` | backend/scripts/mongodb/service_book_truth_boundary_cleanup_support.py:121-137 | Nothing else is lost: along allowed keys the same scalars are found as before. |
| `TruthBoundary.EntryCollection.Cleanup` | backend/scripts/mongodb/service_book_truth_boundary_cleanup_support.py:167-195 | The scan over a copy changes the collection as specified; the five counters are exact. |
| `TruthBoundary.EntryCollection.DeleteOne` | backend/scripts/mongodb/service_book_truth_boundary_cleanup_support.py:177-182 | Deletes the first matching row, if any. |
| `TruthBoundary.EntryCollection.UpdateOne` | backend/scripts/mongodb/service_book_truth_boundary_cleanup_support.py:184-195 | Sanitises and marks the first matching row, and reports whether it changed. |
| `TruthBoundary.SecondCleanupFindsNothing` | backend/scripts/mongodb/service_book_truth_boundary_cleanup_support.py:140-197 | On rows findable by their own id a full cleanup deletes projections and sanitises the classified rows; a second finds nothing if and only if no sanitised payload buried a denied key. |
| `TruthBoundary.NestedListsKeepTheirKeys` | backend/scripts/mongodb/service_book_truth_boundary_cleanup_support.py:130-134 | A concrete payload whose denied key survives in a list inside a list. |
| `EmployeeCode.BuildPlan` | backend/scripts/mongodb/employee_code_migration_support.py:45-130 | The loops number the sorted valid rows by year and keep one counter a year; every refusal is recorded. |
| `EmployeeCode.SeniorFirst` | backend/scripts/mongodb/employee_code_migration_support.py:85-104 | Every identity with an id, a date and a known type is planned, and of two the one engaged earlier, on equal dates created earlier, then under the smaller old code, then with the smaller id, comes first and, in one year, has the smaller number. |
| `EmployeeCode.PlannableIsRead` | backend/scripts/mongodb/employee_code_migration_support.py:51-83 | An identity is refused for a missing id, else for a bad date, else for an unknown type, and otherwise planned. |
| `EmployeeCode.DateRoundTrip` | backend/scripts/mongodb/employee_code_migration_support.py:33-42 | A written date is read back as its year exactly when month and day lie in 1 to 12 and 1 to 31. |
| `EmployeeCode.CodeExamples` | backend/scripts/mongodb/employee_code_migration_support.py:29-30 | Two codes in full, one with a number of five digits. |
| `EmployeeCode.EveryIdentityAccounted` | backend/scripts/mongodb/employee_code_migration_support.py:51-83 | Planned employees and errors together are as many as the identities. |
| `EmployeeCode.NumbersAreConsecutive` | backend/scripts/mongodb/employee_code_migration_support.py:94-122 | Within a year the numbers are 1 to the counter of the year, none left out. |
| `EmployeeCode.CodeInjective` | backend/scripts/mongodb/employee_code_migration_support.py:29-30 | A code determines year, letter and number, also past 9999. |
| `EmployeeCode.CodesDistinct` | backend/scripts/mongodb/employee_code_migration_support.py:97-114 | No two planned codes are equal. |
| `EmployeeCode.PlanIgnoresOrder` | backend/scripts/mongodb/employee_code_migration_support.py:85-92 | The plan does not depend on the input order when an employee id has one row. |
| `EmployeeCode.ReplanKeepsCodes` | backend/scripts/mongodb/employee_code_migration_support.py:85-114 | Renumbering recoded rows keeps all codes if and only if, wherever neighbours in seniority agree in both dates, their letters ascend, or are equal and the first number is not the last of its width (9999, 99999, ...). |
| `EmployeeCode.SecondMigrationIdle` | backend/scripts/mongodb/employee_code_migration_support.py:381-397 | After a whole migration of identities with clean ids a second plan changes no code, if and only if that condition holds of the tied neighbours of the first. |
| `EmployeeCode.CodeOrder` | backend/scripts/mongodb/employee_code_migration_support.py:29-30 | Codes of one year compare by letter, then by four-digit number. |
| `EmployeeCode.NextNumberOrder` | backend/scripts/mongodb/employee_code_migration_support.py:29-30 | As four-digit texts a number comes before the next one, unless it is the last of its width. |
| `EmployeeCode.LettersCanSwapTies` | backend/scripts/mongodb/employee_code_migration_support.py:85-92 | Two concrete employees tied in both dates: the plan numbers them 1 and 2, and after the migration a second plan numbers them 2 and 1. |
| `EmployeeCodeMigration.Database.Migrate` | backend/scripts/mongodb/employee_code_migration_support.py:337-446 | Applies the changed rows in order to identities, both read models and document metadata, then sets one counter a year; where the unique index refuses an identity it raises, with the rows before that one applied and the counters as they were; a dry run changes nothing. |
| `EmployeeCodeMigration.NoMatchNoWrite` | backend/scripts/mongodb/employee_code_migration_support.py:389-397 | An update that finds no identity writes nothing and is never refused. |
| `EmployeeCodeMigration.MigrationEnds` | backend/app_platform/db/runtime.py:69-103 | Under the unique index the migration gets through if and only if no new code it has to write is stored at an employee whom the plan numbers later or not at all; without the index it always does. |
| `EmployeeCodeMigration.CodesStayDistinct` | backend/app_platform/db/runtime.py:98-103 | Wherever a migration under the index stops, no two identities share a code. |
| `EmployeeCodeMigration.PlannedCodesInPlace` | backend/scripts/mongodb/employee_code_migration_support.py:389-397 | A migration that gets through gives every planned employee the planned code and touches no other identity. |
| `EmployeeCodeMigration.CopiesAgree` | backend/scripts/mongodb/employee_code_migration_support.py:400-419 | Copies that agree with the identities still agree at every point where the migration may stop. |
| `EmployeeCodeMigration.OwnedFollow` | backend/scripts/mongodb/employee_code_migration_support.py:422-430 | A document with an owner gets the code that its owner gets, and no other. |
| `EmployeeCodeMigration.OwnerlessFollow` | backend/scripts/mongodb/employee_code_migration_support.py:133-144 | A document that knows its employee only by the old code ends with the new code of the first employee written under it, if and only if no later row is written whose old code is that new code; a document under no written code is left alone. |
| `EmployeeCodeMigration.IndexKeepsDocuments` | backend/scripts/mongodb/employee_code_migration_support.py:422-430 | Under the index, with codes stored without blanks, a migration that gets through never passes such a document on. |
| `EmployeeCodeMigration.HeldCodeStops` | backend/scripts/mongodb/employee_code_migration_support.py:381-430 | Two concrete employees: the first is due the code of the second. Under the index the first update is refused; without it the document of the first ends with the code of the second. |
| `ServiceBookRewrites.RenameLaws` | backend/scripts/mongodb/service_book_pcf_cutover_support.py:59-72 | Renaming a map is idempotent, leaves no legacy name, and changes it if and only if one is there. |
| `ServiceBookRewrites.RenamesSay` | backend/scripts/mongodb/service_book_pcf_cutover_support.py:8-16 | The seven renamed fields; each keeps its text but for the first three letters. |
| `ServiceBookRewrites.SchemasSay` | backend/scripts/mongodb/service_book_pcf_cutover_support.py:18-21 | The two renamed schema keys. |
| `ServiceBookRewrites.RemovedSay` | backend/scripts/mongodb/service_book_msgegis_cleanup_support.py:8-26 | The removed fields and schema keys. |
| `ServiceBookRewrites.RenameKeeps` | backend/scripts/mongodb/service_book_pcf_cutover_support.py:65-71 | A canonical value that is there is never overwritten; otherwise the legacy value moves; other names are untouched. |
| `ServiceBookRewrites.RenamedListLaws` | backend/scripts/mongodb/service_book_pcf_cutover_support.py:40-56 | Renaming a list is idempotent and changes it if and only if a legacy name or a repetition is there. |
| `ServiceBookRewrites.RewritesIdempotent` | backend/scripts/mongodb/service_book_msgegis_cleanup_support.py:91-127 | Each document rewrite done twice is done once. |
| `ServiceBookRewrites.RewritesCommute` | backend/scripts/mongodb/service_book_pcf_cutover_support.py:106-130 | The two rewrites commute on every document, deletions included. |
| `ServiceBookRewrites.OpeningLaws` | backend/scripts/mongodb/service_book_pcf_cutover_support.py:133-151 | The rewrites of opening documents are idempotent and commute. |
| `ServiceBookRewrites.NothingLegacyLeft` | backend/scripts/mongodb/service_book_pcf_cutover_support.py:106-130 | No legacy name survives in the document, its payload or its list of changed fields; everything else stays. |
| `ServiceBookRewrites.NothingRemovedLeft` | backend/scripts/mongodb/service_book_msgegis_cleanup_support.py:91-127 | No removed name survives in the places the cleanup covers; everything else stays. |
| `ServiceBookCutover.RenameMappingFields` | backend/scripts/mongodb/service_book_pcf_cutover_support.py:59-72 | The loop computes the renamed map, and its flag is true exactly when something differs. |
| `ServiceBookCutover.RenameStringList` | backend/scripts/mongodb/service_book_pcf_cutover_support.py:40-56 | The loop with its seen set computes the renamed list, flag exact. |
| `ServiceBookCutover.RenameSchemaKey` | backend/scripts/mongodb/service_book_pcf_cutover_support.py:32-37 | Renames a schema key, flag exact. |
| `ServiceBookCutover.StripRemovedFields` | backend/scripts/mongodb/service_book_msgegis_cleanup_support.py:70-80 | Removes the fields, flag exact. |
| `ServiceBookCutover.StripRemovedStrings` | backend/scripts/mongodb/service_book_msgegis_cleanup_support.py:83-88 | Removes the strings, flag exact. |
| `ServiceBookCutover.MigrateDocument` | backend/scripts/mongodb/service_book_pcf_cutover_support.py:106-130 | Computes the migrated document, flag exact. |
| `ServiceBookCutover.CleanupDocument` | backend/scripts/mongodb/service_book_msgegis_cleanup_support.py:91-127 | Deletes, replaces or keeps exactly as specified; replaces only what differs. |
| `ServiceBookCutover.RewriteOpening` | backend/scripts/mongodb/service_book_pcf_cutover_support.py:133-151 | Both opening rewrites, flag exact. |
| `ServiceBookCutover.MigrateCollection` | backend/scripts/mongodb/service_book_pcf_cutover_support.py:178-204 | Every document of a collection migrated once, the counters exact. |
| `ServiceBookCutover.CleanupCollection` | backend/scripts/mongodb/service_book_msgegis_cleanup_support.py:179-215 | Every document cleaned up once; would_delete, deleted, would_update and updated are exact, the two done ones 0 in a dry run. |
| `ServiceBookCutover.SecondRunsIdle` | backend/scripts/mongodb/service_book_pcf_cutover_support.py:189-202 | A second run of either script writes nothing, and the order of the two does not matter. |

## Left out

- HTTP routes, roles and permissions, entity access checks, and validation of request bodies: the model starts where a permitted call enters the service.
- MongoDB, file system, object storage and the network: a collection is a map or a sequence, one document update is atomic, ids are fresh, and a unique index refuses a second row.
- Sessions and transactions: every update takes effect on its own.
- `start` and `stop` of the dispatcher: `OutboxDispatcher.OutboxDispatcher.RunForever` is the loop for as many rounds as it runs before it is stopped between two of them.
- Repository calls of the outbox that raise, other than `mark_sent`: in the step system they are crashes; in the class they do not raise.
- OutboxDispatcher.OutboxDispatcher.DrainOnce: a drain that is cancelled in the middle is not a call of the class, whose methods run to their end; in the step system it is the crash action.
- Payload values of events are strings, and the random id and time of an audit row are not part of it.
- The order among outbox rows with equal `occurred_at` is left open.
- Times are integers of microseconds; `IsoTimestamp.IsoOrderIsTimeOrder` is what allows that where the code compares strings.
- Case folding and stripping are those of ASCII letters and of the whitespace of Latin-1; `int()` does not know underscores; `str()` of a list does not escape quotes.
- `legal_hold_released_at`, reasons and similar notes that no step reads are not stored by the document model.
- The attach of the state machine is one step with one possible crash; the finer points of failure are in `AttachCompensation`, whose local JSON mode, which overwrites rows instead of merging, is not modelled.
- Caller-supplied `document_id` or `version_number` in an attach: only the fields that the route passes are allowed.
- Previews, malware scanning and magic bytes.
- `_to_doc` and `_from_doc` of signature requests, and the deadline, which no step reads.
- Expiry notices, sharing, bulk tags, templates and the other writers of document metadata.
- Roles, document types, qualifications and workflow stages have no (code, version) index; `MasterVersioning` does not speak of them.
- A cleared optional field of a master record comes back by the merge in the helpers; the model has the merge and no promise about clearing.
- Master reads other than that of the newest active version.
- The index checks of the backfill verifier, which read the database catalogue.
- EventBackfill.Collections.Backfill: the unique index is there from the start, because the runtime makes it when it starts; the update of a stream row and the insert of its records are two writes of which only the second can be refused.
- EventBackfill.VerifyCutover: takes the stream rows as a map by employee id, as the backfill writes them, because the unique index on it makes each id occur once.
- EmployeeCodeMigration.Database.Migrate: the counts of updated rows in the summary and the migration markers are not modelled, because no step reads them; the legacy profiles are taken as one row an employee, as the read models are by their index.
- The verification and the counter cleanup of the employee code migration.
- The letter of an employment type is a function the plan is given; its table is not part of this model.
- Lists of field names hold strings only; the scripts would raise on other unhashable elements.
- ServiceBookCutover.MigrateCollection: documents are keyed by `_id`; the fallback keys for documents without one are not modelled.
- Employee filters of the scripts only select the documents they are given.
