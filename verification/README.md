# Document lifecycle verification

A Dafny model of the documents-rag service and proofs about it. Postgres is the authority on a document; Qdrant
and object storage are derived stores that change outside its transactions. About ten modules each make one local
check, and the guarantees the service documents (a deleted document leaves nothing behind, no build races a
deletion, a cutover loses no cleanup obligation, uploads are deduplicated) only follow from an invariant over all of
them together. That invariant is proved here for every interleaving, next to the chunker, the audit and the smaller
algorithms the lifecycle relies on.

`dafny verify dfyconfig.toml` checks the whole project.

## How it is organised

- The lifecycle. `DocumentRecord` holds the rows of one document in its five tables, its points, and every request
  and worker in flight. `Steps` gives the segments of the code from one commit or external call to the next, with
  crashes and provider failures; `Frames`, `Invariant`, `Preservation` and `Settlement` the inductive invariant;
  `Catalogue` all documents together with uploads and storage, and the runs of the whole system. `Guarantees`,
  `BuildsAndDeletions`, `UploadGuarantees` and `Health` state what holds in every reachable state.
- The services as written. `DocumentSession` is the imperative form: a class whose methods change the rows in place
  as the Python services do. `WorkerRuns` shows that each worker call, and each request that creates a job, is one of
  the runs the guarantees quantify over, so the two forms cannot drift apart.
- Several reads, one decision. Under READ COMMITTED each statement of a request sees its own state, so uploads, deletion
  requests, retries, scheduling and full deletion are split between their reads. `UploadGuarantees`, `BuildRaces`,
  `AuditRaces` and `LatestJobs` say what such decisions and views are worth.
- What is not guaranteed. `Continuations`, `LateInserts`, `LateRetries`, `Scenarios` and `UploadRace` (with `SystemRuns`)
  play out reachable situations from a fresh document or an empty system, and show that the three assumptions below on
  recoveries, deletion requests and retries are needed and exact.
- The audit. `Audit`, `AuditBatch` and `AuditTriage` with `Keyset`, `AuditCursor`, `Timestamps` and `Base64`.
- Chunking. `WordLists`, `Chunker`, `ChunkWindows`, and `VectorPoints`, which ties the index sets of the lifecycle
  model to real points.
- Smaller cores. `StaleRecovery`, `LatestJobs`, `EmbeddingConfig`, `Retry`, with `Decimals` and `Wrappers`.

## What the model assumes

- A provider call takes full effect or raises without any. Uuids are fresh. Rows are created in
  `(created_at, id)` order, so a row is named by its position and "the latest row" is the last one.
- Job rows are grouped per document. A worker may claim any PENDING row, which allows every order in which real
  workers pick documents.
- Between the checks and the insert of `request_document_deletion` anything may happen, as long as at the insert either
  the decision it took still stands (`Steps.AtomicRequest`) or a late row does no harm (`Steps.HarmlessInsert`: it is not
  the first one, or no ingestion and no build can write any more and every collection with points stays tracked).
  `LateInserts.LateInsertIsExact` shows that this is exactly what the deletion guarantee needs, and
  `Scenarios.SplitRequestLeavesPoints` that the code does not ensure it. Only `BuildsAndDeletions.BuildExcludesDeletion`,
  `BuildBlocksInsert` and the last clause of `Audit.DeletedDocumentsAuditClean` ask for atomic requests.
- Between the three statements of `retry_ingestion` (deletion check, locking read, commit) anything may happen, as long as
  at the insert of its PENDING row there is still no deletion row and the latest attempt is still a failed one, or the
  unique index refuses the row, or the object is gone (`Steps.HarmlessReinsert`). `LateRetries.LateRetryIsExact` shows
  that this is exactly what the lifecycle's promises need, `LateRetryLeavesPoints` and `SecondRetryLosesCollection` that
  the code does not ensure it. A stale row is locked from its read to its flip, so that flip is one step.
- Stale recovery, and retry's own stale flip, only hit jobs whose worker is dead and died before its upsert, or whose
  object is gone (`Steps.TimelyRecovery`), as app/services/ingestion/retry_service.py:25-30 claims.
  `Continuations.TimelyRecoveryIsExact` shows that this is exactly what the deletion guarantee needs.
- An activation holds the locks of its job and of the document row from its checks to its commit, as its two SELECT FOR
  UPDATE do.
- The extractor returns some page with text, so at least one chunk is embedded
  (app/services/documents/text_extractor.py:104-105); `ChunkWindows.SomeTextSomeChunk` gives the other half.
- The name-based UUID of a chunk id is injective (`VectorPoints.Injective`).

## Where the code and its documentation disagree

- app/services/documents/dedup_service.py:115-121 calls a lost race without a winner unreachable.
  `UploadRace.MissingWinnerIsReachable` reaches it: the winner's ingestion fails and the winner is deleted before the
  loser looks again. `UploadGuarantees.MissingWinnerIsExact` says when, over all runs: exactly if every document that
  ever held the digest has been completely deleted by then.
- app/services/documents/dedup_service.py:21-25 takes a COMPLETED deletion of a document found by its digest for a broken
  invariant. `UploadRace.InvariantErrorIsReachable` reaches the error on healthy data, at a first look and after a lost
  race: the deletion completes between the lookup and the read of the deletion row.
  `UploadGuarantees.InvariantErrorIsExact` says that it is raised exactly then.
- app/services/indexing/reindex_scheduling_service.py:51-57 calls a lost scheduling race without a winner unreachable.
  `BuildRaces.MissingBuildIsReached` reaches it: the winner's job fails before the loser looks for it.
  `BuildRaces.MissingBuildIsExact` says when, over all runs: exactly if the winner's job, and every job scheduled since,
  has ended by then.
- app/services/ingestion/retry_service.py:22-23 says that two concurrent retries end in one new job, and its docstring that
  a document is never resurrected by a retry. `LateRetries.SecondRetryLosesCollection` and `LateRetryLeavesPoints`
  show otherwise; `LateRetryIsExact` says exactly when a retry keeps its promises.
- app/services/documents/deletion_service.py:196-199 never creates a job after a completed one. If two requests pass
  their checks together, the second row can be inserted after the first has completed; nothing is left behind, but
  until that job completes too the audit reports the missing object as an error (`Audit.DeletedDocumentsAuditClean`).
- app/rag/embedding_config.py:59-64 says that configurations that differ never share a collection name.
  `EmbeddingConfigs.DifferentConfigsShareName` and `SeparatorsShareName` give valid ones that do; `SeparableIsExact`
  says exactly which names have one reading, and `NameIsExact` and `NameRoundTrip` when the claim holds.
- app/services/indexing/cleanup_job_service.py:144-147 guards the serving collection when a cleanup starts. A document
  activated back onto a collection it vacated can still end up serving no points
  (`Scenarios.ReturnServesNothing`); `Health.SafeActivationIsExact` gives the exact condition.
- app/services/documents/chunker.py:1-7 calls chunks fixed-size. A chunk may exceed the size; `ChunkWindows`
  says by how much and exactly when.
- app/services/reconciliation/document_audit_service.py:211-212 says the audit mirrors retry's staleness test; recovery's
  own test is not strict, and the two differ for a row last written exactly at the cutoff
  (`StaleRecovery.StalenessDiffersAtCutoff`).

## Model

| member | source | states |
|---|---|---|
| Settlement.IngestionKeeps | app/services/ingestion/worker.py:106-131 | every commit-to-commit segment of an ingestion worker, of retry with its reads and commit apart, and of recovery, including crashes, keeps the whole invariant when recovery is timely and a late retry harmless |
| Settlement.ReindexKeeps | app/services/indexing/reindex_worker.py:168-278 | every segment of scheduling and of the re-index worker keeps it, with arbitrary steps between any two of schedule's checks and its insert |
| Settlement.CutoverKeeps | app/services/indexing/reindex_activation.py:157-227 | activation and the cleanup worker's claim, guard, delete and mark keep it, interleaved in any way |
| Settlement.DeletionKeeps | app/services/documents/deletion_worker.py:86-137 | every read and the insert of the deletion request, and every segment of the deletion worker, including its three separate reads, keep it, if a late insert is harmless |
| Settlement.StepKeeps | app/services/documents/deletion_worker.py:75-137 | the invariant is inductive for one document over all segments of all actors |
| Preservation.RecoverIngestionKeeps | app/services/ingestion/stale_recovery_service.py:81-92 | flipping a stale row and inserting its replacement in one commit keeps the invariant |
| Preservation.InsertRetryKeeps | app/services/ingestion/retry_service.py:177-185 | inserting retry's PENDING row, whatever happened since its deletion check and its locking read, keeps the invariant if the insert is harmless |
| Preservation.FlipRetryKeeps | app/services/ingestion/retry_service.py:169-179 | flipping a locked stale row and inserting its replacement in one commit keeps the invariant if the flip is timely |
| Preservation.CommitActivationKeeps | app/services/indexing/reindex_activation.py:192-225 | serving columns, cleanup row and activation mark, changed in one commit, keep the invariant |
| Preservation.EraseNextKeeps | app/services/indexing/vector_deletion_service.py:124-136 | one delete of the deletion worker, successful or not, keeps the invariant, its list covering all remaining points included |
| Catalogue.NextKeeps | app/services/documents/upload_service.py:112-162 | every step of any document or upload keeps the invariant of the whole system |
| Catalogue.RunKeeps | app/services/documents/upload_service.py:112-162 | every reachable state of the whole system satisfies it |
| Catalogue.SegmentIdentity | app/services/documents/deletion_worker.py:127-136 | a document's key never changes and its content hash only ever goes from held to released |
| Guarantees.DeletionIsPermanent | app/services/documents/deletion_worker.py:86-137 | once a deletion job of a document is COMPLETED, in that and every later state of any run it has no point anywhere, no object and no hash, and that row keeps both cleanup flags |
| Guarantees.PointsAreTracked | app/services/indexing/vector_deletion_service.py:109-119 | any collection holding points is current, has an open cleanup row, is a completed build's target, or was upserted by the worker of a PROCESSING build or ingestion whose target it is |
| Guarantees.DeletionSeesEverything | app/services/indexing/vector_deletion_service.py:109-119 | with a deletion row present, the three tracked sources alone cover every collection holding points |
| Guarantees.ActivationKeepsTracked | app/services/indexing/reindex_activation.py:192-214 | an activation leaves the set of tracked collections exactly as it was |
| Guarantees.AttemptsCoverEverything | app/services/indexing/vector_deletion_service.py:109-122 | after the three reads, with activations and cleanups in between, the list is duplicate-free and covers every collection still holding points |
| BuildsAndDeletions.NoBuildWritesUnderDeletion | app/services/indexing/reindex_worker.py:202-211 | in no run does a build upsert while its document has a deletion row |
| BuildsAndDeletions.BuildExcludesDeletion | app/services/indexing/reindex_worker.py:202-211 | with atomic requests, once a build is past its deletion check no deletion row exists, nor can one be requested, in any later state in which its job is still PROCESSING |
| BuildsAndDeletions.BuildBlocksInsert | app/services/documents/deletion_service.py:233-252 | while the request's decision refuses, no step of the system gives the document its first deletion row |
| Guarantees.DeletionStopsWrites | app/services/indexing/reindex_worker.py:202-211 | after the first deletion request no step ever adds a point of the document |
| Guarantees.DoneStaysDone | app/services/documents/deletion_service.py:227-231 | a completed deletion row never changes again, and after a latest completed one an atomic request never adds another |
| Guarantees.OneActivePerTable | alembic/versions/a1a302e871c3_current_schema_baseline.py:124-130 | at most one active row per document in each of the three job tables, and the active ingestion row is the latest |
| Guarantees.CutoversFormPath | app/services/indexing/reindex_activation.py:157-227 | activations form a path from the ingested collection to the served one, no job activates twice, and cleanup rows are exactly the sources left, in order |
| Guarantees.CutoverHistory | app/services/indexing/reindex_activation.py:204-214 | in every reachable state the multiset of cleanup-row collections is the multiset of activated sources |
| Guarantees.HistoryOnlyGrows | app/services/indexing/collection_registry.py:67-79 | history is never rewritten and starts at the collection ingestion recorded |
| Guarantees.RegistryIsStable | app/services/indexing/collection_registry.py:50-64 | in any run a registered collection's configuration never changes, whoever ensures it again |
| Guarantees.ServedIsRegistered | app/services/indexing/collection_registry.py:50-79 | in every reachable state the collection a document serves from is registered |
| Guarantees.ActivationIsGuarded | app/services/indexing/reindex_activation.py:157-190 | in a reachable state an activation succeeds exactly for a built, not activated job of an undeleted document still on its source; a job is already activated exactly when it is in the cutover history, and the check of the registry row never fails |
| UploadGuarantees.UploadsAreDeduplicated | app/services/documents/upload_service.py:112-162 | at most one document holds a digest, every stored key has an owner, and a live document's key holds its own bytes |
| UploadGuarantees.CommitIsExact | app/services/documents/upload_service.py:125-150 | in any run a commit goes through if and only if nobody holds the digest, and adds a document with its bytes under its own key and one PENDING ingestion row; otherwise the request has lost and no document changes |
| UploadGuarantees.FreshUploadCreates | app/services/documents/upload_service.py:112-162 | from any state in which nobody holds the digest, an upload that begins, saves under a new key and commits adds exactly that document |
| UploadGuarantees.OwnObjectIsDeleted | app/services/documents/upload_service.py:148-160 | in any run a request that could not commit deletes at most its own object, never that of a document |
| UploadGuarantees.LosersAddNothing | app/services/documents/upload_service.py:143-157 | in any run, from losing its race until it ends an upload adds no document |
| UploadGuarantees.OneDocumentPerUpload | app/services/documents/upload_service.py:112-162 | in any run an upload adds at most one document: between two it has begun anew |
| UploadGuarantees.NobodyFoundIsExact | app/services/documents/dedup_service.py:197-228 | in any run nobody is found for a digest if and only if every document that ever held it has been completely deleted by then |
| UploadGuarantees.MissingWinnerIsExact | app/services/documents/dedup_service.py:115-121 | the loser of a race had a winner, and its second look raises the missing-winner error if and only if every document that ever held the digest has been completely deleted by then |
| UploadGuarantees.InvariantErrorIsExact | app/services/documents/dedup_service.py:197-211 | in any run the document read was found by the request's own lookup, and at the second read the latest deletion row alone decides between going on, deletion active, deletion incomplete and the broken-invariant error; that error is raised if and only if the row is COMPLETED, so the deletion completed in between |
| UploadGuarantees.ReturnedDocumentHolds | app/services/documents/dedup_service.py:197-228 | in any run every document a decision returns alone held the digest at the lookup, and at the second read had no deletion row, still held the digest and had its bytes stored; the answer goes with the latest ingestion row's status, and the missing-job error is never raised |
| UploadGuarantees.DecisionNamesHolder | app/services/documents/dedup_service.py:197-228 | if the three reads see one reachable state, each reuse or refusal goes with exactly one lifecycle state of the one holder, and neither defensive error is raised |
| UploadRace.InvariantErrorIsReachable | app/services/documents/dedup_service.py:197-211 | reachable states, for a first and for a second look, in which that error is raised although every invariant holds |
| Health.SafeRunServes | app/services/indexing/reindex_activation.py:185-214 | if every activation is onto a collection with points and no pending delete, no indexed, undeleted document is ever without points where it serves |
| Health.NoReturnRunServes | app/services/indexing/reindex_activation.py:185-214 | the same for every run in which no document returns to a collection it vacated |
| Health.NoReturnIsSafe | app/services/indexing/cleanup_job_service.py:144-166 | activating onto a never-vacated target is safe: its build's points are there and no cleanup aims at them |
| Health.SafeActivationIsExact | app/services/indexing/reindex_activation.py:185-214 | an activation is safe if and only if the document is served after every continuation |
| Health.UnsafeActivationLoses | app/services/indexing/cleanup_job_service.py:144-154 | after an unsafe activation one step at most leaves the document without points |
| Continuations.TimelyRecoveryIsExact | app/services/ingestion/retry_service.py:25-30 | flipping a PROCESSING row keeps the deletion guarantee in every continuation if and only if its worker died before its upsert or the object is gone |
| Continuations.UntimelyFlipLeavesPoints | app/services/ingestion/stale_recovery_service.py:12-18 | any other flip leads to a completed deletion that leaves points behind |
| Scenarios.ReturnServesNothing | app/services/indexing/cleanup_job_service.py:144-154 | a run in which a document returns to a vacated collection and serves nothing |
| LateInserts.LateInsertIsExact | app/services/documents/deletion_service.py:233-252 | inserting a deletion row, however old the request's checks, keeps the deletion guarantee in every continuation if and only if the insert is harmless |
| LateInserts.HarmfulInsertLeavesPoints | app/services/documents/deletion_service.py:233-252 | any other insert leads to a completed deletion that leaves points behind |
| LateInserts.TrackedBuildsAreHarmless | app/services/documents/deletion_service.py:233-252 | an insert is harmless when no ingestion is active, no live build is between its check and its upsert, and every upserted target of an unresolved build is tracked anyway |
| Settlement.AtomicIsHarmless | app/services/documents/deletion_service.py:214-252 | in a reachable state an insert whose checks still stand is harmless |
| Scenarios.SplitRequestLeavesPoints | app/services/documents/deletion_service.py:233-252 | a run in which a build passes its check between a request's checks and its insert, and upserts after the completed deletion |
| LateRetries.LateRetryIsExact | app/services/ingestion/retry_service.py:150-185 | inserting retry's PENDING row, however old its checks, keeps the promises (a completed deletion leaves nothing, a deletion row's worker can find all points, collections are left by activation only) in every continuation if and only if the insert is harmless |
| LateRetries.HarmfulReinsertBreaks | app/services/ingestion/retry_service.py:150-185 | any other insert leads, by segments within the assumptions, to a broken promise |
| LateRetries.LateRetryLeavesPoints | app/services/ingestion/retry_service.py:150-185 | a run in which a deletion is requested after retry's deletion check, completes, and leaves points written by retry's job |
| LateRetries.SecondRetryLosesCollection | app/services/ingestion/retry_service.py:153-185 | a run in which a second retry's job moves an indexed document without a cleanup row, and a later completed deletion leaves points |
| UploadRace.MissingWinnerIsReachable | app/services/documents/upload_service.py:152-157 | a reachable state in which the loser of a hash race finds no winner and that error is raised |
| BuildRaces.MissingBuildIsExact | app/services/indexing/reindex_scheduling_service.py:306-316 | in any run a refused scheduling request had exactly one winner and added no row, and at any later look it finds no active job if and only if the winner's job and every job scheduled since have ended |
| BuildRaces.MissingBuildIsReached | app/services/indexing/reindex_scheduling_service.py:306-316 | a run of the whole system in which a refused request finds no active job afterwards |
| DocumentSessions.DocumentSession.RequestDocumentDeletion | app/services/documents/deletion_service.py:214-252 | for any findings of its three separate reads, when each outcome is returned, the lost insert race included, and all rows afterwards: one PENDING row more exactly when it says created |
| DocumentSessions.DocumentSession.RetryIngestion | app/services/ingestion/retry_service.py:146-185 | for any deletion rows added after its deletion check and any rows its locking read finds, when each outcome is returned and all rows afterwards: a stale row is flipped and replaced in one commit, or, after a lost insert race, neither; a failed row is kept |
| DocumentSessions.DocumentSession.ScheduleReindex | app/services/indexing/reindex_scheduling_service.py:269-318 | for any findings of its three checks, its insert and its last look, when each outcome is returned, the lost race and its missing winner included; a job with the pinned source is added exactly when it says created, and the registry row stays even if it is not |
| DocumentSessions.DocumentSession.ActivateReindexedDocument | app/services/indexing/reindex_activation.py:157-227 | it succeeds exactly for a built, unactivated job of an undeleted document that serves its source and has its target registered; then the target serves with its registered metadata, the source gets one untried PENDING cleanup row if it differs, and only that job is marked; otherwise nothing changes |
| DocumentSessions.ActivationIsRun | app/services/indexing/reindex_activation.py:192-225 | an uninterrupted activation is a run of its two segments |
| DocumentSessions.DocumentSession.RetryCleanupJob | app/services/indexing/cleanup_job_service.py:143-166 | it succeeds exactly if the collection is not being served and its delete does not raise; the row becomes COMPLETED or FAILED with one attempt more, and a success, and nothing else, empties that collection |
| DocumentSessions.DocumentSession.ProcessNextCleanupJob | app/services/indexing/cleanup_job_service.py:209-255 | the oldest PENDING or FAILED row is retried once, with that outcome, row and points; without such a row nothing happens |
| DocumentSessions.DocumentSession.ResolveAttempts | app/services/indexing/vector_deletion_service.py:109-119 | the list has no duplicates and holds exactly the tracked collections |
| DocumentSessions.DocumentSession.DeleteAllTrackedVectors | app/services/indexing/vector_deletion_service.py:109-142 | every resolved collection is attempted whatever the others do; each result says whether that delete raised |
| DocumentSessions.DocumentSession.OldestPending | app/services/documents/deletion_worker.py:63-73 | the claim returns the oldest PENDING row, or none when there is none |
| DocumentSessions.DocumentSession.ProcessNextDeletionJob | app/services/documents/deletion_worker.py:75-137 | the claimed row ends COMPLETED if and only if no tracked collection and not the object refused its delete, then object and hash are gone; else it ends PARTIALLY_FAILED, keeps both, and has its vectors marked clean exactly if no collection refused; every tracked collection that did not refuse is empty, and no other changes |
| DocumentSessions.DocumentSession.ProcessNextReindexJob | app/services/indexing/reindex_worker.py:168-278 | the claimed row ends COMPLETED if and only if nobody asked for deletion, its target is registered, the object is stored and no provider fails; then the target holds every chunk index below the count besides what it held; else the row is FAILED and no point changes; it never activates |
| DocumentSessions.DocumentSession.ProcessNextIngestionJob | app/services/ingestion/worker.py:106-131 | the claimed row ends COMPLETED if and only if the object is stored and no provider fails; then the serving columns, the registry row and every chunk index below the count are there; else only the row changes |
| WorkerRuns.DeletionJobIsRun | app/services/documents/deletion_worker.py:75-137 | the deletion worker's call is a run of its segments |
| WorkerRuns.BuildJobIsRun | app/services/indexing/reindex_worker.py:168-278 | the re-index worker's call is a run of its segments |
| WorkerRuns.IngestionJobIsRun | app/services/ingestion/worker.py:106-131 | the ingestion worker's call is a run of its segments |
| WorkerRuns.CleanupIsRun | app/services/indexing/cleanup_job_service.py:128-166 | one retry of an open cleanup row, refused, failed or successful, is a run of its segments |
| WorkerRuns.SchedulingIsRun | app/services/indexing/reindex_scheduling_service.py:269-318 | a scheduling call that creates a job is a run of its six segments |
| WorkerRuns.RequestIsRun | app/services/documents/deletion_service.py:214-252 | a deletion request that creates a job is a run of its three reads and its insert, within the assumptions |
| WorkerRuns.RetryIsRun | app/services/ingestion/retry_service.py:146-185 | an ingestion retry without a rival is never refused by the unique index and is a run of its segments, which flips a stale row and adds a PENDING one |
| WorkerRuns.RecoveryIsRun | app/services/ingestion/stale_recovery_service.py:89-92 | recovering a stale row is a segment: the row fails and one PENDING row follows |
| Audit.AuditDocument | app/services/reconciliation/document_audit_service.py:243-524 | each code is reported if and only if its condition on rows and probes holds, the conditions spelled out code by code, and exactly as often as it should be; which codes are errors and which mere progress; and the document is inconsistent if and only if some finding is an error |
| Audit.AuditCleanup | app/services/reconciliation/document_audit_service.py:385-399 | one finding more for every unresolved cleanup row outside the collections already reported, and nothing else |
| Audit.OpenRowsIsSize | app/services/reconciliation/document_audit_service.py:385-399 | that number is the size of the set of rows that are not COMPLETED and whose collection is not reported yet |
| Audit.ErrorIsExact | app/services/reconciliation/document_audit_service.py:401-507 | in a reachable state with truthful providers, an error is reported if and only if the latest deletion has not completed and the object or all serving points are gone |
| Audit.HealthyRunsAuditClean | app/services/reconciliation/document_audit_service.py:243-524 | no error on any document nobody asked to delete, in any run without a return to a vacated collection |
| Audit.DeletedDocumentsAuditClean | app/services/reconciliation/document_audit_service.py:268-271 | after a completed deletion, in every later state, the audit reports an error if and only if a later deletion job exists that has not completed; with atomic requests never |
| AuditRaces.GatheredErrorIsExact | app/services/reconciliation/document_audit_service.py:257-508 | with document row, ingestion row, deletion row, storage and Qdrant read in five states of a run one after the other, an error is reported if and only if the document was indexed between the first two, or its latest deletion read has not completed and the object is gone or the collection read first holds no points when asked |
| AuditRaces.FalseAlarmIsExact | app/services/reconciliation/document_audit_service.py:257-508 | in a run without a return, on a document nobody has asked to delete, that is exactly when it was first indexed in between, or has left the collection read and that was emptied since |
| AuditTriage.BucketIsExact | app/services/reconciliation/document_audit_batch_service.py:216-232 | the bucket of an audited document from its rows and probes alone: inconsistent if something it needs is missing, else warning if a deletion is unfinished, an ingestion stale, a cleanup row open or a provider silent, else transitional if an ingestion or a finished build is waiting, else consistent |
| AuditTriage.ReachableBucketIsExact | app/services/reconciliation/document_audit_batch_service.py:216-232 | in any run with truthful providers: inconsistent if and only if the latest deletion has not completed and the object or all serving points are gone; of the others, warning if and only if the latest deletion has not completed, the ingestion is stale or a cleanup row open; of the others, transitional if and only if an ingestion is active or a finished build not activated |
| AuditTriage.AuditAndClassify | app/api/v1/routes/reconciliation.py:227-233 | the single-document endpoint's classification, one if-and-only-if per bucket |
| AuditBatch.BatchCounters.Record | app/services/reconciliation/document_audit_batch_service.py:247-263 | every counter keeps standing for the number of recorded documents or findings of its kind |
| AuditBatch.AuditLifecycleBatch | app/services/reconciliation/document_audit_batch_service.py:266-319 | which error is raised exactly when; every document of the page audited once, oldest first, each with its findings and bucket; all counts, and the next cursor |
| AuditBatch.ClassifyIsTriage | app/services/reconciliation/document_audit_batch_service.py:216-232 | what each of the four buckets of an existing document says about its findings, both ways |
| AuditBatch.TallyIsSize | app/services/reconciliation/document_audit_batch_service.py:247-257 | a bucket's counter is the number of documents in it |
| AuditBatch.UnavailableIsSize | app/services/reconciliation/document_audit_batch_service.py:262-263 | the unavailability counter is the number of documents with a finding that storage or the vector store could not be inspected |
| AuditBatch.BucketsAddUp | app/services/reconciliation/document_audit_batch_service.py:247-257 | the five buckets sum to the scanned documents |
| AuditBatch.FindingCountsAddUp | app/services/reconciliation/document_audit_batch_service.py:259-260 | the finding counts sum to the page's findings |
| AuditBatch.TextWalkVisitsAll | app/services/reconciliation/document_audit_batch_service.py:284-310 | following the opaque cursors over a fixed table visits every document once, in order, in max(1, ceil(n / limit)) pages |
| AuditBatch.TextWalkEnds | app/services/reconciliation/document_audit_batch_service.py:284-310 | such a walk exists and no cursor the service hands out is refused |
| AuditBatch.PageIsOldestFirst | app/services/reconciliation/document_audit_batch_service.py:203-213 | a page is in order of creation instants, and of ids at one instant |
| Keyset.PageAt | app/services/reconciliation/document_audit_batch_service.py:203-213 | the keyset query resumes exactly after the previous page, and one extra row tells whether there is more |
| Keyset.PageIsExact | app/services/reconciliation/document_audit_batch_service.py:203-213 | for any cursor, even one that names no row, a page and what it leaves are together exactly the rows past the cursor, in order, and there is a next page if and only if something is left |
| Keyset.WalkVisitsAll | app/services/reconciliation/document_audit_batch_service.py:203-213 | the same walk theorem for any strict order of rows |
| AuditCursor.CursorRoundTrip | app/services/reconciliation/document_audit_batch_service.py:139-193 | decoding inverts encoding for every aware timestamp and document id, within the size limit, and the encoded text is the compact JSON object of the two fields |
| AuditCursor.Decode | app/services/reconciliation/document_audit_batch_service.py:147-193 | whatever is accepted is small enough, timezone-aware, valid and names a document id; an oversized cursor is refused |
| Timestamps.IsoRoundTrip | app/services/reconciliation/document_audit_batch_service.py:139-144 | the ISO text of a timestamp, with or without microseconds and for any offset, reads back as that timestamp |
| Timestamps.IsoLayout | app/services/reconciliation/document_audit_batch_service.py:139-144 | where year, month, day, time, fraction and offset stand in the text |
| Timestamps.InstantIsChronological | app/services/reconciliation/document_audit_batch_service.py:208-211 | within one zone instants follow the Gregorian calendar and the clock, both ways, and between zones they differ by the offsets |
| Base64.RoundTrip | app/services/reconciliation/document_audit_batch_service.py:141-162 | URL-safe Base64 (section 5 of RFC 4648) decodes to the encoded bytes, four characters for every three |
| Base64.GroupIsNumber | app/services/reconciliation/document_audit_batch_service.py:139-144 | the digits of a group are its bytes as one number, filled up with zero bits and padding (section 4 of RFC 4648) |
| Base64.AlphabetIsStandard | app/services/reconciliation/document_audit_batch_service.py:139-144 | the 64 digits are those of table 2 in section 5 of RFC 4648, both ways |
| Chunker.DocumentChunker.Create | app/services/documents/chunker.py:29-37 | a chunker exists exactly for 0 <= overlap < size, and which error is raised otherwise |
| Chunker.DocumentChunker.SplitText | app/services/documents/chunker.py:58-81 | the loop and the final filter yield the page's windows, so the filter drops nothing |
| Chunker.PackWords | app/services/documents/chunker.py:64-79 | the running length is the joined length, and the greedy loop emits exactly the windows |
| Chunker.TakeOverlap | app/services/documents/chunker.py:83-93 | the longest suffix whose joined length fits |
| Chunker.SuffixIsLongest | app/services/documents/chunker.py:83-93 | a suffix fits if and only if it is no longer than the one taken |
| Chunker.DocumentChunker.Chunk | app/services/documents/chunker.py:39-56 | every text of every page in order, numbered from zero across pages, each field of each chunk: the document id, the id with its index, the text, and the page's metadata |
| Chunker.OneMorePage | app/services/documents/chunker.py:43-44 | a further page adds, after all texts before it, the joined words of its own windows |
| WordLists.SplitJoin | app/services/documents/chunker.py:60-70 | splitting joined words gives the words back |
| WordLists.SplitIsExact | app/services/documents/chunker.py:60-60 | a text splits into given words if and only if it is those words with whitespace between them and possibly around them |
| ChunkWindows.GreedyIsExact | app/services/documents/chunker.py:64-93 | the windows are greedy, chained by the longest overlap and cover all words, and they are the only ones that do |
| ChunkWindows.WindowsAdvance | app/services/documents/chunker.py:64-79 | starts never decrease, ends strictly increase to the last word, and each window starts within or right after its predecessor |
| ChunkWindows.ChunksLoseNothing | app/services/documents/chunker.py:58-93 | splitting the chunk texts again and dropping the repeated words gives exactly the page's words |
| ChunkWindows.SomeTextSomeChunk | app/services/documents/chunker.py:39-63 | a document yields no chunk if and only if all its pages are blank |
| ChunkWindows.OversizeIsExact | app/services/documents/chunker.py:68-76 | a chunk exceeds the size if and only if its overlap and first new word do, then it adds only that word; no earlier chunk could have taken one more |
| ChunkWindows.ChunkSizeBound | app/services/documents/chunker.py:64-93 | no chunk is longer than the size or overlap plus one plus the longest word |
| ChunkWindows.BoundIsMet | app/services/documents/chunker.py:64-93 | for every size, overlap and longest word for which that bound exceeds the size, a page whose second chunk has exactly that length |
| VectorPoints.ChunkIdInjective | app/services/documents/chunker.py:48-48 | a chunk id determines its document and index, whatever characters the document id has |
| Decimals.DecimalIsCanonical | app/services/documents/chunker.py:48-48 | the index is written most significant digit first, without leading zeros |
| VectorPoints.ChunksAreNumbered | app/services/documents/chunker.py:42-55 | the chunker's ids are distinct and contiguous |
| VectorPoints.WriteAddsOwnChunks | app/services/ingestion/worker.py:73-82 | a write adds exactly the document's chunks, each under its chunk id with its embedding and payload, and leaves every point of every other document alone |
| VectorPoints.WriteIsIdempotent | app/services/ingestion/worker.py:37-53 | writing the same points again changes nothing |
| VectorPoints.DeleteRemovesOwnChunks | app/services/indexing/vector_deletion_service.py:124-127 | deleting by document removes all its chunks and no other's, which stay as they are |
| VectorPoints.RecordRefinesStore | app/services/indexing/reindex_service.py:161-179 | the lifecycle model's index sets stand for the stored points across ingestion, re-index and delete |
| VectorPoints.OthersStayRepresented | app/services/indexing/reindex_service.py:161-179 | and they keep standing for every other document's points |
| StaleRecovery.IngestionTable.RecoverStale | app/services/ingestion/stale_recovery_service.py:68-97 | the candidates that are stale are recovered in order, one replacement each, and the whole resulting table |
| StaleRecovery.RowAfter | app/services/ingestion/stale_recovery_service.py:81-92 | testing and flipping one candidate after the other equals testing all of them first; other rows are untouched |
| StaleRecovery.ReplacementAfter | app/services/ingestion/stale_recovery_service.py:91-92 | each recovered row gets a PENDING row of the same document under a new id |
| StaleRecovery.LimitThenFilter | app/services/ingestion/stale_recovery_service.py:71-87 | whatever is locked elsewhere, limiting before filtering recovers exactly the oldest unlocked stale rows, min(batch, number stale) of them |
| StaleRecovery.CallsDrain | app/services/ingestion/stale_recovery_service.py:51-97 | repeated calls at a fixed time remove a full batch each until no stale row is left |
| StaleRecovery.RecoveryKeepsActiveCounts | app/services/ingestion/stale_recovery_service.py:89-95 | the commit leaves every document with as many active rows, so the unique index is never violated |
| StaleRecovery.StalenessDiffersAtCutoff | app/services/ingestion/retry_service.py:81-84 | retry-stale implies recovery-stale, and they differ only exactly at the cutoff |
| LatestJobs.GetLatestJobsForDocuments | app/services/documents/query_service.py:180-199 | the batched reduction returns for every requested document what the ordered single-row query returns |
| LatestJobs.LatestIsUnique | app/services/documents/query_service.py:152-164 | the latest row does not depend on the order the database returns rows in |
| LatestJobs.ListStatuses | app/services/documents/query_service.py:219-235 | every listed document shows the status that fits its two latest rows, spelled out status by status: the deletion row's if there is one, else the ingestion row's |
| LatestJobs.ViewsAgree | app/services/documents/query_service.py:219-272 | list and detail views derive the same status |
| LatestJobs.StatusIsTruthful | app/services/documents/query_service.py:81-113 | with the ingestion row read before the deletion row, in any run: one if-and-only-if per status on the two rows read; DELETED means a deletion has completed, after one nothing is left and no status before deletion shows again, and INDEXED means indexed at the first read, and undeleted, registered and stored at the second |
| EmbeddingConfigs.SanitizeIsIdempotent | app/rag/embedding_config.py:21-26 | sanitized texts are exactly the results of sanitizing and exactly its fixed points, all in [a-z0-9_-] |
| EmbeddingConfigs.TrimIsStrip | app/rag/embedding_config.py:24-26 | stripping removes nothing but accepted characters at the ends and leaves none there |
| EmbeddingConfigs.CollapseRun | app/rag/embedding_config.py:21-26 | a maximal run of characters outside [a-z0-9_-] becomes one dash, before any rest |
| EmbeddingConfigs.CollapseKeeps | app/rag/embedding_config.py:21-26 | all other characters stay as they are |
| EmbeddingConfigs.NameFormat | app/rag/embedding_config.py:65-73 | the six sanitized fields in order, three of them behind their letter, joined by two underscores |
| EmbeddingConfigs.NameIsExact | app/rag/embedding_config.py:57-73 | when no sanitized part can be confused with the separator, names are equal if and only if all sanitized parts are |
| EmbeddingConfigs.SeparableIsExact | app/rag/embedding_config.py:57-73 | parts are the only ones of their number with their joined name if and only if none contains the separator, none but the first begins and none but the last ends with an underscore |
| EmbeddingConfigs.SeparableNameIsExact | app/rag/embedding_config.py:57-73 | a configuration with such parts shares its name with another if and only if all their sanitized parts are equal, whatever the other's are |
| EmbeddingConfigs.SeparatorsShareName | app/rag/embedding_config.py:57-73 | any separator inside the prefix can be moved into the provider without changing the name |
| EmbeddingConfigs.NameRoundTrip | app/rag/embedding_config.py:57-73 | on clean configurations a parser recovers all six fields from the name |
| EmbeddingConfigs.NameIsInjective | app/rag/embedding_config.py:57-73 | clean configurations with the same name are equal |
| EmbeddingConfigs.DifferentConfigsShareName | app/rag/embedding_config.py:58-64 | two valid configurations that differ and share a name |
| EmbeddingConfigs.BuildResolvesToTarget | app/services/indexing/reindex_service.py:69-99 | the settings of a build resolve to its target whatever the base settings are, both model settings name its model, and chunk size and overlap are those asked for |
| Retry.RetryAsync | app/core/retry.py:38-55 | calls up to the first success or permanent error, capped; that last outcome is returned unchanged; between two calls one sleep, drawn up to the base times a power of two or the maximum, whichever is smaller |
| Retry.TotalDelayBounds | app/core/retry.py:42-52 | the total delay is within the linear and the geometric bound, however the jitter falls |
| Retry.DoubledIsPower | app/core/retry.py:51-51 | the backoff is the base times a power of two |
| Retry.Pow2Adds | app/core/retry.py:51-51 | the power of two in the backoff is one: it starts at two and adding exponents multiplies |
| Retry.GeometricBoundIsMet | app/core/retry.py:42-52 | the geometric bound is reached |

## Left out

- HTTP routes, schemas, middleware, logging, settings validation and health checks: plumbing.
- Ollama, Qdrant, MinIO and local-disk adapters: foreign I/O, modelled as maps with calls that take full effect or raise.
- Text extraction, RAG chat, prompts, LangChain adapters and language detection: only the extractor's guarantee that some page has text is used.
- SHA-256 and name-based UUIDs: abstract; digests are values, the UUID an injective parameter.
- `delete_current_document_vectors`, `create_cleanup_job` and the older `activate_reindexed_document` of reindex_service.py: not called on production paths.
- The branches for a document row that does not exist, and for zero chunks: document rows are never removed, and the extractor rules the second out.
- The re-index worker's failures before its build (missing registry row, mismatched name) and any provider failure: all are the one step that fails the job.
- ORM expiry, sanitized error messages, timestamps of rows and the Alembic schema beyond the four unique indexes.
- The order in which the two unordered reads of full deletion return rows: the model takes creation order; no result depends on it beyond the order of attempts.
- Liveness of the cleanup queue: the oldest failed row is always claimed first, so no fairness claim holds.
- DocumentSessions.DocumentSession.ScheduleReindex: an integrity error of another kind, which the code raises again, is not modelled.
- DocumentSessions.DocumentSession.EnsureActiveCollection: does not model the vector-size check against Qdrant.
- DocumentSessions.DocumentSession.ProcessNextDeletionJob: models the rows of one document, so "oldest" is the oldest of that document; the claims of other documents are other records.
- DocumentSessions.DocumentSession.OldestPending: the same; the method itself works for any rows.
- Audit.AuditDocument: says nothing about the order of the findings, and does not model the state snapshots and texts attached to them; what its reads see when they are apart is said in `AuditRaces`, for errors only.
- AuditCursor.Decode: accepts the compact JSON layout the service writes, strict Base64 and the canonical id form; the Python parsers also accept other spellings of the same values.
- Timestamps.IsoRoundTrip: `fromisoformat` reads further formats that `isoformat` never writes.
- EmbeddingConfigs.SanitizeIsIdempotent: lowercasing outside ASCII is any function of one character, without the context rule for a final sigma, which is replaced by a dash in any case.
- Retry.RetryAsync: delays are reals; rounding is not modelled.
