/** The segments, from one commit or external call to the next, of every request and worker that
    touches one document. `Enabled` says when a segment can run and `Apply` what it leaves behind. */
module Steps {
  import opened Wrappers
  import opened DocumentRecord

  /** What a segment sees outside the record: whether the document's object is in storage, and the
      index_collections table. */
  datatype Env = Env(stored: bool, catalog: map<Collection, Metadata>)

  /** Ingestion worker, ingestion retry and stale recovery. */
  datatype IngestionStep =
    | ClaimIngestion(job: nat)
    | EmbedDocument(job: nat, target: Collection, metadata: Metadata, count: nat)
    | UpsertIngestion(job: nat)
    | FinishIngestion(job: nat)
    | FailIngestion(job: nat)
    | CrashIngestion(job: nat)
    | CheckRetry(request: nat)
    | LockRetryRows(request: nat)
    | FlipRetry(request: nat)
    | InsertRetry(request: nat)
    | RecoverIngestion(job: nat)

  /** Re-index scheduling requests and the re-index worker. */
  datatype ReindexStep =
    | ReadSource(request: nat, target: Collection)
    | ReadBuilds(request: nat)
    | ReadIngestion(request: nat)
    | ReadDeletions(request: nat)
    | EnsureTarget(request: nat, metadata: Metadata)
    | InsertReindex(request: nat)
    | DropSchedule(request: nat)
    | ClaimReindex(job: nat)
    | CheckDeletion(job: nat)
    | EmbedBuild(job: nat, count: nat)
    | UpsertBuild(job: nat)
    | FinishBuild(job: nat)
    | FailBuild(job: nat)
    | CrashBuild(job: nat)

  /** Activation requests and the vector cleanup worker. */
  datatype CutoverStep =
    | BeginActivation(job: nat)
    | CommitActivation
    | AbortActivation
    | ClaimCleanup(worker: nat, row: nat)
    | GuardCleanup(worker: nat)
    | EraseCleanup(worker: nat, ok: bool)
    | FinishCleanup(worker: nat)
    | CrashCleanup(worker: nat)

  /** Deletion requests and the deletion worker. */
  datatype DeletionStep =
    | AskDeletions(request: nat)
    | AskIngestion(request: nat)
    | AskReindex(request: nat)
    | InsertDeletion(request: nat)
    | ClaimDeletion(job: nat)
    | ReadCurrent(job: nat)
    | ReadCleanups(job: nat)
    | ReadTargets(job: nat)
    | EraseNext(job: nat, ok: bool)
    | CommitVectors(job: nat)
    | DeleteObject(job: nat, ok: bool)
    | FinishDeletion(job: nat)
    | CrashDeletion(job: nat)

  datatype DocStep =
    | Ingest(ingest: IngestionStep)
    | Reindex(reindex: ReindexStep)
    | Cutover(cutover: CutoverStep)
    | Delete(delete: DeletionStep)

  // ----- decisions taken from the rows alone -----

  datatype RetryOutcome = RetryCreated | RetryAlreadyActive | RetryAlreadyCompleted | RetryDeletionActive

  datatype DeletionOutcome = IngestionIsActive | ReindexIsActive | DeletionCreated | AlreadyActive | AlreadyDeleted

  /** The latest deletion row, if any, neither completed nor is active: it failed part-way. */
  predicate OpenToRequest(deletion: seq<DeletionJob>) {
    deletion == [] || Last(deletion).status == DeletionPartiallyFailed
  }

  /** request_document_deletion's decision for an existing document, if all its reads see one state. */
  function DeletionDecision(r: Record): DeletionOutcome {
    if r.deletion != [] && Last(r.deletion).status == DeletionCompleted then AlreadyDeleted
    else if r.deletion != [] && ActiveDeletion(Last(r.deletion).status) then AlreadyActive
    else if IngestionActive(r.ingestion) then IngestionIsActive
    else if ReindexActive(r.reindex) then ReindexIsActive
    else DeletionCreated
  }

  const PENDING_INGESTION := IngestionJob(Pending, false)
  const PENDING_DELETION := DeletionJob(DeletionPending, false, false)

  /** The stale row's flip and the replacement row, in one commit. */
  function Recovered(ingestion: seq<IngestionJob>, job: nat): seq<IngestionJob>
    requires job < |ingestion|
  {
    ingestion[job := IngestionJob(Failed, true)] + [PENDING_INGESTION]
  }

  /** A second active row violates the partial unique index, so the loser of that race inserts nothing. */
  function WithReindex(reindex: seq<ReindexJob>, source: Collection, target: Collection): seq<ReindexJob> {
    if ReindexActive(reindex) then reindex else reindex + [ReindexJob(source, target, Pending, false)]
  }

  function WithIngestion(ingestion: seq<IngestionJob>): seq<IngestionJob> {
    if AnyActive(ingestion) then ingestion else ingestion + [PENDING_INGESTION]
  }

  function WithDeletion(deletion: seq<DeletionJob>): seq<DeletionJob> {
    if DeletionActive(deletion) then deletion else deletion + [PENDING_DELETION]
  }

  function AfterVectors(job: DeletionJob, failed: bool): DeletionJob {
    if failed then job.(status := DeletionPartiallyFailed) else job.(vectorsCleaned := true)
  }

  function AfterObject(job: DeletionJob, gone: bool): DeletionJob {
    if gone then job.(status := DeletionCompleted, objectCleaned := true) else job.(status := DeletionPartiallyFailed)
  }

  // ----- when a segment can run -----

  predicate EnabledIngestion(r: Record, s: IngestionStep, env: Env) {
    match s
    case ClaimIngestion(j) => j < |r.ingestion| && r.ingestion[j].status == Pending
    case EmbedDocument(j, target, metadata, count) =>
      // the object is read and has text, so at least one chunk is embedded
      IngesterAt(r, j) && r.ingesters[j].phase.Reading? && env.stored && count >= 1
    case UpsertIngestion(j) => IngesterAt(r, j) && r.ingesters[j].phase.Embedded?
    case FinishIngestion(j) => IngesterAt(r, j) && r.ingesters[j].phase.Upserted? && r.activating == None
    case FailIngestion(j) => IngesterAt(r, j) && !r.ingesters[j].phase.Upserted?
    case CrashIngestion(j) => IngesterAt(r, j)
    case CheckRetry(q) => q !in r.retriers && r.deletion == []
    case LockRetryRows(q) => RetrierAt(r, q, DeletionChecked) && (r.ingestion == [] || Last(r.ingestion).status == Failed)
    case FlipRetry(q) => RetrierAt(r, q, DeletionChecked) && r.ingestion != [] && Last(r.ingestion).status == Processing
    case InsertRetry(q) => RetrierAt(r, q, RowsLocked)
    case RecoverIngestion(j) => j < |r.ingestion| && r.ingestion[j].status == Processing
  }

  predicate IngesterAt(r: Record, j: nat) {
    j in r.ingesters && j < |r.ingestion| && r.ingesters[j].alive
  }

  predicate RetrierAt(r: Record, q: nat, phase: RetryPhase) {
    q in r.retriers && r.retriers[q] == phase
  }

  predicate EnabledReindex(r: Record, s: ReindexStep, env: Env) {
    match s
    case ReadSource(q, target) => q !in r.schedulers && r.collection.Some? && r.collection != Some(target)
    case ReadBuilds(q) => SchedulerAt(r, q, SourceRead) && !ReindexActive(r.reindex)
    case ReadIngestion(q) => SchedulerAt(r, q, BuildsRead) && !IngestionActive(r.ingestion)
    case ReadDeletions(q) => SchedulerAt(r, q, IngestionRead) && r.deletion == []
    case EnsureTarget(q, _) => SchedulerAt(r, q, ChecksPassed)
    case InsertReindex(q) => SchedulerAt(r, q, TargetEnsured)
    case DropSchedule(q) => q in r.schedulers
    case ClaimReindex(j) => j < |r.reindex| && r.reindex[j].status == Pending
    case CheckDeletion(j) => BuilderAt(r, j) && r.builders[j].phase.BuildClaimed?
    case EmbedBuild(j, count) =>
      BuilderAt(r, j) && r.builders[j].phase.BuildCleared? && r.reindex[j].target in env.catalog && env.stored && count >= 1
    case UpsertBuild(j) => BuilderAt(r, j) && r.builders[j].phase.BuildReady?
    case FinishBuild(j) => BuilderAt(r, j) && r.builders[j].phase.Built?
    case FailBuild(j) =>
      BuilderAt(r, j) && (r.builders[j].phase.BuildRefused? || r.builders[j].phase.BuildCleared? || r.builders[j].phase.BuildReady?)
    case CrashBuild(j) => BuilderAt(r, j)
  }

  predicate SchedulerAt(r: Record, q: nat, phase: SchedulePhase) {
    q in r.schedulers && r.schedulers[q].phase == phase
  }

  predicate BuilderAt(r: Record, j: nat) {
    j in r.builders && j < |r.reindex| && r.builders[j].alive
  }

  /** An activation holds the document row's lock from its checks to its commit, so no other segment
      that writes the document row runs in between. */
  predicate EnabledCutover(r: Record, s: CutoverStep, env: Env) {
    match s
    case BeginActivation(j) => r.activating == None && ActivationDecision(r, j, env.catalog) == Activated
    case CommitActivation => ActivatingAt(r) && r.reindex[r.activating.value].target in env.catalog
    case AbortActivation => r.activating.Some?
    case ClaimCleanup(w, k) => w !in r.cleaners && k < |r.cleanup| && OpenRow(r.cleanup[k])
    case GuardCleanup(w) => CleanerAt(r, w, CleanClaimed)
    case EraseCleanup(w, _) => CleanerAt(r, w, CleanCleared)
    case FinishCleanup(w) => CleanerAt(r, w, CleanRefused) || CleanerAt(r, w, CleanDeleted) || CleanerAt(r, w, CleanErred)
    case CrashCleanup(w) => w in r.cleaners
  }

  predicate ActivatingAt(r: Record) {
    r.activating.Some? && r.activating.value < |r.reindex|
  }

  predicate CleanerAt(r: Record, w: nat, phase: CleanPhase) {
    w in r.cleaners && r.cleaners[w].row < |r.cleanup| && r.cleaners[w].phase == phase
  }

  datatype ActivationOutcome =
    JobNotFound | AlreadyActivated | NotReady | BlockedByDeletion | SourceChanged | Activated

  /** activate_reindexed_document's decision for an existing document, in its documented order. */
  function ActivationDecision(r: Record, j: nat, catalog: map<Collection, Metadata>): ActivationOutcome {
    if j >= |r.reindex| then JobNotFound
    else if r.reindex[j].activated then AlreadyActivated
    else if r.reindex[j].status != Completed then NotReady
    else if r.deletion != [] then BlockedByDeletion
    else if r.collection != Some(r.reindex[j].source) then SourceChanged
    else if r.reindex[j].target !in catalog then NotReady
    else Activated
  }

  predicate EnabledDeletion(r: Record, s: DeletionStep) {
    match s
    case AskDeletions(q) => q !in r.asking && q !in r.requests && OpenToRequest(r.deletion)
    case AskIngestion(q) => AskerAt(r, q, DeletionsAsked) && !IngestionActive(r.ingestion)
    case AskReindex(q) => AskerAt(r, q, IngestionAsked) && !ReindexActive(r.reindex)
    case InsertDeletion(q) => q in r.requests
    case ClaimDeletion(j) => j < |r.deletion| && r.deletion[j].status == DeletionPending
    case ReadCurrent(j) => DeleterAt(r, j) && r.deleters[j].Starting?
    case ReadCleanups(j) => DeleterAt(r, j) && r.deleters[j].CurrentRead?
    case ReadTargets(j) => DeleterAt(r, j) && r.deleters[j].CleanupsRead?
    case EraseNext(j, _) => DeleterAt(r, j) && r.deleters[j].Deleting? && r.deleters[j].next < |r.deleters[j].attempts|
    case CommitVectors(j) => DeleterAt(r, j) && r.deleters[j].Deleting? && r.deleters[j].next == |r.deleters[j].attempts|
    case DeleteObject(j, _) => DeleterAt(r, j) && r.deleters[j].VectorsGone?
    case FinishDeletion(j) =>
      DeleterAt(r, j) && (r.deleters[j].ObjectKept? || (r.deleters[j].ObjectGone? && r.activating == None))
    case CrashDeletion(j) => DeleterAt(r, j)
  }

  predicate AskerAt(r: Record, q: nat, phase: AskPhase) {
    q in r.asking && r.asking[q] == phase
  }

  predicate DeleterAt(r: Record, j: nat) {
    j in r.deleters && j < |r.deletion|
  }

  predicate Enabled(r: Record, s: DocStep, env: Env) {
    match s
    case Ingest(i) => EnabledIngestion(r, i, env)
    case Reindex(i) => EnabledReindex(r, i, env)
    case Cutover(i) => EnabledCutover(r, i, env)
    case Delete(i) => EnabledDeletion(r, i)
  }

  // ----- what a segment leaves behind -----

  function ApplyIngestion(r: Record, s: IngestionStep, env: Env): Record
    requires EnabledIngestion(r, s, env)
  {
    match s
    case ClaimIngestion(j) =>
      r.(ingestion := r.ingestion[j := r.ingestion[j].(status := Processing)],
         ingesters := r.ingesters[j := Ingester(Reading, true)])
    case EmbedDocument(j, target, metadata, count) =>
      r.(ingesters := r.ingesters[j := Ingester(Embedded(target, metadata, count), true)])
    case UpsertIngestion(j) =>
      var p := r.ingesters[j].phase;
      r.(points := Upsert(r.points, p.target, p.count),
         ingesters := r.ingesters[j := Ingester(Upserted(p.target, p.metadata), true)])
    case FinishIngestion(j) =>
      var p := r.ingesters[j].phase;
      r.(ingestion := r.ingestion[j := r.ingestion[j].(status := Completed)],
         ingesters := r.ingesters - {j},
         collection := Some(p.target), metadata := Some(p.metadata),
         served := r.served + [p.target])
    case FailIngestion(j) =>
      r.(ingestion := r.ingestion[j := r.ingestion[j].(status := Failed)], ingesters := r.ingesters - {j})
    case CrashIngestion(j) =>
      r.(ingesters := r.ingesters[j := r.ingesters[j].(alive := false)])
    case CheckRetry(q) => r.(retriers := r.retriers[q := DeletionChecked])
    case LockRetryRows(q) => r.(retriers := r.retriers[q := RowsLocked])
    case FlipRetry(q) =>
      r.(ingestion := Recovered(r.ingestion, |r.ingestion| - 1), retriers := r.retriers - {q})
    case InsertRetry(q) =>
      r.(ingestion := WithIngestion(r.ingestion), retriers := r.retriers - {q})
    case RecoverIngestion(j) =>
      r.(ingestion := Recovered(r.ingestion, j))
  }

  function ApplyReindex(r: Record, s: ReindexStep, env: Env): Record
    requires EnabledReindex(r, s, env)
  {
    match s
    case ReadSource(q, target) =>
      r.(schedulers := r.schedulers[q := Scheduler(r.collection.value, target, SourceRead)])
    case ReadBuilds(q) => r.(schedulers := r.schedulers[q := r.schedulers[q].(phase := BuildsRead)])
    case ReadIngestion(q) => r.(schedulers := r.schedulers[q := r.schedulers[q].(phase := IngestionRead)])
    case ReadDeletions(q) => r.(schedulers := r.schedulers[q := r.schedulers[q].(phase := ChecksPassed)])
    case EnsureTarget(q, _) =>
      r.(schedulers := r.schedulers[q := r.schedulers[q].(phase := TargetEnsured)])
    case InsertReindex(q) =>
      r.(reindex := WithReindex(r.reindex, r.schedulers[q].source, r.schedulers[q].target),
         schedulers := r.schedulers - {q})
    case DropSchedule(q) => r.(schedulers := r.schedulers - {q})
    case ClaimReindex(j) =>
      r.(reindex := r.reindex[j := r.reindex[j].(status := Processing)],
         builders := r.builders[j := Builder(BuildClaimed, true)])
    case CheckDeletion(j) =>
      r.(builders := r.builders[j := Builder(if r.deletion == [] then BuildCleared else BuildRefused, true)])
    case EmbedBuild(j, count) =>
      r.(builders := r.builders[j := Builder(BuildReady(count), true)])
    case UpsertBuild(j) =>
      r.(points := Upsert(r.points, r.reindex[j].target, r.builders[j].phase.count),
         builders := r.builders[j := Builder(Built, true)])
    case FinishBuild(j) =>
      r.(reindex := r.reindex[j := r.reindex[j].(status := if r.reindex[j].status == Processing then Completed else Failed)],
         builders := r.builders - {j})
    case FailBuild(j) =>
      r.(reindex := r.reindex[j := r.reindex[j].(status := Failed)], builders := r.builders - {j})
    case CrashBuild(j) =>
      r.(builders := r.builders[j := r.builders[j].(alive := false)])
  }

  function ApplyCutover(r: Record, s: CutoverStep, env: Env): Record
    requires EnabledCutover(r, s, env)
  {
    match s
    case BeginActivation(j) => r.(activating := Some(j))
    case CommitActivation =>
      var j := r.activating.value;
      var job := r.reindex[j];
      r.(collection := Some(job.target), metadata := Some(env.catalog[job.target]),
         cleanup := if job.source == job.target then r.cleanup
                    else r.cleanup + [CleanupJob(job.source, CleanupPending, 0)],
         reindex := r.reindex[j := job.(activated := true)],
         activating := None,
         served := r.served + [job.target],
         activations := r.activations + [j])
    case AbortActivation => r.(activating := None)
    case ClaimCleanup(w, k) => r.(cleaners := r.cleaners[w := Cleaner(k, CleanClaimed)])
    case GuardCleanup(w) =>
      var k := r.cleaners[w].row;
      r.(cleaners := r.cleaners[w := Cleaner(k, if r.collection == Some(r.cleanup[k].collection) then CleanRefused else CleanCleared)])
    case EraseCleanup(w, ok) =>
      var k := r.cleaners[w].row;
      r.(points := if ok then Erase(r.points, r.cleanup[k].collection) else r.points,
         cleaners := r.cleaners[w := Cleaner(k, if ok then CleanDeleted else CleanErred)])
    case FinishCleanup(w) =>
      var k := r.cleaners[w].row;
      var status := if r.cleaners[w].phase == CleanDeleted then CleanupCompleted else CleanupFailed;
      r.(cleanup := r.cleanup[k := CleanupJob(r.cleanup[k].collection, status, r.cleanup[k].attempts + 1)],
         cleaners := r.cleaners - {w})
    case CrashCleanup(w) => r.(cleaners := r.cleaners - {w})
  }

  function ApplyDeletion(r: Record, s: DeletionStep): Record
    requires EnabledDeletion(r, s)
  {
    match s
    case AskDeletions(q) => r.(asking := r.asking[q := DeletionsAsked])
    case AskIngestion(q) => r.(asking := r.asking[q := IngestionAsked])
    case AskReindex(q) => r.(asking := r.asking - {q}, requests := r.requests + {q})
    case InsertDeletion(q) =>
      r.(requests := r.requests - {q}, deletion := WithDeletion(r.deletion))
    case ClaimDeletion(j) =>
      r.(deletion := r.deletion[j := r.deletion[j].(status := DeletionProcessing)],
         deleters := r.deleters[j := Starting])
    case ReadCurrent(j) =>
      r.(deleters := r.deleters[j := CurrentRead(if r.collection.Some? then [r.collection.value] else [])])
    case ReadCleanups(j) =>
      r.(deleters := r.deleters[j := CleanupsRead(AppendNew(r.deleters[j].attempts, OpenCleanupCollections(r.cleanup)))])
    case ReadTargets(j) =>
      r.(deleters := r.deleters[j := Deleting(AppendNew(r.deleters[j].attempts, CompletedTargets(r.reindex)), 0, false)])
    case EraseNext(j, ok) =>
      var d := r.deleters[j];
      r.(points := if ok then Erase(r.points, d.attempts[d.next]) else r.points,
         deleters := r.deleters[j := Deleting(d.attempts, d.next + 1, d.failed || !ok)])
    case CommitVectors(j) =>
      var failed := r.deleters[j].failed;
      r.(deletion := r.deletion[j := AfterVectors(r.deletion[j], failed)],
         deleters := if failed then r.deleters - {j} else r.deleters[j := VectorsGone])
    case DeleteObject(j, ok) => r.(deleters := r.deleters[j := if ok then ObjectGone else ObjectKept])
    case FinishDeletion(j) =>
      var gone := r.deleters[j].ObjectGone?;
      r.(deletion := r.deletion[j := AfterObject(r.deletion[j], gone)],
         hash := if gone then None else r.hash,
         deleters := r.deleters - {j})
    case CrashDeletion(j) => r.(deleters := r.deleters - {j})
  }

  function Apply(r: Record, s: DocStep, env: Env): Record
    requires Enabled(r, s, env)
  {
    match s
    case Ingest(i) => ApplyIngestion(r, i, env)
    case Reindex(i) => ApplyReindex(r, i, env)
    case Cutover(i) => ApplyCutover(r, i, env)
    case Delete(i) => ApplyDeletion(r, i)
  }

  /** Whether the document's object is in storage after the segment. */
  predicate ApplyStored(s: DocStep, stored: bool) {
    stored && !(s.Delete? && s.delete.DeleteObject? && s.delete.ok)
  }

  /** A row `ensure_active_collection` adds only when the collection has none yet. */
  function EnsureRow(catalog: map<Collection, Metadata>, c: Collection, metadata: Metadata): map<Collection, Metadata> {
    if c in catalog then catalog else catalog[c := metadata]
  }

  /** The index_collections table after the segment. */
  function ApplyCatalog(r: Record, s: DocStep, catalog: map<Collection, Metadata>): map<Collection, Metadata> {
    match s
    case Ingest(EmbedDocument(_, target, metadata, _)) => EnsureRow(catalog, target, metadata)
    case Reindex(EnsureTarget(q, metadata)) =>
      if q in r.schedulers then EnsureRow(catalog, r.schedulers[q].target, metadata) else catalog
    case _ => catalog
  }

  function NextEnv(r: Record, s: DocStep, env: Env): Env {
    Env(ApplyStored(s, env.stored), ApplyCatalog(r, s, env.catalog))
  }

  /** The document as `upload_document` commits it: one PENDING ingestion row and nothing else. */
  function Fresh(key: Key, hash: Digest): Record {
    Record(key, Some(hash), None, None, [PENDING_INGESTION], [], [], [], map[], map[], map[], map[], map[], map[], map[], {}, map[], None, [], [])
  }

  // ----- the assumptions under which the guarantees are stated -----

  /** The worker of PROCESSING job `j` died before its upsert. */
  predicate DiedBeforeUpsert(r: Record, j: nat) {
    j in r.ingesters && !r.ingesters[j].alive && !r.ingesters[j].phase.Upserted?
  }

  /** Stale recovery, or retry's own stale flip, hits only jobs whose worker died before its upsert; once the
      object is gone no worker can write and any flip will do. */
  predicate TimelyRecovery(r: Record, s: IngestionStep, env: Env) {
    match s
    case RecoverIngestion(j) => !env.stored || DiedBeforeUpsert(r, j)
    case FlipRetry(_) => !env.stored || (r.ingestion != [] && DiedBeforeUpsert(r, |r.ingestion| - 1))
    case _ => true
  }

  /** Retry's PENDING row can be inserted now, however old its checks are: the unique index stops it, or its
      worker could not write, or there is still no deletion row and the latest attempt is still a failed one. */
  predicate HarmlessReinsert(r: Record, env: Env) {
    || AnyActive(r.ingestion)
    || !env.stored
    || (r.deletion == [] && (r.ingestion == [] || Last(r.ingestion).status == Failed))
  }

  predicate HarmlessRetry(r: Record, s: IngestionStep, env: Env) {
    s.InsertRetry? ==> HarmlessReinsert(r, env)
  }

  /** A deletion request is one atomic step: at its insert the decision it checked still stands, or the
      partial unique index stops it. */
  predicate AtomicRequest(r: Record, s: DeletionStep) {
    s.InsertDeletion? ==> DeletionDecision(r) == DeletionCreated || DeletionDecision(r) == AlreadyActive
  }

  /** A live re-index worker past its deletion check that has not upserted yet. */
  predicate WritesLater(b: Builder) {
    b.alive && (b.phase.BuildCleared? || b.phase.BuildReady?)
  }

  /** A deletion row can be inserted now, however old the request's checks are: it is not the first one, or
      nothing can write points any more and those there are in collections the deletion worker will find. */
  predicate HarmlessInsert(r: Record) {
    || r.deletion != []
    || (&& !IngestionActive(r.ingestion)
        && (forall j :: j in r.builders ==> !WritesLater(r.builders[j]))
        && (forall c :: c in r.points && Held(r.points, c) ==> Durable(r, c)))
  }

  predicate HarmlessRequest(r: Record, s: DeletionStep) {
    s.InsertDeletion? ==> HarmlessInsert(r)
  }

  predicate Assumed(r: Record, s: DocStep, env: Env) {
    && (s.Ingest? ==> TimelyRecovery(r, s.ingest, env) && HarmlessRetry(r, s.ingest, env))
    && (s.Delete? ==> AtomicRequest(r, s.delete) || HarmlessRequest(r, s.delete))
  }
}
