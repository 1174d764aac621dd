/** The state of one document: its rows in the five tables that carry its id, its points in Qdrant,
    and the requests and workers currently busy with it.

    Rows are append-only and a row's index is its creation order, so "the latest row" is the last one.
    A worker appears here from its claim until its terminal commit; a crashed one stays, marked dead,
    for the two job kinds whose rows outlive it in PROCESSING. */
module DocumentRecord {
  import opened Wrappers

  type Collection = nat
  type Key = nat
  type Digest = nat
  type Metadata = nat

  datatype JobStatus = Pending | Processing | Completed | Failed
  datatype CleanupStatus = CleanupPending | CleanupFailed | CleanupCompleted
  datatype DeletionStatus = DeletionPending | DeletionProcessing | DeletionPartiallyFailed | DeletionCompleted

  /** `recovered` stands for the fixed stale-recovery error message. */
  datatype IngestionJob = IngestionJob(status: JobStatus, recovered: bool)
  datatype ReindexJob = ReindexJob(source: Collection, target: Collection, status: JobStatus, activated: bool)
  datatype CleanupJob = CleanupJob(collection: Collection, status: CleanupStatus, attempts: nat)
  datatype DeletionJob = DeletionJob(status: DeletionStatus, vectorsCleaned: bool, objectCleaned: bool)

  // Where a worker or request stands between two of its commits or external calls.
  datatype IngestPhase =
    | Reading
    | Embedded(target: Collection, metadata: Metadata, count: nat)
    | Upserted(target: Collection, metadata: Metadata)
  datatype BuildPhase = BuildClaimed | BuildRefused | BuildCleared | BuildReady(count: nat) | Built
  datatype CleanPhase = CleanClaimed | CleanRefused | CleanCleared | CleanDeleted | CleanErred
  datatype SchedulePhase = SourceRead | BuildsRead | IngestionRead | ChecksPassed | TargetEnsured
  datatype RetryPhase = DeletionChecked | RowsLocked
  datatype AskPhase = DeletionsAsked | IngestionAsked
  datatype DeletePhase =
    | Starting
    | CurrentRead(attempts: seq<Collection>)
    | CleanupsRead(attempts: seq<Collection>)
    | Deleting(attempts: seq<Collection>, next: nat, failed: bool)
    | VectorsGone
    | ObjectGone
    | ObjectKept

  datatype Ingester = Ingester(phase: IngestPhase, alive: bool)
  datatype Builder = Builder(phase: BuildPhase, alive: bool)
  datatype Cleaner = Cleaner(row: nat, phase: CleanPhase)
  datatype Scheduler = Scheduler(source: Collection, target: Collection, phase: SchedulePhase)

  /** `served` and `activations` are bookkeeping the code does not keep in this form: the collections the
      document has served from, oldest first, and the activated re-index jobs in `activated_at` order.
      `asking` are deletion requests between their checks and `requests` those past them; a request that is
      refused simply stays where it is. */
  datatype Record = Record(
    key: Key,
    hash: Option<Digest>,
    collection: Option<Collection>,
    metadata: Option<Metadata>,
    ingestion: seq<IngestionJob>,
    reindex: seq<ReindexJob>,
    cleanup: seq<CleanupJob>,
    deletion: seq<DeletionJob>,
    points: map<Collection, set<nat>>,
    ingesters: map<nat, Ingester>,
    builders: map<nat, Builder>,
    cleaners: map<nat, Cleaner>,
    schedulers: map<nat, Scheduler>,
    retriers: map<nat, RetryPhase>,
    asking: map<nat, AskPhase>,
    requests: set<nat>,
    deleters: map<nat, DeletePhase>,
    activating: Option<nat>,
    served: seq<Collection>,
    activations: seq<nat>
  )

  function Last<T>(s: seq<T>): T
    requires s != []
  {
    s[|s| - 1]
  }

  /** The points the document has in `c`. */
  function PointsIn(points: map<Collection, set<nat>>, c: Collection): set<nat> {
    if c in points then points[c] else {}
  }

  predicate Held(points: map<Collection, set<nat>>, c: Collection) {
    PointsIn(points, c) != {}
  }

  /** The chunk indexes below `count`. */
  function ChunkIndexes(count: nat): (r: set<nat>)
    ensures forall i: nat :: i in r <==> i < count
  {
    if count == 0 then {} else ChunkIndexes(count - 1) + {count - 1}
  }

  /** Upsert of the first `count` chunks: a point's id depends only on the document and the chunk index. */
  function Upsert(points: map<Collection, set<nat>>, c: Collection, count: nat): map<Collection, set<nat>> {
    points[c := PointsIn(points, c) + ChunkIndexes(count)]
  }

  /** Qdrant's delete-by-document filter, scoped to one collection. */
  function Erase(points: map<Collection, set<nat>>, c: Collection): map<Collection, set<nat>> {
    points[c := {}]
  }

  predicate ActiveJob(status: JobStatus) {
    status == Pending || status == Processing
  }

  predicate IngestionActive(ingestion: seq<IngestionJob>) {
    ingestion != [] && ActiveJob(Last(ingestion).status)
  }

  predicate AnyActive(ingestion: seq<IngestionJob>) {
    exists j :: 0 <= j < |ingestion| && ActiveJob(ingestion[j].status)
  }

  predicate ReindexActive(reindex: seq<ReindexJob>) {
    exists j :: 0 <= j < |reindex| && ActiveJob(reindex[j].status)
  }

  predicate ActiveDeletion(status: DeletionStatus) {
    status == DeletionPending || status == DeletionProcessing
  }

  predicate DeletionActive(deletion: seq<DeletionJob>) {
    exists j :: 0 <= j < |deletion| && ActiveDeletion(deletion[j].status)
  }

  predicate DeletionDone(deletion: seq<DeletionJob>) {
    exists j :: 0 <= j < |deletion| && deletion[j].status == DeletionCompleted
  }

  // ----- the tracked collections -----

  predicate OpenRow(row: CleanupJob) {
    row.status != CleanupCompleted
  }

  predicate OpenCleanup(cleanup: seq<CleanupJob>, c: Collection) {
    exists k :: 0 <= k < |cleanup| && OpenRow(cleanup[k]) && cleanup[k].collection == c
  }

  predicate CompletedTarget(reindex: seq<ReindexJob>, c: Collection) {
    exists j :: 0 <= j < |reindex| && reindex[j].status == Completed && reindex[j].target == c
  }

  /** Some re-index worker, possibly dead, has upserted into `c` while its job is still PROCESSING. */
  predicate BuiltTarget(reindex: seq<ReindexJob>, builders: map<nat, Builder>, c: Collection) {
    exists j :: j in builders && j < |reindex| && builders[j].phase.Built?
                && reindex[j].status == Processing && reindex[j].target == c
  }

  predicate IngestedInto(ingestion: seq<IngestionJob>, ingesters: map<nat, Ingester>, c: Collection) {
    exists j :: j in ingesters && j < |ingestion| && ingesters[j].phase.Upserted?
                && ingestion[j].status == Processing && ingesters[j].phase.target == c
  }

  /** What full deletion resolves from Postgres: current, open cleanups, completed re-index targets. */
  predicate Tracked(r: Record, c: Collection) {
    r.collection == Some(c) || OpenCleanup(r.cleanup, c) || CompletedTarget(r.reindex, c)
  }

  /** Row `k` is open, and no cleanup worker that has already deleted is about to close it. */
  predicate Pinned(cleanup: seq<CleanupJob>, cleaners: map<nat, Cleaner>, k: nat) {
    && k < |cleanup| && OpenRow(cleanup[k])
    && forall w :: w in cleaners ==> !(cleaners[w].row == k && cleaners[w].phase.CleanDeleted?)
  }

  predicate StaysOpen(cleanup: seq<CleanupJob>, cleaners: map<nat, Cleaner>, c: Collection) {
    exists k :: 0 <= k < |cleanup| && Pinned(cleanup, cleaners, k) && cleanup[k].collection == c
  }

  /** Tracked, and not about to be untracked while it still holds points. */
  predicate Durable(r: Record, c: Collection) {
    r.collection == Some(c) || StaysOpen(r.cleanup, r.cleaners, c) || CompletedTarget(r.reindex, c)
  }

  /** Collections of the PENDING and FAILED cleanup rows, oldest first. */
  function OpenCleanupCollections(cleanup: seq<CleanupJob>): (r: seq<Collection>)
    ensures forall c :: c in r <==> OpenCleanup(cleanup, c)
  {
    if cleanup == [] then []
    else
      var rest := OpenCleanupCollections(cleanup[..|cleanup| - 1]);
      assert forall c :: OpenCleanup(cleanup, c) <==>
        OpenCleanup(cleanup[..|cleanup| - 1], c) || (OpenRow(Last(cleanup)) && Last(cleanup).collection == c);
      if OpenRow(Last(cleanup)) then rest + [Last(cleanup).collection] else rest
  }

  /** Targets of the COMPLETED re-index jobs, oldest first; a target may occur more than once. */
  function CompletedTargets(reindex: seq<ReindexJob>): (r: seq<Collection>)
    ensures forall c :: c in r <==> CompletedTarget(reindex, c)
  {
    if reindex == [] then []
    else
      var rest := CompletedTargets(reindex[..|reindex| - 1]);
      assert forall c :: CompletedTarget(reindex, c) <==>
        CompletedTarget(reindex[..|reindex| - 1], c) || (Last(reindex).status == Completed && Last(reindex).target == c);
      if Last(reindex).status == Completed then rest + [Last(reindex).target] else rest
  }

  predicate Distinct<T(==)>(s: seq<T>) {
    forall i, j :: 0 <= i < j < |s| ==> s[i] != s[j]
  }

  /** Append to `attempts`, in order, every element of `more` it does not contain yet. */
  function AppendNew(attempts: seq<Collection>, more: seq<Collection>): (r: seq<Collection>)
    ensures attempts <= r
    ensures forall c :: c in r <==> c in attempts || c in more
    ensures Distinct(attempts) ==> Distinct(r)
    decreases |more|
  {
    if more == [] then attempts
    else if more[0] in attempts then AppendNew(attempts, more[1..])
    else AppendNew(attempts + [more[0]], more[1..])
  }
}
