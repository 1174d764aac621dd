/** Reachable situations the code does not protect against, each played out from a freshly uploaded
    document (or from the empty system) by segments that can really run. */
module Scenarios {
  import opened Wrappers
  import opened DocumentRecord
  import opened Steps
  import opened Invariant
  import opened Preservation
  import opened Health
  import opened Continuations
  import opened DocumentSessions
  import opened WorkerRuns

  const DONE_INGESTION := IngestionJob(Completed, false)

  /** Indexed into `c` with one point, nothing in flight. */
  function IndexedRecord(key: Key, hash: Digest, c: Collection): Record {
    Fresh(key, hash).(ingestion := [DONE_INGESTION], collection := Some(c), metadata := Some(0),
                      points := map[c := ChunkIndexes(1)], served := [c])
  }

  lemma IngestFresh(start: Scene, key: Key, hash: Digest, c: Collection) returns (to: Scene)
    requires start.record == Fresh(key, hash) && start.env.stored
    ensures Reaches(start, to, true)
    ensures to == Scene(IndexedRecord(key, hash, c), start.env.(catalog := EnsureRow(start.env.catalog, c, 0)))
  {
    IngestionJobIsRun(start, 0, c, 0, 1, false);
    to := AfterIngestionJob(start, 0, c, 0, 1, false);
    assert {} + ChunkIndexes(1) == ChunkIndexes(1);
  }

  /** Nothing is in flight and no job is active or being deleted. */
  predicate Idle(r: Record) {
    && r.collection.Some? && r.deletion == [] && r.activating == None
    && r.schedulers == map[] && r.builders == map[] && r.cleaners == map[] && r.ingesters == map[]
    && !IngestionActive(r.ingestion) && !ReindexActive(r.reindex)
  }

  /** Scheduling a build of `target`. */
  lemma Schedule(start: Scene, at: Scene, target: Collection) returns (to: Scene)
    requires Reaches(start, at, true) && Idle(at.record) && at.record.collection != Some(target)
    ensures Reaches(start, to, true) && to == AfterScheduling(at, target, 0)
  {
    SchedulingIsRun(at, 0, target, 0);
    to := AfterScheduling(at, target, 0);
    ReachesOn(start, at, to, true);
  }

  /** A whole build of `target`: scheduled, embedded, upserted, completed. */
  lemma Build(start: Scene, at: Scene, target: Collection) returns (to: Scene)
    requires Reaches(start, at, true) && at.env.stored
    requires Idle(at.record) && at.record.collection != Some(target)
    ensures Reaches(start, to, true)
    ensures to.env == at.env.(catalog := EnsureRow(at.env.catalog, target, 0))
    ensures to.record == at.record.(
              reindex := at.record.reindex + [ReindexJob(at.record.collection.value, target, Completed, false)],
              points := Upsert(at.record.points, target, 1))
  {
    var j := |at.record.reindex|;
    var pending := Schedule(start, at, target);
    BuildJobIsRun(pending, j, 1, false);
    to := AfterBuildJob(pending, j, 1, false);
    ReachesOn(start, pending, to, true);
  }

  /** Activation of the latest built job, in one go. */
  lemma Activate(start: Scene, at: Scene, job: ReindexJob) returns (to: Scene)
    requires Reaches(start, at, true) && at.record.activating == None && at.record.deletion == []
    requires at.record.reindex != [] && Last(at.record.reindex) == job && job.status == Completed && !job.activated
    requires at.record.collection == Some(job.source) && job.target in at.env.catalog
    ensures Reaches(start, to, true) && to == AfterActivation(at, |at.record.reindex| - 1)
  {
    ActivationIsRun(at, |at.record.reindex| - 1);
    to := AfterActivation(at, |at.record.reindex| - 1);
    ReachesOn(start, at, to, true);
  }

  /** One retry of cleanup row `k`. */
  lemma Clean(start: Scene, at: Scene, k: nat) returns (to: Scene)
    requires Reaches(start, at, true) && at.record.cleaners == map[]
    requires k < |at.record.cleanup| && OpenRow(at.record.cleanup[k])
    ensures Reaches(start, to, true) && to == AfterCleanup(at, k, false)
  {
    CleanupIsRun(at, 0, k, false);
    to := AfterCleanup(at, k, false);
    ReachesOn(start, at, to, true);
  }

  /** Returning to a vacated collection: built while its cleanup was open, activated after the cleanup ran,
      the document serves a collection in which it has no point at all. */
  lemma ReturnServesNothing(key: Key, hash: Digest) returns (to: Scene)
    ensures Reaches(Scene(Fresh(key, hash), Env(true, map[])), to, true)
    ensures to.record.deletion == [] && to.record.collection == Some(0) && !HasPoints(to.record)
  {
    var start := Scene(Fresh(key, hash), Env(true, map[]));
    var indexed := IngestFresh(start, key, hash, 0);
    var built := Build(start, indexed, 1);
    var moved := Activate(start, built, ReindexJob(0, 1, Completed, false));
    assert !ReindexActive(moved.record.reindex);
    var rebuilt := Build(start, moved, 0);
    var cleaned := Clean(start, rebuilt, 0);
    to := Activate(start, cleaned, ReindexJob(1, 0, Completed, false));
  }

  // ----- two requests for a build -----

  /** A request up to its insert; its checks see no active job. */
  lemma ReachInsert(start: Scene, at: Scene, q: nat, target: Collection) returns (to: Scene)
    requires Reaches(start, at, true) && q !in at.record.schedulers
    requires at.record.collection.Some? && at.record.collection != Some(target)
    requires !ReindexActive(at.record.reindex) && !IngestionActive(at.record.ingestion) && at.record.deletion == []
    ensures Reaches(start, to, true)
    ensures to.record == at.record.(schedulers :=
              at.record.schedulers[q := Scheduler(at.record.collection.value, target, TargetEnsured)])
  {
    var passed := PassChecks(at, q, target);
    ReachesOn(start, at, passed, true);
    to := After(passed, Reindex(EnsureTarget(q, 0)));
    Go(start, passed, Reindex(EnsureTarget(q, 0)), to, true);
  }

  /** Two requests for a build pass their checks, the second one's insert is refused because of the first
      one's job, and that job fails before the second looks for it: no active job can be reloaded, and
      MissingActiveReindexJobAfterRaceError is raised. */
  lemma MissingBuildIsReachable(key: Key, hash: Digest) returns (lost: Scene, to: Scene)
    ensures Reaches(Scene(Fresh(key, hash), Env(true, map[])), lost, true)
    ensures SchedulerAt(lost.record, 1, TargetEnsured) && ReindexActive(lost.record.reindex)
    ensures Reaches(Scene(Fresh(key, hash), Env(true, map[])), After(lost, Reindex(InsertReindex(1))), true)
    ensures Reaches(After(lost, Reindex(InsertReindex(1))), to, true) && !ReindexActive(to.record.reindex)
  {
    var start := Scene(Fresh(key, hash), Env(true, map[]));
    var indexed := IngestFresh(start, key, hash, 0);
    var one := ReachInsert(start, indexed, 0, 1);
    var two := ReachInsert(start, one, 1, 1);
    lost := After(two, Reindex(InsertReindex(0)));
    Go(start, two, Reindex(InsertReindex(0)), lost, true);
    to := WinnerFails(start, lost);
  }

  lemma WinnerFails(start: Scene, lost: Scene) returns (to: Scene)
    requires Reaches(start, lost, true) && SchedulerAt(lost.record, 1, TargetEnsured)
    requires lost.record.reindex == [ReindexJob(0, 1, Pending, false)] && lost.record.builders == map[]
    ensures ReindexActive(lost.record.reindex)
    ensures Reaches(start, After(lost, Reindex(InsertReindex(1))), true)
    ensures Reaches(After(lost, Reindex(InsertReindex(1))), to, true) && !ReindexActive(to.record.reindex)
  {
    assert ActiveJob(lost.record.reindex[0].status);
    var refused := After(lost, Reindex(InsertReindex(1)));
    Go(start, lost, Reindex(InsertReindex(1)), refused, true);
    BuildJobIsRun(refused, 0, 1, true);
    to := AfterBuildJob(refused, 0, 1, true);
  }

  // ----- a deletion request that is not atomic -----

  lemma {:induction false} Relax(at: Scene, steps: seq<DocStep>)
    requires Play(at, steps, true).Some?
    ensures Play(at, steps, false) == Play(at, steps, true)
    decreases |steps|
  {
    if steps != [] {
      Relax(After(at, steps[0]), steps[1..]);
    }
  }

  lemma RelaxReaches(start: Scene, at: Scene)
    requires Reaches(start, at, true)
    ensures Reaches(start, at, false)
  {
    var steps :| Play(start, steps, true) == Some(at);
    Relax(start, steps);
  }

  /** Indexed, with a deletion request past its checks and a build of collection 1 past its own. */
  lemma RequestAndBuild(start: Scene, key: Key, hash: Digest) returns (to: Scene)
    requires start == Scene(Fresh(key, hash), Env(true, map[]))
    ensures Reaches(start, to, true)
    ensures to.record == IndexedRecord(key, hash, 0).(requests := {0}, reindex := [ReindexJob(0, 1, Processing, false)],
                                                      builders := map[0 := Builder(BuildReady(1), true)])
  {
    var indexed := IngestFresh(start, key, hash, 0);
    var requested := PassAsks(indexed, 0);
    ReachesOn(start, indexed, requested, true);
    var pending := Schedule(start, requested, 1);
    to := ReadyBuild(start, pending);
  }

  /** The worker claims the only job, finds no deletion, and embeds one chunk. */
  lemma ReadyBuild(start: Scene, at: Scene) returns (to: Scene)
    requires Reaches(start, at, true) && at.env.stored && 1 in at.env.catalog
    requires at.record.builders == map[] && at.record.deletion == [] && at.record.reindex == [ReindexJob(0, 1, Pending, false)]
    ensures Reaches(start, to, true)
    ensures to.record == at.record.(reindex := [ReindexJob(0, 1, Processing, false)], builders := map[0 := Builder(BuildReady(1), true)])
  {
    var cleared := ClaimAndCheck(at, 0);
    ReachesOn(start, at, cleared, true);
    to := After(cleared, Reindex(EmbedBuild(0, 1)));
    Go(start, cleared, Reindex(EmbedBuild(0, 1)), to, true);
  }

  /** A request passes its checks, a build is scheduled and passes its own, and only then the request's row
      is inserted: the deletion completes and the build upserts after it. */
  lemma SplitRequestLeavesPoints(key: Key, hash: Digest) returns (to: Scene)
    ensures Reaches(Scene(Fresh(key, hash), Env(true, map[])), to, false)
    ensures DeletionDone(to.record.deletion) && !Empty(to.record.points)
  {
    var start := Scene(Fresh(key, hash), Env(true, map[]));
    var ready := RequestAndBuild(start, key, hash);
    RelaxReaches(start, ready);
    var inserted := Scene(ready.record.(requests := {}, deletion := [PENDING_DELETION]), ready.env);
    assert ready.record.requests - {0} == {};
    Go(start, ready, Delete(InsertDeletion(0)), inserted, false);
    to := DeleteUnderBuild(start, inserted);
  }

  lemma OnlyCurrentTracked(r: Record)
    requires r.cleanup == [] && r.collection == Some(0) && |r.reindex| == 1 && r.reindex[0].status == Processing
    ensures Attempts(r) == [0]
  {
    assert r.reindex[..0] == [];
    assert CompletedTargets(r.reindex) == [];
    assert OpenCleanupCollections(r.cleanup) == [];
  }

  /** The deletion worker runs to completion while the ready build of job 0 waits, then the build upserts. */
  lemma DeleteUnderBuild(start: Scene, at: Scene) returns (to: Scene)
    requires Reaches(start, at, false)
    requires at.record.deletion == [PENDING_DELETION] && at.record.deleters == map[]
    requires at.record.cleanup == [] && at.record.activating == None && at.record.collection == Some(0)
    requires |at.record.reindex| == 1 && at.record.reindex[0].status == Processing
    requires at.record.builders == map[0 := Builder(BuildReady(1), true)]
    ensures Reaches(start, to, false)
    ensures DeletionDone(to.record.deletion) && !Empty(to.record.points)
  {
    OnlyCurrentTracked(at.record);
    var read := ReadAll(start, at, 0, false);
    var erased := After(read, Delete(EraseNext(0, true)));
    Go(start, read, Delete(EraseNext(0, true)), erased, false);
    var finished := FinishJob(start, erased, 0, false, false);
    assert finished.record.deletion[0].status == DeletionCompleted;
    to := After(finished, Reindex(UpsertBuild(0)));
    Go(start, finished, Reindex(UpsertBuild(0)), to, false);
    UpsertHolds(finished.record.points, at.record.reindex[0].target, 1);
    assert Held(to.record.points, at.record.reindex[0].target);
  }
}
