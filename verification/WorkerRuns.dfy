/** An uninterrupted worker call is a run of the segments: what the worker methods compute is one of the
    interleavings the lifecycle guarantees quantify over. */
module WorkerRuns {
  import opened Wrappers
  import opened DocumentRecord
  import opened Steps
  import opened Invariant
  import opened Continuations
  import opened DocumentSessions

  // ----- the re-index worker -----

  lemma ClaimAndCheck(at: Scene, j: nat) returns (to: Scene)
    requires j < |at.record.reindex| && at.record.reindex[j].status == Pending
    ensures Reaches(at, to, true) && to.env == at.env
    ensures to.record == at.record.(reindex := at.record.reindex[j := at.record.reindex[j].(status := Processing)],
              builders := at.record.builders[j := Builder(if at.record.deletion == [] then BuildCleared else BuildRefused, true)])
  {
    Stay(at, true);
    var claimed := After(at, Reindex(ClaimReindex(j)));
    Go(at, at, Reindex(ClaimReindex(j)), claimed, true);
    to := After(claimed, Reindex(CheckDeletion(j)));
    Go(at, claimed, Reindex(CheckDeletion(j)), to, true);
  }

  lemma EmbedAndUpsert(start: Scene, at: Scene, j: nat, count: nat) returns (to: Scene)
    requires Reaches(start, at, true) && BuilderAt(at.record, j) && at.record.builders[j].phase.BuildCleared?
    requires at.record.reindex[j].target in at.env.catalog && at.env.stored && count >= 1
    ensures Reaches(start, to, true) && to.env == at.env
    ensures to.record == at.record.(points := Upsert(at.record.points, at.record.reindex[j].target, count),
                                    builders := at.record.builders[j := Builder(Built, true)])
  {
    var ready := After(at, Reindex(EmbedBuild(j, count)));
    Go(start, at, Reindex(EmbedBuild(j, count)), ready, true);
    to := After(ready, Reindex(UpsertBuild(j)));
    Go(start, ready, Reindex(UpsertBuild(j)), to, true);
  }

  lemma BuildFinishes(at: Scene, built: Scene, j: nat, count: nat)
    requires Reaches(at, built, true) && built.env == at.env && j < |at.record.reindex| && j !in at.record.builders
    requires at.record.deletion == [] && at.record.reindex[j].target in at.env.catalog && at.env.stored
    requires built.record == at.record.(
               reindex := at.record.reindex[j := at.record.reindex[j].(status := Processing)],
               points := Upsert(at.record.points, at.record.reindex[j].target, count),
               builders := at.record.builders[j := Builder(Built, true)])
    ensures Reaches(at, AfterBuildJob(at, j, count, false), true)
  {
    assert built.record.builders - {j} == at.record.builders;
    Go(at, built, Reindex(FinishBuild(j)), AfterBuildJob(at, j, count, false), true);
  }

  lemma BuildFails(at: Scene, checked: Scene, j: nat, count: nat, fails: bool)
    requires Reaches(at, checked, true) && checked.env == at.env && j < |at.record.reindex| && j !in at.record.builders
    requires at.record.deletion != [] || at.record.reindex[j].target !in at.env.catalog || !at.env.stored || fails
    requires checked.record == at.record.(
               reindex := at.record.reindex[j := at.record.reindex[j].(status := Processing)],
               builders := at.record.builders[j := Builder(if at.record.deletion == [] then BuildCleared else BuildRefused, true)])
    ensures Reaches(at, AfterBuildJob(at, j, count, fails), true)
  {
    assert checked.record.builders - {j} == at.record.builders;
    Go(at, checked, Reindex(FailBuild(j)), AfterBuildJob(at, j, count, fails), true);
  }

  /** The re-index worker's call for a PENDING job is a run. */
  lemma BuildJobIsRun(at: Scene, j: nat, count: nat, fails: bool)
    requires j < |at.record.reindex| && at.record.reindex[j].status == Pending && j !in at.record.builders && count >= 1
    ensures Reaches(at, AfterBuildJob(at, j, count, fails), true)
  {
    var checked := ClaimAndCheck(at, j);
    if at.record.deletion != [] || at.record.reindex[j].target !in at.env.catalog || !at.env.stored || fails {
      BuildFails(at, checked, j, count, fails);
    } else {
      var built := EmbedAndUpsert(at, checked, j, count);
      assert built.record.builders == at.record.builders[j := Builder(Built, true)];
      BuildFinishes(at, built, j, count);
    }
  }

  // ----- the ingestion worker -----

  lemma ClaimForIngestion(at: Scene, j: nat) returns (to: Scene)
    requires j < |at.record.ingestion| && at.record.ingestion[j].status == Pending
    ensures Reaches(at, to, true) && to.env == at.env
    ensures to.record == at.record.(ingestion := at.record.ingestion[j := at.record.ingestion[j].(status := Processing)],
                                    ingesters := at.record.ingesters[j := Ingester(Reading, true)])
  {
    Stay(at, true);
    to := After(at, Ingest(ClaimIngestion(j)));
    Go(at, at, Ingest(ClaimIngestion(j)), to, true);
  }

  /** The ingestion worker's call for a PENDING job is a run. */
  lemma IngestionJobIsRun(at: Scene, j: nat, target: Collection, config: Metadata, count: nat, fails: bool)
    requires j < |at.record.ingestion| && at.record.ingestion[j].status == Pending && j !in at.record.ingesters && count >= 1
    requires at.record.activating == None
    ensures Reaches(at, AfterIngestionJob(at, j, target, config, count, fails), true)
  {
    var claimed := ClaimForIngestion(at, j);
    assert claimed.record.ingesters - {j} == at.record.ingesters;
    if !at.env.stored || fails {
      Go(at, claimed, Ingest(FailIngestion(j)), AfterIngestionJob(at, j, target, config, count, fails), true);
    } else {
      var upserted := IngestUpserts(at, claimed, j, target, config, count);
      IngestionFinishes(at, upserted, j, target, config, count);
    }
  }

  lemma IngestionFinishes(at: Scene, upserted: Scene, j: nat, target: Collection, config: Metadata, count: nat)
    requires Reaches(at, upserted, true) && at.env.stored && at.record.activating == None
    requires j < |at.record.ingestion| && j !in at.record.ingesters
    requires upserted.env == at.env.(catalog := EnsureRow(at.env.catalog, target, config))
    requires upserted.record == at.record.(
               ingestion := at.record.ingestion[j := at.record.ingestion[j].(status := Processing)],
               points := Upsert(at.record.points, target, count),
               ingesters := at.record.ingesters[j := Ingester(Upserted(target, config), true)])
    ensures Reaches(at, AfterIngestionJob(at, j, target, config, count, false), true)
  {
    assert upserted.record.ingesters - {j} == at.record.ingesters;
    Go(at, upserted, Ingest(FinishIngestion(j)), AfterIngestionJob(at, j, target, config, count, false), true);
  }

  lemma IngestUpserts(start: Scene, at: Scene, j: nat, target: Collection, config: Metadata, count: nat) returns (to: Scene)
    requires Reaches(start, at, true) && IngesterAt(at.record, j) && at.record.ingesters[j].phase.Reading?
    requires at.env.stored && count >= 1
    ensures Reaches(start, to, true) && to.env == at.env.(catalog := EnsureRow(at.env.catalog, target, config))
    ensures to.record == at.record.(points := Upsert(at.record.points, target, count),
                                    ingesters := at.record.ingesters[j := Ingester(Upserted(target, config), true)])
  {
    var embedded := After(at, Ingest(EmbedDocument(j, target, config, count)));
    Go(start, at, Ingest(EmbedDocument(j, target, config, count)), embedded, true);
    to := After(embedded, Ingest(UpsertIngestion(j)));
    Go(start, embedded, Ingest(UpsertIngestion(j)), to, true);
  }

  // ----- the deletion worker -----

  lemma EraseOne(start: Scene, at: Scene, j: nat, ok: bool) returns (to: Scene)
    requires Reaches(start, at, true) && DeleterAt(at.record, j)
    requires at.record.deleters[j].Deleting? && at.record.deleters[j].next < |at.record.deleters[j].attempts|
    ensures Reaches(start, to, true) && to.env == at.env
    ensures var d := at.record.deleters[j];
            to.record == at.record.(points := if ok then Erase(at.record.points, d.attempts[d.next]) else at.record.points,
                                    deleters := at.record.deleters[j := Deleting(d.attempts, d.next + 1, d.failed || !ok)])
  {
    to := After(at, Delete(EraseNext(j, ok)));
    Go(start, at, Delete(EraseNext(j, ok)), to, true);
  }

  lemma OneMoreErase(points: map<Collection, set<nat>>, attempts: seq<Collection>, n: nat, faults: set<Collection>)
    requires 0 < n <= |attempts|
    ensures var before, c := EraseAll(points, attempts[..n - 1], faults), attempts[n - 1];
            EraseAll(points, attempts[..n], faults) == if c in faults then before else Erase(before, c)
    ensures Dirty(attempts[..n], faults) <==> Dirty(attempts[..n - 1], faults) || attempts[n - 1] in faults
  {
    assert attempts[..n][..n - 1] == attempts[..n - 1];
    assert attempts[..n] == attempts[..n - 1] + [attempts[n - 1]];
  }

  /** The first `n` deletes of the list. */
  lemma {:induction false} Erases(start: Scene, at: Scene, j: nat, attempts: seq<Collection>, n: nat, faults: set<Collection>)
    returns (to: Scene)
    requires Reaches(start, at, true) && DeleterAt(at.record, j) && n <= |attempts|
    requires at.record.deleters[j] == Deleting(attempts, 0, false)
    ensures Reaches(start, to, true) && to.env == at.env
    ensures to.record == at.record.(points := EraseAll(at.record.points, attempts[..n], faults),
                                    deleters := at.record.deleters[j := Deleting(attempts, n, Dirty(attempts[..n], faults))])
  {
    if n == 0 {
      to := at;
      assert at.record.deleters[j := Deleting(attempts, 0, false)] == at.record.deleters;
    } else {
      var before := Erases(start, at, j, attempts, n - 1, faults);
      OneMoreErase(at.record.points, attempts, n, faults);
      to := EraseOne(start, before, j, attempts[n - 1] !in faults);
    }
  }

  /** The record after every delete of PROCESSING job `j` has been tried. */
  ghost function Tried(at: Scene, j: nat, faults: set<Collection>): Record
    requires j < |at.record.deletion|
  {
    var attempts := Attempts(at.record);
    at.record.(points := EraseAll(at.record.points, attempts, faults),
               deletion := at.record.deletion[j := at.record.deletion[j].(status := DeletionProcessing)],
               deleters := at.record.deleters[j := Deleting(attempts, |attempts|, Dirty(attempts, faults))])
  }

  lemma TryAll(at: Scene, j: nat, faults: set<Collection>) returns (to: Scene)
    requires j < |at.record.deletion| && at.record.deletion[j].status == DeletionPending
    ensures Reaches(at, to, true) && to.env == at.env && to.record == Tried(at, j, faults)
  {
    Stay(at, true);
    var resolved := ReadAll(at, at, j, true);
    var attempts := Attempts(at.record);
    to := Erases(at, resolved, j, attempts, |attempts|, faults);
    assert attempts[..|attempts|] == attempts;
    assert to.record.deleters == at.record.deleters[j := Deleting(attempts, |attempts|, Dirty(attempts, faults))];
  }

  lemma DirtyJobResolves(at: Scene, tried: Scene, j: nat, faults: set<Collection>, objectFails: bool)
    requires j < |at.record.deletion| && j !in at.record.deleters
    requires Reaches(at, tried, true) && tried.env == at.env && tried.record == Tried(at, j, faults)
    requires Dirty(Attempts(at.record), faults)
    ensures Reaches(at, AfterDeletionJob(at, j, faults, objectFails), true)
  {
    assert tried.record.deleters - {j} == at.record.deleters;
    Go(at, tried, Delete(CommitVectors(j)), AfterDeletionJob(at, j, faults, objectFails), true);
  }

  lemma CleanJobResolves(at: Scene, tried: Scene, j: nat, faults: set<Collection>, objectFails: bool)
    requires j < |at.record.deletion| && j !in at.record.deleters && at.record.activating == None
    requires Reaches(at, tried, true) && tried.env == at.env && tried.record == Tried(at, j, faults)
    requires !Dirty(Attempts(at.record), faults)
    ensures Reaches(at, AfterDeletionJob(at, j, faults, objectFails), true)
  {
    assert tried.record.deleters - {j} == at.record.deleters;
    var finished := FinishJob(at, tried, j, objectFails, true);
    assert finished == AfterDeletionJob(at, j, faults, objectFails);
  }

  /** The deletion worker's call for a PENDING job is a run. */
  lemma DeletionJobIsRun(at: Scene, j: nat, faults: set<Collection>, objectFails: bool)
    requires j < |at.record.deletion| && at.record.deletion[j].status == DeletionPending && j !in at.record.deleters
    requires at.record.activating == None
    ensures Reaches(at, AfterDeletionJob(at, j, faults, objectFails), true)
  {
    var tried := TryAll(at, j, faults);
    if Dirty(Attempts(at.record), faults) {
      DirtyJobResolves(at, tried, j, faults, objectFails);
    } else {
      CleanJobResolves(at, tried, j, faults, objectFails);
    }
  }

  // ----- the ingestion retry -----

  lemma PassRetryCheck(at: Scene, q: nat) returns (to: Scene)
    requires at.record.deletion == [] && q !in at.record.retriers
    ensures Reaches(at, to, true) && to == at.(record := at.record.(retriers := at.record.retriers[q := DeletionChecked]))
  {
    Stay(at, true);
    to := After(at, Ingest(CheckRetry(q)));
    Go(at, at, Ingest(CheckRetry(q)), to, true);
  }

  /** A retry without a rival is never refused by the unique index and is a run of its segments: the check and a
      flip, or the check, the locking read and an insert. */
  lemma RetryIsRun(at: Scene, q: nat)
    requires at.record.deletion == [] && IngestionRows(at.record.ingestion) && q !in at.record.retriers
    requires var latest := Last(at.record.ingestion).status;
             latest == Failed || (latest == Processing && DiedBeforeUpsert(at.record, |at.record.ingestion| - 1))
    ensures var rows := at.record.ingestion;
            var flipped := if Last(rows).status == Processing then rows[|rows| - 1 := IngestionJob(Failed, true)] else rows;
            && !AnyActive(flipped)
            && Reaches(at, at.(record := at.record.(ingestion := flipped + [IngestionJob(Pending, false)])), true)
  {
    var checked := PassRetryCheck(at, q);
    if Last(at.record.ingestion).status == Processing {
      RetryFlips(at, checked, q);
    } else {
      RetryInserts(at, checked, q);
    }
  }

  lemma RetryFlips(at: Scene, checked: Scene, q: nat)
    requires q !in at.record.retriers && at.record.deletion == [] && IngestionRows(at.record.ingestion)
    requires Last(at.record.ingestion).status == Processing && DiedBeforeUpsert(at.record, |at.record.ingestion| - 1)
    requires Reaches(at, checked, true)
    requires checked == at.(record := at.record.(retriers := at.record.retriers[q := DeletionChecked]))
    ensures var rows := at.record.ingestion;
            Reaches(at, at.(record := at.record.(ingestion := rows[|rows| - 1 := IngestionJob(Failed, true)] + [IngestionJob(Pending, false)])), true)
  {
    var rows := at.record.ingestion;
    assert checked.record.retriers - {q} == at.record.retriers;
    Go(at, checked, Ingest(FlipRetry(q)),
       at.(record := at.record.(ingestion := rows[|rows| - 1 := IngestionJob(Failed, true)] + [IngestionJob(Pending, false)])), true);
  }

  /** One recovery of a stale row is a segment: the row fails as recovered and a PENDING one follows. */
  lemma RecoveryIsRun(at: Scene, j: nat)
    requires j < |at.record.ingestion| && at.record.ingestion[j].status == Processing && DiedBeforeUpsert(at.record, j)
    ensures Reaches(at, at.(record := at.record.(ingestion :=
              at.record.ingestion[j := IngestionJob(Failed, true)] + [IngestionJob(Pending, false)])), true)
  {
    Stay(at, true);
    Go(at, at, Ingest(RecoverIngestion(j)), at.(record := at.record.(ingestion :=
         at.record.ingestion[j := IngestionJob(Failed, true)] + [IngestionJob(Pending, false)])), true);
  }

  lemma LockAfterCheck(start: Scene, at: Scene, q: nat) returns (to: Scene)
    requires Reaches(start, at, true) && RetrierAt(at.record, q, DeletionChecked)
    requires at.record.ingestion != [] && Last(at.record.ingestion).status == Failed
    ensures Reaches(start, to, true) && to == at.(record := at.record.(retriers := at.record.retriers[q := RowsLocked]))
  {
    to := After(at, Ingest(LockRetryRows(q)));
    Go(start, at, Ingest(LockRetryRows(q)), to, true);
  }

  lemma RetryInserts(at: Scene, checked: Scene, q: nat)
    requires q !in at.record.retriers && at.record.deletion == [] && IngestionRows(at.record.ingestion)
    requires Last(at.record.ingestion).status == Failed && Reaches(at, checked, true)
    requires checked == at.(record := at.record.(retriers := at.record.retriers[q := DeletionChecked]))
    ensures Reaches(at, at.(record := at.record.(ingestion := at.record.ingestion + [PENDING_INGESTION])), true)
  {
    var locked := LockAfterCheck(at, checked, q);
    assert locked.record.retriers - {q} == at.record.retriers;
    Go(at, locked, Ingest(InsertRetry(q)),
       at.(record := at.record.(ingestion := at.record.ingestion + [PENDING_INGESTION])), true);
  }

  // ----- the deletion request -----

  lemma PassFirstAsks(at: Scene, q: nat) returns (to: Scene)
    requires OpenToRequest(at.record.deletion) && !IngestionActive(at.record.ingestion)
    requires q !in at.record.asking && q !in at.record.requests
    ensures Reaches(at, to, true) && to == at.(record := at.record.(asking := at.record.asking[q := IngestionAsked]))
  {
    var asked := at.(record := at.record.(asking := at.record.asking[q := DeletionsAsked]));
    Stay(at, true);
    Go(at, at, Delete(AskDeletions(q)), asked, true);
    to := SeeNoIngestion(at, asked, q);
    Overwritten(at.record.asking, q, DeletionsAsked, IngestionAsked);
  }

  lemma SeeNoIngestion(start: Scene, at: Scene, q: nat) returns (to: Scene)
    requires Reaches(start, at, true) && AskerAt(at.record, q, DeletionsAsked) && !IngestionActive(at.record.ingestion)
    ensures Reaches(start, to, true) && to == at.(record := at.record.(asking := at.record.asking[q := IngestionAsked]))
  {
    to := After(at, Delete(AskIngestion(q)));
    Go(start, at, Delete(AskIngestion(q)), to, true);
  }

  lemma PassAsks(at: Scene, q: nat) returns (to: Scene)
    requires DeletionDecision(at.record) == DeletionCreated && q !in at.record.asking && q !in at.record.requests
    ensures Reaches(at, to, true) && to == at.(record := at.record.(requests := at.record.requests + {q}))
  {
    var quiet := PassFirstAsks(at, q);
    to := After(quiet, Delete(AskReindex(q)));
    Go(at, quiet, Delete(AskReindex(q)), to, true);
    assert quiet.record.asking - {q} == at.record.asking;
  }

  /** A deletion request that creates a job is a run of its three reads and its insert, within the assumptions. */
  lemma RequestIsRun(at: Scene, q: nat)
    requires at.record.deletion == [] || Last(at.record.deletion).status == DeletionPartiallyFailed
    requires !IngestionActive(at.record.ingestion) && !ReindexActive(at.record.reindex) && DeletionRows(at.record.deletion)
    requires q !in at.record.asking && q !in at.record.requests
    ensures Reaches(at, at.(record := at.record.(deletion := at.record.deletion + [DeletionJob(DeletionPending, false, false)])), true)
  {
    var checked := PassAsks(at, q);
    assert checked.record.requests - {q} == at.record.requests;
    Go(at, checked, Delete(InsertDeletion(q)),
       at.(record := at.record.(deletion := at.record.deletion + [PENDING_DELETION])), true);
  }

  // ----- scheduling a re-index -----

  lemma PassFirstChecks(at: Scene, q: nat, target: Collection) returns (to: Scene)
    requires at.record.collection.Some? && at.record.collection != Some(target) && q !in at.record.schedulers
    requires !ReindexActive(at.record.reindex)
    ensures Reaches(at, to, true) && to.env == at.env
    ensures to.record == at.record.(schedulers := at.record.schedulers[q := Scheduler(at.record.collection.value, target, BuildsRead)])
  {
    Stay(at, true);
    var source := After(at, Reindex(ReadSource(q, target)));
    Go(at, at, Reindex(ReadSource(q, target)), source, true);
    to := After(source, Reindex(ReadBuilds(q)));
    Go(at, source, Reindex(ReadBuilds(q)), to, true);
  }

  lemma PassChecks(at: Scene, q: nat, target: Collection) returns (to: Scene)
    requires at.record.collection.Some? && at.record.collection != Some(target) && q !in at.record.schedulers
    requires !ReindexActive(at.record.reindex) && !IngestionActive(at.record.ingestion) && at.record.deletion == []
    ensures Reaches(at, to, true) && to.env == at.env
    ensures to.record == at.record.(schedulers := at.record.schedulers[q := Scheduler(at.record.collection.value, target, ChecksPassed)])
  {
    var builds := PassFirstChecks(at, q, target);
    to := PassLastChecks(at, builds, q);
  }

  lemma PassLastChecks(start: Scene, at: Scene, q: nat) returns (to: Scene)
    requires Reaches(start, at, true) && SchedulerAt(at.record, q, BuildsRead)
    requires !IngestionActive(at.record.ingestion) && at.record.deletion == []
    ensures Reaches(start, to, true) && to.env == at.env
    ensures to.record == at.record.(schedulers := at.record.schedulers[q := at.record.schedulers[q].(phase := ChecksPassed)])
  {
    var ingestion := After(at, Reindex(ReadIngestion(q)));
    Go(start, at, Reindex(ReadIngestion(q)), ingestion, true);
    to := After(ingestion, Reindex(ReadDeletions(q)));
    Go(start, ingestion, Reindex(ReadDeletions(q)), to, true);
  }

  lemma InsertAfterChecks(start: Scene, at: Scene, q: nat, config: Metadata) returns (to: Scene)
    requires Reaches(start, at, true) && SchedulerAt(at.record, q, ChecksPassed) && !ReindexActive(at.record.reindex)
    ensures Reaches(start, to, true)
    ensures var scheduler := at.record.schedulers[q];
            to == Scene(at.record.(reindex := at.record.reindex + [ReindexJob(scheduler.source, scheduler.target, Pending, false)],
                                   schedulers := at.record.schedulers - {q}),
                        at.env.(catalog := EnsureRow(at.env.catalog, scheduler.target, config)))
  {
    var ensured := After(at, Reindex(EnsureTarget(q, config)));
    Go(start, at, Reindex(EnsureTarget(q, config)), ensured, true);
    assert ensured.record.schedulers - {q} == at.record.schedulers - {q};
    to := After(ensured, Reindex(InsertReindex(q)));
    Go(start, ensured, Reindex(InsertReindex(q)), to, true);
  }

  /** A scheduling call that creates a job is a run of its six segments. */
  lemma SchedulingIsRun(at: Scene, q: nat, target: Collection, config: Metadata)
    requires at.record.collection.Some? && at.record.collection != Some(target) && q !in at.record.schedulers
    requires !ReindexActive(at.record.reindex) && !IngestionActive(at.record.ingestion) && at.record.deletion == []
    ensures Reaches(at, AfterScheduling(at, target, config), true)
  {
    var passed := PassChecks(at, q, target);
    var to := InsertAfterChecks(at, passed, q, config);
    assert passed.record.schedulers - {q} == at.record.schedulers;
    assert to == AfterScheduling(at, target, config);
  }

  // ----- the cleanup worker -----

  lemma ClaimAndGuard(at: Scene, w: nat, k: nat) returns (to: Scene)
    requires w !in at.record.cleaners && k < |at.record.cleanup| && OpenRow(at.record.cleanup[k])
    ensures Reaches(at, to, true) && to.env == at.env
    ensures to.record == at.record.(cleaners := at.record.cleaners[w := Cleaner(k,
              if at.record.collection == Some(at.record.cleanup[k].collection) then CleanRefused else CleanCleared)])
  {
    Stay(at, true);
    var claimed := After(at, Cutover(ClaimCleanup(w, k)));
    Go(at, at, Cutover(ClaimCleanup(w, k)), claimed, true);
    to := After(claimed, Cutover(GuardCleanup(w)));
    Go(at, claimed, Cutover(GuardCleanup(w)), to, true);
  }

  lemma TryCleanup(start: Scene, at: Scene, w: nat, fails: bool) returns (to: Scene)
    requires Reaches(start, at, true) && CleanerAt(at.record, w, CleanCleared)
    ensures Reaches(start, to, true) && to.env == at.env
    ensures var k := at.record.cleaners[w].row;
            to.record == at.record.(
              points := if fails then at.record.points else Erase(at.record.points, at.record.cleanup[k].collection),
              cleaners := at.record.cleaners[w := Cleaner(k, if fails then CleanErred else CleanDeleted)])
  {
    to := After(at, Cutover(EraseCleanup(w, !fails)));
    Go(start, at, Cutover(EraseCleanup(w, !fails)), to, true);
  }

  /** The end of a retry: its row is completed after a delete, otherwise failed. */
  lemma CloseCleanup(start: Scene, at: Scene, w: nat) returns (to: Scene)
    requires Reaches(start, at, true) && EnabledCutover(at.record, FinishCleanup(w), at.env)
    ensures Reaches(start, to, true) && to.env == at.env
    ensures var r, k := at.record, at.record.cleaners[w].row;
            to.record == r.(
              cleanup := r.cleanup[k := CleanupJob(r.cleanup[k].collection,
                           if r.cleaners[w].phase.CleanDeleted? then CleanupCompleted else CleanupFailed, r.cleanup[k].attempts + 1)],
              cleaners := r.cleaners - {w})
  {
    to := After(at, Cutover(FinishCleanup(w)));
    Go(start, at, Cutover(FinishCleanup(w)), to, true);
  }

  lemma RefusedCleanup(at: Scene, guarded: Scene, w: nat, k: nat, fails: bool)
    requires w !in at.record.cleaners && k < |at.record.cleanup| && Reaches(at, guarded, true) && guarded.env == at.env
    requires at.record.collection == Some(at.record.cleanup[k].collection)
    requires guarded.record == at.record.(cleaners := at.record.cleaners[w := Cleaner(k, CleanRefused)])
    ensures Reaches(at, AfterCleanup(at, k, fails), true)
  {
    assert guarded.record.cleaners - {w} == at.record.cleaners;
    var to := CloseCleanup(at, guarded, w);
    assert to == AfterCleanup(at, k, fails);
  }

  lemma TriedCleanup(at: Scene, guarded: Scene, w: nat, k: nat, fails: bool)
    requires w !in at.record.cleaners && k < |at.record.cleanup| && Reaches(at, guarded, true) && guarded.env == at.env
    requires at.record.collection != Some(at.record.cleanup[k].collection)
    requires guarded.record == at.record.(cleaners := at.record.cleaners[w := Cleaner(k, CleanCleared)])
    ensures Reaches(at, AfterCleanup(at, k, fails), true)
  {
    var tried := TryCleanup(at, guarded, w, fails);
    TriedCloses(at, tried, w, k, fails);
  }

  lemma TriedCloses(at: Scene, tried: Scene, w: nat, k: nat, fails: bool)
    requires w !in at.record.cleaners && k < |at.record.cleanup| && Reaches(at, tried, true) && tried.env == at.env
    requires at.record.collection != Some(at.record.cleanup[k].collection)
    requires tried.record == at.record.(
               points := if fails then at.record.points else Erase(at.record.points, at.record.cleanup[k].collection),
               cleaners := at.record.cleaners[w := Cleaner(k, if fails then CleanErred else CleanDeleted)])
    ensures Reaches(at, AfterCleanup(at, k, fails), true)
  {
    assert tried.record.cleaners - {w} == at.record.cleaners;
    var to := CloseCleanup(at, tried, w);
    assert to == AfterCleanup(at, k, fails);
  }

  /** One retry of an open cleanup row is a run of its segments. */
  lemma CleanupIsRun(at: Scene, w: nat, k: nat, fails: bool)
    requires w !in at.record.cleaners && k < |at.record.cleanup| && at.record.cleanup[k].status != CleanupCompleted
    ensures Reaches(at, AfterCleanup(at, k, fails), true)
  {
    var guarded := ClaimAndGuard(at, w, k);
    if at.record.collection == Some(at.record.cleanup[k].collection) {
      RefusedCleanup(at, guarded, w, k, fails);
    } else {
      TriedCleanup(at, guarded, w, k, fails);
    }
  }
}
