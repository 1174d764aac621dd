/** A deletion row inserted after its request's checks have gone stale: exactly when that does no harm. */
module LateInserts {
  import opened Wrappers
  import opened DocumentRecord
  import opened Steps
  import opened Invariant
  import opened Preservation
  import opened Settlement
  import opened Continuations
  import opened DocumentSessions
  import opened WorkerRuns

  // ----- the deletion worker runs to the end -----

  /** Freshly requested, with nobody on the deletion yet. */
  predicate Requested(r: Record) {
    r.deletion == [PENDING_DELETION] && r.deleters == map[]
  }

  lemma Unlock(start: Scene, at: Scene) returns (to: Scene)
    requires Reaches(start, at, true)
    ensures Reaches(start, to, true) && to == at.(record := at.record.(activating := None))
  {
    to := at;
    if at.record.activating.Some? {
      to := at.(record := at.record.(activating := None));
      Go(start, at, Cutover(AbortActivation), to, true);
    }
  }

  lemma DeleteAll(start: Scene, at: Scene) returns (to: Scene)
    requires Reaches(start, at, true) && Requested(at.record) && at.record.activating == None
    ensures Reaches(start, to, true)
    ensures to.record == at.record.(points := EraseAll(at.record.points, Attempts(at.record), {}),
                                    deletion := [DeletionJob(DeletionCompleted, true, true)], hash := None)
    ensures DeletionDone(to.record.deletion)
  {
    DeletionJobIsRun(at, 0, {}, false);
    to := AfterDeletionJob(at, 0, {}, false);
    ReachesOn(start, at, to, true);
    assert !Dirty(Attempts(at.record), {});
    assert to.record.deletion[0].status == DeletionCompleted;
  }

  lemma {:induction false} EraseAllKeeps(points: map<Collection, set<nat>>, attempts: seq<Collection>, c: Collection)
    requires c !in attempts
    ensures PointsIn(EraseAll(points, attempts, {}), c) == PointsIn(points, c)
    decreases |attempts|
  {
    if attempts != [] {
      assert Last(attempts) == attempts[|attempts| - 1];
      EraseAllKeeps(points, attempts[..|attempts| - 1], c);
    }
  }

  lemma UntrackedStays(start: Scene, at: Scene, c: Collection) returns (to: Scene)
    requires Reaches(start, at, true) && Requested(at.record) && at.record.activating == None
    requires Held(at.record.points, c) && !Tracked(at.record, c)
    ensures Reaches(start, to, true) && DeletionDone(to.record.deletion) && !Empty(to.record.points)
  {
    to := DeleteAll(start, at);
    EraseAllKeeps(at.record.points, Attempts(at.record), c);
    assert Held(to.record.points, c);
  }

  // ----- an ingestion that can still write -----

  predicate Embedding(r: Record, j: nat) {
    IngesterAt(r, j) && r.ingesters[j].phase.Embedded? && r.ingesters[j].phase.count >= 1
  }

  lemma IngestionWritesLate(start: Scene, at: Scene, j: nat) returns (to: Scene)
    requires Reaches(start, at, true) && Requested(at.record) && at.record.activating == None && Embedding(at.record, j)
    ensures Reaches(start, to, true) && DeletionDone(to.record.deletion) && !Empty(to.record.points)
  {
    var deleted := DeleteAll(start, at);
    to := After(deleted, Ingest(UpsertIngestion(j)));
    Go(start, deleted, Ingest(UpsertIngestion(j)), to, true);
    var p := deleted.record.ingesters[j].phase;
    UpsertHolds(deleted.record.points, p.target, p.count);
    assert Held(to.record.points, p.target);
  }

  lemma Embed(start: Scene, at: Scene, j: nat) returns (to: Scene)
    requires Reaches(start, at, true) && at.env.stored && IngesterAt(at.record, j) && at.record.ingesters[j].phase.Reading?
    ensures Reaches(start, to, true) && Embedding(to.record, j)
    ensures to.record == at.record.(ingesters := to.record.ingesters)
  {
    to := After(at, Ingest(EmbedDocument(j, 0, 0, 1)));
    Go(start, at, Ingest(EmbedDocument(j, 0, 0, 1)), to, true);
  }

  lemma PendingWritesLate(start: Scene, at: Scene, j: nat) returns (to: Scene)
    requires Reaches(start, at, true) && Requested(at.record) && at.record.activating == None && at.env.stored
    requires j < |at.record.ingestion| && at.record.ingestion[j].status == Pending
    ensures Reaches(start, to, true) && DeletionDone(to.record.deletion) && !Empty(to.record.points)
  {
    var claimed := ClaimForIngestion(at, j);
    ReachesOn(start, at, claimed, true);
    var embedded := Embed(start, claimed, j);
    to := IngestionWritesLate(start, embedded, j);
  }

  lemma DeadWorkerIsReplaced(start: Scene, at: Scene, j: nat) returns (to: Scene)
    requires Reaches(start, at, true) && Requested(at.record) && at.record.activating == None && at.env.stored
    requires j < |at.record.ingestion| && at.record.ingestion[j].status == Processing && DiedBeforeUpsert(at.record, j)
    ensures Reaches(start, to, true) && DeletionDone(to.record.deletion) && !Empty(to.record.points)
  {
    var recovered := After(at, Ingest(RecoverIngestion(j)));
    Go(start, at, Ingest(RecoverIngestion(j)), recovered, true);
    to := PendingWritesLate(start, recovered, |at.record.ingestion|);
  }

  // ----- the record right after the insert -----

  function Inserted(r: Record, env: Env, q: nat): Scene
    requires q in r.requests
  {
    Scene(ApplyDeletion(r, InsertDeletion(q)), env)
  }

  lemma HarmfulFacts(r: Record, env: Env, q: nat)
    requires Inv(r, env) && q in r.requests && !HarmlessInsert(r)
    ensures r.deletion == [] && env.stored
    ensures Inserted(r, env, q) == Scene(r.(deletion := [PENDING_DELETION], requests := r.requests - {q}), env)
    ensures Requested(Inserted(r, env, q).record)
  {
    assert Deleters(r.deletion, r.deleters);
    assert r.deleters == map[];
  }

  lemma ActiveIngestionHarms(r: Record, env: Env, q: nat) returns (to: Scene)
    requires Inv(r, env) && q in r.requests && !HarmlessInsert(r) && IngestionActive(r.ingestion)
    ensures Reaches(Inserted(r, env, q), to, true) && DeletionDone(to.record.deletion) && !Empty(to.record.points)
  {
    HarmfulFacts(r, env, q);
    var start, j := Inserted(r, env, q), |r.ingestion| - 1;
    NotIndexedYet(r, env);
    Stay(start, true);
    if r.ingestion[j].status == Pending {
      to := PendingWritesLate(start, start, j);
    } else if r.ingesters[j].phase.Upserted? {
      to := UntrackedStays(start, start, r.ingesters[j].phase.target);
    } else if !r.ingesters[j].alive {
      to := DeadWorkerIsReplaced(start, start, j);
    } else {
      var at := start;
      if r.ingesters[j].phase.Reading? {
        at := Embed(start, start, j);
      }
      to := IngestionWritesLate(start, at, j);
    }
  }

  lemma NotIndexedYet(r: Record, env: Env)
    requires Inv(r, env) && env.stored && IngestionActive(r.ingestion)
    ensures r.collection == None && r.activating == None && r.cleanup == [] && r.reindex == []
    ensures var j := |r.ingestion| - 1;
            r.ingestion[j].status == Processing ==>
              && j in r.ingesters
              && (r.ingesters[j].phase.Upserted? ==> Held(r.points, r.ingesters[j].phase.target))
              && (r.ingesters[j].phase.Embedded? ==> r.ingesters[j].phase.count >= 1)
  {
  }

  // ----- a build that can still write -----

  lemma BuildWritesLate(start: Scene, at: Scene, j: nat) returns (to: Scene)
    requires Reaches(start, at, true) && Requested(at.record) && at.record.activating == None
    requires BuilderAt(at.record, j) && at.record.builders[j].phase.BuildReady? && at.record.builders[j].phase.count >= 1
    ensures Reaches(start, to, true) && DeletionDone(to.record.deletion) && !Empty(to.record.points)
  {
    var deleted := DeleteAll(start, at);
    to := After(deleted, Reindex(UpsertBuild(j)));
    Go(start, deleted, Reindex(UpsertBuild(j)), to, true);
    var target := deleted.record.reindex[j].target;
    UpsertHolds(deleted.record.points, target, deleted.record.builders[j].phase.count);
    assert Held(to.record.points, target);
  }

  lemma LiveBuildHarms(r: Record, env: Env, q: nat, j: nat) returns (to: Scene)
    requires Inv(r, env) && q in r.requests && !HarmlessInsert(r) && j in r.builders && WritesLater(r.builders[j])
    ensures Reaches(Inserted(r, env, q), to, true) && DeletionDone(to.record.deletion) && !Empty(to.record.points)
  {
    HarmfulFacts(r, env, q);
    var start := Inserted(r, env, q);
    Stay(start, true);
    var at := Unlock(start, start);
    assert Builders(r.reindex, r.builders) && ReindexRows(r.reindex, env.catalog);
    if r.builders[j].phase.BuildCleared? {
      var ready := After(at, Reindex(EmbedBuild(j, 1)));
      Go(start, at, Reindex(EmbedBuild(j, 1)), ready, true);
      at := ready;
    }
    to := BuildWritesLate(start, at, j);
  }

  // ----- points about to be lost track of -----

  /** Every open row of `c` has a worker that has already deleted and only has to close it. */
  predicate Closing(cleanup: seq<CleanupJob>, cleaners: map<nat, Cleaner>, c: Collection) {
    forall k :: 0 <= k < |cleanup| && cleanup[k].collection == c ==> !Pinned(cleanup, cleaners, k)
  }

  /** The rows of `c` among the first `n` are closed, the others and their workers as before. */
  ghost predicate ClosedUpTo(before: Record, after: Record, c: Collection, n: nat) {
    && |after.cleanup| == |before.cleanup|
    && (forall k :: 0 <= k < n && k < |after.cleanup| && after.cleanup[k].collection == c ==> !OpenRow(after.cleanup[k]))
    && (forall k :: n <= k < |before.cleanup| ==> after.cleanup[k] == before.cleanup[k])
    && (forall w :: w in before.cleaners && before.cleaners[w].row >= n ==>
          w in after.cleaners && after.cleaners[w] == before.cleaners[w])
  }

  /** Closes the open rows of `c` among the first `n`. */
  lemma {:induction false} CloseRows(start: Scene, at: Scene, c: Collection, n: nat) returns (to: Scene)
    requires Reaches(start, at, true) && n <= |at.record.cleanup| && Closing(at.record.cleanup, at.record.cleaners, c)
    ensures Reaches(start, to, true) && to.env == at.env
    ensures to.record == at.record.(cleanup := to.record.cleanup, cleaners := to.record.cleaners)
    ensures ClosedUpTo(at.record, to.record, c, n)
  {
    to := at;
    if n > 0 {
      to := CloseRows(start, at, c, n - 1);
      var row := at.record.cleanup[n - 1];
      if row.collection == c && OpenRow(row) {
        to := CloseRow(start, at, to, c, n);
      }
    }
  }

  lemma CloseRow(start: Scene, at: Scene, before: Scene, c: Collection, n: nat) returns (to: Scene)
    requires Reaches(start, before, true) && 0 < n <= |at.record.cleanup| && Closing(at.record.cleanup, at.record.cleaners, c)
    requires at.record.cleanup[n - 1].collection == c && OpenRow(at.record.cleanup[n - 1])
    requires ClosedUpTo(at.record, before.record, c, n - 1)
    ensures Reaches(start, to, true) && to.env == before.env
    ensures to.record == before.record.(cleanup := to.record.cleanup, cleaners := to.record.cleaners)
    ensures ClosedUpTo(at.record, to.record, c, n)
  {
    assert !Pinned(at.record.cleanup, at.record.cleaners, n - 1);
    var w :| w in at.record.cleaners && at.record.cleaners[w].row == n - 1 && at.record.cleaners[w].phase.CleanDeleted?;
    to := CloseCleanup(start, before, w);
  }

  lemma LostTrackHarms(r: Record, env: Env, q: nat, c: Collection) returns (to: Scene)
    requires Inv(r, env) && q in r.requests && !HarmlessInsert(r) && Held(r.points, c) && !Durable(r, c)
    ensures Reaches(Inserted(r, env, q), to, true) && DeletionDone(to.record.deletion) && !Empty(to.record.points)
  {
    HarmfulFacts(r, env, q);
    var start := Inserted(r, env, q);
    Stay(start, true);
    var at := Unlock(start, start);
    var closed := CloseRows(start, at, c, |r.cleanup|);
    assert !OpenCleanup(closed.record.cleanup, c);
    to := UntrackedStays(start, closed, c);
  }

  // ----- the condition is exact -----

  /** Any other insert leads, by segments that respect the assumptions, to a completed deletion that leaves
      points behind. */
  lemma HarmfulInsertLeavesPoints(r: Record, env: Env, q: nat) returns (to: Scene)
    requires Inv(r, env) && q in r.requests && !HarmlessInsert(r)
    ensures Reaches(Inserted(r, env, q), to, true) && DeletionDone(to.record.deletion) && !Empty(to.record.points)
  {
    if IngestionActive(r.ingestion) {
      to := ActiveIngestionHarms(r, env, q);
    } else if j :| j in r.builders && WritesLater(r.builders[j]) {
      to := LiveBuildHarms(r, env, q, j);
    } else {
      var c :| c in r.points && Held(r.points, c) && !Durable(r, c);
      to := LostTrackHarms(r, env, q, c);
    }
  }

  /** In particular an insert is harmless when no ingestion is active, no live build is between its check and
      its upsert, and every built target not yet resolved is tracked anyway. */
  lemma TrackedBuildsAreHarmless(r: Record, env: Env)
    requires Inv(r, env) && !IngestionActive(r.ingestion)
    requires forall j :: j in r.builders && j < |r.reindex| ==>
               !WritesLater(r.builders[j]) && (r.builders[j].phase.Built? ==> Durable(r, r.reindex[j].target))
    ensures HarmlessInsert(r)
  {
    assert Builders(r.reindex, r.builders) && IngestionRows(r.ingestion);
    forall c | c in r.points && Held(r.points, c) ensures Durable(r, c) {
      if !BuiltTarget(r.reindex, r.builders, c) {
        HeldIsDurable(r, env, c);
      }
    }
  }

  lemma HarmlessInsertKeepsGuarantee(r: Record, env: Env, q: nat, to: Scene)
    requires Inv(r, env) && q in r.requests && HarmlessInsert(r)
    requires Reaches(Inserted(r, env, q), to, true) && DeletionDone(to.record.deletion)
    ensures Empty(to.record.points)
  {
    DeletionKeeps(r, InsertDeletion(q), env);
    var start := Inserted(r, env, q);
    var steps :| Play(start, steps, true) == Some(to);
    PlayKeeps(start, steps);
    DoneMeansEmpty(to.record, to.env);
  }

  /** However old its checks are, inserting a deletion row keeps the deletion guarantee in every continuation
      if and only if it is not the first one, or no ingestion and no build can write any more and every
      collection that holds points stays tracked. */
  lemma LateInsertIsExact(r: Record, env: Env, q: nat)
    requires Inv(r, env) && q in r.requests
    ensures HarmlessInsert(r) <==>
            forall to :: Reaches(Inserted(r, env, q), to, true) && DeletionDone(to.record.deletion) ==> Empty(to.record.points)
  {
    if HarmlessInsert(r) {
      forall to | Reaches(Inserted(r, env, q), to, true) && DeletionDone(to.record.deletion) ensures Empty(to.record.points) {
        HarmlessInsertKeepsGuarantee(r, env, q, to);
      }
    } else {
      var to := HarmfulInsertLeavesPoints(r, env, q);
    }
  }
}
