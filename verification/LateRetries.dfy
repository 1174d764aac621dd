/** An ingestion retry's PENDING row inserted after its checks have gone stale: exactly when that does no harm. */
module LateRetries {
  import opened Wrappers
  import opened DocumentRecord
  import opened Steps
  import opened Invariant
  import opened Preservation
  import opened Settlement
  import opened Continuations
  import opened DocumentSessions
  import opened WorkerRuns
  import opened LateInserts
  import opened Scenarios

  /** What the lifecycle promises of one document: a completed deletion leaves nothing; while there is a deletion
      row its worker can find every collection with points; and the document has left each earlier collection by
      an activation, which leaves a cleanup row. */
  ghost predicate Upheld(r: Record) {
    && (DeletionDone(r.deletion) ==> Empty(r.points))
    && (r.deletion != [] ==> forall c :: Held(r.points, c) ==> Tracked(r, c))
    && (r.collection.Some? ==> |r.served| == |r.cleanup| + 1)
  }

  lemma InvUpholds(r: Record, env: Env)
    requires Inv(r, env)
    ensures Upheld(r)
  {
  }

  /** The record right after the insert. */
  function Reinserted(r: Record, env: Env, q: nat): Scene
    requires RetrierAt(r, q, RowsLocked)
  {
    Scene(ApplyIngestion(r, InsertRetry(q), env), env)
  }

  lemma HarmfulReinsertFacts(r: Record, env: Env, q: nat)
    requires Inv(r, env) && RetrierAt(r, q, RowsLocked) && !HarmlessReinsert(r, env)
    ensures env.stored && (r.collection.None? ==> r.deletion != [])
    ensures Reinserted(r, env, q) == Scene(r.(ingestion := r.ingestion + [PENDING_INGESTION], retriers := r.retriers - {q}), env)
    ensures |r.ingestion| !in r.ingesters
  {
    assert Ingesters(r.ingestion, r.ingesters, env.catalog, env.stored);
    assert Indexed(r.collection, r.metadata, r.ingestion, env.catalog, env.stored);
    assert !ActiveJob(Last(r.ingestion).status) by {
      assert Last(r.ingestion) == r.ingestion[|r.ingestion| - 1];
    }
  }

  /** Under a deletion row the new job's worker writes where the deletion worker does not look. */
  lemma WritesUnderDeletion(r: Record, env: Env, q: nat) returns (to: Scene)
    requires Inv(r, env) && RetrierAt(r, q, RowsLocked) && !HarmlessReinsert(r, env) && r.collection.None?
    ensures Reaches(Reinserted(r, env, q), to, true) && !Upheld(to.record)
  {
    HarmfulReinsertFacts(r, env, q);
    var start, j := Reinserted(r, env, q), |r.ingestion|;
    var claimed := ClaimForIngestion(start, j);
    to := IngestUpserts(start, claimed, j, 0, 0, 1);
    UpsertHolds(r.points, 0, 1);
    assert Held(to.record.points, 0);
    assert r.cleanup == [] && r.reindex == [];
  }

  /** An indexed document is moved to another collection without a cleanup row for the one it leaves. */
  lemma MovesUnrecorded(r: Record, env: Env, q: nat) returns (to: Scene)
    requires Inv(r, env) && RetrierAt(r, q, RowsLocked) && !HarmlessReinsert(r, env) && r.collection.Some?
    ensures Reaches(Reinserted(r, env, q), to, true) && !Upheld(to.record)
  {
    HarmfulReinsertFacts(r, env, q);
    var start, j := Reinserted(r, env, q), |r.ingestion|;
    Stay(start, true);
    var at := Unlock(start, start);
    IngestionJobIsRun(at, j, 0, 0, 1, false);
    to := AfterIngestionJob(at, j, 0, 0, 1, false);
    ReachesOn(start, at, to, true);
    assert |to.record.served| == |r.served| + 1 && to.record.cleanup == r.cleanup;
  }

  /** Any other insert leads, by segments that respect the assumptions, to a broken promise. */
  lemma HarmfulReinsertBreaks(r: Record, env: Env, q: nat) returns (to: Scene)
    requires Inv(r, env) && RetrierAt(r, q, RowsLocked) && !HarmlessReinsert(r, env)
    ensures Reaches(Reinserted(r, env, q), to, true) && !Upheld(to.record)
  {
    if r.collection.None? {
      to := WritesUnderDeletion(r, env, q);
    } else {
      to := MovesUnrecorded(r, env, q);
    }
  }

  lemma HarmlessReinsertUpholds(r: Record, env: Env, q: nat, to: Scene)
    requires Inv(r, env) && RetrierAt(r, q, RowsLocked) && HarmlessReinsert(r, env)
    requires Reaches(Reinserted(r, env, q), to, true)
    ensures Upheld(to.record)
  {
    IngestionKeeps(r, InsertRetry(q), env);
    var start := Reinserted(r, env, q);
    var steps :| Play(start, steps, true) == Some(to);
    PlayKeeps(start, steps);
    InvUpholds(to.record, to.env);
  }

  /** However old its checks are, inserting retry's PENDING row keeps the promises in every continuation if and only
      if the unique index stops it, or the object is gone, or there is still no deletion row and the latest attempt
      is still a failed one. */
  lemma LateRetryIsExact(r: Record, env: Env, q: nat)
    requires Inv(r, env) && RetrierAt(r, q, RowsLocked)
    ensures HarmlessReinsert(r, env) <==> forall to :: Reaches(Reinserted(r, env, q), to, true) ==> Upheld(to.record)
  {
    if HarmlessReinsert(r, env) {
      forall to | Reaches(Reinserted(r, env, q), to, true) ensures Upheld(to.record) {
        HarmlessReinsertUpholds(r, env, q, to);
      }
    } else {
      var to := HarmfulReinsertBreaks(r, env, q);
    }
  }

  // ----- both kinds of harm from a fresh document -----

  /** A retry up to its insert, for a document whose latest attempt failed. */
  lemma LockRows(start: Scene, at: Scene, q: nat) returns (to: Scene)
    requires Reaches(start, at, true) && at.record.deletion == [] && q !in at.record.retriers
    requires at.record.ingestion != [] && Last(at.record.ingestion).status == Failed
    ensures Reaches(start, to, true) && to == at.(record := at.record.(retriers := at.record.retriers[q := RowsLocked]))
  {
    var checked := PassRetryCheck(at, q);
    ReachesOn(start, at, checked, true);
    to := LockAfterCheck(start, checked, q);
  }

  /** A failed document's deletion is requested after a retry has looked for one: the retry's job is claimed, the
      deletion completes, and the job's worker upserts. */
  lemma LateRetryLeavesPoints(key: Key, hash: Digest) returns (to: Scene)
    ensures Reaches(Scene(Fresh(key, hash), Env(true, map[])), to, false)
    ensures DeletionDone(to.record.deletion) && !Empty(to.record.points)
  {
    var start := Scene(Fresh(key, hash), Env(true, map[]));
    var requested := RequestDuringRetry(start);
    RelaxReaches(start, requested);
    to := InsertAndWrite(start, requested);
  }

  lemma InsertAndWrite(start: Scene, at: Scene) returns (to: Scene)
    requires Reaches(start, at, false) && RetrierAt(at.record, 0, RowsLocked)
    requires Requested(at.record) && at.record.activating == None && at.env.stored
    requires |at.record.ingestion| == 1 && at.record.ingestion[0].status == Failed
    ensures Reaches(start, to, false) && DeletionDone(to.record.deletion) && !Empty(to.record.points)
  {
    var inserted := After(at, Ingest(InsertRetry(0)));
    Go(start, at, Ingest(InsertRetry(0)), inserted, false);
    Stay(inserted, true);
    to := PendingWritesLate(inserted, inserted, 1);
    RelaxReaches(inserted, to);
    ReachesOn(start, inserted, to, false);
  }

  lemma RequestDuringRetry(start: Scene) returns (to: Scene)
    requires start.record.ingestion == [PENDING_INGESTION] && start.record.retriers == map[] && start.record.deletion == []
    requires start.record.reindex == [] && start.record.points == map[]
    ensures Reaches(start, to, true) && to.env == start.env && RetrierAt(to.record, 0, RowsLocked)
    ensures to.record.deletion == [PENDING_DELETION] && to.record.deleters == start.record.deleters
    ensures to.record.activating == start.record.activating
    ensures |to.record.ingestion| == 1 && to.record.ingestion[0].status == Failed
  {
    Stay(start, true);
    var failed := FailReplacement(start, start);
    var locked := LockRows(start, failed, 0);
    to := RequestNow(start, locked);
  }

  lemma RequestNow(start: Scene, at: Scene) returns (to: Scene)
    requires Reaches(start, at, true) && DeletionDecision(at.record) == DeletionCreated && at.record.deletion == []
    ensures Reaches(start, to, true) && to.env == at.env
    ensures to.record == at.record.(requests := to.record.requests, asking := to.record.asking, deletion := [PENDING_DELETION])
  {
    var past, q := RequestOnce(start, at);
    to := After(past, Delete(InsertDeletion(q)));
    Go(start, past, Delete(InsertDeletion(q)), to, true);
  }

  /** Two retries lock the same rows; the first one's job completes before the second inserts its own, which moves
      the document to another collection. A later deletion completes and leaves the points in the first one. */
  lemma SecondRetryLosesCollection(key: Key, hash: Digest) returns (to: Scene)
    ensures Reaches(Scene(Fresh(key, hash), Env(true, map[])), to, false)
    ensures DeletionDone(to.record.deletion) && !Empty(to.record.points)
  {
    var start := Scene(Fresh(key, hash), Env(true, map[]));
    var indexed := OneOfTwoRetries(start);
    RelaxReaches(start, indexed);
    var inserted := After(indexed, Ingest(InsertRetry(1)));
    Go(start, indexed, Ingest(InsertRetry(1)), inserted, false);
    to := DeleteMoved(inserted);
    RelaxReaches(inserted, to);
    ReachesOn(start, inserted, to, false);
  }

  lemma OneOfTwoRetries(start: Scene) returns (to: Scene)
    requires start.record.ingestion == [PENDING_INGESTION] && start.record.retriers == map[] && start.record.deletion == []
    requires start.record.ingesters == map[] && start.record.activating == None && start.env.stored
    ensures Reaches(start, to, true) && RetrierAt(to.record, 1, RowsLocked) && to.env.stored
    ensures to.record == start.record.(ingestion := to.record.ingestion, ingesters := to.record.ingesters,
              retriers := to.record.retriers, collection := Some(0), metadata := Some(0),
              points := Upsert(start.record.points, 0, 1), served := start.record.served + [0])
    ensures |to.record.ingestion| == 2 && !AnyActive(to.record.ingestion) && 2 !in to.record.ingesters
  {
    var locked := TwoRetriesLock(start);
    to := FirstRetryIndexes(start, locked);
  }

  lemma TwoRetriesLock(start: Scene) returns (to: Scene)
    requires start.record.ingestion == [PENDING_INGESTION] && start.record.retriers == map[] && start.record.deletion == []
    requires start.record.ingesters == map[]
    ensures Reaches(start, to, true) && to.env == start.env
    ensures to.record == start.record.(ingestion := to.record.ingestion, ingesters := map[],
                                       retriers := map[0 := RowsLocked, 1 := RowsLocked])
    ensures |to.record.ingestion| == 1 && to.record.ingestion[0].status == Failed
  {
    Stay(start, true);
    var failed := FailReplacement(start, start);
    var one := LockRows(start, failed, 0);
    to := LockRows(start, one, 1);
  }

  lemma FirstRetryIndexes(start: Scene, at: Scene) returns (to: Scene)
    requires Reaches(start, at, true) && |at.record.ingestion| == 1 && at.record.ingestion[0].status == Failed
    requires at.record.retriers == map[0 := RowsLocked, 1 := RowsLocked] && at.record.deletion == []
    requires at.record.ingesters == map[] && at.record.activating == None && at.env.stored
    ensures Reaches(start, to, true) && RetrierAt(to.record, 1, RowsLocked) && to.env.stored
    ensures to.record == at.record.(ingestion := to.record.ingestion, ingesters := to.record.ingesters,
              retriers := to.record.retriers, collection := Some(0), metadata := Some(0),
              points := Upsert(at.record.points, 0, 1), served := at.record.served + [0])
    ensures |to.record.ingestion| == 2 && !AnyActive(to.record.ingestion) && 2 !in to.record.ingesters
  {
    var inserted := After(at, Ingest(InsertRetry(0)));
    Go(start, at, Ingest(InsertRetry(0)), inserted, true);
    IngestionJobIsRun(inserted, 1, 0, 0, 1, false);
    to := AfterIngestionJob(inserted, 1, 0, 0, 1, false);
    ReachesOn(start, inserted, to, true);
  }

  /** The second job moves the document from collection 0 to 1; then it is deleted. */
  lemma DeleteMoved(at: Scene) returns (to: Scene)
    requires |at.record.ingestion| == 3 && at.record.ingestion[2] == PENDING_INGESTION && 2 !in at.record.ingesters
    requires at.env.stored && at.record.activating == None && Held(at.record.points, 0)
    requires at.record.cleanup == [] && at.record.reindex == [] && at.record.deletion == [] && at.record.deleters == map[]
    ensures Reaches(at, to, true) && DeletionDone(to.record.deletion) && !Empty(to.record.points)
  {
    IngestionJobIsRun(at, 2, 1, 0, 1, false);
    var moved := AfterIngestionJob(at, 2, 1, 0, 1, false);
    UpsertHolds(at.record.points, 1, 1);
    var requested := RequestNow(at, moved);
    to := UntrackedStays(at, requested, 0);
  }
}
