/** Every segment keeps the main part of the invariant, given the assumptions on recoveries and requests. */
module Preservation {
  import opened DocumentRecord
  import opened Steps
  import opened Invariant

  // ----- how single table or point updates carry over -----

  lemma UpsertHolds(points: map<Collection, set<nat>>, c: Collection, count: nat)
    requires count >= 1
    ensures forall d :: Held(Upsert(points, c, count), d) <==> Held(points, d) || d == c
  {
    assert 0 in PointsIn(Upsert(points, c, count), c);
  }

  lemma EraseHolds(points: map<Collection, set<nat>>, c: Collection)
    ensures forall d :: Held(Erase(points, c), d) <==> Held(points, d) && d != c
  {
  }

  lemma KeepsTargets(before: seq<ReindexJob>, after: seq<ReindexJob>)
    requires |before| <= |after|
    requires forall j :: 0 <= j < |before| && before[j].status == Completed ==>
               after[j].status == Completed && after[j].target == before[j].target
    ensures forall c :: CompletedTarget(before, c) ==> CompletedTarget(after, c)
  {
    forall c | CompletedTarget(before, c) ensures CompletedTarget(after, c) {
      var j :| 0 <= j < |before| && before[j].status == Completed && before[j].target == c;
      assert after[j].target == c;
    }
  }

  /** Every upserted build is still one, or its job has just completed. */
  lemma KeepsBuilds(before: seq<ReindexJob>, builders: map<nat, Builder>, after: seq<ReindexJob>, builders': map<nat, Builder>)
    requires |before| <= |after|
    requires forall j :: 0 <= j < |before| && before[j].status == Completed ==>
               after[j].status == Completed && after[j].target == before[j].target
    requires forall j :: j in builders && j < |before| && builders[j].phase.Built? && before[j].status == Processing ==>
               && after[j].target == before[j].target
               && (after[j].status == Completed
                   || (after[j].status == Processing && j in builders' && builders'[j].phase.Built?))
    ensures forall c :: CompletedTarget(before, c) ==> CompletedTarget(after, c)
    ensures forall c :: BuildAccounted(before, builders, c) ==> BuildAccounted(after, builders', c)
  {
    KeepsTargets(before, after);
    forall c | BuiltTarget(before, builders, c) ensures BuildAccounted(after, builders', c) {
      var j :| j in builders && j < |before| && builders[j].phase.Built? && before[j].status == Processing && before[j].target == c;
      assert after[j].target == c;
    }
  }

  lemma KeepsOpen(before: seq<CleanupJob>, after: seq<CleanupJob>)
    requires |before| <= |after|
    requires forall k :: 0 <= k < |before| && OpenRow(before[k]) ==>
               OpenRow(after[k]) && after[k].collection == before[k].collection
    ensures forall c :: OpenCleanup(before, c) ==> OpenCleanup(after, c)
  {
    forall c | OpenCleanup(before, c) ensures OpenCleanup(after, c) {
      var k :| 0 <= k < |before| && OpenRow(before[k]) && before[k].collection == c;
      assert after[k].collection == c;
    }
  }

  lemma SameDone(before: seq<DeletionJob>, after: seq<DeletionJob>)
    requires |before| <= |after|
    requires forall j :: 0 <= j < |before| ==> (before[j].status == DeletionCompleted <==> after[j].status == DeletionCompleted)
    requires forall j :: |before| <= j < |after| ==> after[j].status != DeletionCompleted
    ensures DeletionDone(before) <==> DeletionDone(after)
  {
    if DeletionDone(before) {
      var j :| 0 <= j < |before| && before[j].status == DeletionCompleted;
      assert after[j].status == DeletionCompleted;
    }
  }

  lemma FinishedDone(deletion: seq<DeletionJob>, j: nat, gone: bool)
    requires j < |deletion| && deletion[j].status == DeletionProcessing
    ensures DeletionDone(deletion[j := AfterObject(deletion[j], gone)]) <==> DeletionDone(deletion) || gone
  {
    var after := deletion[j := AfterObject(deletion[j], gone)];
    assert after[j].status == DeletionCompleted <==> gone;
    if DeletionDone(deletion) {
      var i :| 0 <= i < |deletion| && deletion[i].status == DeletionCompleted;
      assert after[i].status == DeletionCompleted;
    }
  }

  /** Rows stay pinned while no worker on them reaches the end of its delete. */
  lemma KeepsPinned(before: seq<CleanupJob>, cleaners: map<nat, Cleaner>, after: seq<CleanupJob>, cleaners': map<nat, Cleaner>)
    requires |before| <= |after|
    requires forall k :: 0 <= k < |before| && Pinned(before, cleaners, k) ==>
               Pinned(after, cleaners', k) && after[k].collection == before[k].collection
    ensures forall c :: StaysOpen(before, cleaners, c) ==> StaysOpen(after, cleaners', c)
  {
    forall c | StaysOpen(before, cleaners, c) ensures StaysOpen(after, cleaners', c) {
      var k :| 0 <= k < |before| && Pinned(before, cleaners, k) && before[k].collection == c;
      assert Pinned(after, cleaners', k) && after[k].collection == c;
    }
  }

  /** Coverage carries over when points only disappear and what tracks the remaining ones stays. */
  lemma CoveringCarries(d: DeletePhase, r: Record, r': Record, stored: bool)
    requires Covering(d, r.points, r.cleanup, r.cleaners, r.reindex, stored)
    requires forall c :: Held(r'.points, c) ==>
               && Held(r.points, c)
               && (StaysOpen(r.cleanup, r.cleaners, c) ==> StaysOpen(r'.cleanup, r'.cleaners, c))
               && (CompletedTarget(r.reindex, c) ==> CompletedTarget(r'.reindex, c))
    ensures Covering(d, r'.points, r'.cleanup, r'.cleaners, r'.reindex, stored)
  {
  }

  // ----- ingestion -----

  lemma UpsertIngestionRows(r: Record, s: IngestionStep, env: Env)
    requires Base(r, env) && s.UpsertIngestion? && EnabledIngestion(r, s, env)
    ensures Rows(ApplyIngestion(r, s, env), env) && Links(ApplyIngestion(r, s, env), env)
  {
  }

  lemma UpsertIngestionLocated(r: Record, s: IngestionStep, env: Env)
    requires Base(r, env) && s.UpsertIngestion? && EnabledIngestion(r, s, env)
    ensures Located(ApplyIngestion(r, s, env))
  {
    var r' := ApplyIngestion(r, s, env);
    var p := r.ingesters[s.job].phase;
    UpsertHolds(r.points, p.target, p.count);
    assert IngestedInto(r'.ingestion, r'.ingesters, p.target) by {
      assert r'.ingesters[s.job].phase.target == p.target;
    }
  }

  lemma UpsertIngestionDeleted(r: Record, s: IngestionStep, env: Env)
    requires Base(r, env) && s.UpsertIngestion? && EnabledIngestion(r, s, env)
    ensures Deleted(ApplyIngestion(r, s, env), env)
  {
    var r' := ApplyIngestion(r, s, env);
    var p := r.ingesters[s.job].phase;
    UpsertHolds(r.points, p.target, p.count);
    assert IngestedInto(r'.ingestion, r'.ingesters, p.target) by {
      assert r'.ingesters[s.job].phase.target == p.target;
    }
  }

  lemma UpsertIngestionKeeps(r: Record, s: IngestionStep, env: Env)
    requires Base(r, env) && s.UpsertIngestion? && EnabledIngestion(r, s, env)
    ensures Base(ApplyIngestion(r, s, env), env)
  {
    UpsertIngestionRows(r, s, env);
    UpsertIngestionLocated(r, s, env);
    UpsertIngestionDeleted(r, s, env);
  }

  lemma ClaimIngestionRows(r: Record, s: IngestionStep, env: Env)
    requires Base(r, env) && s.ClaimIngestion? && EnabledIngestion(r, s, env)
    ensures Rows(ApplyIngestion(r, s, env), env)
  {
  }

  lemma ClaimIngestionLinks(r: Record, s: IngestionStep, env: Env)
    requires Base(r, env) && s.ClaimIngestion? && EnabledIngestion(r, s, env)
    ensures Links(ApplyIngestion(r, s, env), env)
  {
  }

  lemma ClaimIngestionPlacement(r: Record, s: IngestionStep, env: Env)
    requires Base(r, env) && s.ClaimIngestion? && EnabledIngestion(r, s, env)
    ensures Placement(ApplyIngestion(r, s, env), env)
  {
  }

  lemma ClaimIngestionKeeps(r: Record, s: IngestionStep, env: Env)
    requires Base(r, env) && s.ClaimIngestion? && EnabledIngestion(r, s, env)
    ensures Base(ApplyIngestion(r, s, env), env)
  {
    ClaimIngestionRows(r, s, env);
    ClaimIngestionLinks(r, s, env);
    ClaimIngestionPlacement(r, s, env);
  }

  lemma CrashIngestionRows(r: Record, s: IngestionStep, env: Env)
    requires Base(r, env) && s.CrashIngestion? && EnabledIngestion(r, s, env)
    ensures Rows(ApplyIngestion(r, s, env), env)
  {
  }

  lemma CrashIngestionLinks(r: Record, s: IngestionStep, env: Env)
    requires Base(r, env) && s.CrashIngestion? && EnabledIngestion(r, s, env)
    ensures Links(ApplyIngestion(r, s, env), env)
  {
  }

  lemma CrashIngestionPlacement(r: Record, s: IngestionStep, env: Env)
    requires Base(r, env) && s.CrashIngestion? && EnabledIngestion(r, s, env)
    ensures Placement(ApplyIngestion(r, s, env), env)
  {
  }

  lemma CrashIngestionKeeps(r: Record, s: IngestionStep, env: Env)
    requires Base(r, env) && s.CrashIngestion? && EnabledIngestion(r, s, env)
    ensures Base(ApplyIngestion(r, s, env), env)
  {
    CrashIngestionRows(r, s, env);
    CrashIngestionLinks(r, s, env);
    CrashIngestionPlacement(r, s, env);
  }

  lemma EmbedDocumentRows(r: Record, s: IngestionStep, env: Env)
    requires Base(r, env) && s.EmbedDocument? && EnabledIngestion(r, s, env)
    ensures Rows(ApplyIngestion(r, s, env), env.(catalog := EnsureRow(env.catalog, s.target, s.metadata)))
  {
  }

  lemma EmbedDocumentLinks(r: Record, s: IngestionStep, env: Env)
    requires Base(r, env) && s.EmbedDocument? && EnabledIngestion(r, s, env)
    ensures Links(ApplyIngestion(r, s, env), env.(catalog := EnsureRow(env.catalog, s.target, s.metadata)))
  {
  }

  lemma EmbedDocumentPlacement(r: Record, s: IngestionStep, env: Env)
    requires Base(r, env) && s.EmbedDocument? && EnabledIngestion(r, s, env)
    ensures Placement(ApplyIngestion(r, s, env), env.(catalog := EnsureRow(env.catalog, s.target, s.metadata)))
  {
  }

  lemma EmbedDocumentKeeps(r: Record, s: IngestionStep, env: Env)
    requires Base(r, env) && s.EmbedDocument? && EnabledIngestion(r, s, env)
    ensures Base(ApplyIngestion(r, s, env), env.(catalog := EnsureRow(env.catalog, s.target, s.metadata)))
  {
    EmbedDocumentRows(r, s, env);
    EmbedDocumentLinks(r, s, env);
    EmbedDocumentPlacement(r, s, env);
  }

  lemma FinishIngestionKeeps(r: Record, s: IngestionStep, env: Env)
    requires Base(r, env) && s.FinishIngestion? && EnabledIngestion(r, s, env)
    ensures Base(ApplyIngestion(r, s, env), env)
  {
  }

  lemma FailIngestionKeeps(r: Record, s: IngestionStep, env: Env)
    requires Base(r, env) && s.FailIngestion? && EnabledIngestion(r, s, env)
    ensures Base(ApplyIngestion(r, s, env), env)
  {
  }

  lemma ReadForRetryKeeps(r: Record, s: IngestionStep, env: Env)
    requires Base(r, env) && (s.CheckRetry? || s.LockRetryRows?) && EnabledIngestion(r, s, env)
    ensures Base(ApplyIngestion(r, s, env), env)
  {
  }

  lemma InsertRetryRows(r: Record, s: IngestionStep, env: Env)
    requires Base(r, env) && s.InsertRetry? && EnabledIngestion(r, s, env) && HarmlessRetry(r, s, env)
    ensures Rows(ApplyIngestion(r, s, env), env) && Links(ApplyIngestion(r, s, env), env)
  {
  }

  lemma InsertRetryPlacement(r: Record, s: IngestionStep, env: Env)
    requires Base(r, env) && s.InsertRetry? && EnabledIngestion(r, s, env) && HarmlessRetry(r, s, env)
    ensures Placement(ApplyIngestion(r, s, env), env)
  {
  }

  lemma InsertRetryKeeps(r: Record, s: IngestionStep, env: Env)
    requires Base(r, env) && s.InsertRetry? && EnabledIngestion(r, s, env) && HarmlessRetry(r, s, env)
    ensures Base(ApplyIngestion(r, s, env), env)
  {
    InsertRetryRows(r, s, env);
    InsertRetryPlacement(r, s, env);
  }

  lemma FlipRetryRows(r: Record, s: IngestionStep, env: Env)
    requires Base(r, env) && s.FlipRetry? && EnabledIngestion(r, s, env) && TimelyRecovery(r, s, env)
    ensures Rows(ApplyIngestion(r, s, env), env) && Links(ApplyIngestion(r, s, env), env)
  {
  }

  lemma FlipRetryPlacement(r: Record, s: IngestionStep, env: Env)
    requires Base(r, env) && s.FlipRetry? && EnabledIngestion(r, s, env) && TimelyRecovery(r, s, env)
    ensures Placement(ApplyIngestion(r, s, env), env)
  {
  }

  lemma FlipRetryKeeps(r: Record, s: IngestionStep, env: Env)
    requires Base(r, env) && s.FlipRetry? && EnabledIngestion(r, s, env) && TimelyRecovery(r, s, env)
    ensures Base(ApplyIngestion(r, s, env), env)
  {
    FlipRetryRows(r, s, env);
    FlipRetryPlacement(r, s, env);
  }

  lemma RecoverIngestionRows(r: Record, s: IngestionStep, env: Env)
    requires Base(r, env) && s.RecoverIngestion? && EnabledIngestion(r, s, env) && TimelyRecovery(r, s, env)
    ensures Rows(ApplyIngestion(r, s, env), env) && Links(ApplyIngestion(r, s, env), env)
  {
  }

  lemma RecoverIngestionPlacement(r: Record, s: IngestionStep, env: Env)
    requires Base(r, env) && s.RecoverIngestion? && EnabledIngestion(r, s, env) && TimelyRecovery(r, s, env)
    ensures Placement(ApplyIngestion(r, s, env), env)
  {
  }

  lemma RecoverIngestionKeeps(r: Record, s: IngestionStep, env: Env)
    requires Base(r, env) && s.RecoverIngestion? && EnabledIngestion(r, s, env) && TimelyRecovery(r, s, env)
    ensures Base(ApplyIngestion(r, s, env), env)
  {
    RecoverIngestionRows(r, s, env);
    RecoverIngestionPlacement(r, s, env);
  }

  // ----- re-index scheduling and build -----

  lemma ScheduleKeeps(r: Record, s: ReindexStep, env: Env)
    requires Base(r, env) && (s.ReadSource? || s.ReadBuilds? || s.ReadIngestion? || s.ReadDeletions? || s.DropSchedule?) && EnabledReindex(r, s, env)
    ensures Base(ApplyReindex(r, s, env), env)
  {
  }

  lemma EnsureTargetKeeps(r: Record, s: ReindexStep, env: Env)
    requires Base(r, env) && s.EnsureTarget? && EnabledReindex(r, s, env)
    ensures Base(ApplyReindex(r, s, env),
                env.(catalog := EnsureRow(env.catalog, r.schedulers[s.request].target, s.metadata)))
  {
  }

  lemma InsertReindexRows(r: Record, s: ReindexStep, env: Env)
    requires Base(r, env) && s.InsertReindex? && EnabledReindex(r, s, env)
    ensures Rows(ApplyReindex(r, s, env), env) && Links(ApplyReindex(r, s, env), env)
  {
  }

  lemma InsertReindexLocated(r: Record, s: ReindexStep, env: Env)
    requires Base(r, env) && s.InsertReindex? && EnabledReindex(r, s, env)
    ensures Located(ApplyReindex(r, s, env))
  {
    var r' := ApplyReindex(r, s, env);
    KeepsBuilds(r.reindex, r.builders, r'.reindex, r'.builders);
  }

  lemma InsertReindexDeleted(r: Record, s: ReindexStep, env: Env)
    requires Base(r, env) && s.InsertReindex? && EnabledReindex(r, s, env)
    ensures Deleted(ApplyReindex(r, s, env), env)
  {
    var r' := ApplyReindex(r, s, env);
    KeepsBuilds(r.reindex, r.builders, r'.reindex, r'.builders);
  }

  lemma InsertReindexKeeps(r: Record, s: ReindexStep, env: Env)
    requires Base(r, env) && s.InsertReindex? && EnabledReindex(r, s, env)
    ensures Base(ApplyReindex(r, s, env), env)
  {
    InsertReindexRows(r, s, env);
    InsertReindexLocated(r, s, env);
    InsertReindexDeleted(r, s, env);
  }

  lemma ClaimReindexRows(r: Record, s: ReindexStep, env: Env)
    requires Base(r, env) && s.ClaimReindex? && EnabledReindex(r, s, env)
    ensures Rows(ApplyReindex(r, s, env), env)
  {
  }

  lemma ClaimReindexLinks(r: Record, s: ReindexStep, env: Env)
    requires Base(r, env) && s.ClaimReindex? && EnabledReindex(r, s, env)
    ensures Links(ApplyReindex(r, s, env), env)
  {
  }

  lemma ClaimReindexLocated(r: Record, s: ReindexStep, env: Env)
    requires Base(r, env) && s.ClaimReindex? && EnabledReindex(r, s, env)
    ensures Located(ApplyReindex(r, s, env))
  {
    var r' := ApplyReindex(r, s, env);
    KeepsBuilds(r.reindex, r.builders, r'.reindex, r'.builders);
  }

  lemma ClaimReindexDeleted(r: Record, s: ReindexStep, env: Env)
    requires Base(r, env) && s.ClaimReindex? && EnabledReindex(r, s, env)
    ensures Deleted(ApplyReindex(r, s, env), env)
  {
    var r' := ApplyReindex(r, s, env);
    KeepsBuilds(r.reindex, r.builders, r'.reindex, r'.builders);
  }

  lemma ClaimReindexKeeps(r: Record, s: ReindexStep, env: Env)
    requires Base(r, env) && s.ClaimReindex? && EnabledReindex(r, s, env)
    ensures Base(ApplyReindex(r, s, env), env)
  {
    ClaimReindexRows(r, s, env);
    ClaimReindexLinks(r, s, env);
    ClaimReindexLocated(r, s, env);
    ClaimReindexDeleted(r, s, env);
  }

  lemma CheckDeletionRows(r: Record, s: ReindexStep, env: Env)
    requires Base(r, env) && s.CheckDeletion? && EnabledReindex(r, s, env)
    ensures Rows(ApplyReindex(r, s, env), env) && Links(ApplyReindex(r, s, env), env)
  {
  }

  lemma CheckDeletionPlacement(r: Record, s: ReindexStep, env: Env)
    requires Base(r, env) && s.CheckDeletion? && EnabledReindex(r, s, env)
    ensures Placement(ApplyReindex(r, s, env), env)
  {
    var r' := ApplyReindex(r, s, env);
    KeepsBuilds(r.reindex, r.builders, r'.reindex, r'.builders);
  }

  lemma CheckDeletionKeeps(r: Record, s: ReindexStep, env: Env)
    requires Base(r, env) && s.CheckDeletion? && EnabledReindex(r, s, env)
    ensures Base(ApplyReindex(r, s, env), env)
  {
    CheckDeletionRows(r, s, env);
    CheckDeletionPlacement(r, s, env);
  }

  lemma EmbedBuildRows(r: Record, s: ReindexStep, env: Env)
    requires Base(r, env) && s.EmbedBuild? && EnabledReindex(r, s, env)
    ensures Rows(ApplyReindex(r, s, env), env) && Links(ApplyReindex(r, s, env), env)
  {
  }

  lemma EmbedBuildPlacement(r: Record, s: ReindexStep, env: Env)
    requires Base(r, env) && s.EmbedBuild? && EnabledReindex(r, s, env)
    ensures Placement(ApplyReindex(r, s, env), env)
  {
    var r' := ApplyReindex(r, s, env);
    KeepsBuilds(r.reindex, r.builders, r'.reindex, r'.builders);
  }

  lemma EmbedBuildKeeps(r: Record, s: ReindexStep, env: Env)
    requires Base(r, env) && s.EmbedBuild? && EnabledReindex(r, s, env)
    ensures Base(ApplyReindex(r, s, env), env)
  {
    EmbedBuildRows(r, s, env);
    EmbedBuildPlacement(r, s, env);
  }

  lemma FinishBuildRows(r: Record, s: ReindexStep, env: Env)
    requires Base(r, env) && s.FinishBuild? && EnabledReindex(r, s, env)
    ensures Rows(ApplyReindex(r, s, env), env) && Links(ApplyReindex(r, s, env), env)
  {
  }

  lemma FinishBuildPlacement(r: Record, s: ReindexStep, env: Env)
    requires Base(r, env) && s.FinishBuild? && EnabledReindex(r, s, env)
    ensures Placement(ApplyReindex(r, s, env), env)
  {
    var r' := ApplyReindex(r, s, env);
    KeepsBuilds(r.reindex, r.builders, r'.reindex, r'.builders);
  }

  lemma FinishBuildKeeps(r: Record, s: ReindexStep, env: Env)
    requires Base(r, env) && s.FinishBuild? && EnabledReindex(r, s, env)
    ensures Base(ApplyReindex(r, s, env), env)
  {
    FinishBuildRows(r, s, env);
    FinishBuildPlacement(r, s, env);
  }

  lemma FailBuildRows(r: Record, s: ReindexStep, env: Env)
    requires Base(r, env) && s.FailBuild? && EnabledReindex(r, s, env)
    ensures Rows(ApplyReindex(r, s, env), env)
  {
  }

  lemma FailBuildLinks(r: Record, s: ReindexStep, env: Env)
    requires Base(r, env) && s.FailBuild? && EnabledReindex(r, s, env)
    ensures Links(ApplyReindex(r, s, env), env)
  {
  }

  lemma FailBuildLocated(r: Record, s: ReindexStep, env: Env)
    requires Base(r, env) && s.FailBuild? && EnabledReindex(r, s, env)
    ensures Located(ApplyReindex(r, s, env))
  {
    var r' := ApplyReindex(r, s, env);
    KeepsBuilds(r.reindex, r.builders, r'.reindex, r'.builders);
  }

  lemma FailBuildDeleted(r: Record, s: ReindexStep, env: Env)
    requires Base(r, env) && s.FailBuild? && EnabledReindex(r, s, env)
    ensures Deleted(ApplyReindex(r, s, env), env)
  {
    var r' := ApplyReindex(r, s, env);
    KeepsBuilds(r.reindex, r.builders, r'.reindex, r'.builders);
  }

  lemma FailBuildKeeps(r: Record, s: ReindexStep, env: Env)
    requires Base(r, env) && s.FailBuild? && EnabledReindex(r, s, env)
    ensures Base(ApplyReindex(r, s, env), env)
  {
    FailBuildRows(r, s, env);
    FailBuildLinks(r, s, env);
    FailBuildLocated(r, s, env);
    FailBuildDeleted(r, s, env);
  }

  lemma CrashBuildRows(r: Record, s: ReindexStep, env: Env)
    requires Base(r, env) && s.CrashBuild? && EnabledReindex(r, s, env)
    ensures Rows(ApplyReindex(r, s, env), env) && Links(ApplyReindex(r, s, env), env)
  {
  }

  lemma CrashBuildPlacement(r: Record, s: ReindexStep, env: Env)
    requires Base(r, env) && s.CrashBuild? && EnabledReindex(r, s, env)
    ensures Placement(ApplyReindex(r, s, env), env)
  {
    var r' := ApplyReindex(r, s, env);
    KeepsBuilds(r.reindex, r.builders, r'.reindex, r'.builders);
  }

  lemma CrashBuildKeeps(r: Record, s: ReindexStep, env: Env)
    requires Base(r, env) && s.CrashBuild? && EnabledReindex(r, s, env)
    ensures Base(ApplyReindex(r, s, env), env)
  {
    CrashBuildRows(r, s, env);
    CrashBuildPlacement(r, s, env);
  }

  lemma UpsertBuildRows(r: Record, s: ReindexStep, env: Env)
    requires Base(r, env) && s.UpsertBuild? && EnabledReindex(r, s, env)
    ensures Rows(ApplyReindex(r, s, env), env) && Links(ApplyReindex(r, s, env), env)
  {
  }

  lemma UpsertBuildPlacement(r: Record, s: ReindexStep, env: Env)
    requires Base(r, env) && s.UpsertBuild? && EnabledReindex(r, s, env)
    ensures Placement(ApplyReindex(r, s, env), env)
  {
    var r' := ApplyReindex(r, s, env);
    KeepsBuilds(r.reindex, r.builders, r'.reindex, r'.builders);
    UpsertHolds(r.points, r.reindex[s.job].target, r.builders[s.job].phase.count);
    assert BuiltTarget(r'.reindex, r'.builders, r.reindex[s.job].target);
  }

  lemma UpsertBuildKeeps(r: Record, s: ReindexStep, env: Env)
    requires Base(r, env) && s.UpsertBuild? && EnabledReindex(r, s, env)
    ensures Base(ApplyReindex(r, s, env), env)
  {
    UpsertBuildRows(r, s, env);
    UpsertBuildPlacement(r, s, env);
  }

  // ----- activation and cleanup -----

  lemma HoldActivationKeeps(r: Record, s: CutoverStep, env: Env)
    requires Base(r, env) && (s.BeginActivation? || s.AbortActivation?) && EnabledCutover(r, s, env)
    ensures Base(ApplyCutover(r, s, env), env)
  {
  }

  lemma CommitActivationRows(r: Record, s: CutoverStep, env: Env)
    requires Base(r, env) && s.CommitActivation? && EnabledCutover(r, s, env)
    ensures Rows(ApplyCutover(r, s, env), env)
  {
  }

  lemma CommitActivationLinks(r: Record, s: CutoverStep, env: Env)
    requires Base(r, env) && s.CommitActivation? && EnabledCutover(r, s, env)
    ensures Links(ApplyCutover(r, s, env), env)
  {
  }

  lemma CommitActivationLocated(r: Record, s: CutoverStep, env: Env)
    requires Base(r, env) && s.CommitActivation? && EnabledCutover(r, s, env)
    ensures Located(ApplyCutover(r, s, env))
  {
    var r' := ApplyCutover(r, s, env);
    var job := r.reindex[r.activating.value];
    KeepsBuilds(r.reindex, r.builders, r'.reindex, r'.builders);
    KeepsOpen(r.cleanup, r'.cleanup);
    assert OpenRow(r'.cleanup[|r.cleanup|]) && OpenCleanup(r'.cleanup, job.source);
  }

  lemma CommitActivationDeleted(r: Record, s: CutoverStep, env: Env)
    requires Base(r, env) && s.CommitActivation? && EnabledCutover(r, s, env)
    ensures Deleted(ApplyCutover(r, s, env), env)
  {
    var r' := ApplyCutover(r, s, env);
    KeepsTargets(r.reindex, r'.reindex);
    KeepsPinned(r.cleanup, r.cleaners, r'.cleanup, r'.cleaners);
    forall j | j in r.deleters ensures Covering(r.deleters[j], r'.points, r'.cleanup, r'.cleaners, r'.reindex, env.stored) {
      CoveringCarries(r.deleters[j], r, r', env.stored);
    }
  }

  lemma CommitActivationKeeps(r: Record, s: CutoverStep, env: Env)
    requires Base(r, env) && s.CommitActivation? && EnabledCutover(r, s, env)
    ensures Base(ApplyCutover(r, s, env), env)
  {
    CommitActivationRows(r, s, env);
    CommitActivationLinks(r, s, env);
    CommitActivationLocated(r, s, env);
    CommitActivationDeleted(r, s, env);
  }

  lemma WorkCleanupRows(r: Record, s: CutoverStep, env: Env)
    requires Base(r, env) && (s.ClaimCleanup? || s.GuardCleanup? || s.CrashCleanup?) && EnabledCutover(r, s, env)
    ensures Rows(ApplyCutover(r, s, env), env) && Links(ApplyCutover(r, s, env), env)
  {
  }

  lemma WorkCleanupPlacement(r: Record, s: CutoverStep, env: Env)
    requires Base(r, env) && (s.ClaimCleanup? || s.GuardCleanup? || s.CrashCleanup?) && EnabledCutover(r, s, env)
    ensures Placement(ApplyCutover(r, s, env), env)
  {
    KeepsPinned(r.cleanup, r.cleaners, ApplyCutover(r, s, env).cleanup, ApplyCutover(r, s, env).cleaners);
  }

  lemma WorkCleanupKeeps(r: Record, s: CutoverStep, env: Env)
    requires Base(r, env) && (s.ClaimCleanup? || s.GuardCleanup? || s.CrashCleanup?) && EnabledCutover(r, s, env)
    ensures Base(ApplyCutover(r, s, env), env)
  {
    WorkCleanupRows(r, s, env);
    WorkCleanupPlacement(r, s, env);
  }

  lemma EraseCleanupRows(r: Record, s: CutoverStep, env: Env)
    requires Base(r, env) && s.EraseCleanup? && EnabledCutover(r, s, env)
    ensures Rows(ApplyCutover(r, s, env), env) && Links(ApplyCutover(r, s, env), env)
  {
  }

  /** A worker's delete unpins only its own row, whose collection is empty then. */
  lemma ErasePins(r: Record, s: CutoverStep, env: Env)
    requires s.EraseCleanup? && EnabledCutover(r, s, env)
    ensures var r' := ApplyCutover(r, s, env);
            && (forall c :: Held(r'.points, c) ==> Held(r.points, c))
            && (forall c :: Held(r'.points, c) && StaysOpen(r.cleanup, r.cleaners, c) ==> StaysOpen(r'.cleanup, r'.cleaners, c))
  {
    var r' := ApplyCutover(r, s, env);
    var k := r.cleaners[s.worker].row;
    EraseHolds(r.points, r.cleanup[k].collection);
    forall c | Held(r'.points, c) && StaysOpen(r.cleanup, r.cleaners, c) ensures StaysOpen(r'.cleanup, r'.cleaners, c) {
      var i :| 0 <= i < |r.cleanup| && Pinned(r.cleanup, r.cleaners, i) && r.cleanup[i].collection == c;
      assert i == k ==> !s.ok;
      assert Pinned(r'.cleanup, r'.cleaners, i);
    }
  }

  lemma EraseCleanupLocated(r: Record, s: CutoverStep, env: Env)
    requires Base(r, env) && s.EraseCleanup? && EnabledCutover(r, s, env)
    ensures Located(ApplyCutover(r, s, env))
  {
    EraseHolds(r.points, r.cleanup[r.cleaners[s.worker].row].collection);
  }

  lemma EraseCleanupDeleted(r: Record, s: CutoverStep, env: Env)
    requires Base(r, env) && s.EraseCleanup? && EnabledCutover(r, s, env)
    ensures Deleted(ApplyCutover(r, s, env), env)
  {
    var r' := ApplyCutover(r, s, env);
    ErasePins(r, s, env);
    forall j | j in r.deleters ensures Covering(r.deleters[j], r'.points, r'.cleanup, r'.cleaners, r'.reindex, env.stored) {
      CoveringCarries(r.deleters[j], r, r', env.stored);
    }
  }

  lemma EraseCleanupKeeps(r: Record, s: CutoverStep, env: Env)
    requires Base(r, env) && s.EraseCleanup? && EnabledCutover(r, s, env)
    ensures Base(ApplyCutover(r, s, env), env)
  {
    EraseCleanupRows(r, s, env);
    EraseCleanupLocated(r, s, env);
    EraseCleanupDeleted(r, s, env);
  }

  lemma FinishCleanupRows(r: Record, s: CutoverStep, env: Env)
    requires Base(r, env) && s.FinishCleanup? && EnabledCutover(r, s, env)
    ensures Rows(ApplyCutover(r, s, env), env) && Links(ApplyCutover(r, s, env), env)
  {
  }

  lemma FinishCleanupPins(r: Record, s: CutoverStep, env: Env)
    requires s.FinishCleanup? && EnabledCutover(r, s, env)
    ensures var r' := ApplyCutover(r, s, env);
            && (forall c :: StaysOpen(r.cleanup, r.cleaners, c) ==> StaysOpen(r'.cleanup, r'.cleaners, c))
            && (forall c :: OpenCleanup(r.cleanup, c)
                  && (c != r.cleanup[r.cleaners[s.worker].row].collection || !r.cleaners[s.worker].phase.CleanDeleted?)
                  ==> OpenCleanup(r'.cleanup, c))
  {
    var r' := ApplyCutover(r, s, env);
    var w, done := s.worker, r.cleanup[r.cleaners[s.worker].row].collection;
    forall k | 0 <= k < |r.cleanup| && Pinned(r.cleanup, r.cleaners, k)
      ensures Pinned(r'.cleanup, r'.cleaners, k) && r'.cleanup[k].collection == r.cleanup[k].collection
    {
      assert !(r.cleaners[w].row == k && r.cleaners[w].phase.CleanDeleted?);
    }
    KeepsPinned(r.cleanup, r.cleaners, r'.cleanup, r'.cleaners);
    forall c | OpenCleanup(r.cleanup, c) && (c != done || !r.cleaners[w].phase.CleanDeleted?) ensures OpenCleanup(r'.cleanup, c) {
      var k :| 0 <= k < |r.cleanup| && OpenRow(r.cleanup[k]) && r.cleanup[k].collection == c;
      assert r'.cleanup[k].collection == c && OpenRow(r'.cleanup[k]);
    }
  }

  lemma FinishCleanupPlacement(r: Record, s: CutoverStep, env: Env)
    requires Base(r, env) && s.FinishCleanup? && EnabledCutover(r, s, env)
    ensures Placement(ApplyCutover(r, s, env), env)
  {
    FinishCleanupPins(r, s, env);
  }

  lemma FinishCleanupKeeps(r: Record, s: CutoverStep, env: Env)
    requires Base(r, env) && s.FinishCleanup? && EnabledCutover(r, s, env)
    ensures Base(ApplyCutover(r, s, env), env)
  {
    FinishCleanupRows(r, s, env);
    FinishCleanupPlacement(r, s, env);
  }

  // ----- deletion -----

  lemma InsertDeletionRows(r: Record, s: DeletionStep, env: Env)
    requires Base(r, env) && s.InsertDeletion? && EnabledDeletion(r, s) && HarmlessRequest(r, s)
    ensures Rows(ApplyDeletion(r, s), env) && Links(ApplyDeletion(r, s), env)
  {
  }

  lemma InsertDeletionPlacement(r: Record, s: DeletionStep, env: Env)
    requires Base(r, env) && s.InsertDeletion? && EnabledDeletion(r, s) && HarmlessRequest(r, s)
    ensures Placement(ApplyDeletion(r, s), env)
  {
    SameDone(r.deletion, ApplyDeletion(r, s).deletion);
  }

  lemma InsertDeletionKeeps(r: Record, s: DeletionStep, env: Env)
    requires Base(r, env) && s.InsertDeletion? && EnabledDeletion(r, s) && HarmlessRequest(r, s)
    ensures Base(ApplyDeletion(r, s), env)
  {
    InsertDeletionRows(r, s, env);
    InsertDeletionPlacement(r, s, env);
  }

  lemma ReadCurrentRows(r: Record, s: DeletionStep, env: Env)
    requires Base(r, env) && Settled(r) && s.ReadCurrent? && EnabledDeletion(r, s)
    ensures Rows(ApplyDeletion(r, s), env) && Links(ApplyDeletion(r, s), env)
  {
  }

  lemma ReadCurrentPlacement(r: Record, s: DeletionStep, env: Env)
    requires Base(r, env) && Settled(r) && s.ReadCurrent? && EnabledDeletion(r, s)
    ensures Placement(ApplyDeletion(r, s), env)
  {
  }

  lemma ReadCurrentKeeps(r: Record, s: DeletionStep, env: Env)
    requires Base(r, env) && Settled(r) && s.ReadCurrent? && EnabledDeletion(r, s)
    ensures Base(ApplyDeletion(r, s), env)
  {
    ReadCurrentRows(r, s, env);
    ReadCurrentPlacement(r, s, env);
  }

  lemma ReadCleanupsKeeps(r: Record, s: DeletionStep, env: Env)
    requires Base(r, env) && s.ReadCleanups? && EnabledDeletion(r, s)
    ensures Base(ApplyDeletion(r, s), env)
  {
  }

  lemma ReadTargetsKeeps(r: Record, s: DeletionStep, env: Env)
    requires Base(r, env) && s.ReadTargets? && EnabledDeletion(r, s)
    ensures Base(ApplyDeletion(r, s), env)
  {
  }

  lemma OneEraseCovers(d: DeletePhase, points: map<Collection, set<nat>>, ok: bool, cleanup: seq<CleanupJob>,
                       cleaners: map<nat, Cleaner>, reindex: seq<ReindexJob>, stored: bool)
    requires Covering(d, points, cleanup, cleaners, reindex, stored) && d.Deleting? && d.next < |d.attempts|
    ensures Covering(Deleting(d.attempts, d.next + 1, d.failed || !ok),
                     if ok then Erase(points, d.attempts[d.next]) else points, cleanup, cleaners, reindex, stored)
  {
    EraseHolds(points, d.attempts[d.next]);
    assert d.attempts[d.next..] == [d.attempts[d.next]] + d.attempts[d.next + 1..];
  }

  lemma EraseNextRows(r: Record, s: DeletionStep, env: Env)
    requires Base(r, env) && s.EraseNext? && EnabledDeletion(r, s)
    ensures Rows(ApplyDeletion(r, s), env) && Links(ApplyDeletion(r, s), env)
  {
  }

  lemma EraseNextLocated(r: Record, s: DeletionStep, env: Env)
    requires Base(r, env) && s.EraseNext? && EnabledDeletion(r, s)
    ensures Located(ApplyDeletion(r, s))
  {
    EraseHolds(r.points, r.deleters[s.job].attempts[r.deleters[s.job].next]);
  }

  lemma EraseNextDeleted(r: Record, s: DeletionStep, env: Env)
    requires Base(r, env) && s.EraseNext? && EnabledDeletion(r, s)
    ensures Deleted(ApplyDeletion(r, s), env)
  {
    var d := r.deleters[s.job];
    EraseHolds(r.points, d.attempts[d.next]);
    OneEraseCovers(d, r.points, s.ok, r.cleanup, r.cleaners, r.reindex, env.stored);
  }

  lemma EraseNextKeeps(r: Record, s: DeletionStep, env: Env)
    requires Base(r, env) && s.EraseNext? && EnabledDeletion(r, s)
    ensures Base(ApplyDeletion(r, s), env)
  {
    EraseNextRows(r, s, env);
    EraseNextLocated(r, s, env);
    EraseNextDeleted(r, s, env);
  }

  lemma CommitVectorsRows(r: Record, s: DeletionStep, env: Env)
    requires Base(r, env) && s.CommitVectors? && EnabledDeletion(r, s)
    ensures Rows(ApplyDeletion(r, s), env) && Links(ApplyDeletion(r, s), env)
  {
  }

  lemma CommitVectorsPlacement(r: Record, s: DeletionStep, env: Env)
    requires Base(r, env) && s.CommitVectors? && EnabledDeletion(r, s)
    ensures Placement(ApplyDeletion(r, s), env)
  {
    SameDone(r.deletion, ApplyDeletion(r, s).deletion);
  }

  lemma CommitVectorsKeeps(r: Record, s: DeletionStep, env: Env)
    requires Base(r, env) && s.CommitVectors? && EnabledDeletion(r, s)
    ensures Base(ApplyDeletion(r, s), env)
  {
    CommitVectorsRows(r, s, env);
    CommitVectorsPlacement(r, s, env);
  }

  lemma DeleteObjectRows(r: Record, s: DeletionStep, env: Env)
    requires Base(r, env) && s.DeleteObject? && EnabledDeletion(r, s)
    ensures Rows(ApplyDeletion(r, s), env.(stored := env.stored && !s.ok)) && Links(ApplyDeletion(r, s), env.(stored := env.stored && !s.ok))
  {
  }

  lemma DeleteObjectPlacement(r: Record, s: DeletionStep, env: Env)
    requires Base(r, env) && s.DeleteObject? && EnabledDeletion(r, s)
    ensures Placement(ApplyDeletion(r, s), env.(stored := env.stored && !s.ok))
  {
  }

  lemma DeleteObjectKeeps(r: Record, s: DeletionStep, env: Env)
    requires Base(r, env) && s.DeleteObject? && EnabledDeletion(r, s)
    ensures Base(ApplyDeletion(r, s), env.(stored := env.stored && !s.ok))
  {
    DeleteObjectRows(r, s, env);
    DeleteObjectPlacement(r, s, env);
  }

  lemma FinishDeletionRows(r: Record, s: DeletionStep, env: Env)
    requires Base(r, env) && s.FinishDeletion? && EnabledDeletion(r, s)
    ensures Rows(ApplyDeletion(r, s), env) && Links(ApplyDeletion(r, s), env)
  {
  }

  lemma FinishDeletionPlacement(r: Record, s: DeletionStep, env: Env)
    requires Base(r, env) && s.FinishDeletion? && EnabledDeletion(r, s)
    ensures Placement(ApplyDeletion(r, s), env)
  {
    FinishedDone(r.deletion, s.job, r.deleters[s.job].ObjectGone?);
  }

  lemma FinishDeletionKeeps(r: Record, s: DeletionStep, env: Env)
    requires Base(r, env) && s.FinishDeletion? && EnabledDeletion(r, s)
    ensures Base(ApplyDeletion(r, s), env)
  {
    FinishDeletionRows(r, s, env);
    FinishDeletionPlacement(r, s, env);
  }

  lemma ClaimDeletionRows(r: Record, s: DeletionStep, env: Env)
    requires Base(r, env) && s.ClaimDeletion? && EnabledDeletion(r, s)
    ensures Rows(ApplyDeletion(r, s), env) && Links(ApplyDeletion(r, s), env)
  {
  }

  lemma ClaimDeletionPlacement(r: Record, s: DeletionStep, env: Env)
    requires Base(r, env) && s.ClaimDeletion? && EnabledDeletion(r, s)
    ensures Placement(ApplyDeletion(r, s), env)
  {
    SameDone(r.deletion, ApplyDeletion(r, s).deletion);
  }

  lemma ClaimDeletionKeeps(r: Record, s: DeletionStep, env: Env)
    requires Base(r, env) && s.ClaimDeletion? && EnabledDeletion(r, s)
    ensures Base(ApplyDeletion(r, s), env)
  {
    ClaimDeletionRows(r, s, env);
    ClaimDeletionPlacement(r, s, env);
  }

  lemma LeaveRowsDeletionKeeps(r: Record, s: DeletionStep, env: Env)
    requires Base(r, env) && (s.AskDeletions? || s.AskIngestion? || s.AskReindex? || s.CrashDeletion?) && EnabledDeletion(r, s)
    ensures Base(ApplyDeletion(r, s), env)
  {
  }

  // ----- all segments -----

  lemma IngestionBase(r: Record, s: IngestionStep, env: Env)
    requires Base(r, env) && EnabledIngestion(r, s, env) && TimelyRecovery(r, s, env) && HarmlessRetry(r, s, env)
    ensures Base(ApplyIngestion(r, s, env), NextEnv(r, Ingest(s), env))
  {
    assert !s.EmbedDocument? ==> NextEnv(r, Ingest(s), env) == env;
    match s
    case ClaimIngestion(_) => ClaimIngestionKeeps(r, s, env);
    case EmbedDocument(_, _, _, _) => EmbedDocumentKeeps(r, s, env);
    case UpsertIngestion(_) => UpsertIngestionKeeps(r, s, env);
    case FinishIngestion(_) => FinishIngestionKeeps(r, s, env);
    case FailIngestion(_) => FailIngestionKeeps(r, s, env);
    case CrashIngestion(_) => CrashIngestionKeeps(r, s, env);
    case CheckRetry(_) => ReadForRetryKeeps(r, s, env);
    case LockRetryRows(_) => ReadForRetryKeeps(r, s, env);
    case FlipRetry(_) => FlipRetryKeeps(r, s, env);
    case InsertRetry(_) => InsertRetryKeeps(r, s, env);
    case RecoverIngestion(_) => RecoverIngestionKeeps(r, s, env);
  }

  lemma SchedulingBase(r: Record, s: ReindexStep, env: Env)
    requires Base(r, env) && EnabledReindex(r, s, env)
    requires s.ReadSource? || s.ReadBuilds? || s.ReadIngestion? || s.ReadDeletions? || s.InsertReindex? || s.DropSchedule?
    ensures Base(ApplyReindex(r, s, env), env)
  {
    match s
    case ReadSource(_, _) => ScheduleKeeps(r, s, env);
    case ReadBuilds(_) => ScheduleKeeps(r, s, env);
    case ReadIngestion(_) => ScheduleKeeps(r, s, env);
    case ReadDeletions(_) => ScheduleKeeps(r, s, env);
    case InsertReindex(_) => InsertReindexKeeps(r, s, env);
    case DropSchedule(_) => ScheduleKeeps(r, s, env);
  }

  lemma BuildBase(r: Record, s: ReindexStep, env: Env)
    requires Base(r, env) && EnabledReindex(r, s, env)
    requires s.ClaimReindex? || s.CheckDeletion? || s.EmbedBuild? || s.UpsertBuild? || s.FinishBuild? || s.FailBuild? || s.CrashBuild?
    ensures Base(ApplyReindex(r, s, env), env)
  {
    match s
    case ClaimReindex(_) => ClaimReindexKeeps(r, s, env);
    case CheckDeletion(_) => CheckDeletionKeeps(r, s, env);
    case EmbedBuild(_, _) => EmbedBuildKeeps(r, s, env);
    case UpsertBuild(_) => UpsertBuildKeeps(r, s, env);
    case FinishBuild(_) => FinishBuildKeeps(r, s, env);
    case FailBuild(_) => FailBuildKeeps(r, s, env);
    case CrashBuild(_) => CrashBuildKeeps(r, s, env);
  }

  lemma ActivationBase(r: Record, s: CutoverStep, env: Env)
    requires Base(r, env) && EnabledCutover(r, s, env)
    requires s.BeginActivation? || s.CommitActivation? || s.AbortActivation?
    ensures Base(ApplyCutover(r, s, env), env)
  {
    match s
    case BeginActivation(_) => HoldActivationKeeps(r, s, env);
    case CommitActivation => CommitActivationKeeps(r, s, env);
    case AbortActivation => HoldActivationKeeps(r, s, env);
  }

  lemma CleanupBase(r: Record, s: CutoverStep, env: Env)
    requires Base(r, env) && EnabledCutover(r, s, env)
    requires s.ClaimCleanup? || s.GuardCleanup? || s.EraseCleanup? || s.FinishCleanup? || s.CrashCleanup?
    ensures Base(ApplyCutover(r, s, env), env)
  {
    match s
    case ClaimCleanup(_, _) => WorkCleanupKeeps(r, s, env);
    case GuardCleanup(_) => WorkCleanupKeeps(r, s, env);
    case EraseCleanup(_, _) => EraseCleanupKeeps(r, s, env);
    case FinishCleanup(_) => FinishCleanupKeeps(r, s, env);
    case CrashCleanup(_) => WorkCleanupKeeps(r, s, env);
  }

  lemma DeletionReadsBase(r: Record, s: DeletionStep, env: Env)
    requires Base(r, env) && Settled(r) && EnabledDeletion(r, s)
    requires s.AskDeletions? || s.AskIngestion? || s.AskReindex? || s.ClaimDeletion? || s.ReadCurrent? || s.ReadCleanups? || s.ReadTargets? || s.CrashDeletion?
    ensures Base(ApplyDeletion(r, s), env)
  {
    match s
    case AskDeletions(_) => LeaveRowsDeletionKeeps(r, s, env);
    case AskIngestion(_) => LeaveRowsDeletionKeeps(r, s, env);
    case AskReindex(_) => LeaveRowsDeletionKeeps(r, s, env);
    case ClaimDeletion(_) => ClaimDeletionKeeps(r, s, env);
    case ReadCurrent(_) => ReadCurrentKeeps(r, s, env);
    case ReadCleanups(_) => ReadCleanupsKeeps(r, s, env);
    case ReadTargets(_) => ReadTargetsKeeps(r, s, env);
    case CrashDeletion(_) => LeaveRowsDeletionKeeps(r, s, env);
  }

  lemma DeletionWritesBase(r: Record, s: DeletionStep, env: Env)
    requires Base(r, env) && EnabledDeletion(r, s) && HarmlessRequest(r, s)
    requires s.InsertDeletion? || s.EraseNext? || s.CommitVectors? || s.FinishDeletion?
    ensures Base(ApplyDeletion(r, s), env)
  {
    match s
    case InsertDeletion(_) => InsertDeletionKeeps(r, s, env);
    case EraseNext(_, _) => EraseNextKeeps(r, s, env);
    case CommitVectors(_) => CommitVectorsKeeps(r, s, env);
    case FinishDeletion(_) => FinishDeletionKeeps(r, s, env);
  }

  /** Rows other documents add to index_collections do not disturb this one. */
  lemma CatalogBase(r: Record, env: Env, catalog: map<Collection, Metadata>)
    requires Base(r, env) && env.catalog.Keys <= catalog.Keys
    ensures Base(r, env.(catalog := catalog))
  {
  }
}
