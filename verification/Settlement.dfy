/** The rest of the invariant: once a deletion row exists, no collection with points is ever lost sight of.
    With it every segment keeps the whole invariant. */
module Settlement {
  import opened DocumentRecord
  import opened Steps
  import opened Frames
  import opened Invariant
  import opened Preservation

  // ----- what is tracked before the first deletion row is durable too -----

  lemma BuilderIsActive(r: Record, env: Env, j: nat)
    requires Base(r, env) && j in r.builders
    ensures ReindexActive(r.reindex)
  {
    assert ActiveJob(r.reindex[j].status);
  }

  lemma NothingBuilds(r: Record, env: Env)
    requires Base(r, env) && !ReindexActive(r.reindex)
    ensures r.builders == map[]
  {
    if j :| j in r.builders {
      BuilderIsActive(r, env, j);
    }
  }

  /** Points not written by an unresolved job are where the deletion worker will find them. */
  lemma HeldIsDurable(r: Record, env: Env, c: Collection)
    requires Base(r, env) && Held(r.points, c)
    requires !BuiltTarget(r.reindex, r.builders, c) && !IngestedInto(r.ingestion, r.ingesters, c)
    ensures Durable(r, c)
  {
    assert Accounted(r, c);
    if r.collection.None? || r.collection.value != c {
      if OpenCleanup(r.cleanup, c) && !CompletedTarget(r.reindex, c) {
        var k :| 0 <= k < |r.cleanup| && OpenRow(r.cleanup[k]) && r.cleanup[k].collection == c;
        assert Pinned(r.cleanup, r.cleaners, k) by {
          assert !BuildAccounted(r.reindex, r.builders, c);
          assert Swept(r.cleanup, r.cleaners, r.reindex, r.builders, r.points);
        }
      }
    }
  }

  /** Under the invariant an atomic request is harmless. */
  lemma AtomicIsHarmless(r: Record, s: DeletionStep, env: Env)
    requires Inv(r, env) && AtomicRequest(r, s)
    ensures HarmlessRequest(r, s)
  {
    if s.InsertDeletion? && r.deletion == [] {
      NothingBuilds(r, env);
      forall c | c in r.points && Held(r.points, c) ensures Durable(r, c) {
        HeldIsDurable(r, env, c);
      }
    }
  }

  // ----- it stays durable -----

  lemma IngestionSettles(r: Record, s: IngestionStep, env: Env)
    requires Base(r, env) && Settled(r) && EnabledIngestion(r, s, env)
    ensures Settled(ApplyIngestion(r, s, env))
  {
    IngestionFrame(r, s, env);
    if r.deletion != [] {
      assert !s.UpsertIngestion? && !s.FinishIngestion? by {
        assert Quiet(r.deletion, r.ingestion, r.ingesters, r.builders, env.stored);
      }
    }
  }

  lemma ReindexSettles(r: Record, s: ReindexStep, env: Env)
    requires Base(r, env) && Settled(r) && EnabledReindex(r, s, env)
    ensures Settled(ApplyReindex(r, s, env))
  {
    ReindexFrame(r, s, env);
    TargetsStay(r, s, env);
    if r.deletion != [] {
      assert !s.UpsertBuild? by {
        assert Quiet(r.deletion, r.ingestion, r.ingesters, r.builders, env.stored);
      }
    }
  }

  lemma TargetsStay(r: Record, s: ReindexStep, env: Env)
    requires Builders(r.reindex, r.builders) && EnabledReindex(r, s, env)
    ensures forall c :: CompletedTarget(r.reindex, c) ==> CompletedTarget(ApplyReindex(r, s, env).reindex, c)
  {
    var after := ApplyReindex(r, s, env).reindex;
    assert forall j :: 0 <= j < |r.reindex| && r.reindex[j].status == Completed ==> after[j] == r.reindex[j];
    KeepsTargets(r.reindex, after);
  }

  lemma CommitSettles(r: Record, s: CutoverStep, env: Env)
    requires Base(r, env) && Settled(r) && s.CommitActivation? && EnabledCutover(r, s, env)
    ensures Settled(ApplyCutover(r, s, env))
  {
    var r' := ApplyCutover(r, s, env);
    var job := r.reindex[r.activating.value];
    KeepsTargets(r.reindex, r'.reindex);
    KeepsPinned(r.cleanup, r.cleaners, r'.cleanup, r'.cleaners);
    assert Pinned(r'.cleanup, r'.cleaners, |r.cleanup|) && r'.cleanup[|r.cleanup|].collection == job.source;
  }

  lemma EraseSettles(r: Record, s: CutoverStep, env: Env)
    requires Base(r, env) && Settled(r) && s.EraseCleanup? && EnabledCutover(r, s, env)
    ensures Settled(ApplyCutover(r, s, env))
  {
    ErasePins(r, s, env);
  }

  lemma CutoverSettles(r: Record, s: CutoverStep, env: Env)
    requires Base(r, env) && Settled(r) && EnabledCutover(r, s, env)
    ensures Settled(ApplyCutover(r, s, env))
  {
    CutoverFrame(r, s, env);
    var r' := ApplyCutover(r, s, env);
    match s
    case CommitActivation => CommitSettles(r, s, env);
    case EraseCleanup(_, _) => EraseSettles(r, s, env);
    case FinishCleanup(_) => FinishCleanupPins(r, s, env);
    case _ => KeepsPinned(r.cleanup, r.cleaners, r'.cleanup, r'.cleaners);
  }

  lemma DeletionSettles(r: Record, s: DeletionStep, env: Env)
    requires Base(r, env) && Settled(r) && EnabledDeletion(r, s) && HarmlessRequest(r, s)
    ensures Settled(ApplyDeletion(r, s))
  {
    DeletionFrame(r, s);
    if s.EraseNext? {
      EraseHolds(r.points, r.deleters[s.job].attempts[r.deleters[s.job].next]);
    }
  }

  // ----- all segments -----

  lemma IngestionKeeps(r: Record, s: IngestionStep, env: Env)
    requires Inv(r, env) && EnabledIngestion(r, s, env) && TimelyRecovery(r, s, env) && HarmlessRetry(r, s, env)
    ensures Inv(ApplyIngestion(r, s, env), NextEnv(r, Ingest(s), env))
  {
    IngestionBase(r, s, env);
    IngestionSettles(r, s, env);
  }

  lemma ReindexKeeps(r: Record, s: ReindexStep, env: Env)
    requires Inv(r, env) && EnabledReindex(r, s, env)
    ensures Inv(ApplyReindex(r, s, env), NextEnv(r, Reindex(s), env))
  {
    if s.EnsureTarget? {
      EnsureTargetKeeps(r, s, env);
    } else {
      assert NextEnv(r, Reindex(s), env) == env;
      if s.ReadSource? || s.ReadBuilds? || s.ReadIngestion? || s.ReadDeletions? || s.InsertReindex? || s.DropSchedule? {
        SchedulingBase(r, s, env);
      } else {
        BuildBase(r, s, env);
      }
    }
    ReindexSettles(r, s, env);
  }

  lemma CutoverKeeps(r: Record, s: CutoverStep, env: Env)
    requires Inv(r, env) && EnabledCutover(r, s, env)
    ensures Inv(ApplyCutover(r, s, env), env)
  {
    if s.BeginActivation? || s.CommitActivation? || s.AbortActivation? {
      ActivationBase(r, s, env);
    } else {
      CleanupBase(r, s, env);
    }
    CutoverSettles(r, s, env);
  }

  lemma DeletionKeeps(r: Record, s: DeletionStep, env: Env)
    requires Inv(r, env) && EnabledDeletion(r, s) && (AtomicRequest(r, s) || HarmlessRequest(r, s))
    ensures Inv(ApplyDeletion(r, s), NextEnv(r, Delete(s), env))
  {
    if AtomicRequest(r, s) {
      AtomicIsHarmless(r, s, env);
    }
    if s.DeleteObject? {
      DeleteObjectKeeps(r, s, env);
    } else {
      assert NextEnv(r, Delete(s), env) == env;
      if s.InsertDeletion? || s.EraseNext? || s.CommitVectors? || s.FinishDeletion? {
        DeletionWritesBase(r, s, env);
      } else {
        DeletionReadsBase(r, s, env);
      }
    }
    DeletionSettles(r, s, env);
  }

  /** The invariant survives every enabled segment of every request and worker. */
  lemma StepKeeps(r: Record, s: DocStep, env: Env)
    requires Inv(r, env) && Enabled(r, s, env) && Assumed(r, s, env)
    ensures Inv(Apply(r, s, env), NextEnv(r, s, env))
  {
    match s
    case Ingest(i) => IngestionKeeps(r, i, env);
    case Reindex(i) => ReindexKeeps(r, i, env);
    case Cutover(i) =>
      assert NextEnv(r, s, env) == env;
      CutoverKeeps(r, i, env);
    case Delete(i) => DeletionKeeps(r, i, env);
  }

  /** Rows other documents add to index_collections do not disturb this one. */
  lemma CatalogGrows(r: Record, env: Env, catalog: map<Collection, Metadata>)
    requires Inv(r, env) && env.catalog.Keys <= catalog.Keys
    ensures Inv(r, env.(catalog := catalog))
  {
    CatalogBase(r, env, catalog);
  }
}
