/** Sequences of segments of one document, and the two recoveries and requests the assumptions rule out:
    what they rule out really does break the deletion guarantee. */
module Continuations {
  import opened Wrappers
  import opened DocumentRecord
  import opened Steps
  import opened Invariant
  import opened Preservation
  import opened Settlement

  datatype Scene = Scene(record: Record, env: Env)

  function After(at: Scene, s: DocStep): Scene
    requires Enabled(at.record, s, at.env)
  {
    Scene(Apply(at.record, s, at.env), NextEnv(at.record, s, at.env))
  }

  /** Running `steps` one after the other; None if one of them cannot run, or breaks an assumption
      although `strict` asks for them. */
  function Play(at: Scene, steps: seq<DocStep>, strict: bool): Option<Scene>
    decreases |steps|
  {
    if steps == [] then Some(at)
    else if Enabled(at.record, steps[0], at.env) && (strict ==> Assumed(at.record, steps[0], at.env)) then
      Play(After(at, steps[0]), steps[1..], strict)
    else None
  }

  ghost predicate Reaches(at: Scene, to: Scene, strict: bool) {
    exists steps :: Play(at, steps, strict) == Some(to)
  }

  lemma {:induction false} PlayAppend(at: Scene, steps: seq<DocStep>, s: DocStep, strict: bool)
    requires Play(at, steps, strict).Some?
    requires var mid := Play(at, steps, strict).value;
             Enabled(mid.record, s, mid.env) && (strict ==> Assumed(mid.record, s, mid.env))
    ensures Play(at, steps + [s], strict) == Some(After(Play(at, steps, strict).value, s))
    decreases |steps|
  {
    if steps == [] {
      assert ([] + [s])[1..] == [];
    } else {
      assert (steps + [s])[1..] == steps[1..] + [s];
      PlayAppend(After(at, steps[0]), steps[1..], s, strict);
    }
  }

  lemma Stay(at: Scene, strict: bool)
    ensures Reaches(at, at, strict)
  {
    assert Play(at, [], strict) == Some(at);
  }

  /** One more segment, whose outcome the caller names. */
  lemma Go(at: Scene, mid: Scene, s: DocStep, to: Scene, strict: bool)
    requires Reaches(at, mid, strict)
    requires Enabled(mid.record, s, mid.env) && (strict ==> Assumed(mid.record, s, mid.env))
    requires to == After(mid, s)
    ensures Reaches(at, to, strict)
  {
    var steps :| Play(at, steps, strict) == Some(mid);
    PlayAppend(at, steps, s, strict);
  }

  lemma {:induction false} PlayOn(at: Scene, first: seq<DocStep>, second: seq<DocStep>, strict: bool)
    requires Play(at, first, strict).Some?
    ensures Play(at, first + second, strict) == Play(Play(at, first, strict).value, second, strict)
    decreases |first|
  {
    if first == [] {
      assert first + second == second;
    } else {
      assert (first + second)[1..] == first[1..] + second;
      PlayOn(After(at, first[0]), first[1..], second, strict);
    }
  }

  lemma ReachesOn(start: Scene, mid: Scene, to: Scene, strict: bool)
    requires Reaches(start, mid, strict) && Reaches(mid, to, strict)
    ensures Reaches(start, to, strict)
  {
    var first :| Play(start, first, strict) == Some(mid);
    var second :| Play(mid, second, strict) == Some(to);
    PlayOn(start, first, second, strict);
  }

  lemma {:induction false} PlayKeeps(at: Scene, steps: seq<DocStep>)
    requires Inv(at.record, at.env) && Play(at, steps, true).Some?
    ensures var to := Play(at, steps, true).value; Inv(to.record, to.env)
    decreases |steps|
  {
    if steps != [] {
      StepKeeps(at.record, steps[0], at.env);
      PlayKeeps(After(at, steps[0]), steps[1..]);
    }
  }

  // ----- an untimely recovery breaks the deletion guarantee -----

  /** The replacement job is claimed and fails before its upsert. */
  lemma FailReplacement(start: Scene, at: Scene) returns (to: Scene)
    requires Reaches(start, at, true)
    requires at.record.ingestion != [] && Last(at.record.ingestion) == PENDING_INGESTION
    ensures Reaches(start, to, true) && to.env == at.env
    ensures to.record == at.record.(ingestion := to.record.ingestion, ingesters := to.record.ingesters)
    ensures |to.record.ingestion| == |at.record.ingestion| && Last(to.record.ingestion).status == Failed
    ensures to.record.ingesters == at.record.ingesters - {|at.record.ingestion| - 1}
  {
    var j := |at.record.ingestion| - 1;
    var claimed := After(at, Ingest(ClaimIngestion(j)));
    Go(start, at, Ingest(ClaimIngestion(j)), claimed, true);
    to := FailClaimed(start, claimed, j);
  }

  lemma FailClaimed(start: Scene, at: Scene, j: nat) returns (to: Scene)
    requires Reaches(start, at, true) && IngesterAt(at.record, j) && at.record.ingesters[j].phase.Reading?
    ensures Reaches(start, to, true) && to.env == at.env
    ensures to.record == at.record.(ingestion := at.record.ingestion[j := at.record.ingestion[j].(status := Failed)],
                                    ingesters := at.record.ingesters - {j})
  {
    to := After(at, Ingest(FailIngestion(j)));
    Go(start, at, Ingest(FailIngestion(j)), to, true);
  }

  /** A deletion request for a document that was never indexed: nothing is tracked, so its worker deletes
      from no collection, deletes the object, and completes. */
  lemma DeleteUntracked(start: Scene, at: Scene) returns (to: Scene)
    requires Reaches(start, at, true)
    requires at.record.collection == None && at.record.activating == None
    requires at.record.deletion == [] && at.record.deleters == map[]
    requires at.record.cleanup == [] && at.record.reindex == []
    requires !IngestionActive(at.record.ingestion)
    ensures Reaches(start, to, true)
    ensures DeletionDone(to.record.deletion) && to.record.points == at.record.points && to.record.hash == None
    ensures to.record.deletion != [] && Last(to.record.deletion).status == DeletionCompleted
  {
    var requested, q := RequestOnce(start, at);
    var r0 := requested.record;
    var r1 := r0.(deletion := [PENDING_DELETION], requests := r0.requests - {q});
    Go(start, requested, Delete(InsertDeletion(q)), Scene(r1, at.env), true);
    var read := ReadAll(start, Scene(r1, at.env), 0, true);
    assert Attempts(r1) == [];
    to := FinishJob(start, read, 0, false, true);
    assert to.record.deletion[0].status == DeletionCompleted;
  }

  /** A request past its checks, either one already waiting or a new one. */
  lemma RequestOnce(start: Scene, at: Scene) returns (to: Scene, q: nat)
    requires Reaches(start, at, true) && DeletionDecision(at.record) == DeletionCreated
    ensures Reaches(start, to, true) && to.env == at.env
    ensures to.record == at.record.(requests := to.record.requests, asking := to.record.asking) && q in to.record.requests
  {
    if at.record.requests != {} {
      q :| q in at.record.requests;
      to := at;
    } else {
      q := Above(at.record.asking.Keys);
      var asked := After(at, Delete(AskDeletions(q)));
      Go(start, at, Delete(AskDeletions(q)), asked, true);
      var quiet := After(asked, Delete(AskIngestion(q)));
      Go(start, asked, Delete(AskIngestion(q)), quiet, true);
      to := After(quiet, Delete(AskReindex(q)));
      Go(start, quiet, Delete(AskReindex(q)), to, true);
    }
  }

  /** An id above all those in use. */
  lemma {:induction false} Above(keys: set<nat>) returns (q: nat)
    ensures forall k :: k in keys ==> k < q
    decreases |keys|
  {
    q := 0;
    if keys != {} {
      var k :| k in keys;
      var rest := Above(keys - {k});
      q := if k < rest then rest else k + 1;
      assert keys == (keys - {k}) + {k};
    }
  }

  function Current(collection: Option<Collection>): seq<Collection> {
    if collection.Some? then [collection.value] else []
  }

  /** What full deletion attempts: the three reads, in order, without duplicates. */
  function Attempts(r: Record): seq<Collection> {
    AppendNew(AppendNew(Current(r.collection), OpenCleanupCollections(r.cleanup)), CompletedTargets(r.reindex))
  }

  lemma ClaimAndReadCurrent(start: Scene, at: Scene, j: nat, strict: bool) returns (to: Scene)
    requires Reaches(start, at, strict) && j < |at.record.deletion| && at.record.deletion[j].status == DeletionPending
    ensures Reaches(start, to, strict) && to.env == at.env
    ensures to.record == at.record.(deletion := at.record.deletion[j := at.record.deletion[j].(status := DeletionProcessing)],
                                    deleters := at.record.deleters[j := CurrentRead(Current(at.record.collection))])
  {
    var claimed := After(at, Delete(ClaimDeletion(j)));
    Go(start, at, Delete(ClaimDeletion(j)), claimed, strict);
    to := After(claimed, Delete(ReadCurrent(j)));
    Go(start, claimed, Delete(ReadCurrent(j)), to, strict);
    assert claimed.record.deleters[j := to.record.deleters[j]] == at.record.deleters[j := to.record.deleters[j]];
  }

  lemma ReadOpenCleanups(start: Scene, at: Scene, j: nat, strict: bool) returns (to: Scene)
    requires Reaches(start, at, strict) && DeleterAt(at.record, j) && at.record.deleters[j].CurrentRead?
    ensures Reaches(start, to, strict) && to.env == at.env
    ensures to.record == at.record.(deleters := at.record.deleters[j :=
              CleanupsRead(AppendNew(at.record.deleters[j].attempts, OpenCleanupCollections(at.record.cleanup)))])
  {
    to := After(at, Delete(ReadCleanups(j)));
    Go(start, at, Delete(ReadCleanups(j)), to, strict);
  }

  lemma ReadBuiltTargets(start: Scene, at: Scene, j: nat, strict: bool) returns (to: Scene)
    requires Reaches(start, at, strict) && DeleterAt(at.record, j) && at.record.deleters[j].CleanupsRead?
    ensures Reaches(start, to, strict) && to.env == at.env
    ensures to.record == at.record.(deleters := at.record.deleters[j :=
              Deleting(AppendNew(at.record.deleters[j].attempts, CompletedTargets(at.record.reindex)), 0, false)])
  {
    to := After(at, Delete(ReadTargets(j)));
    Go(start, at, Delete(ReadTargets(j)), to, strict);
  }

  /** The deletion worker's claim and three reads. */
  lemma ReadAll(start: Scene, at: Scene, j: nat, strict: bool) returns (to: Scene)
    requires Reaches(start, at, strict) && j < |at.record.deletion| && at.record.deletion[j].status == DeletionPending
    ensures Reaches(start, to, strict) && to.env == at.env
    ensures to.record == at.record.(deletion := at.record.deletion[j := at.record.deletion[j].(status := DeletionProcessing)],
                                    deleters := at.record.deleters[j := Deleting(Attempts(at.record), 0, false)])
  {
    var current := ClaimAndReadCurrent(start, at, j, strict);
    var cleanups := ReadOpenCleanups(start, current, j, strict);
    Overwritten(at.record.deleters, j, current.record.deleters[j], cleanups.record.deleters[j]);
    to := ReadBuiltTargets(start, cleanups, j, strict);
    Overwritten(at.record.deleters, j, cleanups.record.deleters[j], to.record.deleters[j]);
  }

  lemma Overwritten<K, V>(m: map<K, V>, k: K, a: V, b: V)
    ensures m[k := a][k := b] == m[k := b]
  {
  }

  /** From a finished list of deletes, none of which failed, past the commit and the object's delete. */
  lemma FinishVectors(start: Scene, at: Scene, j: nat, objectFails: bool, strict: bool) returns (to: Scene)
    requires Reaches(start, at, strict) && DeleterAt(at.record, j)
    requires at.record.deleters[j].Deleting? && at.record.deleters[j].next == |at.record.deleters[j].attempts|
    requires !at.record.deleters[j].failed
    ensures Reaches(start, to, strict) && to.env == at.env.(stored := at.env.stored && objectFails)
    ensures to.record == at.record.(deletion := at.record.deletion[j := at.record.deletion[j].(vectorsCleaned := true)],
                                    deleters := at.record.deleters[j := if objectFails then ObjectKept else ObjectGone])
  {
    var gone := After(at, Delete(CommitVectors(j)));
    Go(start, at, Delete(CommitVectors(j)), gone, strict);
    to := After(gone, Delete(DeleteObject(j, !objectFails)));
    Go(start, gone, Delete(DeleteObject(j, !objectFails)), to, strict);
    assert gone.record.deleters[j := to.record.deleters[j]] == at.record.deleters[j := to.record.deleters[j]];
  }

  /** From a finished list of deletes, none of which failed, to the resolved job. */
  lemma FinishJob(start: Scene, at: Scene, j: nat, objectFails: bool, strict: bool) returns (to: Scene)
    requires Reaches(start, at, strict) && DeleterAt(at.record, j) && at.record.activating == None
    requires at.record.deleters[j].Deleting? && at.record.deleters[j].next == |at.record.deleters[j].attempts|
    requires !at.record.deleters[j].failed
    ensures Reaches(start, to, strict) && to.env == at.env.(stored := at.env.stored && objectFails)
    ensures var resolved := if objectFails then at.record.deletion[j].(status := DeletionPartiallyFailed, vectorsCleaned := true)
                            else DeletionJob(DeletionCompleted, true, true);
            to.record == at.record.(deletion := at.record.deletion[j := resolved],
                                    hash := if objectFails then at.record.hash else None,
                                    deleters := at.record.deleters - {j})
  {
    var deleted := FinishVectors(start, at, j, objectFails, strict);
    assert deleted.record.deleters - {j} == at.record.deleters - {j};
    to := ResolveJob(start, deleted, j, strict);
  }

  lemma ResolveJob(start: Scene, at: Scene, j: nat, strict: bool) returns (to: Scene)
    requires Reaches(start, at, strict) && DeleterAt(at.record, j) && at.record.activating == None
    requires at.record.deleters[j].ObjectKept? || at.record.deleters[j].ObjectGone?
    ensures Reaches(start, to, strict) && to.env == at.env
    ensures var gone := at.record.deleters[j].ObjectGone?;
            to.record == at.record.(deletion := at.record.deletion[j := AfterObject(at.record.deletion[j], gone)],
                                    hash := if gone then None else at.record.hash,
                                    deleters := at.record.deleters - {j})
  {
    to := After(at, Delete(FinishDeletion(j)));
    Go(start, at, Delete(FinishDeletion(j)), to, strict);
  }

  /** A live worker whose job was recovered carries on and upserts. */
  lemma FinishUpsert(start: Scene, at: Scene, j: nat) returns (to: Scene)
    requires Reaches(start, at, true)
    requires IngesterAt(at.record, j) && !at.record.ingesters[j].phase.Upserted?
    requires at.env.stored
    requires at.record.ingesters[j].phase.Embedded? ==> at.record.ingesters[j].phase.count >= 1
    ensures Reaches(start, to, true)
    ensures to.record == at.record.(points := to.record.points, ingesters := to.record.ingesters)
    ensures exists c :: Held(to.record.points, c)
  {
    var mid := at;
    if at.record.ingesters[j].phase.Reading? {
      mid := After(at, Ingest(EmbedDocument(j, 0, 0, 1)));
      Go(start, at, Ingest(EmbedDocument(j, 0, 0, 1)), mid, true);
    }
    to := After(mid, Ingest(UpsertIngestion(j)));
    Go(start, mid, Ingest(UpsertIngestion(j)), to, true);
    var p := mid.record.ingesters[j].phase;
    UpsertHolds(mid.record.points, p.target, p.count);
    assert Held(to.record.points, p.target);
  }

  /** Recovery, or retry's stale flip, of a PROCESSING row. */
  predicate FlipsRow(s: IngestionStep) {
    s.RecoverIngestion? || s.FlipRetry?
  }

  /** What the invariant says of a stored document whose latest ingestion row is PROCESSING. */
  lemma ProcessingFacts(r: Record, env: Env)
    requires Inv(r, env) && env.stored && Last(r.ingestion).status == Processing
    ensures r.collection == None && r.activating == None && r.cleanup == [] && r.reindex == []
    ensures r.deletion == [] && r.deleters == map[]
    ensures |r.ingestion| - 1 in r.ingesters
    ensures r.ingesters[|r.ingestion| - 1].phase.Upserted? ==> Held(r.points, r.ingesters[|r.ingestion| - 1].phase.target)
  {
  }

  /** A flip that is not timely leads, by segments that all respect the assumptions, to a completed deletion
      that leaves points behind. */
  lemma UntimelyFlipLeavesPoints(r: Record, env: Env, s: IngestionStep) returns (to: Scene)
    requires Inv(r, env) && EnabledIngestion(r, s, env) && FlipsRow(s) && !TimelyRecovery(r, s, env)
    ensures Reaches(Scene(ApplyIngestion(r, s, env), env), to, true)
    ensures DeletionDone(to.record.deletion) && !Empty(to.record.points)
  {
    ProcessingFacts(r, env);
    var j := |r.ingestion| - 1;
    var start := Scene(ApplyIngestion(r, s, env), env);
    assert start.record == r.(ingestion := Recovered(r.ingestion, j), retriers := start.record.retriers);
    Stay(start, true);
    var at := start;
    if !r.ingesters[j].phase.Upserted? {
      at := FinishUpsert(start, start, j);
    }
    assert !Empty(at.record.points);
    at := FailReplacement(start, at);
    to := DeleteUntracked(start, at);
  }

  lemma TimelyFlipKeepsGuarantee(r: Record, env: Env, s: IngestionStep, to: Scene)
    requires Inv(r, env) && EnabledIngestion(r, s, env) && TimelyRecovery(r, s, env)
    requires Reaches(Scene(ApplyIngestion(r, s, env), env), to, true) && DeletionDone(to.record.deletion)
    requires FlipsRow(s)
    ensures Empty(to.record.points)
  {
    IngestionKeeps(r, s, env);
    var start := Scene(ApplyIngestion(r, s, env), env);
    var steps :| Play(start, steps, true) == Some(to);
    PlayKeeps(start, steps);
    DoneMeansEmpty(to.record, to.env);
  }

  lemma DoneMeansEmpty(r: Record, env: Env)
    requires Inv(r, env) && DeletionDone(r.deletion)
    ensures Empty(r.points)
  {
  }

  /** Flipping a PROCESSING row keeps the deletion guarantee in every continuation if and only if the row's
      worker is dead and died before its upsert, or the object is gone. */
  lemma TimelyRecoveryIsExact(r: Record, env: Env, s: IngestionStep)
    requires Inv(r, env) && EnabledIngestion(r, s, env) && FlipsRow(s)
    ensures TimelyRecovery(r, s, env) <==>
            forall to :: Reaches(Scene(ApplyIngestion(r, s, env), env), to, true) && DeletionDone(to.record.deletion)
                         ==> Empty(to.record.points)
  {
    var start := Scene(ApplyIngestion(r, s, env), env);
    if TimelyRecovery(r, s, env) {
      forall to | Reaches(start, to, true) && DeletionDone(to.record.deletion) ensures Empty(to.record.points) {
        TimelyFlipKeepsGuarantee(r, env, s, to);
      }
    } else {
      var to := UntimelyFlipLeavesPoints(r, env, s);
    }
  }
}
