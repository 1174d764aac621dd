/** The promises of the document lifecycle, over every run of the whole system. */
module Guarantees {
  import opened Wrappers
  import opened DocumentRecord
  import opened Steps
  import opened Frames
  import opened Invariant
  import opened Preservation
  import opened Catalogue

  // ----- deletion is complete and permanent -----

  /** Nothing of the document is left outside its rows. */
  ghost predicate Gone(s: System, d: nat) {
    && d < |s.docs|
    && (forall c :: PointsIn(s.docs[d].points, c) == {})
    && s.docs[d].key !in s.storage
    && s.docs[d].hash == None
  }

  predicate DoneAt(s: System, d: nat, k: nat) {
    d < |s.docs| && k < |s.docs[d].deletion| && s.docs[d].deletion[k].status == DeletionCompleted
  }

  lemma DoneMeansGone(s: System, d: nat, k: nat)
    requires DoneAt(s, d, k) && Inv(s.docs[d], EnvOf(s, d))
    ensures Gone(s, d) && s.docs[d].deletion[k] == DeletionJob(DeletionCompleted, true, true)
  {
    forall c ensures PointsIn(s.docs[d].points, c) == {} {
      assert !Held(s.docs[d].points, c);
    }
  }

  /** A completed deletion row never changes; if it is the latest one, and requests are atomic, no further
      deletion row is ever added either. */
  lemma DoneStaysDone(r: Record, s: DocStep, env: Env, k: nat)
    requires DeletionRows(r.deletion) && Deleters(r.deletion, r.deleters) && Enabled(r, s, env)
    requires k < |r.deletion| && r.deletion[k].status == DeletionCompleted
    ensures k < |Apply(r, s, env).deletion| && Apply(r, s, env).deletion[k] == r.deletion[k]
    ensures k == |r.deletion| - 1 && (s.Delete? ==> AtomicRequest(r, s.delete)) ==> Apply(r, s, env).deletion == r.deletion
  {
    match s
    case Ingest(i) => IngestionFrame(r, i, env);
    case Reindex(i) => ReindexFrame(r, i, env);
    case Cutover(i) => CutoverFrame(r, i, env);
    case Delete(i) => DoneStaysInDeletion(r, i, k);
  }

  lemma DoneStaysInDeletion(r: Record, s: DeletionStep, k: nat)
    requires DeletionRows(r.deletion) && Deleters(r.deletion, r.deleters) && EnabledDeletion(r, s)
    requires k < |r.deletion| && r.deletion[k].status == DeletionCompleted
    ensures k < |ApplyDeletion(r, s).deletion| && ApplyDeletion(r, s).deletion[k] == r.deletion[k]
    ensures k == |r.deletion| - 1 && AtomicRequest(r, s) ==> ApplyDeletion(r, s).deletion == r.deletion
  {
    if s.InsertDeletion? {
      if DeletionDecision(r) == AlreadyActive {
        assert DeletionActive(r.deletion);
      }
    } else {
      DoneRowKept(r, s, k);
    }
  }

  /** Apart from an insert, deletion segments change rows that are PENDING or PROCESSING only. */
  lemma DoneRowKept(r: Record, s: DeletionStep, k: nat)
    requires DeletionRows(r.deletion) && Deleters(r.deletion, r.deleters) && EnabledDeletion(r, s) && !s.InsertDeletion?
    requires k < |r.deletion| && r.deletion[k].status == DeletionCompleted
    ensures k < |ApplyDeletion(r, s).deletion| && ApplyDeletion(r, s).deletion[k] == r.deletion[k]
    ensures k == |r.deletion| - 1 ==> ApplyDeletion(r, s).deletion == r.deletion
  {
  }

  lemma DoneSurvivesStep(s: System, step: Step, d: nat, k: nat)
    requires CanStep(s, step) && DoneAt(s, d, k) && Inv(s.docs[d], EnvOf(s, d))
    ensures DoneAt(Next(s, step), d, k)
  {
    if step.Touch? && step.doc == d {
      DoneStaysDone(s.docs[d], step.step, EnvOf(s, d), k);
    }
  }

  lemma {:induction false} DoneAlongRun(states: seq<System>, steps: seq<Step>, i: nat, j: nat, d: nat, k: nat)
    requires Run(states, steps) && i <= j < |states| && DoneAt(states[i], d, k)
    ensures DoneAt(states[j], d, k)
    decreases j
  {
    if i < j {
      DoneAlongRun(states, steps, i, j - 1, d, k);
      RunInv(states, steps, j - 1, d);
      assert StepAt(states, steps, j - 1);
      DoneSurvivesStep(states[j - 1], steps[j - 1], d, k);
    }
  }

  /** Once a deletion job of a document has completed, that row keeps both its flags, and nothing of the
      document is left in that state or in any later one, whatever the other requests and workers do. */
  lemma DeletionIsPermanent(states: seq<System>, steps: seq<Step>, i: nat, j: nat, d: nat, k: nat)
    requires Run(states, steps) && i <= j < |states| && DoneAt(states[i], d, k)
    ensures Gone(states[j], d)
    ensures k < |states[j].docs[d].deletion| && states[j].docs[d].deletion[k] == DeletionJob(DeletionCompleted, true, true)
  {
    DoneAlongRun(states, steps, i, j, d, k);
    RunInv(states, steps, j, d);
    DoneMeansGone(states[j], d, k);
  }

  // ----- no points are ever lost track of -----

  /** In every reachable state a collection holding a document's points is the current one, has an open
      cleanup row, is the target of a completed re-index job, or is being written by a PROCESSING job. */
  lemma PointsAreTracked(states: seq<System>, steps: seq<Step>, i: nat, d: nat, c: Collection)
    requires Run(states, steps) && i < |states| && d < |states[i].docs|
    requires PointsIn(states[i].docs[d].points, c) != {}
    ensures var r := states[i].docs[d];
            || r.collection == Some(c)
            || (exists k :: 0 <= k < |r.cleanup| && r.cleanup[k].collection == c && r.cleanup[k].status != CleanupCompleted)
            || (exists k :: 0 <= k < |r.reindex| && r.reindex[k].target == c && r.reindex[k].status == Completed)
            || (exists k :: 0 <= k < |r.reindex| && r.reindex[k].target == c && r.reindex[k].status == Processing
                            && k in r.builders && r.builders[k].phase.Built?)
            || (exists k :: 0 <= k < |r.ingestion| && r.ingestion[k].status == Processing
                            && k in r.ingesters && r.ingesters[k].phase.Upserted? && r.ingesters[k].phase.target == c)
  {
    RunInv(states, steps, i, d);
    var r := states[i].docs[d];
    assert Held(r.points, c);
    if OpenCleanup(r.cleanup, c) {
      var k :| 0 <= k < |r.cleanup| && OpenRow(r.cleanup[k]) && r.cleanup[k].collection == c;
    }
  }

  /** With a deletion row present the tracked collections alone cover everything. */
  lemma DeletionSeesEverything(r: Record, env: Env, c: Collection)
    requires Inv(r, env) && r.deletion != [] && Held(r.points, c)
    ensures Tracked(r, c)
  {
  }

  /** Activation moves the document without changing the set of tracked collections at all. */
  lemma ActivationKeepsTracked(r: Record, env: Env, c: Collection)
    requires Inv(r, env) && EnabledCutover(r, CommitActivation, env)
    ensures Tracked(ApplyCutover(r, CommitActivation, env), c) <==> Tracked(r, c)
  {
    var r' := ApplyCutover(r, CommitActivation, env);
    var job := r.reindex[r.activating.value];
    KeepsTargets(r.reindex, r'.reindex);
    KeepsTargets(r'.reindex, r.reindex);
    KeepsOpen(r.cleanup, r'.cleanup);
    assert OpenRow(r'.cleanup[|r.cleanup|]);
    assert OpenCleanup(r'.cleanup, job.source) && CompletedTarget(r.reindex, job.target);
    if OpenCleanup(r'.cleanup, c) && !OpenCleanup(r.cleanup, c) {
      var k :| 0 <= k < |r'.cleanup| && OpenRow(r'.cleanup[k]) && r'.cleanup[k].collection == c;
      assert k == |r.cleanup|;
    }
  }

  /** When the deletion worker has made its three reads, with activations and cleanups interleaved, its
      list has no duplicates and covers every collection that still holds the document's points. */
  lemma AttemptsCoverEverything(states: seq<System>, steps: seq<Step>, i: nat, d: nat, j: nat)
    requires Run(states, steps) && i < |states| && d < |states[i].docs|
    requires j in states[i].docs[d].deleters && states[i].docs[d].deleters[j].Deleting?
    ensures var r := states[i].docs[d];
            && Distinct(r.deleters[j].attempts)
            && (forall c :: PointsIn(r.points, c) != {} ==> c in r.deleters[j].attempts)
  {
    RunInv(states, steps, i, d);
    var r := states[i].docs[d];
    forall c | PointsIn(r.points, c) != {} ensures c in r.deleters[j].attempts {
      assert Held(r.points, c);
    }
  }

  // ----- nothing is written after a deletion request -----

  /** After the first deletion request no segment adds a point: every collection's points only shrink. */
  lemma DeletionStopsWrites(r: Record, s: DocStep, env: Env, c: Collection)
    requires Inv(r, env) && Enabled(r, s, env) && r.deletion != []
    ensures PointsIn(Apply(r, s, env).points, c) <= PointsIn(r.points, c)
  {
    match s
    case Ingest(i) => IngestionFrame(r, i, env);
    case Reindex(i) => ReindexFrame(r, i, env);
    case Cutover(i) => CutoverFrame(r, i, env);
    case Delete(i) => DeletionFrame(r, i);
  }

  // ----- one active job per table -----

  ghost predicate OneActive(r: Record) {
    && (forall i, j :: 0 <= i < |r.ingestion| && 0 <= j < |r.ingestion| && ActiveJob(r.ingestion[i].status) && ActiveJob(r.ingestion[j].status) ==> i == j)
    && (forall i, j :: 0 <= i < |r.reindex| && 0 <= j < |r.reindex| && ActiveJob(r.reindex[i].status) && ActiveJob(r.reindex[j].status) ==> i == j)
    && (forall i, j :: 0 <= i < |r.deletion| && 0 <= j < |r.deletion| && ActiveDeletion(r.deletion[i].status) && ActiveDeletion(r.deletion[j].status) ==> i == j)
  }

  /** The three partial unique indexes hold in every reachable state, and the active ingestion row is the
      document's latest one. Recovery inserts without consulting the index, so its flip-and-insert commit
      never violates it. */
  lemma OneActivePerTable(states: seq<System>, steps: seq<Step>, i: nat, d: nat)
    requires Run(states, steps) && i < |states| && d < |states[i].docs|
    ensures OneActive(states[i].docs[d])
    ensures var rows := states[i].docs[d].ingestion;
            forall k :: 0 <= k < |rows| && ActiveJob(rows[k].status) ==> k == |rows| - 1
  {
    RunInv(states, steps, i, d);
  }

  // ----- the cutover history is a path -----

  function Sources(reindex: seq<ReindexJob>, jobs: seq<nat>): seq<Collection>
    requires forall k :: 0 <= k < |jobs| ==> jobs[k] < |reindex|
  {
    seq(|jobs|, k requires 0 <= k < |jobs| => reindex[jobs[k]].source)
  }

  function CleanupCollections(cleanup: seq<CleanupJob>): seq<Collection> {
    seq(|cleanup|, k requires 0 <= k < |cleanup| => cleanup[k].collection)
  }

  /** Each activation starts where the previous one ended, no job activates twice, the document serves the
      last target, and the cleanup rows are exactly the sources left behind, in order. */
  lemma CutoversFormPath(r: Record, env: Env)
    requires Inv(r, env) && r.collection.Some?
    ensures forall k :: 0 <= k < |r.activations| ==> r.activations[k] < |r.reindex|
    ensures Distinct(r.activations)
    ensures forall j: nat :: j in r.activations <==> j < |r.reindex| && r.reindex[j].activated
    ensures forall k :: 0 <= k < |r.activations| - 1 ==>
              r.reindex[r.activations[k]].target == r.reindex[r.activations[k + 1]].source
    ensures r.activations != [] ==> r.collection == Some(r.reindex[Last(r.activations)].target)
    ensures r.activations != [] ==> r.served != [] && r.reindex[r.activations[0]].source == r.served[0]
    ensures Sources(r.reindex, r.activations) == CleanupCollections(r.cleanup)
  {
    forall k | 0 <= k < |r.activations| ensures Moved(r.served, r.activations[k], r.reindex, k) {
    }
    assert forall j: nat :: j in r.activations ==> j < |r.reindex| && r.reindex[j].activated;
  }

  lemma CutoverHistory(states: seq<System>, steps: seq<Step>, i: nat, d: nat)
    requires Run(states, steps) && i < |states| && d < |states[i].docs| && states[i].docs[d].collection.Some?
    ensures var r := states[i].docs[d];
            && (forall k :: 0 <= k < |r.activations| ==> r.activations[k] < |r.reindex|)
            && multiset(Sources(r.reindex, r.activations)) == multiset(CleanupCollections(r.cleanup))
            && (r.activations != [] ==> r.collection == Some(r.reindex[Last(r.activations)].target))
  {
    RunInv(states, steps, i, d);
    var r := states[i].docs[d];
    CutoversFormPath(r, EnvOf(states[i], d));
  }

  /** The first collection served is the one ingestion stored, and history is never rewritten. */
  lemma HistoryOnlyGrows(r: Record, s: DocStep, env: Env)
    requires Inv(r, env) && Enabled(r, s, env)
    ensures r.served <= Apply(r, s, env).served && r.activations <= Apply(r, s, env).activations
    ensures s.Ingest? && s.ingest.FinishIngestion? ==>
              Apply(r, s, env).served == [r.ingesters[s.ingest.job].phase.target]
              && Apply(r, s, env).collection == Some(r.ingesters[s.ingest.job].phase.target)
  {
    match s
    case Ingest(i) => IngestionFrame(r, i, env);
    case Reindex(i) => ReindexFrame(r, i, env);
    case Cutover(i) => CutoverFrame(r, i, env);
    case Delete(i) => DeletionFrame(r, i);
  }

  // ----- the registry of collections -----

  lemma RegistryThroughStep(s: System, step: Step, c: Collection)
    requires CanStep(s, step) && c in s.catalog
    ensures c in Next(s, step).catalog && Next(s, step).catalog[c] == s.catalog[c]
  {
  }

  /** A collection's registered configuration never changes, whoever ensures the collection again and under
      whatever settings; and every collection a document serves from is registered. */
  lemma {:induction false} RegistryIsStable(states: seq<System>, steps: seq<Step>, i: nat, j: nat, c: Collection)
    requires Run(states, steps) && i <= j < |states| && c in states[i].catalog
    ensures c in states[j].catalog && states[j].catalog[c] == states[i].catalog[c]
    decreases j
  {
    if i < j {
      RegistryIsStable(states, steps, i, j - 1, c);
      assert StepAt(states, steps, j - 1);
      RegistryThroughStep(states[j - 1], steps[j - 1], c);
    }
  }

  lemma ServedIsRegistered(states: seq<System>, steps: seq<Step>, i: nat, d: nat)
    requires Run(states, steps) && i < |states| && d < |states[i].docs| && states[i].docs[d].collection.Some?
    ensures states[i].docs[d].collection.value in states[i].catalog
  {
    RunInv(states, steps, i, d);
  }

  /** In a reachable state an activation is refused for exactly one of the documented reasons, and never for
      lack of a registered target: the last check is only defensive. */
  lemma ActivationIsGuarded(r: Record, env: Env, j: nat)
    requires Inv(r, env)
    ensures var outcome := ActivationDecision(r, j, env.catalog);
            && (outcome == Activated <==>
                  j < |r.reindex| && r.reindex[j].status == Completed && !r.reindex[j].activated
                  && r.deletion == [] && r.collection == Some(r.reindex[j].source))
            && (outcome == NotReady <==> j < |r.reindex| && r.reindex[j].status != Completed)
            && (outcome == AlreadyActivated <==> j in r.activations)
  {
    assert ReindexRows(r.reindex, env.catalog);
    assert History(r.collection, r.served, r.activations, r.reindex, r.cleanup);
    if j in r.activations {
      var k :| 0 <= k < |r.activations| && r.activations[k] == j;
      assert Moved(r.served, r.activations[k], r.reindex, k);
    }
  }
}
