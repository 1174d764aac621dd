/** When an indexed document keeps serving: it has points in its current collection as long as every
    activation moves it to a collection that is safe at that moment, and no longer. */
module Health {
  import opened Wrappers
  import opened DocumentRecord
  import opened Steps
  import opened Frames
  import opened Invariant
  import opened Preservation
  import opened Settlement
  import opened Catalogue

  /** An indexed document nobody asked to delete has at least one point in the collection it serves from. */
  predicate HasPoints(r: Record) {
    r.deletion == [] && r.collection.Some? ==> Held(r.points, r.collection.value)
  }

  /** Some cleanup worker is past its guard and about to delete from `c`. */
  predicate AboutToErase(cleanup: seq<CleanupJob>, cleaners: map<nat, Cleaner>, c: Collection) {
    exists w :: w in cleaners && cleaners[w].row < |cleanup| && cleaners[w].phase.CleanCleared?
                && cleanup[cleaners[w].row].collection == c
  }

  /** Collections the document has left. */
  predicate Vacated(cleanup: seq<CleanupJob>, c: Collection) {
    exists k :: 0 <= k < |cleanup| && cleanup[k].collection == c
  }

  /** The target of the activation holding the lock has points and no cleanup worker about to delete them. */
  predicate SafeActivation(r: Record) {
    ActivatingAt(r) ==>
      var target := r.reindex[r.activating.value].target;
      Held(r.points, target) && !AboutToErase(r.cleanup, r.cleaners, target)
  }

  predicate Safe(r: Record, s: DocStep) {
    s == Cutover(CommitActivation) && r.deletion == [] ==> SafeActivation(r)
  }

  predicate NoReturn(r: Record, s: DocStep) {
    s == Cutover(CommitActivation) && ActivatingAt(r) ==> !Vacated(r.cleanup, r.reindex[r.activating.value].target)
  }

  // ----- safe activations keep the document served -----

  ghost predicate Serving(r: Record) {
    && HasPoints(r)
    && (r.deletion == [] && r.collection.Some? ==> !AboutToErase(r.cleanup, r.cleaners, r.collection.value))
  }

  lemma ServingThroughIngestion(r: Record, s: IngestionStep, env: Env)
    requires Inv(r, env) && Serving(r) && EnabledIngestion(r, s, env)
    ensures Serving(ApplyIngestion(r, s, env))
  {
    IngestionFrame(r, s, env);
    match s
    case UpsertIngestion(j) =>
      UpsertHolds(r.points, r.ingesters[j].phase.target, r.ingesters[j].phase.count);
    case FinishIngestion(j) =>
      assert IngestedInto(r.ingestion, r.ingesters, r.ingesters[j].phase.target);
    case _ =>
  }

  lemma ServingThroughReindex(r: Record, s: ReindexStep, env: Env)
    requires Inv(r, env) && Serving(r) && EnabledReindex(r, s, env)
    ensures Serving(ApplyReindex(r, s, env))
  {
    ReindexFrame(r, s, env);
    if s.UpsertBuild? {
      UpsertHolds(r.points, r.reindex[s.job].target, r.builders[s.job].phase.count);
    }
  }

  lemma ServingThroughCutover(r: Record, s: CutoverStep, env: Env)
    requires Inv(r, env) && Serving(r) && EnabledCutover(r, s, env) && Safe(r, Cutover(s))
    ensures Serving(ApplyCutover(r, s, env))
  {
    CutoverFrame(r, s, env);
    match s
    case EraseCleanup(w, ok) =>
      EraseHolds(r.points, r.cleanup[r.cleaners[w].row].collection);
    case _ =>
  }

  lemma ServingThroughDeletion(r: Record, s: DeletionStep, env: Env)
    requires Inv(r, env) && Serving(r) && EnabledDeletion(r, s)
    ensures Serving(ApplyDeletion(r, s))
  {
    DeletionFrame(r, s);
  }

  lemma ServingThroughStep(r: Record, s: DocStep, env: Env)
    requires Inv(r, env) && Serving(r) && Enabled(r, s, env) && Safe(r, s)
    ensures Serving(Apply(r, s, env))
  {
    match s
    case Ingest(i) => ServingThroughIngestion(r, i, env);
    case Reindex(i) => ServingThroughReindex(r, i, env);
    case Cutover(i) => ServingThroughCutover(r, i, env);
    case Delete(i) => ServingThroughDeletion(r, i, env);
  }

  // ----- never returning to a vacated collection is safe -----

  /** Points a completed or upserted write put into a collection never vacated are still there. */
  ghost predicate Stocked(r: Record) {
    r.deletion == [] ==>
      forall c: Collection :: Supplied(r, c) && !Vacated(r.cleanup, c) ==> Held(r.points, c)
  }

  ghost predicate Supplied(r: Record, c: Collection) {
    r.collection == Some(c) || BuildAccounted(r.reindex, r.builders, c) || IngestedInto(r.ingestion, r.ingesters, c)
  }

  lemma NoReturnIsSafe(r: Record, s: DocStep, env: Env)
    requires Inv(r, env) && Stocked(r) && Enabled(r, s, env) && NoReturn(r, s)
    ensures Safe(r, s)
  {
    if s == Cutover(CommitActivation) && r.deletion == [] {
      var job := r.reindex[r.activating.value];
      assert CompletedTarget(r.reindex, job.target);
      assert !Vacated(r.cleanup, job.target);
    }
  }

  lemma StockedThroughUpsert(r: Record, s: IngestionStep, env: Env)
    requires Inv(r, env) && Stocked(r) && s.UpsertIngestion? && EnabledIngestion(r, s, env)
    ensures Stocked(ApplyIngestion(r, s, env))
  {
    UpsertHolds(r.points, r.ingesters[s.job].phase.target, r.ingesters[s.job].phase.count);
  }

  lemma StockedThroughIngestion(r: Record, s: IngestionStep, env: Env)
    requires Inv(r, env) && Stocked(r) && EnabledIngestion(r, s, env)
    ensures Stocked(ApplyIngestion(r, s, env))
  {
    IngestionFrame(r, s, env);
    match s
    case UpsertIngestion(_) => StockedThroughUpsert(r, s, env);
    case FinishIngestion(j) =>
      assert IngestedInto(r.ingestion, r.ingesters, r.ingesters[j].phase.target);
    case _ =>
  }

  lemma CompletedBefore(r: Record, s: ReindexStep, env: Env, j: nat)
    requires Builders(r.reindex, r.builders) && EnabledReindex(r, s, env)
    requires j < |ApplyReindex(r, s, env).reindex| && ApplyReindex(r, s, env).reindex[j].status == Completed
    ensures j < |r.reindex| && r.reindex[j].target == ApplyReindex(r, s, env).reindex[j].target
    ensures r.reindex[j].status == Completed
            || (j in r.builders && r.builders[j].phase.Built? && r.reindex[j].status == Processing)
  {
  }

  lemma CompletionsComeFromBuilds(r: Record, s: ReindexStep, env: Env, c: Collection)
    requires Inv(r, env) && EnabledReindex(r, s, env) && CompletedTarget(ApplyReindex(r, s, env).reindex, c)
    ensures BuildAccounted(r.reindex, r.builders, c)
  {
    var reindex := ApplyReindex(r, s, env).reindex;
    var j :| 0 <= j < |reindex| && reindex[j].status == Completed && reindex[j].target == c;
    CompletedBefore(r, s, env, j);
  }

  lemma BuiltBefore(r: Record, s: ReindexStep, env: Env, j: nat)
    requires Builders(r.reindex, r.builders) && EnabledReindex(r, s, env)
    requires var r' := ApplyReindex(r, s, env);
             j in r'.builders && j < |r'.reindex| && r'.builders[j].phase.Built? && r'.reindex[j].status == Processing
    ensures j < |r.reindex| && r.reindex[j].target == ApplyReindex(r, s, env).reindex[j].target
    ensures s == UpsertBuild(j) || (j in r.builders && r.builders[j].phase.Built? && r.reindex[j].status == Processing)
  {
  }

  lemma BuildsComeFromUpserts(r: Record, s: ReindexStep, env: Env, c: Collection)
    requires Inv(r, env) && EnabledReindex(r, s, env)
    requires BuiltTarget(ApplyReindex(r, s, env).reindex, ApplyReindex(r, s, env).builders, c)
    ensures BuildAccounted(r.reindex, r.builders, c) || (s.UpsertBuild? && c == r.reindex[s.job].target)
  {
    var r' := ApplyReindex(r, s, env);
    var j :| j in r'.builders && j < |r'.reindex| && r'.builders[j].phase.Built?
             && r'.reindex[j].status == Processing && r'.reindex[j].target == c;
    BuiltBefore(r, s, env, j);
  }

  lemma StockedThroughReindex(r: Record, s: ReindexStep, env: Env)
    requires Inv(r, env) && Stocked(r) && EnabledReindex(r, s, env)
    ensures Stocked(ApplyReindex(r, s, env))
  {
    ReindexFrame(r, s, env);
    var r' := ApplyReindex(r, s, env);
    if s.UpsertBuild? {
      UpsertHolds(r.points, r.reindex[s.job].target, r.builders[s.job].phase.count);
    }
    forall c | BuildAccounted(r'.reindex, r'.builders, c) && r.deletion == [] && !Vacated(r.cleanup, c)
      ensures Held(r'.points, c)
    {
      if CompletedTarget(r'.reindex, c) {
        CompletionsComeFromBuilds(r, s, env, c);
      } else {
        BuildsComeFromUpserts(r, s, env, c);
      }
    }
  }

  lemma StaysVacated(before: seq<CleanupJob>, after: seq<CleanupJob>)
    requires |before| <= |after|
    requires forall k :: 0 <= k < |before| ==> after[k].collection == before[k].collection
    ensures forall c :: Vacated(before, c) ==> Vacated(after, c)
  {
    forall c | Vacated(before, c) ensures Vacated(after, c) {
      var k :| 0 <= k < |before| && before[k].collection == c;
      assert after[k].collection == c;
    }
  }

  lemma StockedThroughCommit(r: Record, env: Env)
    requires Inv(r, env) && Stocked(r) && EnabledCutover(r, CommitActivation, env)
    ensures Stocked(ApplyCutover(r, CommitActivation, env))
  {
    var r' := ApplyCutover(r, CommitActivation, env);
    KeepsTargets(r'.reindex, r.reindex);
    assert CompletedTarget(r.reindex, r.reindex[r.activating.value].target);
    StaysVacated(r.cleanup, r'.cleanup);
    forall c | r.deletion == [] && Supplied(r', c) && !Vacated(r'.cleanup, c) ensures Held(r'.points, c) {
      if BuiltTarget(r'.reindex, r'.builders, c) {
        assert BuiltTarget(r.reindex, r.builders, c);
      }
      assert Supplied(r, c) && !Vacated(r.cleanup, c);
    }
  }

  lemma StockedThroughErase(r: Record, s: CutoverStep, env: Env)
    requires Inv(r, env) && Stocked(r) && s.EraseCleanup? && EnabledCutover(r, s, env)
    ensures Stocked(ApplyCutover(r, s, env))
  {
    var erased := r.cleanup[r.cleaners[s.worker].row].collection;
    EraseHolds(r.points, erased);
    assert Vacated(r.cleanup, erased);
  }

  lemma StockedThroughCutover(r: Record, s: CutoverStep, env: Env)
    requires Inv(r, env) && Stocked(r) && EnabledCutover(r, s, env)
    ensures Stocked(ApplyCutover(r, s, env))
  {
    CutoverFrame(r, s, env);
    var r' := ApplyCutover(r, s, env);
    match s
    case CommitActivation => StockedThroughCommit(r, env);
    case EraseCleanup(_, _) => StockedThroughErase(r, s, env);
    case FinishCleanup(_) => StaysVacated(r.cleanup, r'.cleanup);
    case _ =>
  }

  lemma StockedThroughDeletion(r: Record, s: DeletionStep, env: Env)
    requires Inv(r, env) && Stocked(r) && EnabledDeletion(r, s)
    ensures Stocked(ApplyDeletion(r, s))
  {
    DeletionFrame(r, s);
  }

  lemma StockedThroughStep(r: Record, s: DocStep, env: Env)
    requires Inv(r, env) && Stocked(r) && Enabled(r, s, env)
    ensures Stocked(Apply(r, s, env))
  {
    match s
    case Ingest(i) => StockedThroughIngestion(r, i, env);
    case Reindex(i) => StockedThroughReindex(r, i, env);
    case Cutover(i) => StockedThroughCutover(r, i, env);
    case Delete(i) => StockedThroughDeletion(r, i, env);
  }

  // ----- whole runs -----

  predicate SafeStep(s: System, step: Step) {
    step.Touch? && step.doc < |s.docs| ==> Safe(s.docs[step.doc], step.step)
  }

  predicate NoReturnStep(s: System, step: Step) {
    step.Touch? && step.doc < |s.docs| ==> NoReturn(s.docs[step.doc], step.step)
  }

  ghost predicate AllServing(s: System) {
    forall d :: 0 <= d < |s.docs| ==> Serving(s.docs[d])
  }

  ghost predicate AllStocked(s: System) {
    forall d :: 0 <= d < |s.docs| ==> Stocked(s.docs[d])
  }

  lemma ServingThroughNext(s: System, step: Step)
    requires DocsInv(s) && AllServing(s) && CanStep(s, step) && SafeStep(s, step)
    ensures AllServing(Next(s, step))
  {
    if step.Touch? {
      ServingThroughStep(s.docs[step.doc], step.step, EnvOf(s, step.doc));
    }
  }

  lemma StockedThroughNext(s: System, step: Step)
    requires DocsInv(s) && AllStocked(s) && CanStep(s, step)
    ensures AllStocked(Next(s, step))
  {
    if step.Touch? {
      StockedThroughStep(s.docs[step.doc], step.step, EnvOf(s, step.doc));
    }
  }

  /** In a run whose activations are all safe when they commit, no indexed document without a deletion
      request is ever without points in its current collection. */
  lemma {:induction false} SafeRunServes(states: seq<System>, steps: seq<Step>, i: nat)
    requires Run(states, steps) && i < |states|
    requires forall k :: 0 <= k < i ==> SafeStep(states[k], steps[k])
    ensures AllServing(states[i])
  {
    if i > 0 {
      SafeRunServes(states, steps, i - 1);
      RunDocs(states, steps, i - 1);
      assert StepAt(states, steps, i - 1);
      ServingThroughNext(states[i - 1], steps[i - 1]);
    }
  }

  lemma {:induction false} RunStocks(states: seq<System>, steps: seq<Step>, i: nat)
    requires Run(states, steps) && i < |states|
    ensures AllStocked(states[i])
  {
    if i > 0 {
      RunStocks(states, steps, i - 1);
      RunDocs(states, steps, i - 1);
      assert StepAt(states, steps, i - 1);
      StockedThroughNext(states[i - 1], steps[i - 1]);
    }
  }

  /** The same for a run in which no document is activated back onto a collection it vacated. */
  lemma NoReturnRunServes(states: seq<System>, steps: seq<Step>, i: nat, d: nat)
    requires Run(states, steps) && i < |states| && d < |states[i].docs|
    requires forall k :: 0 <= k < i ==> NoReturnStep(states[k], steps[k])
    ensures HasPoints(states[i].docs[d])
  {
    forall k | 0 <= k < i ensures SafeStep(states[k], steps[k]) {
      RunStocks(states, steps, k);
      RunDocs(states, steps, k);
      assert StepAt(states, steps, k);
      if steps[k].Touch? {
        NoReturnIsSafe(states[k].docs[steps[k].doc], steps[k].step, EnvOf(states[k], steps[k].doc));
      }
    }
    SafeRunServes(states, steps, i);
  }

  // ----- the condition is exact -----

  /** The record after running `steps`, or None if one of them cannot run or breaks an assumption. */
  function Exec(r: Record, env: Env, steps: seq<DocStep>): Option<Record>
    decreases |steps|
  {
    if steps == [] then Some(r)
    else if Enabled(r, steps[0], env) && Assumed(r, steps[0], env) && Safe(r, steps[0]) then
      Exec(Apply(r, steps[0], env), NextEnv(r, steps[0], env), steps[1..])
    else None
  }

  lemma {:induction false} ServingForever(r: Record, env: Env, steps: seq<DocStep>)
    requires Inv(r, env) && Serving(r) && Exec(r, env, steps).Some?
    ensures HasPoints(Exec(r, env, steps).value)
    decreases |steps|
  {
    if steps != [] {
      StepKeeps(r, steps[0], env);
      ServingThroughStep(r, steps[0], env);
      ServingForever(Apply(r, steps[0], env), NextEnv(r, steps[0], env), steps[1..]);
    }
  }

  /** An unsafe activation loses the document: at once, or by one more segment of a cleanup worker. */
  lemma UnsafeActivationLoses(r: Record, env: Env) returns (steps: seq<DocStep>)
    requires Inv(r, env) && r.deletion == [] && EnabledCutover(r, CommitActivation, env) && !SafeActivation(r)
    ensures Exec(ApplyCutover(r, CommitActivation, env), env, steps).Some?
    ensures !HasPoints(Exec(ApplyCutover(r, CommitActivation, env), env, steps).value)
  {
    var r' := ApplyCutover(r, CommitActivation, env);
    var target := r.reindex[r.activating.value].target;
    if !Held(r.points, target) {
      steps := [];
    } else {
      var w :| w in r.cleaners && r.cleaners[w].row < |r.cleanup| && r.cleaners[w].phase.CleanCleared?
               && r.cleanup[r.cleaners[w].row].collection == target;
      var s := Cutover(EraseCleanup(w, true));
      steps := [s];
      assert Enabled(r', s, env);
      var r'' := Apply(r', s, env);
      EraseHolds(r'.points, target);
      assert steps[1..] == [];
      assert Exec(r', env, steps) == Some(r'');
    }
  }

  /** For a document nobody asked to delete, a committing activation is safe if and only if the document is
      served after every continuation whose later activations are safe too. */
  lemma SafeActivationIsExact(r: Record, env: Env)
    requires Inv(r, env) && Serving(r) && r.deletion == [] && EnabledCutover(r, CommitActivation, env)
    ensures var r' := ApplyCutover(r, CommitActivation, env);
            SafeActivation(r) <==>
            forall steps: seq<DocStep> :: Exec(r', env, steps).Some? ==> HasPoints(Exec(r', env, steps).value)
  {
    var r' := ApplyCutover(r, CommitActivation, env);
    if SafeActivation(r) {
      CutoverKeeps(r, CommitActivation, env);
      ServingThroughCutover(r, CommitActivation, env);
      assert NextEnv(r, Cutover(CommitActivation), env) == env;
      forall steps: seq<DocStep> | Exec(r', env, steps).Some? ensures HasPoints(Exec(r', env, steps).value) {
        ServingForever(r', env, steps);
      }
    } else {
      var steps := UnsafeActivationLoses(r, env);
    }
  }
}
