/** No re-index build races a deletion. Where requests are atomic a build past its check keeps every deletion
    row out; where they are not, a late insert is harmless exactly when the model allows it. */
module BuildsAndDeletions {
  import opened DocumentRecord
  import opened Steps
  import opened Frames
  import opened Invariant
  import opened Settlement
  import opened Catalogue

  predicate PastDeletionCheck(r: Record, j: nat) {
    j in r.builders && (r.builders[j].phase.BuildCleared? || r.builders[j].phase.BuildReady? || r.builders[j].phase.Built?)
  }

  /** No build upserts while its document has a deletion row, whatever was inserted when. */
  lemma NoBuildWritesUnderDeletion(states: seq<System>, steps: seq<Step>, i: nat, d: nat, j: nat)
    requires Run(states, steps) && i < |steps| && steps[i] == Touch(d, Reindex(UpsertBuild(j)))
    ensures d < |states[i].docs| && states[i].docs[d].deletion == []
  {
    assert StepAt(states, steps, i);
    RunInv(states, steps, i, d);
  }

  // ----- atomic requests -----

  predicate AtomicStep(s: System, step: Step) {
    step.Touch? && step.doc < |s.docs| && step.step.Delete? ==> AtomicRequest(s.docs[step.doc], step.step.delete)
  }

  predicate BeforeCheck(b: Builder) {
    b.phase.BuildClaimed? || b.phase.BuildRefused?
  }

  /** With a deletion row present no build, dead or alive, is past its deletion check. */
  ghost predicate Reserved(r: Record) {
    r.deletion != [] ==> forall j :: j in r.builders ==> BeforeCheck(r.builders[j])
  }

  lemma ReindexReserves(r: Record, s: ReindexStep, env: Env)
    requires Reserved(r) && EnabledReindex(r, s, env)
    ensures Reserved(ApplyReindex(r, s, env))
  {
    ReindexFrame(r, s, env);
  }

  lemma StepReserves(r: Record, s: DocStep, env: Env)
    requires Inv(r, env) && Reserved(r) && Enabled(r, s, env) && (s.Delete? ==> AtomicRequest(r, s.delete))
    ensures Reserved(Apply(r, s, env))
  {
    match s
    case Ingest(i) => IngestionFrame(r, i, env);
    case Reindex(i) => ReindexReserves(r, i, env);
    case Cutover(i) => CutoverFrame(r, i, env);
    case Delete(i) =>
      DeletionFrame(r, i);
      if i.InsertDeletion? && r.deletion == [] {
        NothingBuilds(r, env);
      }
  }

  lemma {:induction false} AtomicRunReserves(states: seq<System>, steps: seq<Step>, i: nat, d: nat)
    requires Run(states, steps) && i < |states| && d < |states[i].docs|
    requires forall m :: 0 <= m < i ==> AtomicStep(states[m], steps[m])
    ensures Reserved(states[i].docs[d])
  {
    if i > 0 {
      assert StepAt(states, steps, i - 1);
      var s, step := states[i - 1], steps[i - 1];
      if d < |s.docs| {
        AtomicRunReserves(states, steps, i - 1, d);
        if step.Touch? && step.doc == d {
          RunInv(states, steps, i - 1, d);
          StepReserves(s.docs[d], step.step, EnvOf(s, d));
        }
      }
    }
  }

  // ----- a build past its check -----

  /** Job `j` is past its check or over. */
  ghost predicate PastOrOver(r: Record, j: nat) {
    j < |r.reindex| && (PastDeletionCheck(r, j) || !ActiveJob(r.reindex[j].status))
  }

  lemma BuildAdvances(r: Record, s: ReindexStep, env: Env, j: nat)
    requires Builders(r.reindex, r.builders) && EnabledReindex(r, s, env) && PastOrOver(r, j)
    ensures PastOrOver(ApplyReindex(r, s, env), j)
  {
  }

  lemma StepAdvances(r: Record, s: DocStep, env: Env, j: nat)
    requires Inv(r, env) && Enabled(r, s, env) && PastOrOver(r, j)
    ensures PastOrOver(Apply(r, s, env), j)
  {
    match s
    case Ingest(i) => IngestionFrame(r, i, env);
    case Reindex(i) => BuildAdvances(r, i, env, j);
    case Cutover(i) =>
      CutoverFrame(r, i, env);
      StatusesStay(r, i, env);
    case Delete(i) => DeletionFrame(r, i);
  }

  lemma StatusesStay(r: Record, s: CutoverStep, env: Env)
    requires EnabledCutover(r, s, env)
    ensures var after := ApplyCutover(r, s, env).reindex;
            |after| == |r.reindex| && forall j :: 0 <= j < |after| ==> after[j].status == r.reindex[j].status
  {
  }

  lemma {:induction false} RunAdvances(states: seq<System>, steps: seq<Step>, i: nat, k: nat, d: nat, j: nat)
    requires Run(states, steps) && i <= k < |states| && d < |states[i].docs| && PastOrOver(states[i].docs[d], j)
    ensures d < |states[k].docs| && PastOrOver(states[k].docs[d], j)
    decreases k
  {
    if i < k {
      RunAdvances(states, steps, i, k - 1, d, j);
      assert StepAt(states, steps, k - 1);
      var s, step := states[k - 1], steps[k - 1];
      if step.Touch? && step.doc == d {
        RunInv(states, steps, k - 1, d);
        StepAdvances(s.docs[d], step.step, EnvOf(s, d), j);
      }
    }
  }

  /** Where requests are atomic, a worker past its deletion check means that no deletion row exists, and none
      can be inserted, in that state or any later one in which its job is still PROCESSING. */
  lemma BuildExcludesDeletion(states: seq<System>, steps: seq<Step>, i: nat, k: nat, d: nat, j: nat)
    requires Run(states, steps) && i <= k < |states| && forall m :: 0 <= m < k ==> AtomicStep(states[m], steps[m])
    requires d < |states[i].docs| && PastDeletionCheck(states[i].docs[d], j)
    requires d < |states[k].docs| && j < |states[k].docs[d].reindex| && states[k].docs[d].reindex[j].status == Processing
    ensures states[k].docs[d].deletion == [] && DeletionDecision(states[k].docs[d]) != DeletionCreated
  {
    RunInv(states, steps, i, d);
    RunAdvances(states, steps, i, k, d, j);
    RunInv(states, steps, k, d);
    var r := states[k].docs[d];
    AtomicRunReserves(states, steps, k, d);
    BuilderIsActive(r, EnvOf(states[k], d), j);
  }

  /** While the request's decision refuses, no step of the system gives the document its first deletion row. */
  lemma BuildBlocksInsert(s: System, step: Step, d: nat)
    requires CanStep(s, step) && AtomicStep(s, step)
    requires d < |s.docs| && s.docs[d].deletion == [] && DeletionDecision(s.docs[d]) != DeletionCreated
    ensures d < |Next(s, step).docs| && Next(s, step).docs[d].deletion == []
  {
    if step.Touch? && step.doc == d {
      var r, env := s.docs[d], EnvOf(s, d);
      match step.step
      case Ingest(i) => IngestionFrame(r, i, env);
      case Reindex(i) => ReindexFrame(r, i, env);
      case Cutover(i) => CutoverFrame(r, i, env);
      case Delete(i) =>
        DeletionFrame(r, i);
        assert !i.InsertDeletion?;
    }
  }
}
