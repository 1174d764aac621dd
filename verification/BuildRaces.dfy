/** The loser of a race between two scheduling requests: exactly when it finds no active job to report. */
module BuildRaces {
  import opened Wrappers
  import opened DocumentRecord
  import opened Steps
  import opened Frames
  import opened Invariant
  import opened Catalogue
  import opened BuildsAndDeletions
  import opened Continuations
  import opened Scenarios
  import opened SystemRuns

  /** The unique index refuses request `q`'s job for document `d`. */
  predicate Refused(s: System, step: Step, d: nat, q: nat) {
    step == Touch(d, Reindex(InsertReindex(q))) && d < |s.docs| && ReindexActive(s.docs[d].reindex)
  }

  predicate Ended(reindex: seq<ReindexJob>, j: nat) {
    j < |reindex| && !ActiveJob(reindex[j].status)
  }

  /** Rows are only added, and a job that has ended stays so. */
  ghost predicate Evolves(before: seq<ReindexJob>, after: seq<ReindexJob>) {
    |before| <= |after| && forall j :: 0 <= j < |before| && Ended(before, j) ==> Ended(after, j)
  }

  lemma ReindexEvolves(r: Record, s: ReindexStep, env: Env)
    requires EnabledReindex(r, s, env)
    ensures Evolves(r.reindex, ApplyReindex(r, s, env).reindex)
  {
  }

  lemma StepEvolves(r: Record, s: DocStep, env: Env)
    requires Enabled(r, s, env)
    ensures Evolves(r.reindex, Apply(r, s, env).reindex)
  {
    match s
    case Ingest(i) => IngestionFrame(r, i, env);
    case Reindex(i) => ReindexEvolves(r, i, env);
    case Cutover(i) => StatusesStay(r, i, env);
    case Delete(i) => DeletionFrame(r, i);
  }

  lemma {:induction false} RunEvolves(states: seq<System>, steps: seq<Step>, i: nat, k: nat, d: nat)
    requires Run(states, steps) && i <= k < |states| && d < |states[i].docs|
    ensures d < |states[k].docs| && Evolves(states[i].docs[d].reindex, states[k].docs[d].reindex)
    decreases k
  {
    if i < k {
      RunEvolves(states, steps, i, k - 1, d);
      assert StepAt(states, steps, k - 1);
      if steps[k - 1].Touch? && steps[k - 1].doc == d {
        StepEvolves(states[k - 1].docs[d], steps[k - 1].step, EnvOf(states[k - 1], d));
      }
    }
  }

  lemma OneWinner(r: Record, env: Env) returns (w: nat)
    requires Inv(r, env) && ReindexActive(r.reindex)
    ensures w < |r.reindex| && forall j :: 0 <= j < |r.reindex| ==> (ActiveJob(r.reindex[j].status) <==> j == w)
  {
    w :| w < |r.reindex| && ActiveJob(r.reindex[w].status);
    assert ReindexRows(r.reindex, env.catalog);
  }

  /** A refused request had one winner `w`, and adds no row. Whenever it looks again it finds no active job, which
      raises MissingActiveReindexJobAfterRaceError, exactly when the winner's job has ended by then and so has every
      job scheduled since. */
  lemma MissingBuildIsExact(states: seq<System>, steps: seq<Step>, i: nat, k: nat, d: nat, q: nat) returns (w: nat)
    requires Run(states, steps) && i < k < |states| && Refused(states[i], steps[i], d, q)
    ensures var before := states[i].docs[d].reindex;
            && w < |before| && (forall j :: 0 <= j < |before| ==> (ActiveJob(before[j].status) <==> j == w))
            && d < |states[i + 1].docs| && states[i + 1].docs[d].reindex == before
            && d < |states[k].docs| && |before| <= |states[k].docs[d].reindex|
            && (!ReindexActive(states[k].docs[d].reindex) <==>
                  && Ended(states[k].docs[d].reindex, w)
                  && forall j :: |before| <= j < |states[k].docs[d].reindex| ==> Ended(states[k].docs[d].reindex, j))
  {
    RunInv(states, steps, i, d);
    assert StepAt(states, steps, i);
    var before := states[i].docs[d].reindex;
    w := OneWinner(states[i].docs[d], EnvOf(states[i], d));
    RunEvolves(states, steps, i, k, d);
    var after := states[k].docs[d].reindex;
    assert forall j :: 0 <= j < |before| && j != w ==> Ended(before, j);
    if ReindexActive(after) {
      var j :| 0 <= j < |after| && ActiveJob(after[j].status);
      assert !Ended(after, j);
    }
  }

  /** One uploaded document and nothing else. */
  lemma UploadOne(hash: Digest) returns (states: seq<System>, steps: seq<Step>)
    ensures Run(states, steps) && Last(states) == System([Fresh(0, hash)], map[0 := hash], map[], map[], {}, {0})
  {
    var s1 := EMPTY.(uploads := map[0 := ToSave(hash)]);
    var s2 := s1.(uploads := map[0 := ToCommit(hash, 0)], storage := map[0 := hash], issued := {0});
    var s3 := s2.(docs := [Fresh(0, hash)], uploads := map[]);
    assert Run([EMPTY], []) && Last([EMPTY]) == EMPTY;
    OneMoreStep([EMPTY], [], BeginUpload(0, hash));
    assert Next(EMPTY, BeginUpload(0, hash)) == s1;
    OneMoreStep([EMPTY, s1], [BeginUpload(0, hash)], SaveObject(0, 0));
    assert Next(s1, SaveObject(0, 0)) == s2;
    OneMoreStep([EMPTY, s1, s2], [BeginUpload(0, hash), SaveObject(0, 0)], CommitUpload(0));
    assert s2.uploads - {0} == map[];
    states, steps := [EMPTY, s1, s2, s3], [BeginUpload(0, hash), SaveObject(0, 0), CommitUpload(0)];
  }

  /** Such a run: two requests for a build pass their checks, the second one's insert is refused because of the
      first one's job, and that job fails before the second request looks for it. */
  lemma MissingBuildIsReached(hash: Digest) returns (states: seq<System>, steps: seq<Step>, i: nat)
    ensures Run(states, steps) && i < |steps| && Refused(states[i], steps[i], 0, 1)
    ensures 0 < |Last(states).docs| && !ReindexActive(Last(states).docs[0].reindex)
  {
    var first, before := UploadOne(hash);
    var lost, to := MissingBuildIsReachable(0, hash);
    var start := Scene(Fresh(0, hash), Env(true, map[]));
    var more :| Play(start, more, true) == Some(lost);
    var second, upto := RunOn(first, before, 0, more);
    AtScene(Last(first), 0, start, more, lost);
    i := |upto|;
    states, steps := RefuseAndGoOn(second, upto, lost, to);
  }

  lemma RefuseAndGoOn(states: seq<System>, steps: seq<Step>, lost: Scene, to: Scene)
    returns (states': seq<System>, steps': seq<Step>)
    requires Run(states, steps) && 0 < |Last(states).docs| && Scene(Last(states).docs[0], EnvOf(Last(states), 0)) == lost
    requires SchedulerAt(lost.record, 1, TargetEnsured) && ReindexActive(lost.record.reindex)
    requires Reaches(After(lost, Reindex(InsertReindex(1))), to, true) && !ReindexActive(to.record.reindex)
    ensures Run(states', steps') && |steps| < |steps'| && Refused(states'[|steps|], steps'[|steps|], 0, 1)
    ensures 0 < |Last(states').docs| && !ReindexActive(Last(states').docs[0].reindex)
  {
    var refuse := Touch(0, Reindex(InsertReindex(1)));
    OneMoreStep(states, steps, refuse);
    MovesTo(Last(states), 0, Reindex(InsertReindex(1)));
    var longer, more := states + [Next(Last(states), refuse)], steps + [refuse];
    var rest :| Play(After(lost, Reindex(InsertReindex(1))), rest, true) == Some(to);
    states', steps' := RunOn(longer, more, 0, rest);
    assert states'[|steps|] == longer[|steps|] && steps'[|steps|] == more[|steps|];
  }

  lemma AtScene(s: System, d: nat, at: Scene, more: seq<DocStep>, to: Scene)
    requires d < |s.docs| && at == Scene(s.docs[d], EnvOf(s, d)) && Play(at, more, true) == Some(to)
    ensures Scene(WithDocument(s, d, to).docs[d], EnvOf(WithDocument(s, d, to), d)) == to
  {
    StoredOnlyFalls(at, more);
    KeySurvives(at, more);
  }

  lemma {:induction false} KeySurvives(at: Scene, more: seq<DocStep>)
    requires Play(at, more, true).Some?
    ensures Play(at, more, true).value.record.key == at.record.key
    decreases |more|
  {
    if more != [] {
      SegmentIdentity(at.record, more[0], at.env);
      KeySurvives(After(at, more[0]), more[1..]);
    }
  }
}
