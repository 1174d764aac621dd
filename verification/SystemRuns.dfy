/** Extending runs of the whole system, by single steps and by segments of one document. */
module SystemRuns {
  import opened DocumentRecord
  import opened Steps
  import opened Catalogue
  import opened Continuations

  ghost predicate Reachable(s: System) {
    exists states, steps :: Run(states, steps) && Last(states) == s
  }

  lemma OneMoreStep(states: seq<System>, steps: seq<Step>, step: Step)
    requires Run(states, steps) && CanStep(Last(states), step) && AssumedStep(Last(states), step)
    ensures Run(states + [Next(Last(states), step)], steps + [step])
  {
    var states', steps' := states + [Next(Last(states), step)], steps + [step];
    forall i | 0 <= i < |steps'| ensures StepAt(states', steps', i) {
      if i < |steps| {
        assert StepAt(states, steps, i);
      }
    }
  }

  lemma Extend(s: System, step: Step)
    requires Reachable(s) && CanStep(s, step) && AssumedStep(s, step)
    ensures Reachable(Next(s, step))
  {
    var states, steps :| Run(states, steps) && Last(states) == s;
    OneMoreStep(states, steps, step);
    assert Last(states + [Next(s, step)]) == Next(s, step);
  }

  /** The system after document `d` has moved to `to`. */
  function WithDocument(s: System, d: nat, to: Scene): System
    requires d < |s.docs|
  {
    s.(docs := s.docs[d := to.record], catalog := to.env.catalog,
       storage := if to.env.stored then s.storage else s.storage - {s.docs[d].key})
  }

  lemma {:induction false} StoredOnlyFalls(at: Scene, steps: seq<DocStep>)
    requires Play(at, steps, true).Some?
    ensures Play(at, steps, true).value.env.stored ==> at.env.stored
    decreases |steps|
  {
    if steps != [] {
      StoredOnlyFalls(After(at, steps[0]), steps[1..]);
    }
  }

  lemma MovesTo(s: System, d: nat, step: DocStep)
    requires d < |s.docs| && CanStep(s, Touch(d, step))
    ensures Next(s, Touch(d, step)) == WithDocument(s, d, After(Scene(s.docs[d], EnvOf(s, d)), step))
    ensures Scene(Next(s, Touch(d, step)).docs[d], EnvOf(Next(s, Touch(d, step)), d)) == After(Scene(s.docs[d], EnvOf(s, d)), step)
  {
    SegmentIdentity(s.docs[d], step, EnvOf(s, d));
  }

  /** Segments of one document can be run inside the whole system. */
  lemma {:induction false} RunOn(states: seq<System>, steps: seq<Step>, d: nat, more: seq<DocStep>)
    returns (states': seq<System>, steps': seq<Step>)
    requires Run(states, steps) && d < |Last(states).docs|
    requires Play(Scene(Last(states).docs[d], EnvOf(Last(states), d)), more, true).Some?
    ensures Run(states', steps') && states <= states' && steps <= steps'
    ensures Last(states') == WithDocument(Last(states), d, Play(Scene(Last(states).docs[d], EnvOf(Last(states), d)), more, true).value)
    decreases |more|
  {
    var s := Last(states);
    var at := Scene(s.docs[d], EnvOf(s, d));
    if more == [] {
      assert WithDocument(s, d, at) == s;
      states', steps' := states, steps;
    } else {
      var s' := Next(s, Touch(d, more[0]));
      OneMoreStep(states, steps, Touch(d, more[0]));
      MovesTo(s, d, more[0]);
      states', steps' := RunOn(states + [s'], steps + [Touch(d, more[0])], d, more[1..]);
      MovedTwice(s, d, more);
    }
  }

  lemma MovedTwice(s: System, d: nat, more: seq<DocStep>)
    requires d < |s.docs| && more != [] && Play(Scene(s.docs[d], EnvOf(s, d)), more, true).Some?
    ensures var at := Scene(s.docs[d], EnvOf(s, d));
            var to := Play(at, more, true).value;
            WithDocument(WithDocument(s, d, After(at, more[0])), d, to) == WithDocument(s, d, to)
  {
    var at := Scene(s.docs[d], EnvOf(s, d));
    var mid := After(at, more[0]);
    StoredOnlyFalls(mid, more[1..]);
    SegmentIdentity(s.docs[d], more[0], EnvOf(s, d));
    StoredOnlyFalls(at, more);
  }

  lemma Lift(s: System, d: nat, steps: seq<DocStep>)
    requires Reachable(s) && d < |s.docs| && Play(Scene(s.docs[d], EnvOf(s, d)), steps, true).Some?
    ensures Reachable(WithDocument(s, d, Play(Scene(s.docs[d], EnvOf(s, d)), steps, true).value))
  {
    var states, before :| Run(states, before) && Last(states) == s;
    var states', steps' := RunOn(states, before, d, steps);
  }
}
