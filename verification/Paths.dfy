/** Sequences of steps of the pipeline's state machine, from any state to any other. */
module Paths {
  import opened NoncePipeline

  ghost predicate PathStep(c: Config, states: seq<State>, steps: seq<Step>, i: nat)
    requires i < |steps| && i + 1 < |states|
  {
    Next(c, states[i], steps[i], states[i + 1])
  }

  ghost predicate IsPath(c: Config, states: seq<State>, steps: seq<Step>) {
    && |states| == |steps| + 1
    && forall i :: 0 <= i < |steps| ==> PathStep(c, states, steps, i)
  }

  ghost predicate Connects(c: Config, s: State, t: State, states: seq<State>, steps: seq<Step>) {
    IsPath(c, states, steps) && states[0] == s && states[|steps|] == t
  }

  ghost predicate Reaches(c: Config, s: State, t: State) {
    exists states, steps :: Connects(c, s, t, states, steps)
  }

  lemma ReachesItself(c: Config, s: State)
    ensures Reaches(c, s, s)
  {
    assert Connects(c, s, s, [s], []);
  }

  lemma ReachesNext(c: Config, s: State, t: State, step: Step, u: State)
    requires Reaches(c, s, t) && Next(c, t, step, u)
    ensures Reaches(c, s, u)
  {
    var states, steps :| Connects(c, s, t, states, steps);
    var states', steps' := states + [u], steps + [step];
    forall i | 0 <= i < |steps'|
      ensures PathStep(c, states', steps', i)
    {
      if i < |steps| {
        assert PathStep(c, states, steps, i);
      }
    }
    assert Connects(c, s, u, states', steps');
  }

  lemma ReachesOn(c: Config, s: State, t: State, u: State)
    requires Reaches(c, s, t) && Reaches(c, t, u)
    ensures Reaches(c, s, u)
  {
    var states, steps :| Connects(c, t, u, states, steps);
    ReachesAlong(c, s, t, states, steps, |steps|);
  }

  lemma {:induction false} ReachesAlong(c: Config, s: State, t: State, states: seq<State>, steps: seq<Step>, i: nat)
    requires Reaches(c, s, t) && IsPath(c, states, steps) && states[0] == t && i <= |steps|
    ensures Reaches(c, s, states[i])
  {
    if i > 0 {
      ReachesAlong(c, s, t, states, steps, i - 1);
      assert PathStep(c, states, steps, i - 1);
      ReachesNext(c, s, states[i - 1], steps[i - 1], states[i]);
    }
  }

  /** The state occurs in some run. */
  ghost predicate Reachable(c: Config, s: State) {
    exists start :: Init(c, start) && Reaches(c, start, s)
  }

  /** A path from a start state is a run. */
  lemma RunTo(c: Config, start: State, s: State) returns (states: seq<State>, steps: seq<Step>)
    requires Init(c, start) && Reaches(c, start, s)
    ensures IsRun(c, states, steps) && states[0] == start && states[|steps|] == s
  {
    states, steps :| Connects(c, start, s, states, steps);
    forall i | 0 <= i < |steps|
      ensures StepAt(c, states, steps, i)
    {
      assert PathStep(c, states, steps, i);
    }
  }

  /** Every state of a run is reachable from its first one. */
  lemma {:induction false} RunReaches(c: Config, states: seq<State>, steps: seq<Step>, i: nat)
    requires IsRun(c, states, steps) && i < |states|
    ensures Reaches(c, states[0], states[i])
  {
    if i == 0 {
      ReachesItself(c, states[0]);
    } else {
      RunReaches(c, states, steps, i - 1);
      assert StepAt(c, states, steps, i - 1);
      ReachesNext(c, states[0], states[i - 1], steps[i - 1], states[i]);
    }
  }
}
