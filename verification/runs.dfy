/** Runs of a transition system, and the induction principle for its invariants. */
module Runs {

  ghost predicate IsRun<S(!new), T(!new)>(init: S -> bool, next: (S, T, S) -> bool, states: seq<S>, steps: seq<T>) {
    && |states| == |steps| + 1 && init(states[0])
    && forall i :: 0 <= i < |steps| ==> next(states[i], steps[i], states[i + 1])
  }

  lemma {:induction false} Invariance<S(!new), T(!new)>(init: S -> bool, next: (S, T, S) -> bool, inv: S -> bool,
                                                     states: seq<S>, steps: seq<T>, n: nat)
    requires IsRun(init, next, states, steps) && n < |states|
    requires forall s :: init(s) ==> inv(s)
    requires forall s, t, s' :: inv(s) && next(s, t, s') ==> inv(s')
    ensures inv(states[n])
  {
    if n > 0 {
      Invariance(init, next, inv, states, steps, n - 1);
      assert next(states[n - 1], steps[n - 1], states[n - 1 + 1]);
    }
  }

  /** The last state of some run. */
  ghost predicate Reachable<S(!new), T(!new)>(init: S -> bool, next: (S, T, S) -> bool, s: S) {
    exists states, steps :: IsRun(init, next, states, steps) && states[|steps|] == s
  }

  lemma ReachStart<S(!new), T(!new)>(init: S -> bool, next: (S, T, S) -> bool, s: S)
    requires init(s)
    ensures Reachable(init, next, s)
  {
    var steps: seq<T> := [];
    assert IsRun(init, next, [s], steps) && [s][|steps|] == s;
  }

  lemma ReachNext<S(!new), T(!new)>(init: S -> bool, next: (S, T, S) -> bool, s: S, t: T, s': S)
    requires Reachable(init, next, s) && next(s, t, s')
    ensures Reachable(init, next, s')
  {
    var states, steps :| IsRun(init, next, states, steps) && states[|steps|] == s;
    var states', steps' := states + [s'], steps + [t];
    forall i | 0 <= i < |steps'|
      ensures next(states'[i], steps'[i], states'[i + 1])
    {
      if i < |steps| {
        assert next(states[i], steps[i], states[i + 1]);
      }
    }
    assert IsRun(init, next, states', steps') && states'[|steps'|] == s';
  }

  /** An invariant holds in every reachable state. */
  lemma ReachInvariant<S(!new), T(!new)>(init: S -> bool, next: (S, T, S) -> bool, inv: S -> bool, s: S)
    requires Reachable(init, next, s)
    requires forall s :: init(s) ==> inv(s)
    requires forall s, t, s' :: inv(s) && next(s, t, s') ==> inv(s')
    ensures inv(s)
  {
    var states, steps :| IsRun(init, next, states, steps) && states[|steps|] == s;
    Invariance(init, next, inv, states, steps, |steps|);
  }
}
