/** Runs of a state machine: states joined by labelled steps, and the two inductions over
    them that the other modules use. */
module Runs {

  /** Consecutive states are related by next under the label between them. */
  ghost predicate IsRun<S, A>(next: (S, S, A) -> bool, states: seq<S>, steps: seq<A>) {
    |states| == |steps| + 1 && forall i :: 0 <= i < |steps| ==> next(states[i], states[i + 1], steps[i])
  }

  function Fold<T, A>(apply: (T, A) -> T, t: T, steps: seq<A>): T
    decreases |steps|
  {
    if steps == [] then t else apply(Fold(apply, t, steps[..|steps| - 1]), steps[|steps| - 1])
  }

  /** A step-wise simulation that keeps an invariant is a simulation of whole runs. */
  lemma {:induction false} Simulation<S(!new), T(!new), A(!new)>(
      next: (S, S, A) -> bool, inv: S -> bool, abs: S -> T, apply: (T, A) -> T,
      states: seq<S>, steps: seq<A>, i: int)
    requires forall s, s', a :: inv(s) && next(s, s', a) ==> inv(s') && abs(s') == apply(abs(s), a)
    requires IsRun(next, states, steps) && inv(states[0]) && 0 <= i < |states|
    ensures inv(states[i]) && abs(states[i]) == Fold(apply, abs(states[0]), steps[..i])
    decreases i
  {
    if i > 0 {
      Simulation(next, inv, abs, apply, states, steps, i - 1);
      assert next(states[i - 1], states[i], steps[i - 1]);
      assert steps[..i][..i - 1] == steps[..i - 1];
    }
  }
}
