/** Induction over the runs of a transition system. */
module Executions {
  /** `states[k + 1]` follows `states[k]` by `steps[k]`. */
  ghost predicate Follows<S, T>(next: (S, T, S) -> bool, states: seq<S>, steps: seq<T>) {
    |states| == |steps| + 1 && forall k :: 0 <= k < |steps| ==> next(states[k], steps[k], states[k + 1])
  }

  /** A property of the first state that every step keeps holds in all states. */
  lemma {:induction false} Invariance<S(!new), T(!new)>(
    inv: S -> bool, next: (S, T, S) -> bool, states: seq<S>, steps: seq<T>, k: nat)
    requires Follows(next, states, steps) && k <= |steps|
    requires inv(states[0])
    requires forall s, t, s' :: inv(s) && next(s, t, s') ==> inv(s')
    ensures inv(states[k])
  {
    if k > 0 {
      Invariance(inv, next, states, steps, k - 1);
      assert next(states[k - 1], steps[k - 1], states[k - 1 + 1]);
    }
  }
}
