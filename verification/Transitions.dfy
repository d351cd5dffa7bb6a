/** Runs of a transition system, and induction over them. */
module Transitions {

  /** states is a run: it starts in an initial state, and move k leads from state k to the next. */
  ghost predicate IsRun<S(!new), M(!new)>(init: S -> bool, next: (S, S, M) -> bool, states: seq<S>, moves: seq<M>) {
    && |states| == |moves| + 1 && init(states[0])
    && forall k :: 0 <= k < |moves| ==> next(states[k], states[k + 1], moves[k])
  }

  ghost predicate Inductive<S(!new), M(!new)>(init: S -> bool, next: (S, S, M) -> bool, inv: S -> bool) {
    && (forall s :: init(s) ==> inv(s))
    && (forall s, s', m :: inv(s) && next(s, s', m) ==> inv(s'))
  }

  /** An inductive invariant holds in every state of every run. */
  lemma {:induction false} InvariantHolds<S(!new), M(!new)>(init: S -> bool, next: (S, S, M) -> bool, inv: S -> bool,
                                                            states: seq<S>, moves: seq<M>, k: nat)
    requires IsRun(init, next, states, moves) && Inductive(init, next, inv) && k < |states|
    ensures inv(states[k])
    decreases k
  {
    if k > 0 {
      InvariantHolds(init, next, inv, states, moves, k - 1);
      assert next(states[k - 1], states[k], moves[k - 1]);
    }
  }
}
