/** Runs of a transition system, given by its initial state and its steps. */
module Runs {

  /** Successive states from the initial one. */
  ghost predicate Run<S>(run: seq<S>, init: S, next: (S, S) -> bool) {
    && run != []
    && run[0] == init
    && forall i, j {:trigger run[i], run[j]} ::
         0 <= i && j == i + 1 < |run| ==> next(run[i], run[j])
  }

  ghost predicate Reachable<S(!new)>(s: S, init: S, next: (S, S) -> bool) {
    exists run :: Run(run, init, next) && run[|run| - 1] == s
  }

  lemma {:induction false} InitReachable<S(!new)>(init: S, next: (S, S) -> bool)
    ensures Reachable(init, init, next)
  {
    assert Run([init], init, next) && [init][|[init]| - 1] == init;
  }

  /** Runs extend by any step. */
  lemma {:induction false} RunOn<S(!new)>(s: S, t: S, init: S, next: (S, S) -> bool)
    requires Reachable(s, init, next) && next(s, t)
    ensures Reachable(t, init, next)
  {
    var run :| Run(run, init, next) && run[|run| - 1] == s;
    var more := run + [t];
    assert Run(more, init, next) && more[|more| - 1] == t;
  }

  lemma {:induction false} InvRun<S(!new)>(run: seq<S>, init: S, next: (S, S) -> bool, inv: S -> bool,
                                     i: nat)
    requires Run(run, init, next) && i < |run|
    requires inv(init) && forall s, t :: inv(s) && next(s, t) ==> inv(t)
    ensures inv(run[i])
  {
    if i > 0 {
      InvRun(run, init, next, inv, i - 1);
      assert next(run[i - 1], run[i]);
    }
  }

  /** What holds at first and is kept by every step holds in every reachable state. */
  lemma {:induction false} Invariant<S(!new)>(s: S, init: S, next: (S, S) -> bool, inv: S -> bool)
    requires Reachable(s, init, next)
    requires inv(init) && forall s, t :: inv(s) && next(s, t) ==> inv(t)
    ensures inv(s)
  {
    var run :| Run(run, init, next) && run[|run| - 1] == s;
    InvRun(run, init, next, inv, |run| - 1);
  }
}
