/** Threads that take turns: a schedule says which thread makes which move next. */
module Schedules {
  import opened Wrappers

  type Schedule<M> = seq<(nat, M)>

  /** Makes the moves one after the other; a move that is not possible ends the run. */
  function Run<S, M>(step: (S, nat, M) -> Option<S>, s: S, schedule: Schedule<M>): (t: Option<S>)
    decreases |schedule|
  {
    if schedule == [] then Some(s)
    else
      match step(s, schedule[0].0, schedule[0].1)
      case None => None
      case Some(next) => Run(step, next, schedule[1..])
  }

  /** Some schedule leads from one state to the other. */
  ghost predicate Reaches<S(!new), M(!new)>(step: (S, nat, M) -> Option<S>, s: S, t: S) {
    exists schedule: Schedule<M> :: Run(step, s, schedule) == Some(t)
  }

  /** What happens around one turn of a compare-and-swap loop: other threads move, and the weak exchange may fail. */
  datatype Interference<M> = Interference(beforeLoad: Schedule<M>, beforeExchange: Schedule<M>, spurious: bool)

  lemma {:induction false} RunThen<S, M>(step: (S, nat, M) -> Option<S>, s: S, t: S, schedule: Schedule<M>,
                                       i: nat, move: M)
    requires Run(step, s, schedule) == Some(t)
    ensures Run(step, s, schedule + [(i, move)]) == step(t, i, move)
    decreases |schedule|
  {
    var longer := schedule + [(i, move)];
    if schedule == [] {
      assert longer[1..] == [];
    } else {
      assert longer[1..] == schedule[1..] + [(i, move)];
      RunThen(step, step(s, schedule[0].0, schedule[0].1).value, t, schedule[1..], i, move);
    }
  }

  lemma ReachesStep<S(!new), M(!new)>(step: (S, nat, M) -> Option<S>, s: S, t: S, i: nat, move: M, u: S)
    requires Reaches(step, s, t) && step(t, i, move) == Some(u)
    ensures Reaches(step, s, u)
  {
    var schedule: Schedule<M> :| Run(step, s, schedule) == Some(t);
    RunThen(step, s, t, schedule, i, move);
  }

  lemma ReachesItself<S(!new), M(!new)>(step: (S, nat, M) -> Option<S>, s: S)
    ensures Reaches(step, s, s)
  {
    assert Run(step, s, []) == Some(s);
  }
}
