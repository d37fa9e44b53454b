/** Runs of a protocol given as a partial step function: an action that is not enabled has no successor.
    Every source of nondeterminism (scheduling, time-outs, the peer) is a choice of action, so a
    statement about all action sequences is a statement about all interleavings. */
module Machine {
  import opened Text

  function Run<S, A>(step: (S, A) -> Option<S>, s: S, actions: seq<A>): (end: Option<S>)
    decreases |actions|
  {
    if actions == [] then Some(s)
    else match step(s, actions[0])
      case None => None
      case Some(next) => Run(step, next, actions[1..])
  }

  lemma RunEmpty<S, A>(step: (S, A) -> Option<S>, s: S)
    ensures Run(step, s, []) == Some(s)
  {
  }

  /** One step, then the rest. */
  lemma RunCons<S, A>(step: (S, A) -> Option<S>, s: S, a: A, rest: seq<A>)
    requires step(s, a).Some?
    ensures Run(step, s, [a] + rest) == Run(step, step(s, a).value, rest)
  {
    assert ([a] + rest)[1..] == rest;
  }

  /** The last step of a run. */
  lemma {:induction false} RunSnoc<S, A>(step: (S, A) -> Option<S>, s: S, actions: seq<A>)
    requires actions != [] && Run(step, s, actions).Some?
    ensures var front := actions[..|actions| - 1];
            Run(step, s, front).Some? &&
                Run(step, s, actions) == step(Run(step, s, front).value, actions[|actions| - 1])
    decreases |actions|
  {
    var front := actions[..|actions| - 1];
    if |actions| > 1 {
      RunSnoc(step, step(s, actions[0]).value, actions[1..]);
      assert front[1..] == actions[1..][..|actions| - 2];
    }
  }

  /** Two runs, one after the other. */
  lemma {:induction false} RunConcat<S, A>(step: (S, A) -> Option<S>, s: S, first: seq<A>, second: seq<A>)
    requires Run(step, s, first).Some?
    ensures Run(step, s, first + second) == Run(step, Run(step, s, first).value, second)
    decreases |first|
  {
    if first == [] {
      assert first + second == second;
    } else {
      assert (first + second)[1..] == first[1..] + second;
      RunConcat(step, step(s, first[0]).value, first[1..], second);
    }
  }

  /** What every step keeps, every run keeps. */
  lemma {:induction false} RunKeeps<S(!new), A(!new)>(step: (S, A) -> Option<S>, inv: S -> bool, s: S, actions: seq<A>)
    requires inv(s) && Run(step, s, actions).Some?
    requires forall t, a :: inv(t) && step(t, a).Some? ==> inv(step(t, a).value)
    ensures inv(Run(step, s, actions).value)
    decreases |actions|
  {
    if actions != [] {
      RunKeeps(step, inv, step(s, actions[0]).value, actions[1..]);
    }
  }

  /** A reflexive, transitive relation that every step respects relates the ends of every run. */
  lemma {:induction false} RunRelates<S(!new), A(!new)>(step: (S, A) -> Option<S>, inv: S -> bool, rel: (S, S) -> bool,
                                                        s: S, actions: seq<A>)
    requires inv(s) && Run(step, s, actions).Some?
    requires forall t, a :: inv(t) && step(t, a).Some? ==> inv(step(t, a).value) && rel(t, step(t, a).value)
    requires forall t :: rel(t, t)
    requires forall t, u, v :: rel(t, u) && rel(u, v) ==> rel(t, v)
    ensures rel(s, Run(step, s, actions).value)
    decreases |actions|
  {
    if actions != [] {
      RunRelates(step, inv, rel, step(s, actions[0]).value, actions[1..]);
    }
  }
}
