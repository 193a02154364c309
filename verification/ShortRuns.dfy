/** Why freshness costs nothing in practice, for any machine that steps the counter. */
module ShortRuns {
  import opened Generations

  /** Freshness in every state a run of some machine goes through. */
  ghost predicate AlwaysFresh<S, A, P>(step: (S, A) -> S, race: S -> Race<P>, s: S, actions: seq<A>)
    decreases |actions|
  {
    race(s).Fresh() && (actions == [] || AlwaysFresh(step, race, step(s, actions[0]), actions[1..]))
  }

  ghost predicate AddsAtMostOneRun<S(!new), A(!new), P>(step: (S, A) -> S, race: S -> Race<P>) {
    forall s, a :: race(s).Valid() ==> race(step(s, a)).Valid() && race(step(s, a)).runs <= race(s).runs + 1
  }

  /** Any run of fewer than 2^32 steps is fresh throughout. */
  lemma {:induction false} ShortRunsStayFresh<S(!new), A(!new), P>(step: (S, A) -> S, race: S -> Race<P>,
                                                                  s: S, actions: seq<A>)
    requires AddsAtMostOneRun(step, race) && race(s).Valid() && race(s).runs + |actions| < WIDTH
    ensures AlwaysFresh(step, race, s, actions)
    decreases |actions|
  {
    FewRunsAreFresh(race(s));
    if actions != [] {
      ShortRunsStayFresh(step, race, step(s, actions[0]), actions[1..]);
    }
  }
}
