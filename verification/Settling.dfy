/** Why no task is ever stuck, in any machine that steps the counter. */
module Settling {
  import opened Generations

  function RunOf<S, A>(step: (S, A) -> S, s: S, actions: seq<A>): S
    decreases |actions|
  {
    if actions == [] then s else RunOf(step, step(s, actions[0]), actions[1..])
  }

  /** A timer wakes its task and an answer finishes it, and neither makes an effect due. */
  ghost predicate TimersAndAnswers<S(!new), A(!new), P>(step: (S, A) -> S, race: S -> Race<P>, due: S -> bool,
                                                        expire: nat -> A, answer: nat -> A)
  {
    forall s, k: nat :: k in race(s).tasks ==>
      && race(step(s, expire(k))) == race(s).Wake(k) && due(step(s, expire(k))) == due(s)
      && (race(s).tasks[k].stage == Asking ==>
            race(step(s, answer(k))) == race(s).Finish(k) && due(step(s, answer(k))) == due(s))
  }

  ghost predicate OnlyThese<A(!new)>(actions: seq<A>, expire: nat -> A, answer: nat -> A) {
    forall i :: 0 <= i < |actions| ==> exists k: nat :: actions[i] == expire(k) || actions[i] == answer(k)
  }

  lemma OneLess<P>(tasks: map<nat, Task<P>>, k: nat)
    requires k in tasks
    ensures |tasks - {k}| == |tasks| - 1
  {
    var others := tasks - {k};
    assert tasks.Keys == others.Keys + {k};
    assert |tasks.Keys| == |tasks| && |others.Keys| == |others|;
  }

  lemma WokenFinishes<P>(race: Race<P>, k: nat)
    requires k in race.tasks && race.tasks[k].stage == Sleeping && race.Accepts(k)
    ensures var woken := race.Wake(k);
            && k in woken.tasks && woken.tasks[k].stage == Asking && woken.Finish(k).tasks == race.tasks - {k}
  {
  }

  /** One step of one task: it ends, or the next step ends it. */
  lemma TaskMoves<S(!new), A(!new), P>(
      step: (S, A) -> S, race: S -> Race<P>, due: S -> bool, expire: nat -> A, answer: nat -> A, s: S, k: nat)
    returns (a: A)
    requires TimersAndAnswers(step, race, due, expire, answer) && k in race(s).tasks
    ensures (a == expire(k) || a == answer(k)) && due(step(s, a)) == due(s)
    ensures var after := race(step(s, a)).tasks;
            if race(s).tasks[k].stage == Asking || !race(s).Accepts(k) then after == race(s).tasks - {k}
            else k in after && after[k].stage == Asking && after - {k} == race(s).tasks - {k}
  {
    a := if race(s).tasks[k].stage == Asking then answer(k) else expire(k);
    if race(s).tasks[k].stage == Sleeping && race(s).Accepts(k) {
      WokenFinishes(race(s), k);
    }
  }

  lemma FirstStep<S, A(!new)>(step: (S, A) -> S, expire: nat -> A, answer: nat -> A, s: S, k: nat, a: A, rest: seq<A>)
    requires (a == expire(k) || a == answer(k)) && OnlyThese(rest, expire, answer)
    ensures OnlyThese([a] + rest, expire, answer)
    ensures RunOf(step, s, [a] + rest) == RunOf(step, step(s, a), rest)
  {
    assert ([a] + rest)[1..] == rest;
  }

  /** Timers and answers alone bring every task to its end, from any state at all. */
  lemma {:induction false} EveryTaskCanEnd<S(!new), A(!new), P>(
      step: (S, A) -> S, race: S -> Race<P>, due: S -> bool, expire: nat -> A, answer: nat -> A, s: S)
    returns (steps: seq<A>)
    requires TimersAndAnswers(step, race, due, expire, answer)
    ensures OnlyThese(steps, expire, answer)
    ensures race(RunOf(step, s, steps)).tasks == map[] && due(RunOf(step, s, steps)) == due(s)
    decreases |race(s).tasks|, 1
  {
    if race(s).tasks == map[] {
      return [];
    }
    var k :| k in race(s).tasks;
    steps := EndOf(step, race, due, expire, answer, s, k);
  }

  /** The same, beginning with one of them. */
  lemma {:induction false} EndOf<S(!new), A(!new), P>(
      step: (S, A) -> S, race: S -> Race<P>, due: S -> bool, expire: nat -> A, answer: nat -> A, s: S, k: nat)
    returns (steps: seq<A>)
    requires TimersAndAnswers(step, race, due, expire, answer) && k in race(s).tasks
    ensures OnlyThese(steps, expire, answer)
    ensures race(RunOf(step, s, steps)).tasks == map[] && due(RunOf(step, s, steps)) == due(s)
    decreases |race(s).tasks - {k}| + 1, 0, if race(s).tasks[k].stage == Asking then 0 else 1
  {
    var a := TaskMoves(step, race, due, expire, answer, s, k);
    var next := step(s, a);
    var rest: seq<A>;
    OneLess(race(s).tasks, k);
    if k in race(next).tasks {
      rest := EndOf(step, race, due, expire, answer, next, k);
    } else {
      rest := EveryTaskCanEnd(step, race, due, expire, answer, next);
    }
    steps := [a] + rest;
    FirstStep(step, expire, answer, s, k, a, rest);
  }
}
