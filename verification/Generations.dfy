/** The "which request is still wanted" counter shared by the debounced fields: every
    effect run takes the next generation and spawns one task that carries it, and a
    task that wakes up under another generation gives up. */
module Generations {

  /** The counter cell is 32 bits wide and wraps. */
  const WIDTH: nat := 0x1_0000_0000

  /** Where the counter stands after `n` increments from zero. */
  function Wrap(n: nat): (r: nat)
    ensures r < WIDTH
  {
    if n < WIDTH then n else Wrap(n - WIDTH)
  }

  /** One increment of the cell. */
  function Bump(generation: nat): nat {
    if generation + 1 == WIDTH then 0 else generation + 1
  }

  datatype Stage = Sleeping | Asking

  datatype Task<P> = Task(payload: P, mine: nat, stage: Stage)

  /** The counter, and the tasks in flight keyed by the effect run that spawned
      them. `runs` counts effect runs; the program itself only has `generation`. */
  datatype Race<P> = Race(runs: nat, generation: nat, tasks: map<nat, Task<P>>)
  {
    ghost predicate Valid() {
      && generation == Wrap(runs)
      && forall k :: k in tasks ==> 0 < k <= runs && tasks[k].mine == Wrap(k)
    }

    /** No task has been in flight while the counter went all the way round. */
    ghost predicate Fresh() {
      forall k :: k in tasks ==> runs - k < WIDTH
    }

    /** The test a task makes whenever it wakes up. */
    predicate Accepts(k: nat)
      requires k in tasks
    {
      tasks[k].mine == generation
    }

    function Spawn(payload: P): Race<P> {
      var next := Bump(generation);
      Race(runs + 1, next, tasks[runs + 1 := Task(payload, next, Sleeping)])
    }

    function Finish(k: nat): Race<P> {
      this.(tasks := tasks - {k})
    }

    /** A task wakes from its sleep: superseded tasks stop, the others send their request. */
    function Wake(k: nat): Race<P> {
      if k !in tasks || tasks[k].stage != Sleeping then this
      else if Accepts(k) then this.(tasks := tasks[k := tasks[k].(stage := Asking)])
      else Finish(k)
    }
  }

  const IDLE_GENERATION: nat := 0

  function Idle<P>(): Race<P> {
    Race(0, IDLE_GENERATION, map[])
  }

  lemma {:induction false} WrapNext(n: nat)
    ensures Wrap(n + 1) == Bump(Wrap(n))
  {
    if n >= WIDTH {
      WrapNext(n - WIDTH);
    }
  }

  lemma {:induction false} WrapIsResidue(n: nat)
    ensures Wrap(n) == n % WIDTH
  {
    if n >= WIDTH {
      WrapIsResidue(n - WIDTH);
    }
  }

  lemma SpawnStaysValid<P>(race: Race<P>, payload: P)
    requires race.Valid()
    ensures race.Spawn(payload).Valid()
  {
    WrapNext(race.runs);
  }

  /** A task passes the test exactly when the counter has gone round a whole number
      of times since it was spawned. */
  lemma AcceptsExactly<P>(race: Race<P>, k: nat)
    requires race.Valid() && k in race.tasks
    ensures race.Accepts(k) <==> (race.runs - k) % WIDTH == 0
  {
    SameResidue(race.runs, k);
  }

  lemma SameResidue(a: nat, b: nat)
    requires b <= a
    ensures Wrap(a) == Wrap(b) <==> (a - b) % WIDTH == 0
  {
    WrapIsResidue(a);
    WrapIsResidue(b);
    var p, q := a / WIDTH, b / WIDTH;
    assert a - b == (p - q) * WIDTH + (a % WIDTH - b % WIDTH);
  }

  lemma CloseResidues(a: nat, b: nat)
    requires b <= a < b + WIDTH
    ensures Wrap(a) == Wrap(b) <==> a == b
  {
    SameResidue(a, b);
  }

  /** So while no task outlives a full turn, only the newest one passes, and no two
      tasks in flight carry the same generation. */
  lemma OnlyNewestPasses<P>(race: Race<P>, k: nat)
    requires race.Valid() && race.Fresh() && k in race.tasks
    ensures race.Accepts(k) <==> k == race.runs
    ensures forall j :: j in race.tasks && race.tasks[j].mine == race.tasks[k].mine ==> j == k
  {
    CloseResidues(race.runs, k);
    forall j | j in race.tasks && race.tasks[j].mine == race.tasks[k].mine
      ensures j == k
    {
      if j < k { CloseResidues(k, j); } else { CloseResidues(j, k); }
    }
  }

  /** Freshness costs nothing in practice: the first 2^32 - 1 effect runs cannot lap a task. */
  lemma FewRunsAreFresh<P>(race: Race<P>)
    requires race.Valid() && race.runs < WIDTH
    ensures race.Fresh()
  {
  }
}
