/** The settings page's model picker: a debounced, superseding fetch of the model
    list, with a loading flag and an error. */
module ModelPicker {
  import opened Text
  import opened Generations
  import opened Settling
  import opened ShortRuns

  /** What a fetch asks for. */
  datatype Ask = Ask(query: string, all: bool)

  datatype Body = Body(models: seq<string>, total: nat, mainstreamTotal: nat)

  /** Something received, with the request it answers. */
  datatype Received<T> = Received(ask: Ask, what: T)

  /** `latest` is history: the request of the latest effect run that made one. */
  datatype State = State(
    open: bool,
    query: string,
    showAll: bool,
    dirty: bool,
    race: Race<Ask>,
    loading: bool,
    body: Option<Received<Body>>,
    loadError: Option<Received<string>>,
    latest: Ask)
  {
    predicate Quiet() {
      !dirty && race.tasks == map[]
    }
  }

  datatype Action =
    | Toggle
    | Type(query: string)
    | SetScope(all: bool)
    | RunEffect
    | Expire(task: nat)
    | Answer(task: nat, outcome: Result<Body, string>)

  const INITIAL := State(false, "", false, true, Idle(), true, None, None, Ask("", false))

  /** One step; an action that is not enabled changes nothing. */
  function Step(s: State, a: Action): State {
    match a
    case Toggle => s.(open := !s.open, dirty := true)
    case Type(query) => s.(query := query, dirty := true)
    case SetScope(all) => s.(showAll := all, dirty := true)
    case RunEffect =>
      if !s.dirty then s
      else if !s.open then s.(dirty := false)
      else
        var ask := Ask(s.query, s.showAll);
        s.(dirty := false, race := s.race.Spawn(ask), loading := true, loadError := None, latest := ask)
    case Expire(k) => s.(race := s.race.Wake(k))
    case Answer(k, outcome) =>
      if k !in s.race.tasks || s.race.tasks[k].stage != Asking then s
      else if !s.race.Accepts(k) then s.(race := s.race.Finish(k))
      else
        var ask := s.race.tasks[k].payload;
        match outcome
        case Ok(body) => s.(race := s.race.Finish(k), body := Some(Received(ask, body)), loading := false)
        case Err(error) => s.(race := s.race.Finish(k), loadError := Some(Received(ask, error)), loading := false)
  }

  function Run(s: State, actions: seq<Action>): State
    decreases |actions|
  {
    if actions == [] then s else Run(Step(s, actions[0]), actions[1..])
  }

  function RaceOf(s: State): Race<Ask> { s.race }

  ghost predicate AlwaysFresh(s: State, actions: seq<Action>) {
    ShortRuns.AlwaysFresh(Step, RaceOf, s, actions)
  }

  /** What is on show answers the latest request: either its error, or its list. */
  predicate Answered(s: State) {
    if s.loadError.Some? then s.loadError.value.ask == s.latest
    else s.body.Some? && s.body.value.ask == s.latest
  }

  ghost predicate Inv(s: State) {
    var newest := s.race.runs in s.race.tasks;
    && s.race.Valid()
    && (s.loading <==> newest || s.race.runs == 0)
    && (newest ==> s.race.tasks[s.race.runs].payload == s.latest && s.loadError == None)
    && (!s.loading ==> Answered(s))
    && (s.open && !s.dirty ==> s.race.runs > 0 && s.latest == Ask(s.query, s.showAll))
  }

  lemma EffectKeepsInv(s: State)
    requires Inv(s)
    ensures Inv(Step(s, RunEffect))
  {
    SpawnStaysValid(s.race, Ask(s.query, s.showAll));
  }

  lemma ExpireKeepsInv(s: State, k: nat)
    requires Inv(s) && s.race.Fresh()
    ensures Inv(Step(s, Expire(k)))
  {
    if k in s.race.tasks {
      OnlyNewestPasses(s.race, k);
    }
  }

  lemma ListKeepsInv(s: State, k: nat, body: Body)
    requires Inv(s) && s.race.Fresh()
    ensures Inv(Step(s, Answer(k, Ok(body))))
  {
    if k in s.race.tasks {
      OnlyNewestPasses(s.race, k);
    }
  }

  lemma ErrorKeepsInv(s: State, k: nat, error: string)
    requires Inv(s) && s.race.Fresh()
    ensures Inv(Step(s, Answer(k, Err(error))))
  {
    if k in s.race.tasks {
      OnlyNewestPasses(s.race, k);
    }
  }

  lemma StepKeepsInv(s: State, a: Action)
    requires Inv(s) && s.race.Fresh()
    ensures Inv(Step(s, a))
  {
    match a
    case RunEffect => EffectKeepsInv(s);
    case Expire(k) => ExpireKeepsInv(s, k);
    case Answer(k, Ok(body)) => ListKeepsInv(s, k, body);
    case Answer(k, Err(error)) => ErrorKeepsInv(s, k, error);
    case _ =>
  }

  lemma {:induction false} RunKeepsInv(s: State, actions: seq<Action>)
    requires Inv(s) && AlwaysFresh(s, actions)
    ensures Inv(Run(s, actions)) && Run(s, actions).race.Fresh()
    decreases |actions|
  {
    if actions != [] {
      StepKeepsInv(s, actions[0]);
      RunKeepsInv(Step(s, actions[0]), actions[1..]);
    }
  }

  /** After the first request, the loading flag is up exactly while some task carrying
      the current generation is in flight. */
  lemma LoadingMeansCurrentTask(actions: seq<Action>)
    requires AlwaysFresh(INITIAL, actions)
    ensures var s := Run(INITIAL, actions);
            s.race.runs > 0 ==>
            (s.loading <==> exists k :: k in s.race.tasks && s.race.Accepts(k))
  {
    RunKeepsInv(INITIAL, actions);
    var s := Run(INITIAL, actions);
    forall k | k in s.race.tasks ensures s.race.Accepts(k) <==> k == s.race.runs {
      OnlyNewestPasses(s.race, k);
    }
  }

  /** The list and the error are only ever written by the task that is newest at
      that moment, with its own answer. */
  lemma OnlyNewestWrites(s: State, a: Action)
    requires Inv(s) && s.race.Fresh()
    requires Step(s, a).body != s.body || (Step(s, a).loadError != s.loadError && Step(s, a).loadError.Some?)
    ensures a.Answer? && a.task == s.race.runs && s.loading && !Step(s, a).loading
    ensures Answered(Step(s, a)) && Step(s, a).latest == s.latest
  {
    OnlyNewestPasses(s.race, a.task);
  }

  /** The step delivers the answer that the newest task is waiting for. */
  predicate AnswersNewest(s: State, a: Action) {
    var newest := s.race.runs;
    a.Answer? && a.task == newest && newest in s.race.tasks && s.race.tasks[newest].stage == Asking
  }

  /** The list that the answers to newest tasks leave behind: the last one there was. */
  function ListAfter(s: State, actions: seq<Action>, shown: Option<Received<Body>>): Option<Received<Body>>
    decreases |actions|
  {
    if actions == [] then shown
    else
      ListAfter(Step(s, actions[0]), actions[1..],
                if AnswersNewest(s, actions[0]) && actions[0].outcome.Ok?
                then Some(Received(s.latest, actions[0].outcome.value)) else shown)
  }

  /** The error: the last one, unless a fetch has begun since. */
  function ErrorAfter(s: State, actions: seq<Action>, shown: Option<Received<string>>): Option<Received<string>>
    decreases |actions|
  {
    if actions == [] then shown
    else
      ErrorAfter(Step(s, actions[0]), actions[1..],
                 if Step(s, actions[0]).race.runs > s.race.runs then None
                 else if AnswersNewest(s, actions[0]) && actions[0].outcome.Err?
                 then Some(Received(s.latest, actions[0].outcome.error)) else shown)
  }

  lemma ShownStep(s: State, a: Action)
    requires Inv(s) && s.race.Fresh()
    ensures Step(s, a).body == ListAfter(s, [a], s.body) && Step(s, a).loadError == ErrorAfter(s, [a], s.loadError)
  {
    assert [a][1..] == [];
    if a.Answer? && a.task in s.race.tasks {
      OnlyNewestPasses(s.race, a.task);
    }
  }

  /** Over any fresh run: an error leaves the last list standing, a new fetch takes down the
      error only, and toggling, typing and answers that came too late touch neither. */
  lemma {:induction false} ShownExactly(s: State, actions: seq<Action>)
    requires Inv(s) && AlwaysFresh(s, actions)
    ensures Run(s, actions).body == ListAfter(s, actions, s.body)
    ensures Run(s, actions).loadError == ErrorAfter(s, actions, s.loadError)
    decreases |actions|
  {
    if actions != [] {
      assert [actions[0]][1..] == [];
      ShownStep(s, actions[0]);
      StepKeepsInv(s, actions[0]);
      ShownExactly(Step(s, actions[0]), actions[1..]);
    }
  }

  /** What was last typed and chosen, and whether the picker was left open. */
  function LastTyped(actions: seq<Action>, query: string): string
    decreases |actions|
  {
    if actions == [] then query else LastTyped(actions[1..], if actions[0].Type? then actions[0].query else query)
  }

  function LastScope(actions: seq<Action>, all: bool): bool
    decreases |actions|
  {
    if actions == [] then all else LastScope(actions[1..], if actions[0].SetScope? then actions[0].all else all)
  }

  function LeftOpen(actions: seq<Action>, open: bool): bool
    decreases |actions|
  {
    if actions == [] then open else LeftOpen(actions[1..], open != actions[0].Toggle?)
  }

  lemma FieldsStep(s: State, a: Action)
    ensures var next := Step(s, a);
            && next.query == (if a.Type? then a.query else s.query)
            && next.showAll == (if a.SetScope? then a.all else s.showAll)
            && next.open == (s.open != a.Toggle?)
  {
  }

  lemma {:induction false} FieldsFollowInput(s: State, actions: seq<Action>)
    ensures var final := Run(s, actions);
            && final.query == LastTyped(actions, s.query) && final.showAll == LastScope(actions, s.showAll)
            && final.open == LeftOpen(actions, s.open)
    decreases |actions|
  {
    if actions != [] {
      FieldsStep(s, actions[0]);
      FieldsFollowInput(Step(s, actions[0]), actions[1..]);
    }
  }

  /** A picker that stays closed asks for nothing, and what it shows only changes by the
      answer to what was asked before. */
  lemma {:induction false} ClosedPickerAsksNothing(s: State, actions: seq<Action>)
    requires !s.open && forall i :: 0 <= i < |actions| ==> !actions[i].Toggle?
    ensures var final := Run(s, actions);
            && final.race.runs == s.race.runs && final.race.generation == s.race.generation
            && final.race.tasks.Keys <= s.race.tasks.Keys && final.latest == s.latest
    decreases |actions|
  {
    if actions != [] {
      assert !actions[0].Toggle?;
      ClosedStep(s, actions[0]);
      ClosedPickerAsksNothing(Step(s, actions[0]), actions[1..]);
    }
  }

  lemma ClosedStep(s: State, a: Action)
    requires !s.open && !a.Toggle?
    ensures var next := Step(s, a);
            && !next.open && next.race.runs == s.race.runs && next.race.generation == s.race.generation
            && next.race.tasks.Keys <= s.race.tasks.Keys && next.latest == s.latest
  {
  }

  /** An open picker with nothing pending shows the outcome of the request for exactly
      its query and scope, and is not loading. */
  lemma QuietShowsCurrentAnswer(actions: seq<Action>)
    requires AlwaysFresh(INITIAL, actions)
    ensures var s := Run(INITIAL, actions);
            && s.query == LastTyped(actions, "") && s.showAll == LastScope(actions, false)
            && s.open == LeftOpen(actions, false)
            && (s.open && s.Quiet() ==> !s.loading && Answered(s) && s.latest == Ask(s.query, s.showAll))
  {
    RunKeepsInv(INITIAL, actions);
    FieldsFollowInput(INITIAL, actions);
  }

  lemma AnswerAddsNoRun(s: State, k: nat, outcome: Result<Body, string>)
    requires s.race.Valid()
    ensures var next := Step(s, Answer(k, outcome)); next.race.Valid() && next.race.runs == s.race.runs
  {
  }

  lemma StepAddsAtMostOneRun(s: State, a: Action)
    requires s.race.Valid()
    ensures Step(s, a).race.Valid() && Step(s, a).race.runs <= s.race.runs + 1
  {
    match a
    case RunEffect => SpawnStaysValid(s.race, Ask(s.query, s.showAll));
    case Answer(k, outcome) => AnswerAddsNoRun(s, k, outcome);
    case _ =>
  }

  lemma StepsAddAtMostOneRun()
    ensures AddsAtMostOneRun(Step, RaceOf)
  {
    forall s, a | RaceOf(s).Valid()
      ensures RaceOf(Step(s, a)).Valid() && RaceOf(Step(s, a)).runs <= RaceOf(s).runs + 1
    {
      StepAddsAtMostOneRun(s, a);
    }
  }

  /** So in any run of fewer than 2^32 steps the loading flag means a task in flight, and a
      quiet open picker shows what its own query and scope got. */
  lemma ShortRunsShowCurrentAnswer(actions: seq<Action>)
    requires |actions| < WIDTH
    ensures var s := Run(INITIAL, actions);
            && (s.race.runs > 0 ==> (s.loading <==> exists k :: k in s.race.tasks && s.race.Accepts(k)))
            && (s.open && s.Quiet() ==> !s.loading && Answered(s) && s.latest == Ask(s.query, s.showAll))
  {
    StepsAddAtMostOneRun();
    ShortRunsStayFresh(Step, RaceOf, INITIAL, actions);
    LoadingMeansCurrentTask(actions);
    QuietShowsCurrentAnswer(actions);
  }

  // ------------------------------------------------------- it can always settle

  lemma {:induction false} RunIs(s: State, actions: seq<Action>)
    ensures RunOf(Step, s, actions) == Run(s, actions)
    decreases |actions|
  {
    if actions != [] {
      RunIs(Step(s, actions[0]), actions[1..]);
    }
  }

  /** No picker task is ever stuck: from any state at all, timers and answers alone, whatever the
      server says, bring every request in flight to its end. */
  lemma EveryTaskCanEnd(s: State, outcome: Result<Body, string>) returns (steps: seq<Action>)
    ensures OnlyThese(steps, k => Expire(k), k => Answer(k, outcome))
    ensures Run(s, steps).race.tasks == map[] && Run(s, steps).dirty == s.dirty
  {
    steps := Settling.EveryTaskCanEnd(Step, RaceOf, (t: State) => t.dirty, k => Expire(k), k => Answer(k, outcome), s);
    RunIs(s, steps);
  }

  // ------------------------------------------------------ the counter's limit

  function Rounds(query: string, n: nat): seq<Action> {
    if n == 0 then [] else [Type(query), RunEffect] + Rounds(query, n - 1)
  }

  lemma {:induction false} AfterRounds(s: State, query: string, n: nat)
    requires s.race.Valid() && s.open && 1 in s.race.tasks
    ensures var final := Run(s, Rounds(query, n));
            && final.race.Valid() && final.race.runs == s.race.runs + n
            && 1 in final.race.tasks && final.race.tasks[1] == s.race.tasks[1]
            && final.open && final.showAll == s.showAll && final.body == s.body
            && (n > 0 ==> !final.dirty && final.query == query && final.loading && final.loadError == None)
            && (n > 0 ==> final.latest == Ask(query, s.showAll))
    decreases n
  {
    if n > 0 {
      var next := Step(Step(s, Type(query)), RunEffect);
      SpawnStaysValid(s.race, Ask(query, s.showAll));
      assert Rounds(query, n)[0] == Type(query) && Rounds(query, n)[1..][0] == RunEffect;
      assert Rounds(query, n)[1..][1..] == Rounds(query, n - 1);
      AfterRounds(next, query, n - 1);
    }
  }

  /** The picker just opened, its first request sent and not yet answered. */
  function Waiting(): State {
    Step(Step(Step(INITIAL, Toggle), RunEffect), Expire(1))
  }

  lemma WaitingIsReached()
    ensures Waiting() == Run(INITIAL, [Toggle, RunEffect, Expire(1)])
    ensures Waiting().race.Valid() && Waiting().open && !Waiting().showAll && Waiting().body == None
    ensures Waiting().race.runs == 1 && Waiting().race.tasks == map[1 := Task(Ask("", false), 1, Asking)]
  {
    var actions := [Toggle, RunEffect, Expire(1)];
    assert actions[1..] == [RunEffect, Expire(1)];
    assert [RunEffect, Expire(1)][1..] == [Expire(1)] && [Expire(1)][1..] == [];
    var shown := Step(INITIAL, Toggle);
    SpawnStaysValid(shown.race, Ask("", false));
  }

  /** The limit is exact here too: a first request that stays unanswered for `n` further
      effect runs puts its list under another query, and takes the loading flag down, if
      and only if `n` is a multiple of 2^32. */
  lemma WrapAcceptsStaleAnswer(query: string, n: nat, body: Body)
    requires n > 0
    ensures var late := Step(Run(Waiting(), Rounds(query, n)), Answer(1, Ok(body)));
            && late.open && !late.dirty && late.query == query && late.latest == Ask(query, false)
            && late.loading == (n % WIDTH != 0)
            && late.body == (if n % WIDTH == 0 then Some(Received(Ask("", false), body)) else None)
  {
    WaitingIsReached();
    AfterRounds(Waiting(), query, n);
    AcceptsExactly(Run(Waiting(), Rounds(query, n)).race, 1);
  }

  // ------------------------------------------------------------- the component

  class PickerField {
    var open: bool
    var query: string
    var showAll: bool
    var effectDue: bool
    var generation: nat
    var tasks: map<nat, Task<Ask>>
    var loading: bool
    var body: Option<Received<Body>>
    var loadError: Option<Received<string>>
    var spawned: nat
    ghost var latest: Ask

    constructor ()
      ensures Abstract() == INITIAL
    {
      open, query, showAll, effectDue, generation, tasks := false, "", false, true, IDLE_GENERATION, map[];
      loading, body, loadError, spawned, latest := true, None, None, 0, Ask("", false);
    }

    ghost function Abstract(): State
      reads this
    {
      State(open, query, showAll, effectDue, Race(spawned, generation, tasks), loading, body, loadError, latest)
    }

    method OnToggle()
      modifies this
      ensures Abstract() == Step(old(Abstract()), Toggle)
    {
      open := !open;
      effectDue := true;
    }

    method OnInput(text: string)
      modifies this
      ensures Abstract() == Step(old(Abstract()), Type(text))
    {
      query := text;
      effectDue := true;
    }

    method OnScope(all: bool)
      modifies this
      ensures Abstract() == Step(old(Abstract()), SetScope(all))
    {
      showAll := all;
      effectDue := true;
    }

    method Effect()
      modifies this
      requires effectDue
      ensures Abstract() == Step(old(Abstract()), RunEffect)
    {
      effectDue := false;
      if !open {
        return;
      }
      var mine := Bump(generation);
      generation := mine;
      loading := true;
      loadError := None;
      spawned := spawned + 1;
      tasks := tasks[spawned := Task(Ask(query, showAll), mine, Sleeping)];
      latest := Ask(query, showAll);
    }

    method TimerExpires(task: nat)
      modifies this
      requires task in tasks && tasks[task].stage == Sleeping
      ensures Abstract() == Step(old(Abstract()), Expire(task))
    {
      if generation != tasks[task].mine {
        tasks := tasks - {task};
        return;
      }
      tasks := tasks[task := tasks[task].(stage := Asking)];
    }

    method ServerAnswers(task: nat, outcome: Result<Body, string>)
      modifies this
      requires task in tasks && tasks[task].stage == Asking
      ensures Abstract() == Step(old(Abstract()), Answer(task, outcome))
    {
      var t := tasks[task];
      tasks := tasks - {task};
      match outcome
      case Ok(received) =>
        if generation != t.mine {
          return;
        }
        body := Some(Received(t.payload, received));
        loading := false;
      case Err(error) =>
        if generation != t.mine {
          return;
        }
        loadError := Some(Received(t.payload, error));
        loading := false;
    }
  }
}
