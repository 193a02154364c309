/** The debounced schedule preview of the routines editor, as an interleaving of
    edits, effect runs, timer expiries and server answers. */
module SchedulePreview {
  import opened Text
  import opened Generations
  import opened Settling
  import opened ShortRuns

  type Outcome = Result<string, string>

  /** What the server said, with the text it was asked about. */
  datatype Verdict = Verdict(text: string, outcome: Outcome)

  /** `dirty` says that the effect is due to run. `latest` and `cleared` are history:
      the latest non-empty text an effect saw, and whether the last effect run
      found nothing to preview. */
  datatype State = State(
    text: string,
    editing: bool,
    dirty: bool,
    race: Race<string>,
    preview: Option<Verdict>,
    latest: string,
    cleared: bool)
  {
    predicate Blank() {
      !editing || Trim(text) == ""
    }

    /** Nothing left to happen until the next edit. */
    predicate Quiet() {
      !dirty && race.tasks == map[]
    }
  }

  datatype Action =
    | Edit(text: string)
    | SetEditing(on: bool)
    | RunEffect
    | Expire(task: nat)
    | Answer(task: nat, outcome: Outcome)

  const INITIAL := State("", true, true, Idle(), None, "", true)

  /** One step; an action that is not enabled changes nothing. */
  function Step(s: State, a: Action): State {
    match a
    case Edit(text) => s.(text := text, dirty := true)
    case SetEditing(on) => s.(editing := on, dirty := true)
    case RunEffect =>
      if !s.dirty then s
      else if s.Blank() then s.(dirty := false, preview := None, cleared := true)
      else s.(dirty := false, race := s.race.Spawn(Trim(s.text)), latest := Trim(s.text), cleared := false)
    case Expire(k) => s.(race := s.race.Wake(k))
    case Answer(k, outcome) =>
      if k !in s.race.tasks || s.race.tasks[k].stage != Asking then s
      else if s.race.Accepts(k) then
        s.(race := s.race.Finish(k), preview := Some(Verdict(s.race.tasks[k].payload, outcome)))
      else s.(race := s.race.Finish(k))
  }

  function Run(s: State, actions: seq<Action>): State
    decreases |actions|
  {
    if actions == [] then s else Run(Step(s, actions[0]), actions[1..])
  }

  function RaceOf(s: State): Race<string> { s.race }

  /** Freshness in every state a run goes through. */
  ghost predicate AlwaysFresh(s: State, actions: seq<Action>) {
    ShortRuns.AlwaysFresh(Step, RaceOf, s, actions)
  }

  // ----------------------------------------------------------------- invariant

  ghost predicate Inv(s: State) {
    var newest := s.race.runs in s.race.tasks;
    && s.race.Valid()
    && (newest ==> s.race.tasks[s.race.runs].payload == s.latest)
    && (s.preview.Some? && !newest ==> s.preview.value.text == s.latest)
    && (!s.cleared ==> s.race.runs > 0 && (newest || s.preview.Some?))
    && (!s.dirty ==> (s.cleared <==> s.Blank()))
    && (!s.dirty && !s.Blank() ==> s.latest == Trim(s.text))
  }

  lemma EffectKeepsInv(s: State)
    requires Inv(s)
    ensures Inv(Step(s, RunEffect))
  {
    SpawnStaysValid(s.race, Trim(s.text));
  }

  lemma ExpireKeepsInv(s: State, k: nat)
    requires Inv(s) && s.race.Fresh()
    ensures Inv(Step(s, Expire(k)))
  {
    if k in s.race.tasks {
      OnlyNewestPasses(s.race, k);
    }
  }

  lemma AnswerKeepsInv(s: State, k: nat, outcome: Outcome)
    requires Inv(s) && s.race.Fresh()
    ensures Inv(Step(s, Answer(k, outcome)))
  {
    if k in s.race.tasks {
      OnlyNewestPasses(s.race, k);
    }
  }

  lemma StepKeepsInv(s: State, a: Action)
    requires Inv(s) && s.race.Fresh()
    ensures Inv(Step(s, a))
  {
    match a
    case RunEffect => EffectKeepsInv(s);
    case Expire(k) => ExpireKeepsInv(s, k);
    case Answer(k, outcome) => AnswerKeepsInv(s, k, outcome);
    case _ =>
  }

  lemma {:induction false} RunKeepsInv(s: State, actions: seq<Action>)
    requires Inv(s) && AlwaysFresh(s, actions)
    ensures Inv(Run(s, actions))
    decreases |actions|
  {
    if actions != [] {
      StepKeepsInv(s, actions[0]);
      RunKeepsInv(Step(s, actions[0]), actions[1..]);
    }
  }

  // ------------------------------------------------------------------- results

  /** A preview is only ever written by the newest task, with the answer to the
      latest non-empty text an effect saw. */
  lemma OnlyLatestIsWritten(s: State, a: Action)
    requires Inv(s) && s.race.Fresh()
    requires Step(s, a).preview.Some? && Step(s, a).preview != s.preview
    ensures a.Answer? && a.task == s.race.runs
    ensures Step(s, a).preview == Some(Verdict(s.latest, a.outcome))
  {
    OnlyNewestPasses(s.race, a.task);
  }

  /** The text last put into the field, and whether it was last on screen. */
  function LastEdit(actions: seq<Action>, text: string): string
    decreases |actions|
  {
    if actions == [] then text else LastEdit(actions[1..], if actions[0].Edit? then actions[0].text else text)
  }

  function LastEditing(actions: seq<Action>, on: bool): bool
    decreases |actions|
  {
    if actions == [] then on else LastEditing(actions[1..], if actions[0].SetEditing? then actions[0].on else on)
  }

  /** Nothing to preview in the end: not on screen, or nothing but whitespace put in. */
  predicate LeftBlank(actions: seq<Action>) {
    !LastEditing(actions, true) || Trim(LastEdit(actions, "")) == ""
  }

  lemma {:induction false} FieldFollowsInput(s: State, actions: seq<Action>)
    ensures Run(s, actions).text == LastEdit(actions, s.text)
    ensures Run(s, actions).editing == LastEditing(actions, s.editing)
    decreases |actions|
  {
    if actions != [] {
      FieldFollowsInput(Step(s, actions[0]), actions[1..]);
    }
  }

  /** Once nothing is pending and there is something to preview, the preview shown
      is the server's verdict on exactly the text last put in. */
  lemma QuietShowsCurrentVerdict(actions: seq<Action>)
    requires AlwaysFresh(INITIAL, actions)
    ensures var s := Run(INITIAL, actions);
            s.Quiet() && !LeftBlank(actions) ==>
              s.preview.Some? && s.preview.value.text == Trim(LastEdit(actions, ""))
  {
    RunKeepsInv(INITIAL, actions);
    FieldFollowsInput(INITIAL, actions);
  }

  lemma StepAddsAtMostOneRun(s: State, a: Action)
    requires s.race.Valid()
    ensures Step(s, a).race.Valid() && Step(s, a).race.runs <= s.race.runs + 1
  {
    match a
    case RunEffect => SpawnStaysValid(s.race, Trim(s.text));
    case Expire(k) =>
    case Answer(k, _) =>
    case _ =>
  }

  lemma StepsAddAtMostOneRun()
    ensures AddsAtMostOneRun(Step, RaceOf)
  {
    forall s, a | RaceOf(s).Valid()
      ensures RaceOf(Step(s, a)).Valid() && RaceOf(Step(s, a)).runs <= RaceOf(s).runs + 1
    {
      StepAddsAtMostOneRun(s, a);
    }
  }

  /** So in any run of fewer than 2^32 steps a quiet field shows the verdict on its own text. */
  lemma ShortRunsShowCurrentVerdict(actions: seq<Action>)
    requires |actions| < WIDTH
    ensures var s := Run(INITIAL, actions);
            && Inv(s)
            && (s.Quiet() && !LeftBlank(actions) ==>
                  s.preview.Some? && s.preview.value.text == Trim(LastEdit(actions, "")))
  {
    StepsAddAtMostOneRun();
    ShortRunsStayFresh(Step, RaceOf, INITIAL, actions);
    RunKeepsInv(INITIAL, actions);
    QuietShowsCurrentVerdict(actions);
  }

  // ------------------------------------------------- clearing keeps a request

  predicate NoInput(actions: seq<Action>) {
    forall i :: 0 <= i < |actions| ==> actions[i].Expire? || actions[i].Answer?
  }

  /** Clearing the field does not supersede a request in flight. Once the clearing effect
      has run and the field is left alone until it is quiet, it ends up showing a preview
      if and only if the newest task was still in flight when it was cleared, and then it
      is the verdict on the text that was deleted. */
  lemma ClearedFieldShowsStaleVerdict(s: State, actions: seq<Action>)
    requires Inv(s) && s.race.Fresh() && s.dirty && s.Blank()
    requires NoInput(actions) && Run(Step(s, RunEffect), actions).Quiet()
    ensures var final := Run(Step(s, RunEffect), actions);
            && final.text == s.text && final.editing == s.editing
            && (final.preview.Some? <==> s.race.runs in s.race.tasks)
            && (final.preview.Some? ==> final.preview.value.text == s.latest)
  {
    EffectKeepsInv(s);
    PendingBecomesShown(Step(s, RunEffect), actions);
  }

  lemma {:induction false} PendingBecomesShown(s: State, actions: seq<Action>)
    requires Inv(s) && s.race.Fresh() && NoInput(actions)
    ensures var final := Run(s, actions);
            && Inv(final) && final.race.Fresh() && final.race.runs == s.race.runs
            && final.text == s.text && final.editing == s.editing && final.latest == s.latest
            && (Unsettled(final) <==> Unsettled(s))
    decreases |actions|
  {
    if actions != [] {
      assert actions[0].Expire? || actions[0].Answer?;
      StepSettles(s, actions[0]);
      assert NoInput(actions[1..]);
      PendingBecomesShown(Step(s, actions[0]), actions[1..]);
    }
  }

  predicate Unsettled(s: State) {
    s.preview.Some? || s.race.runs in s.race.tasks
  }

  lemma StepSettles(s: State, a: Action)
    requires Inv(s) && s.race.Fresh() && (a.Expire? || a.Answer?)
    ensures var next := Step(s, a);
            && Inv(next) && next.race.Fresh() && next.race.runs == s.race.runs
            && next.text == s.text && next.editing == s.editing && next.latest == s.latest
            && (Unsettled(next) <==> Unsettled(s))
  {
    StepKeepsInv(s, a);
    if a.task in s.race.tasks {
      OnlyNewestPasses(s.race, a.task);
    }
  }

  // ------------------------------------------------------- it can always settle

  lemma {:induction false} RunIs(s: State, actions: seq<Action>)
    ensures RunOf(Step, s, actions) == Run(s, actions)
    decreases |actions|
  {
    if actions != [] {
      RunIs(Step(s, actions[0]), actions[1..]);
    }
  }

  /** No preview task is ever stuck: from any state at all, timers and answers alone, whatever the
      server says, bring every request in flight to its end. */
  lemma EveryTaskCanEnd(s: State, outcome: Outcome) returns (steps: seq<Action>)
    ensures OnlyThese(steps, k => Expire(k), k => Answer(k, outcome))
    ensures Run(s, steps).race.tasks == map[] && Run(s, steps).dirty == s.dirty
  {
    steps := Settling.EveryTaskCanEnd(Step, RaceOf, (t: State) => t.dirty, k => Expire(k), k => Answer(k, outcome), s);
    RunIs(s, steps);
  }

  // ------------------------------------------- what an emptied field can show

  /** No effect is due at any point where one would run. */
  predicate NoEffect(s: State, actions: seq<Action>)
    decreases |actions|
  {
    actions == [] || (!(actions[0].RunEffect? && s.dirty) && NoEffect(Step(s, actions[0]), actions[1..]))
  }

  /** The step delivers the answer that the newest task is waiting for. */
  predicate AnswersNewest(s: State, a: Action) {
    var newest := s.race.runs;
    a.Answer? && a.task == newest && newest in s.race.tasks && s.race.tasks[newest].stage == Asking
  }

  predicate NewestIsAnswered(s: State, actions: seq<Action>)
    decreases |actions|
  {
    actions != [] && (AnswersNewest(s, actions[0]) || NewestIsAnswered(Step(s, actions[0]), actions[1..]))
  }

  lemma {:induction false} SplitAtLastEffect(s: State, actions: seq<Action>)
    returns (before: seq<Action>, after: seq<Action>)
    requires !NoEffect(s, actions)
    ensures actions == before + [RunEffect] + after
    ensures Run(s, before).dirty && NoEffect(Step(Run(s, before), RunEffect), after)
    ensures Run(s, actions) == Run(Step(Run(s, before), RunEffect), after)
    decreases |actions|
  {
    var next := Step(s, actions[0]);
    if NoEffect(next, actions[1..]) {
      return [], actions[1..];
    }
    var early;
    early, after := SplitAtLastEffect(next, actions[1..]);
    before := [actions[0]] + early;
    assert before[1..] == early;
  }

  lemma {:induction false} DueEffectStaysDue(s: State, actions: seq<Action>)
    requires s.dirty && NoEffect(s, actions)
    ensures Run(s, actions).dirty
    decreases |actions|
  {
    if actions != [] {
      DueEffectStaysDue(Step(s, actions[0]), actions[1..]);
    }
  }

  lemma {:induction false} FreshAlongTheWay(s: State, before: seq<Action>, after: seq<Action>)
    requires AlwaysFresh(s, before + after)
    ensures AlwaysFresh(s, before) && AlwaysFresh(Run(s, before), after)
    decreases |before|
  {
    if before == [] {
      assert before + after == after;
    } else {
      assert (before + after)[1..] == before[1..] + after;
      FreshAlongTheWay(Step(s, before[0]), before[1..], after);
    }
  }

  lemma AnswerIsShown(s: State, a: Action)
    requires Inv(s) && s.race.Fresh() && (a.Expire? || a.Answer?)
    ensures Step(s, a).preview.Some? <==> s.preview.Some? || AnswersNewest(s, a)
  {
    if a.task in s.race.tasks {
      OnlyNewestPasses(s.race, a.task);
    }
  }

  lemma {:induction false} FieldIsLeftAlone(s: State, actions: seq<Action>)
    requires NoEffect(s, actions) && !s.dirty && !Run(s, actions).dirty
    ensures Run(s, actions).text == s.text && Run(s, actions).editing == s.editing
    decreases |actions|
  {
    if actions != [] {
      var next := Step(s, actions[0]);
      if next.dirty {
        DueEffectStaysDue(next, actions[1..]);
      } else {
        FieldIsLeftAlone(next, actions[1..]);
      }
    }
  }

  /** What the steps behind the last effect run can do. */
  lemma {:induction false} AfterLastEffect(s: State, actions: seq<Action>)
    requires Inv(s) && AlwaysFresh(s, actions) && NoEffect(s, actions) && !s.dirty
    requires !Run(s, actions).dirty && !(s.preview.Some? && s.race.runs in s.race.tasks)
    ensures var final := Run(s, actions);
            && !(final.preview.Some? && final.race.runs in final.race.tasks)
            && Inv(final) && final.race.runs == s.race.runs && final.latest == s.latest
            && (final.preview.Some? <==> s.preview.Some? || NewestIsAnswered(s, actions))
            && (Unsettled(final) <==> Unsettled(s))
    decreases |actions|
  {
    if actions != [] {
      var a, next := actions[0], Step(s, actions[0]);
      if a.Edit? || a.SetEditing? {
        DueEffectStaysDue(next, actions[1..]);
      } else {
        if !a.RunEffect? {
          StepSettles(s, a);
          AnswerIsShown(s, a);
        }
        AfterLastEffect(next, actions[1..]);
      }
    }
  }

  /** In every fresh run that ends with no effect due and nothing to preview, the field
      shows a preview if and only if the newest task has been answered since the last
      effect run, the one that cleared it. Once the field is quiet, that is: if and only if
      that task was still in flight at the clearing. It shows the verdict on the deleted text. */
  lemma EmptiedFieldShowsExactly(actions: seq<Action>) returns (before: seq<Action>, after: seq<Action>)
    requires AlwaysFresh(INITIAL, actions)
    requires !Run(INITIAL, actions).dirty && LeftBlank(actions)
    ensures actions == before + [RunEffect] + after
    ensures var clearing, final := Run(INITIAL, before), Run(INITIAL, actions);
            && clearing.dirty && clearing.Blank() && NoEffect(Step(clearing, RunEffect), after)
            && (final.preview.Some? <==> NewestIsAnswered(Step(clearing, RunEffect), after))
            && (final.Quiet() ==> (final.preview.Some? <==> clearing.race.runs in clearing.race.tasks))
            && (final.preview.Some? ==> final.preview.value.text == clearing.latest)
  {
    FieldFollowsInput(INITIAL, actions);
    if NoEffect(INITIAL, actions) {
      DueEffectStaysDue(INITIAL, actions);
    }
    before, after := SplitAtLastEffect(INITIAL, actions);
    var clearing := Run(INITIAL, before);
    var cleared := Step(clearing, RunEffect);
    assert actions == before + ([RunEffect] + after);
    FreshAlongTheWay(INITIAL, before, [RunEffect] + after);
    assert ([RunEffect] + after)[1..] == after;
    RunKeepsInv(INITIAL, before);
    EffectKeepsInv(clearing);
    FieldIsLeftAlone(cleared, after);
    AfterLastEffect(cleared, after);
  }

  // ------------------------------------------------------ the counter's limit

  function Rounds(text: string, n: nat): seq<Action> {
    if n == 0 then [] else [Edit(text), RunEffect] + Rounds(text, n - 1)
  }

  lemma {:induction false} AfterRounds(s: State, text: string, n: nat)
    requires Inv(s) && s.editing && Trim(text) != "" && 1 in s.race.tasks
    ensures var final := Run(s, Rounds(text, n));
            && final.race.Valid() && final.race.runs == s.race.runs + n
            && 1 in final.race.tasks && final.race.tasks[1] == s.race.tasks[1]
            && final.preview == s.preview
            && (n > 0 ==> final.latest == Trim(text) && final.text == text && !final.dirty)
    decreases n
  {
    if n > 0 {
      var edited := Step(s, Edit(text));
      var next := Step(edited, RunEffect);
      SpawnStaysValid(s.race, Trim(text));
      assert Rounds(text, n)[0] == Edit(text) && Rounds(text, n)[1..][0] == RunEffect;
      assert Rounds(text, n)[1..][1..] == Rounds(text, n - 1);
      assert Inv(next);
      AfterRounds(next, text, n - 1);
    }
  }

  /** One request sent for "a" and not yet answered. */
  function Waiting(): State {
    Step(Step(Step(INITIAL, Edit("a")), RunEffect), Expire(1))
  }

  lemma WaitingIsReached()
    ensures Waiting() == Run(INITIAL, [Edit("a"), RunEffect, Expire(1)])
    ensures Inv(Waiting()) && Waiting().editing && Waiting().preview == None
    ensures Waiting().race.runs == 1 && Waiting().race.tasks == map[1 := Task("a", 1, Asking)]
  {
    var actions := [Edit("a"), RunEffect, Expire(1)];
    assert actions[1..] == [RunEffect, Expire(1)];
    assert [RunEffect, Expire(1)][1..] == [Expire(1)] && [Expire(1)][1..] == [];
    var t := Step(INITIAL, Edit("a"));
    assert Trim("a") == "a";
    StepKeepsInv(INITIAL, Edit("a"));
    StepKeepsInv(t, RunEffect);
    FewRunsAreFresh(Step(t, RunEffect).race);
    StepKeepsInv(Step(t, RunEffect), Expire(1));
  }

  /** The limit is real, and exact: a request that stays unanswered for `n` further
      effect runs puts the verdict on an old text under a new one if and only if `n`
      is a multiple of 2^32. */
  lemma WrapAcceptsStaleAnswer(n: nat, outcome: Outcome)
    requires n > 0
    ensures var late := Step(Run(Waiting(), Rounds("b", n)), Answer(1, outcome));
            && !late.dirty && late.text == "b" && late.latest == "b"
            && late.preview == (if n % WIDTH == 0 then Some(Verdict("a", outcome)) else None)
  {
    WaitingIsReached();
    assert Trim("b") == "b";
    AfterRounds(Waiting(), "b", n);
    AcceptsExactly(Run(Waiting(), Rounds("b", n)).race, 1);
  }

  // ------------------------------------------------------------ the component

  /** The signals and the counter cell of one preview field. */
  class PreviewField {
    var schedule: string
    var editing: bool
    var effectDue: bool
    var generation: nat
    var tasks: map<nat, Task<string>>
    var preview: Option<Verdict>
    var spawned: nat
    ghost var latest: string
    ghost var cleared: bool

    constructor ()
      ensures Abstract() == INITIAL
    {
      schedule, editing, effectDue, generation, tasks := "", true, true, IDLE_GENERATION, map[];
      preview, latest, cleared, spawned := None, "", true, 0;
    }

    ghost function Abstract(): State
      reads this
    {
      State(schedule, editing, effectDue, Race(spawned, generation, tasks), preview, latest, cleared)
    }

    method OnInput(text: string)
      modifies this
      ensures Abstract() == Step(old(Abstract()), Edit(text))
    {
      schedule := text;
      effectDue := true;
    }

    method OnEditing(on: bool)
      modifies this
      ensures Abstract() == Step(old(Abstract()), SetEditing(on))
    {
      editing := on;
      effectDue := true;
    }

    method Effect()
      modifies this
      requires effectDue
      ensures Abstract() == Step(old(Abstract()), RunEffect)
    {
      effectDue := false;
      if !editing {
        preview := None;
        cleared := true;
        return;
      }
      var text := Trim(schedule);
      if text == "" {
        preview := None;
        cleared := true;
        return;
      }
      var mine := Bump(generation);
      generation := mine;
      spawned := spawned + 1;
      tasks := tasks[spawned := Task(text, mine, Sleeping)];
      latest, cleared := text, false;
    }

    method TimerExpires(task: nat)
      modifies this
      requires task in tasks && tasks[task].stage == Sleeping
      ensures Abstract() == Step(old(Abstract()), Expire(task))
    {
      if generation != tasks[task].mine {
        tasks := tasks - {task};
        return;
      }
      tasks := tasks[task := tasks[task].(stage := Asking)];
    }

    method ServerAnswers(task: nat, outcome: Outcome)
      modifies this
      requires task in tasks && tasks[task].stage == Asking
      ensures Abstract() == Step(old(Abstract()), Answer(task, outcome))
    {
      var text := tasks[task].payload;
      var mine := tasks[task].mine;
      tasks := tasks - {task};
      if generation != mine {
        return;
      }
      preview := Some(Verdict(text, outcome));
    }
  }
}
