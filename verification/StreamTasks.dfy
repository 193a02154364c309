/** How the stream tasks of the hub come and go: a dead stream is retried while somebody is
    subscribed, and every task ends after the last drop. */
module StreamTasks {
  import opened Text
  import opened LineSplit
  import opened EventHub

  // ----------------------------------------------------- a dead stream is retried

  /** A step that task `t` takes by itself: it wakes up, its connection succeeds, or its
      stream ends. */
  predicate OwnStep(a: Action, t: nat) {
    a == Wake(t) || a == Connected(t, true) || a == Closed(t)
  }

  predicate OwnSteps(actions: seq<Action>, t: nat) {
    forall i :: 0 <= i < |actions| ==> OwnStep(actions[i], t)
  }

  function Distance(phase: Phase): nat {
    match phase
    case Receiving(buffer) => if buffer == [] then 0 else 3
    case Connecting => 1
    case _ => 2
  }

  /** While somebody is subscribed no task is lost: wherever it stands, after a failed
      connection or with half a line kept from a stream that ended, its own steps alone
      bring it to receive on an empty buffer, and nothing else changes. */
  lemma {:induction false} DeadStreamIsRetried(read: Reader, s: State, t: nat) returns (steps: seq<Action>)
    requires Inv(s) && s.running && s.Ready(t)
    ensures OwnSteps(steps, t) && |steps| == Distance(s.tasks[t])
    ensures Run(read, s, steps) == s.(tasks := s.tasks[t := Receiving([])])
    decreases Distance(s.tasks[t])
  {
    if s.tasks[t] == Receiving([]) {
      assert s.tasks[t := Receiving([])] == s.tasks;
      return [];
    }
    var a := match s.tasks[t] case Receiving(_) => Closed(t) case Connecting => Connected(t, true) case _ => Wake(t);
    var next := Step(read, s, a);
    StepKeepsInv(read, s, a);
    var rest := DeadStreamIsRetried(read, next, t);
    steps := [a] + rest;
    assert steps[1..] == rest;
    assert next.tasks[t := Receiving([])] == s.tasks[t := Receiving([])];
  }

  lemma {:induction false} RunAppends(read: Reader, s: State, a: seq<Action>, b: seq<Action>)
    ensures Run(read, s, a + b) == Run(read, Run(read, s, a), b)
    decreases |a|
  {
    if a == [] {
      assert a + b == b;
    } else {
      assert (a + b)[1..] == a[1..] + b;
      RunAppends(read, Step(read, s, a[0]), a[1..], b);
    }
  }

  predicate NoSubscription(actions: seq<Action>) {
    forall i :: 0 <= i < |actions| ==> !actions[i].Subscribe? && !actions[i].Drop?
  }

  lemma {:induction false} ListenersStay(read: Reader, s: State, actions: seq<Action>)
    requires Inv(s) && NoSubscription(actions)
    ensures Run(read, s, actions).listeners == s.listeners && Run(read, s, actions).running == s.running
    decreases |actions|
  {
    if actions != [] {
      assert !actions[0].Subscribe? && !actions[0].Drop?;
      assert NoSubscription(actions[1..]);
      StepKeepsInv(read, s, actions[0]);
      ListenersStay(read, Step(read, s, actions[0]), actions[1..]);
    }
  }

  /** So after any run whatever that leaves somebody subscribed, every task alive can still
      get to a fresh connection, while nobody subscribes or drops. */
  lemma EveryTaskReceivesAgain(read: Reader, actions: seq<Action>, t: nat) returns (more: seq<Action>)
    requires Run(read, INITIAL, actions).listeners != {} && t in Run(read, INITIAL, actions).tasks
    ensures NoSubscription(more)
    ensures var s, final := Run(read, INITIAL, actions), Run(read, INITIAL, actions + more);
            && final.listeners == s.listeners && final.turn.None?
            && t in final.tasks && final.tasks[t] == Receiving([])
  {
    var s := Run(read, INITIAL, actions);
    RunKeepsInv(read, INITIAL, actions);
    var ending := TurnCanEnd(read, s);
    var mid := Run(read, s, ending);
    assert NoDrop(ending);
    assert NoSubscription(ending);
    RunKeepsInv(read, s, ending);
    TasksSurvive(read, s, ending);
    ListenersStay(read, s, ending);
    var own := DeadStreamIsRetried(read, mid, t);
    more := ending + own;
    RunAppends(read, s, ending, own);
    RunAppends(read, INITIAL, actions, more);
  }

  /** A connection that fails costs nothing but the wait: the same attempt stands open again. */
  lemma FailedAttemptIsForgotten(read: Reader, s: State, t: nat)
    requires s.running && s.Ready(t) && s.tasks[t].Paused?
    ensures Run(read, s, [Wake(t), Connected(t, false)]) == s
  {
    var connecting := Step(read, s, Wake(t));
    RunFrom(read, s, Wake(t), [Connected(t, false)], [Wake(t), Connected(t, false)]);
    RunOfOne(read, connecting, Connected(t, false));
    assert s.tasks[t := Connecting][t := Paused] == s.tasks;
  }

  predicate OffLine(s: State, t: nat) {
    t < s.spawned && (t in s.tasks ==> !s.tasks[t].Receiving? && !s.tasks[t].Delivering?)
  }

  predicate NeverConnects(actions: seq<Action>, t: nat) {
    forall i :: 0 <= i < |actions| ==> actions[i] != Connected(t, true)
  }

  /** And a dead stream is dead: until a new connection succeeds the task receives nothing. */
  lemma {:induction false} OffLineReceivesNothing(read: Reader, s: State, actions: seq<Action>, t: nat)
    requires Inv(s) && OffLine(s, t) && NeverConnects(actions, t)
    ensures OffLine(Run(read, s, actions), t) && Chunks(read, s, actions, t) == []
    decreases |actions|
  {
    if actions != [] {
      assert actions[0] != Connected(t, true);
      assert NeverConnects(actions[1..], t);
      StepKeepsInv(read, s, actions[0]);
      OffLineReceivesNothing(read, Step(read, s, actions[0]), actions[1..], t);
    }
  }

  // ---------------------------------------------------- after the last drop

  predicate NobodySubscribes(actions: seq<Action>) {
    forall i :: 0 <= i < |actions| ==> !actions[i].Subscribe?
  }

  /** The task stands where it stood, or delivers the chunk it was waiting for. */
  predicate NoFurther(before: State, after: State, t: nat) {
    && t in before.tasks && t in after.tasks
    && (after.tasks[t] == before.tasks[t] || (before.tasks[t].Receiving? && after.tasks[t].Delivering?))
  }

  /** Once the flag is down, no task ever gets to its next wait: it stands still, delivers
      one last chunk, or has ended. */
  lemma {:induction false} LoweredFlagStopsTasks(read: Reader, s: State, actions: seq<Action>, t: nat)
    requires Inv(s) && !s.running && NobodySubscribes(actions)
    ensures !Run(read, s, actions).running
    ensures t in Run(read, s, actions).tasks ==> NoFurther(s, Run(read, s, actions), t)
    decreases |actions|
  {
    if actions != [] {
      var next := Step(read, s, actions[0]);
      assert !actions[0].Subscribe?;
      assert NobodySubscribes(actions[1..]);
      StepKeepsInv(read, s, actions[0]);
      LoweredFlagStopsTasks(read, next, actions[1..], t);
      assert t in next.tasks ==> NoFurther(s, next, t);
    }
  }

  /** And every task can end: one step of its own each is enough, once the chunk being
      delivered is finished. */
  lemma {:induction false} EveryTaskCanEnd(read: Reader, s: State) returns (steps: seq<Action>)
    requires Inv(s) && !s.running && s.turn.None?
    ensures NobodySubscribes(steps) && |steps| == |s.tasks|
    ensures Run(read, s, steps).tasks == map[]
    decreases |s.tasks|
  {
    if s.tasks == map[] {
      return [];
    }
    var t :| t in s.tasks;
    var a := match s.tasks[t] case Receiving(_) => Closed(t) case Connecting => Connected(t, true) case _ => Wake(t);
    var next := Step(read, s, a);
    StepKeepsInv(read, s, a);
    Count(next.tasks, s.tasks, t);
    var rest := EveryTaskCanEnd(read, next);
    steps := [a] + rest;
    assert steps[1..] == rest;
  }
}
