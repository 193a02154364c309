/** The shared change stream: subscribers come and go, one flag says whether a stream
    is wanted, and background tasks read the stream until they see the flag down. */
module EventHub {
  import opened Text
  import opened LineSplit
  import opened FrameReader

  datatype ChangeKind = Roster | Approvals | Questions | Working | Memory

  /** The kinds that one line of the stream announces. */
  type Reader = seq<Byte> -> seq<ChangeKind>

  /** Where a stream task is: waiting for something, or in the middle of a chunk. */
  datatype Phase =
    | Queued
    | Connecting
    | Receiving(buffer: seq<Byte>)
    | Delivering
    | Paused

  /** One kind being announced: the subscribers found when it began that are still to be
      called, in whatever order. */
  datatype Round = Round(kind: ChangeKind, ids: set<nat>)

  /** What the one task that holds the thread is doing with the chunk it received: the
      round under way, the kinds after it, and the bytes kept for the next chunk. */
  datatype Turn = Turn(task: nat, round: Option<Round>, queue: seq<ChangeKind>, buffer: seq<Byte>)

  /** All tasks share one thread, so between two waits of one task no other task moves;
      but a callback may subscribe and drop. `heard` is history: what each subscriber's
      callback has been called with. */
  datatype State = State(
    listeners: set<nat>,
    nextId: nat,
    running: bool,
    tasks: map<nat, Phase>,
    spawned: nat,
    turn: Option<Turn>,
    heard: map<nat, seq<ChangeKind>>)
  {
    function Spawn(): State {
      this.(tasks := tasks[spawned := Queued], spawned := spawned + 1)
    }

    /** A task looks at the flag: it goes on to `next`, or it returns. */
    function Check(t: nat, next: Phase): State {
      if running then this.(tasks := tasks[t := next]) else this.(tasks := tasks - {t})
    }

    /** No task holds the thread, and `t` is alive. */
    predicate Ready(t: nat) {
      turn.None? && t in tasks
    }

    function Heard(id: nat): seq<ChangeKind> {
      if id in heard then heard[id] else []
    }

    /** The call that the round under way still owes to a callback. */
    function Owed(id: nat): seq<ChangeKind> {
      if turn.Some? && turn.value.round.Some? && id in turn.value.round.value.ids then [turn.value.round.value.kind]
      else []
    }
  }

  datatype Action =
    | Subscribe
    | Drop(id: nat)
    | Wake(task: nat)
    | Connected(task: nat, ok: bool)
    | Chunk(task: nat, bytes: seq<Byte>)
    | NextRound
    | Call(listener: nat)
    | Closed(task: nat)

  const INITIAL := State({}, 0, false, map[], 0, None, map[])

  function RoundOf(kind: ChangeKind, ids: set<nat>): Option<Round> {
    if ids == {} then None else Some(Round(kind, ids))
  }

  /** Between two rounds: the next kind goes to everyone subscribed now; when there is
      none the task looks at the flag and reads on. */
  function BeginRound(s: State, w: Turn): State {
    if w.queue == [] then s.(turn := None).Check(w.task, Receiving(w.buffer))
    else s.(turn := Some(w.(round := RoundOf(w.queue[0], s.listeners), queue := w.queue[1..])))
  }

  function CallBack(s: State, w: Turn, r: Round, id: nat): State {
    s.(heard := s.heard[id := s.Heard(id) + [r.kind]], turn := Some(w.(round := RoundOf(r.kind, r.ids - {id}))))
  }

  /** One step; an action that is not enabled changes nothing. */
  function Step(read: Reader, s: State, a: Action): State {
    match a
    case Subscribe =>
      var added := s.(listeners := s.listeners + {s.nextId}, nextId := s.nextId + 1, running := true);
      if s.running then added else added.Spawn()
    case Drop(id) =>
      if id !in s.listeners then s
      else
        var left := s.listeners - {id};
        s.(listeners := left, running := s.running && left != {})
    case Wake(t) =>
      if s.Ready(t) && (s.tasks[t].Queued? || s.tasks[t].Paused?) then s.Check(t, Connecting) else s
    case Connected(t, ok) =>
      if s.Ready(t) && s.tasks[t].Connecting? then s.Check(t, if ok then Receiving([]) else Paused) else s
    case Chunk(t, bytes) =>
      if s.Ready(t) && s.tasks[t].Receiving? then
        var whole := s.tasks[t].buffer;
        s.(tasks := s.tasks[t := Delivering],
           turn := Some(Turn(t, None, FedEvents(read, whole, bytes), Rest(whole + bytes))))
      else s
    case NextRound =>
      if s.turn.Some? && s.turn.value.round.None? then BeginRound(s, s.turn.value) else s
    case Call(id) =>
      if s.turn.Some? && s.turn.value.round.Some? && id in s.turn.value.round.value.ids then
        CallBack(s, s.turn.value, s.turn.value.round.value, id)
      else s
    case Closed(t) =>
      if s.Ready(t) && s.tasks[t].Receiving? then s.Check(t, Paused) else s
  }

  function Run(read: Reader, s: State, actions: seq<Action>): State
    decreases |actions|
  {
    if actions == [] then s else Run(read, Step(read, s, actions[0]), actions[1..])
  }

  // ----------------------------------------------------------------- invariant

  ghost predicate Inv(s: State) {
    && (s.running <==> s.listeners != {})
    && (s.running ==> s.tasks != map[])
    && (forall id :: id in s.listeners || id in s.heard ==> id < s.nextId)
    && (forall t :: t in s.tasks ==> t < s.spawned)
    && (forall t :: t in s.tasks && s.tasks[t].Delivering? ==> s.turn.Some? && s.turn.value.task == t)
    && (forall t :: t in s.tasks && s.tasks[t].Receiving? ==> Quiet(s.tasks[t].buffer))
    && (s.turn.Some? ==> TurnInv(s, s.turn.value))
  }

  ghost predicate TurnInv(s: State, w: Turn) {
    && w.task in s.tasks && s.tasks[w.task].Delivering? && Quiet(w.buffer)
    && (w.round.Some? ==> w.round.value.ids != {} && forall id :: id in w.round.value.ids ==> id < s.nextId)
  }

  lemma StepKeepsInv(read: Reader, s: State, a: Action)
    requires Inv(s)
    ensures Inv(Step(read, s, a))
  {
    match a
    case Subscribe =>
      assert s.nextId in Step(read, s, a).listeners;
      if !s.running { assert s.spawned in Step(read, s, a).tasks; }
    case Drop(id) =>
    case Wake(t) => CheckKeepsTasks(s, t, Connecting);
    case Connected(t, ok) => CheckKeepsTasks(s, t, if ok then Receiving([]) else Paused);
    case Chunk(t, bytes) => ChunkKeepsInv(read, s, t, bytes);
    case NextRound => RoundKeepsInv(read, s);
    case Call(id) =>
    case Closed(t) => CheckKeepsTasks(s, t, Paused);
  }

  lemma ChunkKeepsInv(read: Reader, s: State, t: nat, bytes: seq<Byte>)
    requires Inv(s)
    ensures Inv(Step(read, s, Chunk(t, bytes)))
  {
    if s.Ready(t) && s.tasks[t].Receiving? {
      var whole := s.tasks[t].buffer;
      SplitIsQuiet(whole + bytes);
      ChunkStarts(read, s, t, whole, bytes, FedEvents(read, whole, bytes));
      assert t in Step(read, s, Chunk(t, bytes)).tasks;
    }
  }

  lemma CheckKeepsTasks(s: State, t: nat, next: Phase)
    ensures s.running ==> t in s.Check(t, next).tasks && s.Check(t, next).tasks != map[]
  {
    assert s.running ==> t in s.Check(t, next).tasks;
  }

  lemma RoundKeepsInv(read: Reader, s: State)
    requires Inv(s)
    ensures Inv(Step(read, s, NextRound))
  {
    if s.turn.Some? && s.turn.value.round.None? {
      var w := s.turn.value;
      CheckKeepsTasks(s.(turn := None), w.task, Receiving(w.buffer));
    }
  }

  /** In every interleaving: the flag is up exactly while somebody is subscribed, and
      then at least one stream task is alive. */
  lemma {:induction false} RunKeepsInv(read: Reader, s: State, actions: seq<Action>)
    requires Inv(s)
    ensures Inv(Run(read, s, actions))
    decreases |actions|
  {
    if actions != [] {
      StepKeepsInv(read, s, actions[0]);
      RunKeepsInv(read, Step(read, s, actions[0]), actions[1..]);
    }
  }

  lemma FlagMeansSubscribed(read: Reader, actions: seq<Action>)
    ensures var s := Run(read, INITIAL, actions);
            && (s.running <==> s.listeners != {})
            && (s.listeners != {} ==> |s.tasks| >= 1)
  {
    RunKeepsInv(read, INITIAL, actions);
    var s := Run(read, INITIAL, actions);
    if s.tasks != map[] {
      var t :| t in s.tasks;
      assert |s.tasks| != 0;
    }
  }

  // ------------------------------------------------------------- subscriptions

  lemma {:induction false} IdsOnlyGrow(read: Reader, s: State, actions: seq<Action>)
    ensures Run(read, s, actions).nextId >= s.nextId
    decreases |actions|
  {
    if actions != [] {
      IdsOnlyGrow(read, Step(read, s, actions[0]), actions[1..]);
    }
  }

  /** A drop takes away its own listener and no other: since the subscription that
      created it nobody else was ever given its id, and the drop touches nothing else. */
  lemma DropIsItsOwn(read: Reader, s: State, between: seq<Action>)
    requires Inv(s)
    ensures var id := s.nextId;
            var subscribed := Step(read, s, Subscribe);
            var before := Run(read, subscribed, between);
            var after := Step(read, before, Drop(id));
            && id !in s.listeners && id in subscribed.listeners
            && (forall k :: 0 <= k <= |between| ==> Run(read, subscribed, between[..k]).nextId > id)
            && after.listeners == before.listeners - {id}
            && after.tasks == before.tasks && after.heard == before.heard && after.turn == before.turn
  {
    var subscribed := Step(read, s, Subscribe);
    forall k | 0 <= k <= |between| ensures Run(read, subscribed, between[..k]).nextId > s.nextId {
      IdsOnlyGrow(read, subscribed, between[..k]);
    }
  }

  /** A dropped id never comes back. */
  lemma {:induction false} DroppedStaysOut(read: Reader, s: State, actions: seq<Action>, id: nat)
    requires Inv(s) && id < s.nextId && id !in s.listeners
    ensures id !in Run(read, s, actions).listeners
    decreases |actions|
  {
    if actions != [] {
      StepKeepsInv(read, s, actions[0]);
      DroppedStaysOut(read, Step(read, s, actions[0]), actions[1..], id);
    }
  }

  // ------------------------------------------------------------- how many tasks

  /** A subscription that raises the flag again while an old task has not seen it down. */
  predicate Revives(s: State, a: Action) {
    a.Subscribe? && !s.running && s.tasks != map[]
  }

  predicate NeverRevives(read: Reader, s: State, actions: seq<Action>)
    decreases |actions|
  {
    actions == [] || (!Revives(s, actions[0]) && NeverRevives(read, Step(read, s, actions[0]), actions[1..]))
  }

  predicate AtMostOneThroughout(read: Reader, s: State, actions: seq<Action>)
    decreases |actions|
  {
    |s.tasks| <= 1 && (actions == [] || AtMostOneThroughout(read, Step(read, s, actions[0]), actions[1..]))
  }

  predicate Spawns(s: State, a: Action) {
    a.Subscribe? && !s.running
  }

  lemma KeysAfterStep(read: Reader, s: State, a: Action)
    requires Inv(s)
    ensures var next := Step(read, s, a);
            if Spawns(s, a) then next.tasks.Keys == s.tasks.Keys + {s.spawned} else next.tasks.Keys <= s.tasks.Keys
  {
  }

  lemma CountAfterStep(read: Reader, s: State, a: Action)
    requires Inv(s)
    ensures var next := Step(read, s, a);
            if Spawns(s, a) then |next.tasks| == |s.tasks| + 1 else |next.tasks| <= |s.tasks|
  {
    KeysAfterStep(read, s, a);
    Count(s.tasks, Step(read, s, a).tasks, s.spawned);
  }

  lemma Count(before: map<nat, Phase>, after: map<nat, Phase>, t: nat)
    ensures after.Keys == before.Keys + {t} && t !in before ==> |after| == |before| + 1
    ensures after.Keys <= before.Keys ==> |after| <= |before|
  {
    assert |before.Keys| == |before| && |after.Keys| == |after|;
    if after.Keys <= before.Keys {
      SubsetIsSmaller(after.Keys, before.Keys);
    }
  }

  lemma SubsetIsSmaller(a: set<nat>, b: set<nat>)
    requires a <= b
    ensures |a| <= |b|
  {
    assert b == a + (b - a);
  }

  /** At most one task is alive throughout a run if and only if no subscription in it
      revives the flag while an old task is still alive. */
  lemma {:induction false} AtMostOneExactly(read: Reader, s: State, actions: seq<Action>)
    requires Inv(s) && |s.tasks| <= 1
    ensures AtMostOneThroughout(read, s, actions) <==> NeverRevives(read, s, actions)
    decreases |actions|
  {
    if actions != [] {
      var next := Step(read, s, actions[0]);
      StepKeepsInv(read, s, actions[0]);
      CountAfterStep(read, s, actions[0]);
      if |next.tasks| <= 1 {
        AtMostOneExactly(read, next, actions[1..]);
      } else {
        assert s.tasks != map[];
      }
      if Revives(s, actions[0]) {
        var t :| t in s.tasks;
        assert |s.tasks| == 1;
      }
    }
  }

  /** The revival is real: subscribe, drop and subscribe again leave two tasks. */
  lemma ReviveLeavesTwo(read: Reader)
    ensures Run(read, INITIAL, [Subscribe, Drop(0), Subscribe]).tasks == map[0 := Queued, 1 := Queued]
    ensures Run(read, INITIAL, [Subscribe, Drop(0), Subscribe]).listeners == {1}
  {
    var s1 := Step(read, INITIAL, Subscribe);
    var s2 := Step(read, s1, Drop(0));
    var s3 := Step(read, s2, Subscribe);
    var actions := [Subscribe, Drop(0), Subscribe];
    assert actions[1..] == [Drop(0), Subscribe] && [Drop(0), Subscribe][1..] == [Subscribe] && [Subscribe][1..] == [];
    assert s2.listeners == {};
    assert Run(read, INITIAL, actions) == s3;
  }

  predicate NoDrop(actions: seq<Action>) {
    forall i :: 0 <= i < |actions| ==> !actions[i].Drop?
  }

  /** And it does not heal by itself: while nobody drops, no running task ever ends. */
  lemma {:induction false} TasksSurvive(read: Reader, s: State, actions: seq<Action>)
    requires Inv(s) && s.running && NoDrop(actions)
    ensures s.tasks.Keys <= Run(read, s, actions).tasks.Keys
    decreases |actions|
  {
    if actions != [] {
      assert !actions[0].Drop?;
      var next := Step(read, s, actions[0]);
      StepKeepsInv(read, s, actions[0]);
      assert next.running && s.tasks.Keys <= next.tasks.Keys;
      assert NoDrop(actions[1..]);
      TasksSurvive(read, next, actions[1..]);
    }
  }

  // ------------------------------------------------------- what subscribers hear

  /** The round a step begins: the task it belongs to, and its kind. */
  function Begins(s: State, a: Action): seq<(nat, ChangeKind)> {
    if a.NextRound? && s.turn.Some? && s.turn.value.round.None? && s.turn.value.queue != [] then
      [(s.turn.value.task, s.turn.value.queue[0])]
    else []
  }

  /** The rounds of a run, in order. */
  function Announced(read: Reader, s: State, actions: seq<Action>): seq<(nat, ChangeKind)>
    decreases |actions|
  {
    if actions == [] then [] else Begins(s, actions[0]) + Announced(read, Step(read, s, actions[0]), actions[1..])
  }

  function Kinds(rounds: seq<(nat, ChangeKind)>): seq<ChangeKind> {
    if rounds == [] then [] else [rounds[0].1] + Kinds(rounds[1..])
  }

  /** The kinds of the rounds that began while `id` was subscribed. */
  function Due(read: Reader, s: State, actions: seq<Action>, id: nat): seq<ChangeKind>
    decreases |actions|
  {
    if actions == [] then []
    else
      (if id in s.listeners then Kinds(Begins(s, actions[0])) else [])
      + Due(read, Step(read, s, actions[0]), actions[1..], id)
  }

  lemma HearingStep(read: Reader, s: State, a: Action, id: nat)
    requires Inv(s)
    ensures var next := Step(read, s, a);
            next.Heard(id) + next.Owed(id) ==
            s.Heard(id) + s.Owed(id) + (if id in s.listeners then Kinds(Begins(s, a)) else [])
  {
    var next := Step(read, s, a);
    if a.NextRound? && Begins(s, a) != [] {
      assert Begins(s, a)[1..] == [];
      assert Kinds(Begins(s, a)) == [s.turn.value.queue[0]];
      assert s.Owed(id) == [];
    } else if a.Call? && a.listener == id && s.Owed(id) != [] {
      assert next.Heard(id) == s.Heard(id) + s.Owed(id);
    } else {
      assert next.Heard(id) == s.Heard(id) && next.Owed(id) == s.Owed(id);
    }
  }

  /** In every interleaving a callback hears exactly the rounds that began while it was
      subscribed, in order; the last of them may still be owed to it. */
  lemma {:induction false} HearsExactlyItsRounds(read: Reader, s: State, actions: seq<Action>, id: nat)
    requires Inv(s)
    ensures var final := Run(read, s, actions);
            final.Heard(id) + final.Owed(id) == s.Heard(id) + s.Owed(id) + Due(read, s, actions, id)
    decreases |actions|
  {
    if actions != [] {
      var next := Step(read, s, actions[0]);
      var due := if id in s.listeners then Kinds(Begins(s, actions[0])) else [];
      StepKeepsInv(read, s, actions[0]);
      HearingStep(read, s, actions[0], id);
      HearsExactlyItsRounds(read, next, actions[1..], id);
      AppendIsAssociative(s.Heard(id) + s.Owed(id), due, Due(read, next, actions[1..], id));
    }
  }

  lemma {:induction false} NothingIsDue(read: Reader, s: State, actions: seq<Action>, id: nat)
    requires Inv(s) && id < s.nextId && id !in s.listeners
    ensures Due(read, s, actions, id) == []
    decreases |actions|
  {
    if actions != [] {
      StepKeepsInv(read, s, actions[0]);
      NothingIsDue(read, Step(read, s, actions[0]), actions[1..], id);
    }
  }

  /** What a dropped callback still hears is the round that had found it before the drop. */
  lemma DroppedHearsItsRound(read: Reader, s: State, actions: seq<Action>, id: nat)
    requires Inv(s) && id < s.nextId && id !in s.listeners
    ensures var final := Run(read, s, actions);
            && id !in final.listeners
            && final.Heard(id) + final.Owed(id) == s.Heard(id) + s.Owed(id)
  {
    DroppedStaysOut(read, s, actions, id);
    HearsExactlyItsRounds(read, s, actions, id);
    NothingIsDue(read, s, actions, id);
  }

  /** It hears nothing more, whatever happens, exactly when no such round is under way. */
  lemma DroppedHearsNoMoreExactly(read: Reader, s: State, id: nat)
    requires Inv(s) && id < s.nextId && id !in s.listeners
    ensures (forall actions :: Run(read, s, actions).Heard(id) == s.Heard(id)) <==> s.Owed(id) == []
  {
    if s.Owed(id) != [] {
      RunOfOne(read, s, Call(id));
      CallIsHeard(read, s, id);
    } else {
      forall actions ensures Run(read, s, actions).Heard(id) == s.Heard(id) {
        NothingOwedNothingHeard(read, s, actions, id);
      }
    }
  }

  lemma NothingOwedNothingHeard(read: Reader, s: State, actions: seq<Action>, id: nat)
    requires Inv(s) && id < s.nextId && id !in s.listeners && s.Owed(id) == []
    ensures Run(read, s, actions).Heard(id) == s.Heard(id)
  {
    var final := Run(read, s, actions);
    DroppedHearsItsRound(read, s, actions, id);
    NothingOwedStays(read, s, actions, id);
    assert final.Heard(id) + [] == final.Heard(id) && s.Heard(id) + [] == s.Heard(id);
  }

  lemma CallIsHeard(read: Reader, s: State, id: nat)
    requires s.Owed(id) != []
    ensures Step(read, s, Call(id)).Heard(id) == s.Heard(id) + s.Owed(id)
    ensures |Step(read, s, Call(id)).Heard(id)| == |s.Heard(id)| + 1
  {
  }

  lemma {:induction false} NothingOwedStays(read: Reader, s: State, actions: seq<Action>, id: nat)
    requires Inv(s) && id < s.nextId && id !in s.listeners && s.Owed(id) == []
    ensures Run(read, s, actions).Owed(id) == []
    decreases |actions|
  {
    if actions != [] {
      StepKeepsInv(read, s, actions[0]);
      NothingOwedStays(read, Step(read, s, actions[0]), actions[1..], id);
    }
  }

  lemma RunOfOne(read: Reader, s: State, a: Action)
    ensures Run(read, s, [a]) == Step(read, s, a)
  {
    assert [a][1..] == [];
  }

  /** Two subscribers, and a connection about to receive. */
  const OPEN := State({0, 1}, 2, true, map[0 := Receiving([])], 1, None, map[])

  lemma RunFrom(read: Reader, s: State, a: Action, rest: seq<Action>, actions: seq<Action>)
    requires actions == [a] + rest
    ensures Run(read, s, actions) == Run(read, Step(read, s, a), rest)
  {
    assert actions[1..] == rest;
  }

  lemma OpenIsReached(read: Reader)
    ensures Run(read, INITIAL, [Subscribe, Subscribe, Wake(0), Connected(0, true)]) == OPEN
  {
    var s1 := Step(read, INITIAL, Subscribe);
    var s2 := Step(read, s1, Subscribe);
    assert s2 == State({0, 1}, 2, true, map[0 := Queued], 1, None, map[]);
    var s3 := Step(read, s2, Wake(0));
    assert s3 == State({0, 1}, 2, true, map[0 := Connecting], 1, None, map[]);
    RunFrom(read, INITIAL, Subscribe, [Subscribe, Wake(0), Connected(0, true)],
            [Subscribe, Subscribe, Wake(0), Connected(0, true)]);
    RunFrom(read, s1, Subscribe, [Wake(0), Connected(0, true)], [Subscribe, Wake(0), Connected(0, true)]);
    RunFrom(read, s2, Wake(0), [Connected(0, true)], [Wake(0), Connected(0, true)]);
    RunOfOne(read, s3, Connected(0, true));
  }

  lemma ChunkStarts(read: Reader, s: State, t: nat, whole: seq<Byte>, bytes: seq<Byte>, queue: seq<ChangeKind>)
    requires s.Ready(t) && s.tasks[t] == Receiving(whole) && queue == FedEvents(read, whole, bytes)
    ensures var next := Step(read, s, Chunk(t, bytes));
            && next == s.(tasks := s.tasks[t := Delivering], turn := next.turn)
            && next.turn == Some(Turn(t, None, queue, Rest(whole + bytes)))
  {
  }

  /** Such a round is real: whenever one begins for two subscribers and the callback of the
      first drops the second, the second is called all the same, after its drop. */
  lemma DroppedIsStillCalled(read: Reader, s: State, w: Turn, a: nat, b: nat)
    requires s.turn == Some(w) && w.round.None? && w.queue != []
    requires a in s.listeners && b in s.listeners && a != b
    ensures var dropped := Step(read, Step(read, Step(read, s, NextRound), Call(a)), Drop(b));
            && b !in dropped.listeners && dropped.Heard(b) == s.Heard(b)
            && Step(read, dropped, Call(b)).Heard(b) == s.Heard(b) + [w.queue[0]]
  {
    var begun := Step(read, s, NextRound);
    var called := Step(read, begun, Call(a));
    assert begun.turn.value.round == Some(Round(w.queue[0], s.listeners));
    assert b in s.listeners - {a};
    assert called.Owed(b) == [w.queue[0]] && called.Heard(b) == s.Heard(b);
    DropLeavesRound(read, called, b);
    CallIsHeard(read, Step(read, called, Drop(b)), b);
  }

  /** From the start: two subscriptions, one connection, one chunk announcing one kind. */
  lemma DroppedIsStillCalledAtFirst(read: Reader, bytes: seq<Byte>, kind: ChangeKind)
    requires FedEvents(read, [], bytes) == [kind]
    ensures var open := Run(read, INITIAL, [Subscribe, Subscribe, Wake(0), Connected(0, true)]);
            var begun := Step(read, Step(read, open, Chunk(0, bytes)), NextRound);
            var dropped := Step(read, Step(read, begun, Call(0)), Drop(1));
            && 1 !in dropped.listeners && dropped.Heard(1) == []
            && Step(read, dropped, Call(1)).Heard(1) == [kind]
  {
    OpenIsReached(read);
    var received := Step(read, OPEN, Chunk(0, bytes));
    ChunkStarts(read, OPEN, 0, [], bytes, [kind]);
    assert received.Heard(1) == [];
    DroppedIsStillCalled(read, received, received.turn.value, 0, 1);
  }

  lemma DropLeavesRound(read: Reader, s: State, id: nat)
    ensures var dropped := Step(read, s, Drop(id));
            id !in dropped.listeners && dropped.Heard(id) == s.Heard(id) && dropped.Owed(id) == s.Owed(id)
  {
  }

  predicate NeverDrops(actions: seq<Action>, id: nat) {
    forall i :: 0 <= i < |actions| ==> actions[i] != Drop(id)
  }

  lemma {:induction false} AllIsDue(read: Reader, s: State, actions: seq<Action>, id: nat)
    requires id in s.listeners && NeverDrops(actions, id)
    ensures Due(read, s, actions, id) == Kinds(Announced(read, s, actions))
    ensures id in Run(read, s, actions).listeners
    decreases |actions|
  {
    if actions != [] {
      var next := Step(read, s, actions[0]);
      assert actions[0] != Drop(id);
      assert NeverDrops(actions[1..], id);
      AllIsDue(read, next, actions[1..], id);
      KindsAppend(Begins(s, actions[0]), Announced(read, next, actions[1..]));
    }
  }

  lemma {:induction false} KindsAppend(a: seq<(nat, ChangeKind)>, b: seq<(nat, ChangeKind)>)
    ensures Kinds(a + b) == Kinds(a) + Kinds(b)
    decreases |a|
  {
    if a == [] {
      assert a + b == b;
    } else {
      assert (a + b)[1..] == a[1..] + b;
      KindsAppend(a[1..], b);
    }
  }

  // --------------------------------------------- what the streams contribute

  /** The kinds that belong to task `t`. */
  function OfTask(rounds: seq<(nat, ChangeKind)>, t: nat): seq<ChangeKind> {
    if rounds == [] then []
    else (if rounds[0].0 == t then [rounds[0].1] else []) + OfTask(rounds[1..], t)
  }

  lemma {:induction false} OfTaskAppend(a: seq<(nat, ChangeKind)>, b: seq<(nat, ChangeKind)>, t: nat)
    ensures OfTask(a + b, t) == OfTask(a, t) + OfTask(b, t)
    decreases |a|
  {
    if a == [] {
      assert a + b == b;
    } else {
      assert (a + b)[1..] == a[1..] + b;
      OfTaskAppend(a[1..], b, t);
      AppendIsAssociative(if a[0].0 == t then [a[0].1] else [], OfTask(a[1..], t), OfTask(b, t));
    }
  }

  /** The step is a chunk that task `t` is waiting for. */
  predicate Receives(s: State, a: Action, t: nat) {
    a.Chunk? && a.task == t && s.Ready(t) && s.tasks[t].Receiving?
  }

  /** The chunks that task `t` receives in a run. */
  function Chunks(read: Reader, s: State, actions: seq<Action>, t: nat): seq<seq<Byte>>
    decreases |actions|
  {
    if actions == [] then []
    else
      (if Receives(s, actions[0], t) then [actions[0].bytes] else [])
      + Chunks(read, Step(read, s, actions[0]), actions[1..], t)
  }

  /** The kinds decoded from them, over all connections of the task. */
  function Decodes(read: Reader, s: State, a: Action, t: nat): seq<ChangeKind> {
    if Receives(s, a, t) then FedEvents(read, s.tasks[t].buffer, a.bytes) else []
  }

  function Received(read: Reader, s: State, actions: seq<Action>, t: nat): seq<ChangeKind>
    decreases |actions|
  {
    if actions == [] then []
    else Decodes(read, s, actions[0], t) + Received(read, Step(read, s, actions[0]), actions[1..], t)
  }

  function Waiting(s: State, t: nat): seq<ChangeKind> {
    if s.turn.Some? && s.turn.value.task == t then s.turn.value.queue else []
  }

  lemma OneOfTask(t: nat, kind: ChangeKind, u: nat)
    ensures OfTask([(t, kind)], u) == if t == u then [kind] else []
  {
    assert [(t, kind)][1..] == [];
  }

  lemma BeginningStep(read: Reader, s: State, w: Turn, t: nat)
    requires s.turn == Some(w) && w.round.None? && w.queue != []
    ensures OfTask(Begins(s, NextRound), t) + Waiting(Step(read, s, NextRound), t) == Waiting(s, t)
  {
    OneOfTask(w.task, w.queue[0], t);
    assert [w.queue[0]] + w.queue[1..] == w.queue;
  }

  lemma OtherStep(read: Reader, s: State, a: Action, t: nat)
    requires Begins(s, a) == []
    ensures Waiting(Step(read, s, a), t) == if Receives(s, a, t) then Decodes(read, s, a, t) else Waiting(s, t)
    ensures Receives(s, a, t) ==> Waiting(s, t) == []
  {
  }

  lemma StreamStep(read: Reader, s: State, a: Action, t: nat)
    ensures OfTask(Begins(s, a), t) + Waiting(Step(read, s, a), t) == Waiting(s, t) + Decodes(read, s, a, t)
  {
    if Begins(s, a) != [] {
      BeginningStep(read, s, s.turn.value, t);
      assert Waiting(s, t) + [] == Waiting(s, t);
    } else {
      OtherStep(read, s, a, t);
      var after := Waiting(Step(read, s, a), t);
      assert [] + after == after == after + [];
    }
  }

  lemma Chained<T>(a0: seq<T>, a: seq<T>, q: seq<T>, r0: seq<T>, q': seq<T>, r: seq<T>, last: seq<T>)
    requires a0 + q' == q + r0 && a + last == q' + r
    ensures a0 + a + last == q + (r0 + r)
  {
    AppendIsAssociative(a0, a, last);
    AppendIsAssociative(a0, q', r);
    AppendIsAssociative(q, r0, r);
  }

  /** In every interleaving the rounds of one task are, in order, the kinds decoded from
      its chunks; those not yet announced are still in its queue. */
  lemma {:induction false} RoundsAreStreams(read: Reader, s: State, actions: seq<Action>, t: nat)
    ensures OfTask(Announced(read, s, actions), t) + Waiting(Run(read, s, actions), t) ==
            Waiting(s, t) + Received(read, s, actions, t)
    decreases |actions|
  {
    if actions != [] {
      var next := Step(read, s, actions[0]);
      StreamStep(read, s, actions[0], t);
      RoundsAreStreams(read, next, actions[1..], t);
      OfTaskAppend(Begins(s, actions[0]), Announced(read, next, actions[1..]), t);
      Chained(OfTask(Begins(s, actions[0]), t), OfTask(Announced(read, next, actions[1..]), t), Waiting(s, t),
              Decodes(read, s, actions[0], t), Waiting(next, t), Received(read, next, actions[1..], t),
              Waiting(Run(read, s, actions), t));
    } else {
      assert Waiting(s, t) + [] == [] + Waiting(s, t);
    }
  }

  /** The task is in one connection, or gone for good. */
  predicate OnLine(s: State, t: nat) {
    t < s.spawned && (t in s.tasks ==> s.tasks[t].Receiving? || s.tasks[t].Delivering?)
  }

  /** What the connection has kept of the bytes so far. */
  function Kept(s: State, t: nat): seq<Byte> {
    if t in s.tasks && s.tasks[t].Receiving? then s.tasks[t].buffer
    else if s.turn.Some? && s.turn.value.task == t then s.turn.value.buffer
    else []
  }

  predicate NeverCloses(actions: seq<Action>, t: nat) {
    forall i :: 0 <= i < |actions| ==> actions[i] != Closed(t)
  }

  lemma KeptChunk(read: Reader, s: State, u: nat, bytes: seq<Byte>, t: nat)
    requires Inv(s) && OnLine(s, t)
    ensures var next := Step(read, s, Chunk(u, bytes));
            && OnLine(next, t)
            && (Receives(s, Chunk(u, bytes), t) ==> t in next.tasks && Kept(next, t) == Rest(Kept(s, t) + bytes))
            && (!Receives(s, Chunk(u, bytes), t) && t in next.tasks ==> Kept(next, t) == Kept(s, t))
  {
  }

  lemma KeptStep(read: Reader, s: State, a: Action, t: nat)
    requires Inv(s) && OnLine(s, t) && a != Closed(t)
    ensures var next := Step(read, s, a);
            && OnLine(next, t)
            && (Receives(s, a, t) ==> t in next.tasks && Kept(next, t) == Rest(Kept(s, t) + a.bytes))
            && (!Receives(s, a, t) && t in next.tasks ==> Kept(next, t) == Kept(s, t))
  {
    if a.Chunk? {
      KeptChunk(read, s, a.task, a.bytes, t);
    } else {
      KeptOtherwise(read, s, a, t);
    }
  }

  lemma KeptOtherwise(read: Reader, s: State, a: Action, t: nat)
    requires Inv(s) && OnLine(s, t) && a != Closed(t) && !a.Chunk?
    ensures var next := Step(read, s, a);
            OnLine(next, t) && (t in next.tasks ==> Kept(next, t) == Kept(s, t))
  {
  }

  /** Within one connection the kinds decoded are those of one reader fed with its chunks. */
  lemma {:induction false} ConnectionIsFed(read: Reader, s: State, actions: seq<Action>, t: nat)
    requires Inv(s) && OnLine(s, t) && NeverCloses(actions, t)
    ensures Received(read, s, actions, t) == FedAll(read, Kept(s, t), Chunks(read, s, actions, t)).0
    decreases |actions|
  {
    if actions != [] {
      var next := Step(read, s, actions[0]);
      assert actions[0] != Closed(t);
      assert NeverCloses(actions[1..], t);
      StepKeepsInv(read, s, actions[0]);
      KeptStep(read, s, actions[0], t);
      ConnectionIsFed(read, next, actions[1..], t);
      var later := Chunks(read, next, actions[1..], t);
      if Receives(s, actions[0], t) {
        FedFirst(read, Kept(s, t), actions[0].bytes, later, Chunks(read, s, actions, t));
      } else {
        if t !in next.tasks {
          GoneReceivesNothing(read, next, actions[1..], t);
        }
        assert Chunks(read, s, actions, t) == later;
        assert Received(read, s, actions, t) == Received(read, next, actions[1..], t);
      }
    }
  }

  lemma FedFirst(read: Reader, buffer: seq<Byte>, chunk: seq<Byte>, later: seq<seq<Byte>>, chunks: seq<seq<Byte>>)
    requires chunks == [chunk] + later
    ensures FedAll(read, buffer, chunks).0 ==
            FedEvents(read, buffer, chunk) + FedAll(read, Rest(buffer + chunk), later).0
  {
    assert chunks[1..] == later;
  }

  lemma {:induction false} GoneReceivesNothing(read: Reader, s: State, actions: seq<Action>, t: nat)
    requires Inv(s) && t < s.spawned && t !in s.tasks
    ensures Chunks(read, s, actions, t) == []
    decreases |actions|
  {
    if actions != [] {
      StepKeepsInv(read, s, actions[0]);
      GoneReceivesNothing(read, Step(read, s, actions[0]), actions[1..], t);
    }
  }

  lemma RoundsAreWholeStreams(read: Reader, s: State, actions: seq<Action>, t: nat)
    requires s.turn.None? && Run(read, s, actions).turn.None?
    ensures OfTask(Announced(read, s, actions), t) == Received(read, s, actions, t)
  {
    var rounds, kinds := OfTask(Announced(read, s, actions), t), Received(read, s, actions, t);
    RoundsAreStreams(read, s, actions, t);
    assert rounds + [] == rounds && [] + kinds == kinds;
  }

  /** However the bytes of the connections are cut into chunks and however their chunks
      interleave with each other and with other subscribers coming and going: between two
      chunks, a subscriber has heard one sequence of rounds, which for every connection
      holds exactly the kinds of its whole bytes, in order. */
  lemma ReceptionIsHeard(read: Reader, s: State, actions: seq<Action>, id: nat, t: nat)
    requires Inv(s) && s.turn.None? && Run(read, s, actions).turn.None?
    requires id in s.listeners && NeverDrops(actions, id)
    ensures Run(read, s, actions).Heard(id) == s.Heard(id) + Kinds(Announced(read, s, actions))
    ensures OfTask(Announced(read, s, actions), t) == Received(read, s, actions, t)
    ensures OnLine(s, t) && NeverCloses(actions, t) ==>
              Received(read, s, actions, t) == FedEvents(read, Kept(s, t), Flat(Chunks(read, s, actions, t)))
  {
    SubscriberHearsAll(read, s, actions, id);
    RoundsAreWholeStreams(read, s, actions, t);
    if OnLine(s, t) && NeverCloses(actions, t) {
      ConnectionIsWhole(read, s, actions, t);
    }
  }

  lemma SubscriberHearsAll(read: Reader, s: State, actions: seq<Action>, id: nat)
    requires Inv(s) && s.turn.None? && Run(read, s, actions).turn.None?
    requires id in s.listeners && NeverDrops(actions, id)
    ensures Run(read, s, actions).Heard(id) == s.Heard(id) + Kinds(Announced(read, s, actions))
  {
    var final := Run(read, s, actions);
    HearsExactlyItsRounds(read, s, actions, id);
    AllIsDue(read, s, actions, id);
    assert final.Heard(id) + [] == final.Heard(id) && s.Heard(id) + [] == s.Heard(id);
  }

  lemma ConnectionIsWhole(read: Reader, s: State, actions: seq<Action>, t: nat)
    requires Inv(s) && OnLine(s, t) && NeverCloses(actions, t)
    ensures Received(read, s, actions, t) == FedEvents(read, Kept(s, t), Flat(Chunks(read, s, actions, t)))
  {
    ConnectionIsFed(read, s, actions, t);
    ChunkInvariance(read, Kept(s, t), Chunks(read, s, actions, t));
  }

  /** And a chunk is never stuck: whatever happened, calling whoever is left and moving on
      ends its turn. */
  lemma {:induction false} TurnCanEnd(read: Reader, s: State) returns (steps: seq<Action>)
    requires Inv(s)
    ensures Run(read, s, steps).turn.None?
    ensures forall i :: 0 <= i < |steps| ==> steps[i].NextRound? || steps[i].Call?
    decreases if s.turn.None? then 0 else 1,
              if s.turn.None? then 0 else |s.turn.value.queue|,
              if s.turn.None? || s.turn.value.round.None? then 0 else |s.turn.value.round.value.ids|
  {
    if s.turn.None? {
      return [];
    }
    var a := NextRound;
    if s.turn.value.round.Some? {
      var id :| id in s.turn.value.round.value.ids;
      a := Call(id);
    }
    StepKeepsInv(read, s, a);
    var rest := TurnCanEnd(read, Step(read, s, a));
    steps := [a] + rest;
    assert steps[1..] == rest;
  }

  // ----------------------------------------------------------------- the module

  /** The thread-local cells and the tasks reading the stream. */
  class Hub {
    const wire: Wire<ChangeKind>
    var listeners: set<nat>
    var nextId: nat
    var running: bool
    var tasks: map<nat, Phase>
    var spawned: nat
    var turn: Option<Turn>
    var heard: map<nat, seq<ChangeKind>>

    constructor (wire: Wire<ChangeKind>)
      ensures this.wire == wire && Abstract() == INITIAL
    {
      this.wire := wire;
      listeners, nextId, running, tasks, spawned, turn, heard := {}, 0, false, map[], 0, None, map[];
    }

    ghost function Abstract(): State
      reads this
    {
      State(listeners, nextId, running, tasks, spawned, turn, heard)
    }

    method SubscribeEvents() returns (id: nat)
      modifies this
      ensures id == old(nextId)
      ensures Abstract() == Step(Reading(wire), old(Abstract()), Subscribe)
    {
      id := nextId;
      nextId := nextId + 1;
      listeners := listeners + {id};
      var wasRunning := running;
      running := true;
      if !wasRunning {
        tasks := tasks[spawned := Queued];
        spawned := spawned + 1;
      }
    }

    /** Dropping the handle returned by a subscription. */
    method DropHandle(id: nat)
      requires id in listeners
      modifies this
      ensures Abstract() == Step(Reading(wire), old(Abstract()), Drop(id))
    {
      listeners := listeners - {id};
      if listeners == {} {
        running := false;
      }
    }

    /** The test a task makes after each wait: carry on as `next`, or return. */
    method CheckFlag(task: nat, next: Phase)
      modifies this`tasks
      ensures Abstract() == old(Abstract()).Check(task, next)
    {
      if !running {
        tasks := tasks - {task};
        return;
      }
      tasks := tasks[task := next];
    }

    method TopOfLoop(task: nat)
      requires turn.None? && task in tasks && (tasks[task].Queued? || tasks[task].Paused?)
      modifies this
      ensures Abstract() == Step(Reading(wire), old(Abstract()), Wake(task))
    {
      CheckFlag(task, Connecting);
    }

    method ConnectReturns(task: nat, ok: bool)
      requires turn.None? && task in tasks && tasks[task].Connecting?
      modifies this
      ensures Abstract() == Step(Reading(wire), old(Abstract()), Connected(task, ok))
    {
      if ok {
        CheckFlag(task, Receiving([]));
      } else {
        CheckFlag(task, Paused);
      }
    }

    method ChunkArrives(task: nat, chunk: seq<Byte>)
      requires turn.None? && task in tasks && tasks[task].Receiving?
      modifies this
      ensures Abstract() == Step(Reading(wire), old(Abstract()), Chunk(task, chunk))
    {
      var buffer := new ByteBuffer();
      buffer.bytes := tasks[task].buffer;
      var kinds := Feed(wire, buffer, chunk);
      tasks := tasks[task := Delivering];
      turn := Some(Turn(task, None, kinds, buffer.bytes));
    }

    /** The listeners are collected before any of them is called. */
    method Notify()
      requires turn.Some? && turn.value.round.None?
      modifies this
      ensures Abstract() == Step(Reading(wire), old(Abstract()), NextRound)
    {
      var w := turn.value;
      if w.queue == [] {
        turn := None;
        CheckFlag(w.task, Receiving(w.buffer));
        return;
      }
      turn := Some(w.(round := RoundOf(w.queue[0], listeners), queue := w.queue[1..]));
    }

    /** One pass of the loop over the collected listeners. */
    method CallListener(id: nat)
      requires turn.Some? && turn.value.round.Some? && id in turn.value.round.value.ids
      modifies this
      ensures Abstract() == Step(Reading(wire), old(Abstract()), Call(id))
    {
      var r := turn.value.round.value;
      heard := heard[id := (if id in heard then heard[id] else []) + [r.kind]];
      turn := Some(turn.value.(round := RoundOf(r.kind, r.ids - {id})));
    }

    method StreamEnds(task: nat)
      requires turn.None? && task in tasks && tasks[task].Receiving?
      modifies this
      ensures Abstract() == Step(Reading(wire), old(Abstract()), Closed(task))
    {
      CheckFlag(task, Paused);
    }
  }
}
