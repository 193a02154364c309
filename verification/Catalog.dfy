/** The model catalogue: answers cached for an hour under concurrent callers, and the
    verdict on pinning a bot to a model. */
module Catalog {
  import opened Text

  // ------------------------------------------------------------- the caches
  //
  // The list and the endpoint details are cached the same way; the list has one key.
  // A caller holds the lock while it looks and again while it stores, never while it
  // fetches, so a call is three separate steps. A failed fetch is answered with the
  // error for the list and with nothing for a detail: `None` here. Callers are numbered
  // in the order of their asking.

  const SECOND: nat := 1_000_000_000

  /** One hour, on a nanosecond clock. */
  const CACHE_TTL: nat := 60 * 60 * SECOND

  /** `since` is when the fetch that produced the value began: history, not program state. */
  datatype Entry<V> = Entry(at: nat, value: V, since: nat)

  datatype Call<K, V> =
    | Fetching(key: K, since: nat)
    | Holding(key: K, since: nat, value: V)

  datatype State<K, V> = State(now: nat, cache: map<K, Entry<V>>, calls: map<nat, Call<K, V>>, next: nat)

  datatype Action<K, V> =
    | Tick(elapsed: nat)
    | Ask(asked: K)
    | Reply(id: nat, reply: Option<V>)
    | Store(id: nat)

  datatype Answer<K, V> = Answer(caller: nat, key: K, value: Option<V>, at: nat, since: nat)

  predicate Fresh<K(==), V>(s: State<K, V>, key: K) {
    key in s.cache && s.now - s.cache[key].at < CACHE_TTL
  }

  function Step<K(==), V>(s: State<K, V>, a: Action<K, V>): (State<K, V>, seq<Answer<K, V>>) {
    match a
    case Tick(d) => (s.(now := s.now + d), [])
    case Ask(key) =>
      if Fresh(s, key) then
        (s.(next := s.next + 1), [Answer(s.next, key, Some(s.cache[key].value), s.now, s.cache[key].since)])
      else
        (s.(calls := s.calls[s.next := Fetching(key, s.now)], next := s.next + 1), [])
    case Reply(id, reply) =>
      if id !in s.calls || !s.calls[id].Fetching? then (s, [])
      else
        var call := s.calls[id];
        if reply.Some? then
          (s.(calls := s.calls[id := Holding(call.key, call.since, reply.value)]), [])
        else
          (s.(calls := s.calls - {id}), [Answer(id, call.key, None, s.now, call.since)])
    case Store(id) =>
      if id !in s.calls || !s.calls[id].Holding? then (s, [])
      else
        var call := s.calls[id];
        (s.(cache := s.cache[call.key := Entry(s.now, call.value, call.since)], calls := s.calls - {id}),
         [Answer(id, call.key, Some(call.value), s.now, call.since)])
  }

  function Run<K(==), V>(s: State<K, V>, actions: seq<Action<K, V>>): (State<K, V>, seq<Answer<K, V>>)
    decreases |actions|
  {
    if actions == [] then (s, [])
    else
      var (s', first) := Step(s, actions[0]);
      var (last, rest) := Run(s', actions[1..]);
      (last, first + rest)
  }

  // ------------------------------------------- everything answered was fetched

  /** Every value at hand satisfies `good` for its key. */
  ghost predicate AllGood<K(!new), V>(s: State<K, V>, good: (K, V) -> bool) {
    && (forall k :: k in s.cache ==> good(k, s.cache[k].value))
    && (forall id :: id in s.calls && s.calls[id].Holding? ==> good(s.calls[id].key, s.calls[id].value))
  }

  /** Every successful reply of the run satisfies `good` for the key it was fetched for. */
  ghost predicate GoodReplies<K(!new), V>(s: State<K, V>, actions: seq<Action<K, V>>, good: (K, V) -> bool)
    decreases |actions|
  {
    actions != [] ==>
      && (actions[0].Reply? && actions[0].reply.Some? && actions[0].id in s.calls ==>
          good(s.calls[actions[0].id].key, actions[0].reply.value))
      && GoodReplies(Step(s, actions[0]).0, actions[1..], good)
  }

  ghost predicate GoodAnswer<K(!new), V>(a: Answer<K, V>, good: (K, V) -> bool) {
    a.value.Some? ==> good(a.key, a.value.value)
  }

  lemma StepKeepsGood<K(!new), V>(s: State<K, V>, a: Action<K, V>, good: (K, V) -> bool)
    requires AllGood(s, good) && GoodReplies(s, [a], good)
    ensures AllGood(Step(s, a).0, good)
    ensures forall i :: 0 <= i < |Step(s, a).1| ==> GoodAnswer(Step(s, a).1[i], good)
  {
  }

  /** Whatever is true of every successful fetch is true of everything cached and of
      everything answered, in every interleaving. */
  lemma {:induction false} OnlyFetchedValues<K(!new), V>(s: State<K, V>, actions: seq<Action<K, V>>,
                                                          good: (K, V) -> bool)
    requires AllGood(s, good) && GoodReplies(s, actions, good)
    ensures AllGood(Run(s, actions).0, good)
    ensures forall i :: 0 <= i < |Run(s, actions).1| ==> GoodAnswer(Run(s, actions).1[i], good)
    decreases |actions|
  {
    if actions != [] {
      assert [actions[0]][1..] == [];
      assert GoodReplies(s, [actions[0]], good);
      StepKeepsGood(s, actions[0], good);
      OnlyFetchedValues(Step(s, actions[0]).0, actions[1..], good);
    }
  }

  function Start<K, V>(now: nat): State<K, V> {
    State(now, map[], map[], 0)
  }

  // ------------------------------------------------- every caller is answered

  /** Every call belongs to a caller that has asked. */
  ghost predicate Numbered<K(!new), V>(s: State<K, V>) {
    forall id :: id in s.calls ==> id < s.next
  }

  /** The answers that one caller was given. */
  function AnswersTo<K, V>(answers: seq<Answer<K, V>>, caller: nat): seq<Option<V>>
    decreases |answers|
  {
    if answers == [] then []
    else (if answers[0].caller == caller then [answers[0].value] else []) + AnswersTo(answers[1..], caller)
  }

  function Asks<K, V>(actions: seq<Action<K, V>>): nat
    decreases |actions|
  {
    if actions == [] then 0 else (if actions[0].Ask? then 1 else 0) + Asks(actions[1..])
  }

  predicate IsStored<K, V>(actions: seq<Action<K, V>>, id: nat)
    decreases |actions|
  {
    actions != [] && ((actions[0].Store? && actions[0].id == id) || IsStored(actions[1..], id))
  }

  /** What a caller that fetches is owed, read off the steps alone: the first reply to it
      decides. A failure is passed on at once, a value once it is stored. */
  function Owed<K, V>(actions: seq<Action<K, V>>, id: nat): seq<Option<V>>
    decreases |actions|
  {
    if actions == [] then []
    else if !actions[0].Reply? || actions[0].id != id then Owed(actions[1..], id)
    else if actions[0].reply.None? then [None]
    else if IsStored(actions[1..], id) then [actions[0].reply]
    else []
  }

  lemma {:induction false} AnswersAppend<K, V>(a: seq<Answer<K, V>>, b: seq<Answer<K, V>>, caller: nat)
    ensures AnswersTo(a + b, caller) == AnswersTo(a, caller) + AnswersTo(b, caller)
    decreases |a|
  {
    if a == [] {
      assert a + b == b;
    } else {
      assert (a + b)[1..] == a[1..] + b;
      AnswersAppend(a[1..], b, caller);
      AppendIsAssociative(if a[0].caller == caller then [a[0].value] else [], AnswersTo(a[1..], caller),
                          AnswersTo(b, caller));
    }
  }

  /** What a run answers, one step and the rest. */
  lemma AnswersStep<K(!new), V>(s: State<K, V>, actions: seq<Action<K, V>>, caller: nat)
    requires actions != []
    ensures AnswersTo(Run(s, actions).1, caller) ==
            AnswersTo(Step(s, actions[0]).1, caller) + AnswersTo(Run(Step(s, actions[0]).0, actions[1..]).1, caller)
  {
    AnswersAppend(Step(s, actions[0]).1, Run(Step(s, actions[0]).0, actions[1..]).1, caller);
  }

  lemma OneAnswer<K, V>(a: Answer<K, V>, caller: nat)
    ensures AnswersTo([a], caller) == if a.caller == caller then [a.value] else []
  {
    assert [a][1..] == [];
  }

  /** A caller that is no longer waiting is never answered again. */
  lemma {:induction false} GoneHearsNothing<K(!new), V>(s: State<K, V>, actions: seq<Action<K, V>>, id: nat)
    requires id < s.next && id !in s.calls
    ensures AnswersTo(Run(s, actions).1, id) == []
    decreases |actions|
  {
    if actions != [] {
      var (next, first) := Step(s, actions[0]);
      if first != [] { OneAnswer(first[0], id); }
      GoneHearsNothing(next, actions[1..], id);
      AnswersStep(s, actions, id);
    }
  }

  /** A caller that holds what it fetched is answered with it, once, when it is stored. */
  lemma {:induction false} HeldIsAnswered<K(!new), V>(s: State<K, V>, actions: seq<Action<K, V>>, id: nat)
    requires id < s.next && id in s.calls && s.calls[id].Holding?
    ensures AnswersTo(Run(s, actions).1, id) == if IsStored(actions, id) then [Some(s.calls[id].value)] else []
    decreases |actions|
  {
    if actions != [] {
      var (next, first) := Step(s, actions[0]);
      if first != [] { OneAnswer(first[0], id); }
      if actions[0].Store? && actions[0].id == id {
        GoneHearsNothing(next, actions[1..], id);
      } else {
        HeldIsAnswered(next, actions[1..], id);
      }
      AnswersStep(s, actions, id);
    }
  }

  /** A caller whose fetch is under way is answered with what it is owed. */
  lemma {:induction false} FetchIsAnswered<K(!new), V>(s: State<K, V>, actions: seq<Action<K, V>>, id: nat)
    requires id < s.next && id in s.calls && s.calls[id].Fetching?
    ensures AnswersTo(Run(s, actions).1, id) == Owed(actions, id)
    decreases |actions|
  {
    if actions != [] {
      var (next, first) := Step(s, actions[0]);
      if first != [] { OneAnswer(first[0], id); }
      if !actions[0].Reply? || actions[0].id != id {
        FetchIsAnswered(next, actions[1..], id);
      } else if actions[0].reply.None? {
        GoneHearsNothing(next, actions[1..], id);
      } else {
        HeldIsAnswered(next, actions[1..], id);
      }
      AnswersStep(s, actions, id);
    }
  }

  /** Nobody is answered before asking, and callers are numbered as they ask. */
  lemma {:induction false} NotYetAnswered<K(!new), V>(s: State<K, V>, actions: seq<Action<K, V>>, id: nat)
    requires Numbered(s) && s.next + Asks(actions) <= id
    ensures AnswersTo(Run(s, actions).1, id) == []
    ensures Numbered(Run(s, actions).0) && Run(s, actions).0.next == s.next + Asks(actions)
    decreases |actions|
  {
    if actions != [] {
      var (next, first) := Step(s, actions[0]);
      if first != [] { OneAnswer(first[0], id); }
      NotYetAnswered(next, actions[1..], id);
      AnswersStep(s, actions, id);
    }
  }

  lemma {:induction false} RunAppends<K(!new), V>(s: State<K, V>, a: seq<Action<K, V>>, b: seq<Action<K, V>>)
    ensures var (mid, first) := Run(s, a);
            Run(s, a + b) == (Run(mid, b).0, first + Run(mid, b).1)
    decreases |a|
  {
    if a == [] {
      assert a + b == b;
      assert [] + Run(s, b).1 == Run(s, b).1;
    } else {
      var (next, first) := Step(s, a[0]);
      assert (a + b)[1..] == a[1..] + b;
      RunAppends(next, a[1..], b);
      AppendIsAssociative(first, Run(next, a[1..]).1, Run(Run(next, a[1..]).0, b).1);
    }
  }

  /** Over a whole run, the caller behind any one question is answered like this, and not
      otherwise: with the cached entry, if that is fresh when it asks; and else with the
      reply to its own fetch, a failure at once and a value once it is stored. */
  lemma EveryCallerIsAnswered<K(!new), V>(now: nat, before: seq<Action<K, V>>, key: K, after: seq<Action<K, V>>)
    ensures var s, caller := Run(Start<K, V>(now), before).0, Asks(before);
            AnswersTo(Run(Start<K, V>(now), before + ([Ask(key)] + after)).1, caller) ==
            if Fresh(s, key) then [Some(s.cache[key].value)] else Owed(after, caller)
  {
    var start, caller := Start<K, V>(now), Asks(before);
    var s := Run(start, before).0;
    NotYetAnswered(start, before, caller);
    RunAppends(start, before, [Ask(key)] + after);
    AnswersAppend(Run(start, before).1, Run(s, [Ask(key)] + after).1, caller);
    AskedIsAnswered(s, key, after);
  }

  lemma AskedIsAnswered<K(!new), V>(s: State<K, V>, key: K, after: seq<Action<K, V>>)
    requires Numbered(s)
    ensures AnswersTo(Run(s, [Ask(key)] + after).1, s.next) ==
            if Fresh(s, key) then [Some(s.cache[key].value)] else Owed(after, s.next)
  {
    var actions: seq<Action<K, V>> := [Ask(key)] + after;
    var (next, first) := Step(s, Ask(key));
    assert actions[1..] == after;
    AnswersStep(s, actions, s.next);
    if Fresh(s, key) {
      OneAnswer(first[0], s.next);
      GoneHearsNothing(next, after, s.next);
    } else {
      FetchIsAnswered(next, after, s.next);
    }
  }

  /** A fetch that is under way fails at some step of the run. */
  predicate SomeFetchFails<K(==), V>(s: State<K, V>, actions: seq<Action<K, V>>)
    decreases |actions|
  {
    actions != [] &&
      (Fails(s, actions[0]) || SomeFetchFails(Step(s, actions[0]).0, actions[1..]))
  }

  predicate Fails<K(==), V>(s: State<K, V>, a: Action<K, V>) {
    a.Reply? && a.reply.None? && a.id in s.calls && s.calls[a.id].Fetching?
  }

  ghost predicate SomeError<K, V>(answers: seq<Answer<K, V>>) {
    exists i :: 0 <= i < |answers| && answers[i].value.None?
  }

  lemma SomeErrorAppends<K, V>(a: seq<Answer<K, V>>, b: seq<Answer<K, V>>)
    ensures SomeError(a + b) <==> SomeError(a) || SomeError(b)
  {
    if SomeError(a) {
      var i :| 0 <= i < |a| && a[i].value.None?;
      assert (a + b)[i] == a[i];
    }
    if SomeError(b) {
      var i :| 0 <= i < |b| && b[i].value.None?;
      assert (a + b)[|a| + i] == b[i];
    }
  }

  lemma StepErrs<K(!new), V>(s: State<K, V>, a: Action<K, V>)
    ensures SomeError(Step(s, a).1) <==> Fails(s, a)
  {
    if Fails(s, a) {
      assert Step(s, a).1[0].value.None?;
    }
  }

  /** So a run answers an error if and only if one of its fetches failed. */
  lemma {:induction false} ErrorsAreFailedFetches<K(!new), V>(s: State<K, V>, actions: seq<Action<K, V>>)
    ensures SomeError(Run(s, actions).1) <==> SomeFetchFails(s, actions)
    decreases |actions|
  {
    if actions != [] {
      var (next, first) := Step(s, actions[0]);
      StepErrs(s, actions[0]);
      ErrorsAreFailedFetches(next, actions[1..]);
      SomeErrorAppends(first, Run(next, actions[1..]).1);
    }
  }

  /** Against an upstream that does not change, every success is the uncached answer; and
      as long as no fetch fails, everything answered is one. */
  lemma SteadyUpstream<K(!new), V(!new)>(now: nat, actions: seq<Action<K, V>>, truth: K -> V)
    requires GoodReplies(Start(now), actions, (k, v) => v == truth(k))
    ensures var answers := Run(Start(now), actions).1;
            forall i :: 0 <= i < |answers| && (answers[i].value.Some? || !SomeFetchFails(Start(now), actions)) ==>
              answers[i].value == Some(truth(answers[i].key))
  {
    var good := (k, v) => v == truth(k);
    OnlyFetchedValues(Start(now), actions, good);
    ErrorsAreFailedFetches(Start(now), actions);
    var answers := Run(Start(now), actions).1;
    forall i | 0 <= i < |answers| && (answers[i].value.Some? || !SomeFetchFails(Start(now), actions))
      ensures answers[i].value == Some(truth(answers[i].key))
    {
      assert GoodAnswer(answers[i], good);
      assert answers[i].value.None? ==> SomeError(answers);
    }
  }

  // --------------------------------------------------------------- an outage

  ghost predicate Outage<K, V>(actions: seq<Action<K, V>>) {
    forall i :: 0 <= i < |actions| && actions[i].Reply? ==> actions[i].reply.None?
  }

  ghost predicate NothingHeld<K, V>(s: State<K, V>) {
    forall id :: id in s.calls ==> s.calls[id].Fetching?
  }

  /** A value answered from the cache as it stood, while it was fresh. */
  ghost predicate FromCache<K(!new), V>(a: Answer<K, V>, cache: map<K, Entry<V>>) {
    a.value.Some? ==> a.key in cache && a.value == Some(cache[a.key].value) && a.at - cache[a.key].at < CACHE_TTL
  }

  /** While every fetch fails, the cache stays exactly as it was, and every success is
      an entry of it less than an hour old. */
  lemma {:induction false} OutageKeepsCache<K(!new), V>(s: State<K, V>, actions: seq<Action<K, V>>)
    requires NothingHeld(s) && Outage(actions)
    ensures Run(s, actions).0.cache == s.cache && NothingHeld(Run(s, actions).0)
    ensures forall i :: 0 <= i < |Run(s, actions).1| ==> FromCache(Run(s, actions).1[i], s.cache)
    decreases |actions|
  {
    if actions != [] {
      var s' := Step(s, actions[0]).0;
      assert s'.cache == s.cache && NothingHeld(s');
      OutageKeepsCache(s', actions[1..]);
    }
  }

  // --------------------------------------------------------------- freshness

  /** Times never run ahead of the clock, and no fetch takes longer than `limit` from its
      start to its store. */
  ghost predicate Timed<K(!new), V>(s: State<K, V>, limit: nat) {
    && (forall k :: k in s.cache ==> s.cache[k].since <= s.cache[k].at <= s.now)
    && (forall k :: k in s.cache ==> s.cache[k].at <= s.cache[k].since + limit)
    && (forall id :: id in s.calls ==> s.calls[id].since <= s.now)
    && (forall id :: id in s.calls ==> id < s.next)
  }

  ghost predicate PromptStores<K, V>(s: State<K, V>, actions: seq<Action<K, V>>, limit: nat)
    decreases |actions|
  {
    actions != [] ==>
      && (actions[0].Store? && actions[0].id in s.calls ==> s.now <= s.calls[actions[0].id].since + limit)
      && PromptStores(Step(s, actions[0]).0, actions[1..], limit)
  }

  lemma StepKeepsTimes<K(!new), V>(s: State<K, V>, a: Action<K, V>, limit: nat)
    requires Timed(s, limit) && PromptStores(s, [a], limit)
    ensures Timed(Step(s, a).0, limit)
    ensures forall i :: 0 <= i < |Step(s, a).1| && Step(s, a).1[i].value.Some? ==>
              Step(s, a).1[i].at < Step(s, a).1[i].since + limit + CACHE_TTL
  {
  }

  /** If no fetch takes longer than `limit`, every success answers a fetch begun less
      than an hour and `limit` before. */
  lemma {:induction false} AnswersAreRecent<K(!new), V>(s: State<K, V>, actions: seq<Action<K, V>>, limit: nat)
    requires Timed(s, limit) && PromptStores(s, actions, limit)
    ensures Timed(Run(s, actions).0, limit)
    ensures forall i :: 0 <= i < |Run(s, actions).1| && Run(s, actions).1[i].value.Some? ==>
              Run(s, actions).1[i].at < Run(s, actions).1[i].since + limit + CACHE_TTL
    decreases |actions|
  {
    if actions != [] {
      assert [actions[0]][1..] == [];
      assert PromptStores(s, [actions[0]], limit);
      StepKeepsTimes(s, actions[0], limit);
      AnswersAreRecent(Step(s, actions[0]).0, actions[1..], limit);
    }
  }

  function Elapsed<K, V>(actions: seq<Action<K, V>>): nat
    decreases |actions|
  {
    if actions == [] then 0 else (if actions[0].Tick? then actions[0].elapsed else 0) + Elapsed(actions[1..])
  }

  /** Every call under way for `key` was already under way before. */
  ghost predicate NoNewCalls<K(!new), V>(before: State<K, V>, after: State<K, V>, key: K) {
    forall id :: id in after.calls && after.calls[id].key == key ==> id in before.calls && before.calls[id].key == key
  }

  lemma StepServes<K(!new), V>(s: State<K, V>, a: Action<K, V>, key: K)
    requires Numbered(s) && key in s.cache && s.cache[key].at <= s.now
    requires s.now - s.cache[key].at + Elapsed([a]) < CACHE_TTL
    ensures var t := Step(s, a).0;
            && Numbered(t) && NoNewCalls(s, t, key) && s.next <= t.next
            && key in t.cache && t.cache[key].at <= t.now && t.now == s.now + Elapsed([a])
            && s.cache[key].at <= t.cache[key].at
  {
    assert [a][1..] == [];
  }

  /** Once stored, an entry is served for an hour, whatever else happens: it stays fresh,
      and no call begins a fetch of its key. */
  lemma {:induction false} ServedForAnHour<K(!new), V>(s: State<K, V>, actions: seq<Action<K, V>>, key: K)
    requires Numbered(s) && key in s.cache && s.cache[key].at <= s.now
    requires s.now - s.cache[key].at + Elapsed(actions) < CACHE_TTL
    ensures Fresh(Run(s, actions).0, key) && NoNewCalls(s, Run(s, actions).0, key)
    decreases |actions|
  {
    if actions != [] {
      assert [actions[0]][1..] == [];
      assert Elapsed(actions) == Elapsed([actions[0]]) + Elapsed(actions[1..]);
      StepServes(s, actions[0], key);
      ServedForAnHour(Step(s, actions[0]).0, actions[1..], key);
    }
  }

  /** Nothing stops a slow fetch from being stored over a newer one: the cache can move
      back to an answer that was asked for earlier. */
  lemma SlowFetchOverwritesNewer<V>(old': V, new': V)
    ensures var before := [Ask(()), Tick(5), Ask(()), Reply(1, Some(new')), Store(1)];
            var s := Run(Start<(), V>(0), before).0;
            var t := Run(s, [Reply(0, Some(old')), Store(0)]).0;
            && () in s.cache && s.cache[()] == Entry(5, new', 5)
            && () in t.cache && t.cache[()] == Entry(5, old', 0)
  {
    var s0 := Start<(), V>(0);
    var s1 := Step(s0, Ask(())).0;
    var s2 := Step(s1, Tick(5)).0;
    var s3 := Step(s2, Ask(())).0;
    var s4 := Step(s3, Reply(1, Some(new'))).0;
    var s5 := Step(s4, Store(1)).0;
    var s6 := Step(s5, Reply(0, Some(old'))).0;
    var s7 := Step(s6, Store(0)).0;
    RunOfTwo(s5, Reply(0, Some(old')), Store(0));
    RunOfFive(s0, Ask(()), Tick(5), Ask(()), Reply(1, Some(new')), Store(1));
  }

  lemma RunOfTwo<K, V>(s: State<K, V>, a: Action<K, V>, b: Action<K, V>)
    ensures Run(s, [a, b]).0 == Step(Step(s, a).0, b).0
  {
    assert [a, b][1..] == [b] && [b][1..] == [];
    assert Run(Step(s, a).0, [b]).0 == Step(Step(s, a).0, b).0;
  }

  lemma RunOfFive<K, V>(s: State<K, V>, a: Action<K, V>, b: Action<K, V>, c: Action<K, V>, d: Action<K, V>,
                        e: Action<K, V>)
    ensures Run(s, [a, b, c, d, e]).0 == Step(Step(Step(Step(Step(s, a).0, b).0, c).0, d).0, e).0
  {
    assert [a, b, c, d, e][1..] == [b, c, d, e] && [b, c, d, e][1..] == [c, d, e];
    RunOfThree(Step(Step(s, a).0, b).0, c, d, e);
  }

  lemma RunOfThree<K, V>(s: State<K, V>, a: Action<K, V>, b: Action<K, V>, c: Action<K, V>)
    ensures Run(s, [a, b, c]).0 == Step(Step(Step(s, a).0, b).0, c).0
  {
    assert [a, b, c][1..] == [b, c];
    RunOfTwo(Step(s, a).0, b, c);
  }

  /** No fetch begins for a key that already has one under way. */
  ghost predicate OneAtATime<K(!new), V>(s: State<K, V>, actions: seq<Action<K, V>>)
    decreases |actions|
  {
    actions != [] ==>
      && (actions[0].Ask? && !Fresh(s, actions[0].asked) ==>
          forall id :: id in s.calls ==> s.calls[id].key != actions[0].asked)
      && OneAtATime(Step(s, actions[0]).0, actions[1..])
  }

  /** At most one call per key, and it began no earlier than what is cached for it. */
  ghost predicate Ordered<K(!new), V>(s: State<K, V>) {
    && (forall i, j :: i in s.calls && j in s.calls && s.calls[i].key == s.calls[j].key ==> i == j)
    && (forall id :: id in s.calls ==> id < s.next && s.calls[id].since <= s.now)
    && (forall k :: k in s.cache ==> s.cache[k].since <= s.now)
    && (forall id :: id in s.calls && s.calls[id].key in s.cache ==>
          s.cache[s.calls[id].key].since <= s.calls[id].since)
  }

  ghost predicate Forward<K(!new), V>(before: map<K, Entry<V>>, after: map<K, Entry<V>>) {
    forall k :: k in before ==> k in after && before[k].since <= after[k].since
  }

  lemma StepMovesForward<K(!new), V>(s: State<K, V>, a: Action<K, V>)
    requires Ordered(s) && OneAtATime(s, [a])
    ensures Ordered(Step(s, a).0) && Forward(s.cache, Step(s, a).0.cache)
  {
  }

  /** One store of a run: its key, and when the fetch behind it was asked for. */
  datatype Stored<K> = Stored(key: K, since: nat)

  function Stores<K, V>(s: State<K, V>, a: Action<K, V>): seq<Stored<K>> {
    if a.Store? && a.id in s.calls && s.calls[a.id].Holding? then [Stored(s.calls[a.id].key, s.calls[a.id].since)]
    else []
  }

  function StoreLog<K(==), V>(s: State<K, V>, actions: seq<Action<K, V>>): seq<Stored<K>>
    decreases |actions|
  {
    if actions == [] then [] else Stores(s, actions[0]) + StoreLog(Step(s, actions[0]).0, actions[1..])
  }

  /** No fetch of a key is stored after one of that key that was asked for strictly later. */
  ghost predicate InAskingOrder<K>(log: seq<Stored<K>>) {
    forall i, j :: 0 <= i < j < |log| && log[i].key == log[j].key ==> log[i].since <= log[j].since
  }

  ghost predicate NotOlder<K, V>(cache: map<K, Entry<V>>, log: seq<Stored<K>>) {
    forall i :: 0 <= i < |log| && log[i].key in cache ==> cache[log[i].key].since <= log[i].since
  }

  ghost predicate AlwaysForward<K(!new), V>(s: State<K, V>, actions: seq<Action<K, V>>)
    decreases |actions|
  {
    actions != [] ==>
      && Forward(s.cache, Step(s, actions[0]).0.cache)
      && AlwaysForward(Step(s, actions[0]).0, actions[1..])
  }

  lemma LogSplits<K(!new), V>(s: State<K, V>, a: Action<K, V>, first: Stored<K>, log: seq<Stored<K>>)
    requires Stores(s, a) == [first]
    ensures var next := Step(s, a).0;
            (Forward(s.cache, next.cache) && InAskingOrder(log) && NotOlder(next.cache, log)) <==>
            (InAskingOrder([first] + log) && NotOlder(s.cache, [first] + log))
  {
    var next := Step(s, a).0;
    var all := [first] + log;
    assert next.cache.Keys == s.cache.Keys + {first.key} && next.cache[first.key].since == first.since;
    assert forall i :: 0 <= i < |log| ==> all[i + 1] == log[i];
    if InAskingOrder(all) && NotOlder(s.cache, all) {
      assert first.key in s.cache ==> s.cache[all[0].key].since <= all[0].since;
      forall i, j | 0 <= i < j < |log| && log[i].key == log[j].key ensures log[i].since <= log[j].since {
        assert all[i + 1].since <= all[j + 1].since;
      }
      forall i | 0 <= i < |log| && log[i].key in next.cache ensures next.cache[log[i].key].since <= log[i].since {
        assert all[i + 1].key == all[0].key ==> all[0].since <= all[i + 1].since;
      }
    }
    if Forward(s.cache, next.cache) && InAskingOrder(log) && NotOlder(next.cache, log) {
      forall i, j | 0 <= i < j < |all| && all[i].key == all[j].key ensures all[i].since <= all[j].since {
        assert all[j] == log[j - 1];
        assert i > 0 ==> all[i] == log[i - 1];
      }
      forall i | 0 <= i < |all| && all[i].key in s.cache ensures s.cache[all[i].key].since <= all[i].since {
        assert i > 0 ==> all[i] == log[i - 1];
      }
    }
  }

  /** Over any run the cache moves forward at every step if and only if its stores come in
      asking order, and behind what was cached to begin with. */
  lemma {:induction false} MovesForwardExactly<K(!new), V>(s: State<K, V>, actions: seq<Action<K, V>>)
    ensures AlwaysForward(s, actions) <==>
            InAskingOrder(StoreLog(s, actions)) && NotOlder(s.cache, StoreLog(s, actions))
    decreases |actions|
  {
    if actions != [] {
      var next := Step(s, actions[0]).0;
      MovesForwardExactly(next, actions[1..]);
      if Stores(s, actions[0]) == [] {
        assert next.cache == s.cache && StoreLog(s, actions) == StoreLog(next, actions[1..]);
      } else {
        LogSplits(s, actions[0], Stores(s, actions[0])[0], StoreLog(next, actions[1..]));
      }
    }
  }

  /** So from an empty cache: it moves forward throughout exactly when no fetch of a key is
      stored after one of that key asked for strictly later. */
  lemma CacheMovesForwardExactly<K(!new), V>(now: nat, actions: seq<Action<K, V>>)
    ensures AlwaysForward(Start<K, V>(now), actions) <==> InAskingOrder(StoreLog(Start<K, V>(now), actions))
  {
    MovesForwardExactly(Start<K, V>(now), actions);
  }

  /** Fetches of one key that do not overlap are enough for that. */
  lemma {:induction false} CacheMovesForward<K(!new), V>(s: State<K, V>, actions: seq<Action<K, V>>)
    requires Ordered(s) && OneAtATime(s, actions)
    ensures Ordered(Run(s, actions).0) && AlwaysForward(s, actions) && Forward(s.cache, Run(s, actions).0.cache)
    decreases |actions|
  {
    if actions != [] {
      assert [actions[0]][1..] == [];
      assert OneAtATime(s, [actions[0]]);
      StepMovesForward(s, actions[0]);
      CacheMovesForward(Step(s, actions[0]).0, actions[1..]);
    }
  }

  class TtlCache<K(==), V> {
    var now: nat
    var cache: map<K, Entry<V>>
    var calls: map<nat, Call<K, V>>
    var next: nat

    constructor (now: nat)
      ensures Snapshot() == Start(now)
    {
      this.now, cache, calls, next := now, map[], map[], 0;
    }

    function Snapshot(): State<K, V>
      reads this
    {
      State(now, cache, calls, next)
    }

    /** First lock: a fresh entry answers, anything else begins a fetch. */
    method Look(key: K) returns (answers: seq<Answer<K, V>>)
      modifies this
      ensures (Snapshot(), answers) == Step(old(Snapshot()), Ask(key))
    {
      if key in cache && now - cache[key].at < CACHE_TTL {
        answers := [Answer(next, key, Some(cache[key].value), now, cache[key].since)];
        next := next + 1;
        return;
      }
      calls := calls[next := Fetching(key, now)];
      next := next + 1;
      return [];
    }

    method ReplyArrives(id: nat, reply: Option<V>) returns (answers: seq<Answer<K, V>>)
      modifies this
      ensures (Snapshot(), answers) == Step(old(Snapshot()), Reply(id, reply))
    {
      if id !in calls || !calls[id].Fetching? {
        return [];
      }
      if reply.Some? {
        calls := calls[id := Holding(calls[id].key, calls[id].since, reply.value)];
        return [];
      }
      answers := [Answer(id, calls[id].key, None, now, calls[id].since)];
      calls := calls - {id};
    }

    /** Second lock: what was fetched replaces whatever is there. */
    method Put(id: nat) returns (answers: seq<Answer<K, V>>)
      modifies this
      ensures (Snapshot(), answers) == Step(old(Snapshot()), Store(id))
    {
      if id !in calls || !calls[id].Holding? {
        return [];
      }
      var call := calls[id];
      cache := cache[call.key := Entry(now, call.value, call.since)];
      calls := calls - {id};
      answers := [Answer(id, call.key, Some(call.value), now, call.since)];
    }
  }

  // ------------------------------------------------------------------- pins

  datatype Model = Model(id: string, supportsTools: bool)

  /** The first model with the id. */
  function Get(models: seq<Model>, id: string): (r: Option<Model>)
    ensures r.Some? ==> r.value in models && r.value.id == id
    ensures r.None? ==> forall m :: m in models ==> m.id != id
  {
    if models == [] then None
    else if models[0].id == id then Some(models[0])
    else Get(models[1..], id)
  }

  /** Of several models with one id the lookup finds the first. */
  lemma {:induction false} GetFindsTheFirst(models: seq<Model>, id: string, i: nat)
    requires i < |models| && models[i].id == id && forall j :: 0 <= j < i ==> models[j].id != id
    ensures Get(models, id) == Some(models[i])
    decreases |models|
  {
    if i > 0 {
      assert models[0].id != id;
      assert forall j :: 0 <= j < i - 1 ==> models[1..][j] == models[j + 1];
      GetFindsTheFirst(models[1..], id, i - 1);
    }
  }

  /** Looking a model up through the cache is looking it up upstream. */
  lemma SteadyGet(now: nat, actions: seq<Action<(), seq<Model>>>, models: seq<Model>, id: string)
    requires GoodReplies(Start(now), actions, (k: (), v: seq<Model>) => v == models)
    ensures var answers := Run(Start(now), actions).1;
            forall i :: 0 <= i < |answers| && answers[i].value.Some? ==>
              Get(answers[i].value.value, id) == Get(models, id)
  {
    OnlyFetchedValues(Start(now), actions, (k: (), v: seq<Model>) => v == models);
    var answers := Run(Start(now), actions).1;
    forall i | 0 <= i < |answers| && answers[i].value.Some?
      ensures Get(answers[i].value.value, id) == Get(models, id)
    {
      assert GoodAnswer(answers[i], (k: (), v: seq<Model>) => v == models);
    }
  }

  datatype Reason = BatchOnly | NotListed | CatalogDown(error: string) | FreeOnTimer | FreeTier
    | OneProviderOnTimer | OneProvider | NoTools

  datatype PinVerdict = Fine | Refused(reason: Reason) | Warned(reason: Reason)

  datatype Listing = Failed(error: string) | Listed(models: seq<Model>)

  predicate EndsWith(s: string, suffix: string) {
    |suffix| <= |s| && s[|s| - |suffix|..] == suffix
  }

  /** `providers` is the endpoint detail: nothing when it could not be fetched. */
  function JudgePin(listing: Listing, providers: Option<nat>, id: string, hasRoutine: bool): PinVerdict {
    if EndsWith(id, ":batch") then Refused(BatchOnly)
    else if listing.Failed? then Refused(CatalogDown(listing.error))
    else
      match Get(listing.models, id)
      case None => Refused(NotListed)
      case Some(model) =>
        if EndsWith(id, ":free") then
          if hasRoutine then Refused(FreeOnTimer) else Warned(FreeTier)
        else if providers.Some? && providers.value <= 1 && hasRoutine then Refused(OneProviderOnTimer)
        else if providers.Some? && providers.value <= 1 then Warned(OneProvider)
        else if !model.supportsTools then Warned(NoTools)
        else Fine
  }

  /** The one listed model with the id, if any: batch variants do not count. */
  predicate Pinnable(listing: Listing, id: string) {
    listing.Listed? && !EndsWith(id, ":batch") && Get(listing.models, id).Some?
  }

  predicate OneKnownProvider(providers: Option<nat>) {
    providers.Some? && providers.value <= 1
  }

  /** When a pin is refused: it cannot be pinned at all, or a routine would run on it unattended
      and it is free or has a single provider. */
  lemma RefusedExactly(listing: Listing, providers: Option<nat>, id: string, hasRoutine: bool)
    ensures JudgePin(listing, providers, id, hasRoutine).Refused? <==>
            !Pinnable(listing, id) || (hasRoutine && (EndsWith(id, ":free") || OneKnownProvider(providers)))
  {
  }

  /** And when it passes without a word. */
  lemma FineExactly(listing: Listing, providers: Option<nat>, id: string, hasRoutine: bool)
    ensures JudgePin(listing, providers, id, hasRoutine) == Fine <==>
            Pinnable(listing, id) && Get(listing.models, id).value.supportsTools
            && !EndsWith(id, ":free") && !OneKnownProvider(providers)
  {
  }

  /** When each reason is given. */
  lemma ReasonsExactly(listing: Listing, providers: Option<nat>, id: string, hasRoutine: bool)
    ensures var verdict := JudgePin(listing, providers, id, hasRoutine);
            var paid := Pinnable(listing, id) && !EndsWith(id, ":free");
            && (verdict == Refused(BatchOnly) <==> EndsWith(id, ":batch"))
            && (forall error :: verdict == Refused(CatalogDown(error)) <==>
                  !EndsWith(id, ":batch") && listing == Failed(error))
            && (verdict == Refused(NotListed) <==>
                  !EndsWith(id, ":batch") && listing.Listed? && !Pinnable(listing, id))
            && (verdict == Refused(FreeOnTimer) <==> Pinnable(listing, id) && !paid && hasRoutine)
            && (verdict == Warned(FreeTier) <==> Pinnable(listing, id) && !paid && !hasRoutine)
            && (verdict == Refused(OneProviderOnTimer) <==> paid && OneKnownProvider(providers) && hasRoutine)
            && (verdict == Warned(OneProvider) <==> paid && OneKnownProvider(providers) && !hasRoutine)
            && (verdict == Warned(NoTools) <==>
                  paid && !OneKnownProvider(providers) && !Get(listing.models, id).value.supportsTools)
  {
  }

  /** A routine changes the verdict exactly on a listed model that is free or has a single
      provider, and there it turns a warning into a refusal: no rule is ever loosened. */
  lemma RoutineTightens(listing: Listing, providers: Option<nat>, id: string)
    ensures var without, timed := JudgePin(listing, providers, id, false), JudgePin(listing, providers, id, true);
            && (timed == without <==> !(without == Warned(FreeTier) || without == Warned(OneProvider)))
            && (timed != without ==> without.Warned? && timed.Refused?)
  {
  }

  /** A detail that cannot be fetched never refuses: the redundancy rule is silently
      skipped, so the verdict can only be more lenient than it would have been. */
  lemma MissingDetailOnlyLoosens(listing: Listing, providers: nat, id: string, hasRoutine: bool)
    ensures JudgePin(listing, None, id, hasRoutine).Refused? ==>
              JudgePin(listing, Some(providers), id, hasRoutine) == JudgePin(listing, None, id, hasRoutine)
    ensures providers > 1 ==>
              JudgePin(listing, Some(providers), id, hasRoutine) == JudgePin(listing, None, id, hasRoutine)
  {
  }

  function Severity(verdict: PinVerdict): nat {
    match verdict case Fine => 0 case Warned(_) => 1 case Refused(_) => 2
  }

  /** Knowing more, or having a routine, never makes a verdict milder. */
  lemma VerdictsOnlyHarden(listing: Listing, providers: nat, id: string, hasRoutine: bool)
    ensures var known := JudgePin(listing, Some(providers), id, hasRoutine);
            && Severity(JudgePin(listing, None, id, hasRoutine)) <= Severity(known)
            && Severity(known) <= Severity(JudgePin(listing, Some(providers), id, true))
  {
    RoutineTightens(listing, Some(providers), id);
    MissingDetailOnlyLoosens(listing, providers, id, hasRoutine);
  }
}
