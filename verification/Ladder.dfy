/** Which model a run may use: the settings that configure the rungs, the price floor
    under every run nobody is watching, and the rung a model sits on. */
module Ladder {
  import opened Text

  // ---------------------------------------------------------------- settings

  const DEFAULT_KEY := "models.default"
  const MID_KEY := "models.mid"
  const PREMIUM_KEY := "models.premium"

  const CHEAP_DEFAULT_MODEL := "google/gemini-2.5-flash-lite"
  const VISION_DEFAULT_MODEL := "google/gemini-2.5-flash-lite"
  const DEFAULT_PREMIUM_MODEL := "anthropic/claude-fable-5.1"
  const DEFAULT_MID_MODEL := "anthropic/claude-opus-5"

  datatype Kind = Code | Reason | Vision
  datatype Trigger = Chat | Routine | Webhook | Goal

  function Tier1Key(kind: Kind): string {
    match kind
    case Code => "models.tier1.code"
    case Reason => "models.tier1.reason"
    case Vision => "models.tier1.vision"
  }

  function DefaultTier1(kind: Kind): string {
    match kind
    case Code => "x-ai/grok-build-0.1"
    case Reason => "anthropic/claude-sonnet-5"
    case Vision => "google/gemini-3.8-flash"
  }

  /** The settings table; a key in `unreadable` answers a read with an error. */
  datatype Db = Db(kv: map<string, string>, unreadable: set<string>)

  /** A setting that cannot be read counts as one that was never written. */
  function Reading(db: Db, key: string, fallback: string): string {
    if key !in db.unreadable && key in db.kv then db.kv[key] else fallback
  }

  function DefaultModel(db: Db): string {
    Reading(db, DEFAULT_KEY, CHEAP_DEFAULT_MODEL)
  }

  function MidModel(db: Db): string {
    Reading(db, MID_KEY, DEFAULT_MID_MODEL)
  }

  function PremiumModel(db: Db): string {
    Reading(db, PREMIUM_KEY, DEFAULT_PREMIUM_MODEL)
  }

  function Tier1Model(db: Db, kind: Kind): string {
    Reading(db, Tier1Key(kind), DefaultTier1(kind))
  }

  /** One call of a setter: the store may refuse the write, and the setter does not say. */
  datatype Write = Write(key: string, model: string, stored: bool)

  function Written(db: Db, w: Write): Db {
    if w.stored then db.(kv := db.kv[w.key := w.model]) else db
  }

  function AllWritten(db: Db, writes: seq<Write>): Db
    decreases |writes|
  {
    if writes == [] then db else AllWritten(Written(db, writes[0]), writes[1..])
  }

  /** The last write to `key` that was stored, or `before`. */
  function LastStored(writes: seq<Write>, key: string, before: string): string
    decreases |writes|
  {
    if writes == [] then before
    else if writes[0].stored && writes[0].key == key then LastStored(writes[1..], key, writes[0].model)
    else LastStored(writes[1..], key, before)
  }

  /** Every getter reads the last stored write to its own key, whatever else was set. */
  lemma {:induction false} SettingsRemember(db: Db, writes: seq<Write>, key: string, fallback: string)
    requires key !in db.unreadable
    ensures Reading(AllWritten(db, writes), key, fallback) == LastStored(writes, key, Reading(db, key, fallback))
    ensures AllWritten(db, writes).unreadable == db.unreadable
    decreases |writes|
  {
    if writes != [] {
      SettingsRemember(Written(db, writes[0]), writes[1..], key, fallback);
    }
  }

  lemma {:induction false} UnreadableStays(db: Db, writes: seq<Write>, key: string, fallback: string)
    requires key in db.unreadable
    ensures Reading(AllWritten(db, writes), key, fallback) == fallback
    decreases |writes|
  {
    if writes != [] {
      UnreadableStays(Written(db, writes[0]), writes[1..], key, fallback);
    }
  }

  /** What a getter of `key` reads after one setter call. */
  function Read(db: Db, w: Write, key: string, before: string): string {
    if w.stored && w.key == key && key !in db.unreadable then w.model else before
  }

  /** Every getter reads what was stored under its own key and no other. */
  lemma GettersReadTheirKeys(db: Db, w: Write)
    ensures var after := Written(db, w);
            && DefaultModel(after) == Read(db, w, "models.default", DefaultModel(db))
            && MidModel(after) == Read(db, w, "models.mid", MidModel(db))
            && PremiumModel(after) == Read(db, w, "models.premium", PremiumModel(db))
            && Tier1Model(after, Code) == Read(db, w, "models.tier1.code", Tier1Model(db, Code))
            && Tier1Model(after, Reason) == Read(db, w, "models.tier1.reason", Tier1Model(db, Reason))
            && Tier1Model(after, Vision) == Read(db, w, "models.tier1.vision", Tier1Model(db, Vision))
  {
  }

  /** The ladder as it comes, before any setting is made. */
  lemma LadderAsItComes(unreadable: set<string>)
    ensures var db := Db(map[], unreadable);
            && DefaultModel(db) == "google/gemini-2.5-flash-lite" && MidModel(db) == "anthropic/claude-opus-5"
            && PremiumModel(db) == "anthropic/claude-fable-5.1" && Tier1Model(db, Code) == "x-ai/grok-build-0.1"
            && Tier1Model(db, Reason) == "anthropic/claude-sonnet-5"
            && Tier1Model(db, Vision) == "google/gemini-3.8-flash"
  {
  }

  class Settings {
    var kv: map<string, string>
    const unreadable: set<string>

    constructor (kv: map<string, string>, unreadable: set<string>)
      ensures Contents() == Db(kv, unreadable)
    {
      this.kv, this.unreadable := kv, unreadable;
    }

    function Contents(): Db
      reads this
    {
      Db(kv, unreadable)
    }

    /** The setters answer with the model they were given, stored or not. */
    method Set(key: string, model: string, stored: bool) returns (r: string)
      modifies this
      ensures r == model && Contents() == Written(old(Contents()), Write(key, model, stored))
    {
      if stored {
        kv := kv[key := model];
      }
      r := model;
    }

    method SetDefaultModel(model: string, stored: bool) returns (r: string)
      modifies this
      ensures r == model && Contents() == Written(old(Contents()), Write(DEFAULT_KEY, model, stored))
    {
      r := Set(DEFAULT_KEY, model, stored);
    }

    method SetMidModel(model: string, stored: bool) returns (r: string)
      modifies this
      ensures r == model && Contents() == Written(old(Contents()), Write(MID_KEY, model, stored))
    {
      r := Set(MID_KEY, model, stored);
    }

    method SetPremiumModel(model: string, stored: bool) returns (r: string)
      modifies this
      ensures r == model && Contents() == Written(old(Contents()), Write(PREMIUM_KEY, model, stored))
    {
      r := Set(PREMIUM_KEY, model, stored);
    }

    method SetTier1Model(kind: Kind, model: string, stored: bool) returns (r: string)
      modifies this
      ensures r == model && Contents() == Written(old(Contents()), Write(Tier1Key(kind), model, stored))
    {
      r := Set(Tier1Key(kind), model, stored);
    }
  }

  // ----------------------------------------------------------- premium names

  const PREMIUM_MARKERS := ["fable", "sol", "astra", "opus", "gpt-6", "pro"]

  predicate ContainsAny(id: string, markers: seq<string>) {
    markers != [] && (Contains(id, markers[0]) || ContainsAny(id, markers[1..]))
  }

  predicate LooksPremium(model: string) {
    ContainsAny(Lower(model), PREMIUM_MARKERS)
  }

  predicate IsMarker(w: string) {
    w == "fable" || w == "sol" || w == "astra" || w == "opus" || w == "gpt-6" || w == "pro"
  }

  lemma MarkersAre(k: nat)
    requires k < |PREMIUM_MARKERS|
    ensures IsMarker(PREMIUM_MARKERS[k])
  {
  }

  lemma MarkerIsListed(w: string) returns (k: nat)
    requires IsMarker(w)
    ensures k < |PREMIUM_MARKERS| && PREMIUM_MARKERS[k] == w
  {
    k := if w == "fable" then 0 else if w == "sol" then 1 else if w == "astra" then 2 else if w == "opus" then 3
         else if w == "gpt-6" then 4 else 5;
  }

  lemma {:induction false} ContainsAnyExactly(id: string, markers: seq<string>)
    ensures ContainsAny(id, markers) <==> exists k :: 0 <= k < |markers| && Contains(id, markers[k])
    decreases |markers|
  {
    if markers != [] {
      ContainsAnyExactly(id, markers[1..]);
      if k :| 0 <= k < |markers| && Contains(id, markers[k]) {
        assert k > 0 ==> markers[1..][k - 1] == markers[k];
      }
      if k :| 0 <= k < |markers[1..]| && Contains(id, markers[1..][k]) {
        assert markers[k + 1] == markers[1..][k];
      }
    }
  }

  lemma {:induction false} OccurrenceExactly(s: string, w: string, i: nat)
    ensures OccursAt(s, w, i) <==> i + |w| <= |s| && s[i..i + |w|] == w
    decreases |w|
  {
    if w != "" && i < |s| {
      OccurrenceExactly(s, w[1..], i + 1);
      if i + |w| <= |s| {
        assert s[i..i + |w|] == [s[i]] + s[i + 1..i + |w|];
        assert w == [w[0]] + w[1..];
      }
    }
  }

  /** `w` stands somewhere in `s`. */
  ghost predicate Holds(s: string, w: string) {
    exists i: nat, j: nat :: i <= j <= |s| && s[i..j] == w
  }

  lemma ContainsExactly(s: string, w: string)
    ensures Contains(s, w) <==> Holds(s, w)
  {
    if Contains(s, w) {
      var i: nat :| i <= |s| && OccursAt(s, w, i);
      OccurrenceExactly(s, w, i);
      assert s[i..i + |w|] == w;
    }
    if Holds(s, w) {
      var i: nat, j: nat :| i <= j <= |s| && s[i..j] == w;
      OccurrenceExactly(s, w, i);
    }
  }

  lemma AnyMarker(id: string, markers: seq<string>)
    requires forall k :: 0 <= k < |markers| ==> IsMarker(markers[k])
    requires forall w :: IsMarker(w) ==> w in markers
    ensures ContainsAny(id, markers) <==> exists w :: IsMarker(w) && Holds(id, w)
  {
    ContainsAnyExactly(id, markers);
    forall w ensures Contains(id, w) <==> Holds(id, w) {
      ContainsExactly(id, w);
    }
  }

  /** A premium name is one that holds, in either case and anywhere, one of six words. */
  lemma PremiumByName(model: string)
    ensures LooksPremium(model) <==> exists w :: IsMarker(w) && Holds(Lower(model), w)
  {
    forall k | 0 <= k < |PREMIUM_MARKERS| ensures IsMarker(PREMIUM_MARKERS[k]) {
      MarkersAre(k);
    }
    forall w | IsMarker(w) ensures w in PREMIUM_MARKERS {
      var k := MarkerIsListed(w);
    }
    AnyMarker(Lower(model), PREMIUM_MARKERS);
  }

  lemma MissingCharacter(id: string, w: string, k: nat)
    requires k < |w| && forall i :: 0 <= i < |id| ==> id[i] != w[k]
    ensures !Contains(id, w)
  {
    if Contains(id, w) {
      var i: nat :| i <= |id| && OccursAt(id, w, i);
      OccurrenceChar(id, w, i, k);
    }
  }

  lemma MissingPair(id: string, w: string)
    requires |w| >= 2 && forall i :: 0 <= i < |id| - 1 && id[i] == w[0] ==> id[i + 1] != w[1]
    ensures !Contains(id, w)
  {
    if Contains(id, w) {
      var i: nat :| i <= |id| && OccursAt(id, w, i);
      OccurrenceChar(id, w, i, 0);
      OccurrenceChar(id, w, i, 1);
    }
  }

  /** Each marker needs a 'b', an 'r' or a 'p', or an 's' before an 'o'. */
  predicate Telling(marker: string) {
    || (|marker| > 2 && marker[2] == 'b')
    || (|marker| > 1 && marker[0] == 's' && marker[1] == 'o')
    || (|marker| > 3 && marker[3] == 'r')
    || (|marker| > 1 && marker[1] == 'p')
    || (|marker| > 0 && marker[0] == 'p')
  }

  lemma MarkersAreTelling()
    ensures forall k :: 0 <= k < |PREMIUM_MARKERS| ==> Telling(PREMIUM_MARKERS[k])
  {
  }

  predicate Untold(id: string) {
    && (forall i :: 0 <= i < |id| ==> id[i] != 'b' && id[i] != 'r' && id[i] != 'p')
    && (forall i :: 0 <= i < |id| - 1 && id[i] == 's' ==> id[i + 1] != 'o')
  }

  lemma NoMarker(id: string, marker: string)
    requires Untold(id) && Telling(marker)
    ensures !Contains(id, marker)
  {
    if |marker| > 2 && marker[2] == 'b' {
      MissingCharacter(id, marker, 2);
    } else if |marker| > 1 && marker[0] == 's' && marker[1] == 'o' {
      MissingPair(id, marker);
    } else if |marker| > 3 && marker[3] == 'r' {
      MissingCharacter(id, marker, 3);
    } else if |marker| > 1 && marker[1] == 'p' {
      MissingCharacter(id, marker, 1);
    } else {
      MissingCharacter(id, marker, 0);
    }
  }

  lemma {:induction false} NoMarkers(id: string, markers: seq<string>)
    requires Untold(id) && forall k :: 0 <= k < |markers| ==> Telling(markers[k])
    ensures !ContainsAny(id, markers)
    decreases |markers|
  {
    if markers != [] {
      NoMarker(id, markers[0]);
      NoMarkers(id, markers[1..]);
    }
  }

  lemma CheapIsUntold()
    ensures Untold(Lower(CHEAP_DEFAULT_MODEL))
  {
  }

  /** The floor itself is not a premium name. */
  lemma CheapIsNotPremium()
    ensures !LooksPremium(CHEAP_DEFAULT_MODEL)
  {
    CheapIsUntold();
    MarkersAreTelling();
    NoMarkers(Lower(CHEAP_DEFAULT_MODEL), PREMIUM_MARKERS);
  }

  // --------------------------------------------------------------- the floor

  /** Neither premium by name nor the configured premium target. */
  predicate Allowed(db: Db, model: string) {
    !LooksPremium(model) && model != PremiumModel(db)
  }

  function SafeFallback(db: Db): string {
    var configured := DefaultModel(db);
    if LooksPremium(configured) || configured == PremiumModel(db) then CHEAP_DEFAULT_MODEL else configured
  }

  function ModelForRun(db: Db, trigger: Trigger, requested: string, room: bool): string {
    if room then SafeFallback(db)
    else if trigger == Chat then requested
    else if LooksPremium(requested) || requested == PremiumModel(db) then SafeFallback(db)
    else requested
  }

  function ModelForTurn(db: Db, trigger: Trigger, room: bool, effective: string, carriesImage: bool): string {
    if !carriesImage then effective
    else if trigger == Chat && !room then effective
    else if effective != CHEAP_DEFAULT_MODEL && effective != VISION_DEFAULT_MODEL then effective
    else Tier1Model(db, Vision)
  }

  predicate Unattended(trigger: Trigger, room: bool) {
    room || trigger != Chat
  }

  /** The run drops all the way to the cheap constant: nothing else it could use is allowed. */
  predicate Bottoms(db: Db, requested: string, room: bool) {
    (room || !Allowed(db, requested)) && !Allowed(db, DefaultModel(db))
  }

  /** Whatever the settings hold, an unattended run never gets a premium name. */
  lemma NoPremiumNameUnattended(db: Db, trigger: Trigger, requested: string, room: bool)
    requires Unattended(trigger, room)
    ensures !LooksPremium(ModelForRun(db, trigger, requested, room))
  {
    CheapIsNotPremium();
  }

  /** Nor the configured premium target, except in the one configuration the floor
      cannot get under: the premium target is the cheap constant itself. */
  lemma FloorExactly(db: Db, trigger: Trigger, requested: string, room: bool)
    requires Unattended(trigger, room)
    ensures Allowed(db, ModelForRun(db, trigger, requested, room)) <==>
            !(PremiumModel(db) == CHEAP_DEFAULT_MODEL && Bottoms(db, requested, room))
  {
    CheapIsNotPremium();
  }

  /** That exception is real. */
  lemma FloorCanBeThePremiumTarget()
    ensures exists db: Db :: !Allowed(db, ModelForRun(db, Routine, DEFAULT_PREMIUM_MODEL, false))
  {
    var db := Db(map[PREMIUM_KEY := CHEAP_DEFAULT_MODEL, DEFAULT_KEY := CHEAP_DEFAULT_MODEL], {});
    assert PremiumModel(db) == CHEAP_DEFAULT_MODEL == DefaultModel(db);
    FableIsPremium();
    FloorExactly(db, Routine, DEFAULT_PREMIUM_MODEL, false);
  }

  lemma FableIsPremium()
    ensures LooksPremium(DEFAULT_PREMIUM_MODEL)
  {
    var id := Lower(DEFAULT_PREMIUM_MODEL);
    OccurrenceExactly(id, "fable", 17);
    assert PREMIUM_MARKERS[0] == "fable";
  }

  /** After any sequence of setter calls, stored or lost, on any store whose premium
      target is not the cheap constant, every unattended run is allowed, as long as no
      call makes the cheap constant the premium target. */
  lemma FloorAfterSetters(db: Db, writes: seq<Write>, trigger: Trigger, requested: string, room: bool)
    requires Unattended(trigger, room)
    requires PremiumModel(db) != CHEAP_DEFAULT_MODEL
    requires forall i :: 0 <= i < |writes| && writes[i].key == PREMIUM_KEY ==> writes[i].model != CHEAP_DEFAULT_MODEL
    ensures var after := AllWritten(db, writes); Allowed(after, ModelForRun(after, trigger, requested, room))
  {
    var after := AllWritten(db, writes);
    if PREMIUM_KEY in db.unreadable {
      UnreadableStays(db, writes, PREMIUM_KEY, DEFAULT_PREMIUM_MODEL);
      DefaultsDiffer();
    } else {
      SettingsRemember(db, writes, PREMIUM_KEY, DEFAULT_PREMIUM_MODEL);
      NeverStored(writes, PREMIUM_KEY, PremiumModel(db), CHEAP_DEFAULT_MODEL);
    }
    FloorExactly(after, trigger, requested, room);
  }

  lemma DefaultsDiffer()
    ensures DEFAULT_PREMIUM_MODEL != CHEAP_DEFAULT_MODEL
  {
    assert DEFAULT_PREMIUM_MODEL[0] != CHEAP_DEFAULT_MODEL[0];
  }

  lemma {:induction false} NeverStored(writes: seq<Write>, key: string, before: string, model: string)
    requires before != model
    requires forall i :: 0 <= i < |writes| && writes[i].key == key ==> writes[i].model != model
    ensures LastStored(writes, key, before) != model
    decreases |writes|
  {
    if writes != [] {
      var now := if writes[0].stored && writes[0].key == key then writes[0].model else before;
      NeverStored(writes[1..], key, now, model);
    }
  }

  /** The floor does nothing the second time, in every configuration. */
  lemma FloorIsIdempotent(db: Db, trigger: Trigger, requested: string, room: bool)
    ensures var m := ModelForRun(db, trigger, requested, room); ModelForRun(db, trigger, m, room) == m
  {
  }

  /** The first candidate that is allowed, or the cheap constant. */
  function FirstAllowed(db: Db, candidates: seq<string>): string
    decreases |candidates|
  {
    if candidates == [] then CHEAP_DEFAULT_MODEL
    else if Allowed(db, candidates[0]) then candidates[0]
    else FirstAllowed(db, candidates[1..])
  }

  /** An unattended run gets the first allowed of what was requested and the default; a
      room round does not look at what was requested, so it is priced alike for every
      member, whatever each is pinned to. */
  lemma UnattendedTakesFirstAllowed(db: Db, trigger: Trigger, requested: string, room: bool)
    requires Unattended(trigger, room)
    ensures ModelForRun(db, trigger, requested, room) ==
            FirstAllowed(db, if room then [DefaultModel(db)] else [requested, DefaultModel(db)])
  {
    var floor := [DefaultModel(db)];
    assert floor[1..] == [] && [requested, DefaultModel(db)][1..] == floor;
    assert FirstAllowed(db, floor) == SafeFallback(db);
  }

  // -------------------------------------------------------- tiers and routing

  function TierOf(db: Db, model: string): nat {
    if model == PremiumModel(db) then 3
    else if model == MidModel(db) then 2
    else if model == Tier1Model(db, Code) || model == Tier1Model(db, Reason) || model == Tier1Model(db, Vision) then 1
    else if LooksPremium(model) then 3
    else 0
  }

  /** Routing one chat turn; `work` is the classifier's verdict. */
  function Route(db: Db, trigger: Trigger, current: string, room: bool, fromUser: bool, enabled: bool, work: bool)
    : string
  {
    if trigger != Chat || room || !fromUser then current
    else if !enabled then current
    else if TierOf(db, current) >= TierOf(db, Tier1Model(db, Reason)) then current
    else if work then Tier1Model(db, Reason)
    else current
  }

  predicate IsSpecialist(db: Db, model: string) {
    exists kind :: model == Tier1Model(db, kind)
  }

  lemma SpecialistIs(db: Db, model: string)
    ensures IsSpecialist(db, model) <==>
            model == Tier1Model(db, Code) || model == Tier1Model(db, Reason) || model == Tier1Model(db, Vision)
  {
    if kind :| model == Tier1Model(db, kind) {
      match kind case Code => case Reason => case Vision =>
    }
  }

  /** The rung of a model, whatever the settings make coincide: the highest rung it is
      configured on, and for a model on no rung the top or the bottom, by its name. */
  lemma RungExactly(db: Db, model: string)
    ensures var listed := model == MidModel(db) || IsSpecialist(db, model);
            && (TierOf(db, model) == 3 <==> model == PremiumModel(db) || (!listed && LooksPremium(model)))
            && (TierOf(db, model) == 2 <==> model == MidModel(db) && model != PremiumModel(db))
            && (TierOf(db, model) == 1 <==>
                  IsSpecialist(db, model) && model != MidModel(db) && model != PremiumModel(db))
            && (TierOf(db, model) == 0 <==> !listed && model != PremiumModel(db) && !LooksPremium(model))
  {
    SpecialistIs(db, model);
  }

  /** A turn is routed exactly when a person asked in a conversation, escalation is on, the
      classifier says work, and the reasoning rung is higher; and then it goes there. */
  lemma RoutesExactly(db: Db, trigger: Trigger, current: string, room: bool, fromUser: bool, enabled: bool, work: bool)
    ensures var m, reason := Route(db, trigger, current, room, fromUser, enabled, work), Tier1Model(db, Reason);
            && (m != current <==> trigger == Chat && !room && fromUser && enabled && work
                                  && TierOf(db, current) < TierOf(db, reason))
            && (m != current ==> m == reason)
  {
  }

  /** Routing only ever climbs, and never touches an unattended run. */
  lemma RoutingClimbs(db: Db, trigger: Trigger, current: string, room: bool, fromUser: bool, enabled: bool, work: bool)
    ensures var m := Route(db, trigger, current, room, fromUser, enabled, work);
            && (m != current ==> TierOf(db, m) > TierOf(db, current))
            && (Unattended(trigger, room) ==> m == current)
  {
  }

  /** What one provider call of a run is sent to: the floor, then routing, then the lift
      for a call that carries an image. */
  function TurnModel(db: Db, trigger: Trigger, requested: string, room: bool,
                     fromUser: bool, enabled: bool, work: bool, carriesImage: bool): string
  {
    var started := ModelForRun(db, trigger, requested, room);
    var routed := Route(db, trigger, started, room, fromUser, enabled, work);
    ModelForTurn(db, trigger, room, routed, carriesImage)
  }

  /** The lift happens exactly when an unattended call with an image would use the cheap constant. */
  predicate Lifted(db: Db, trigger: Trigger, requested: string, room: bool, carriesImage: bool) {
    carriesImage && Unattended(trigger, room) && ModelForRun(db, trigger, requested, room) == CHEAP_DEFAULT_MODEL
  }

  /** Over a whole unattended call the floor holds exactly when the call is lifted onto
      an allowed vision rung, or not lifted and the floor itself holds. */
  lemma UnattendedCallExactly(db: Db, trigger: Trigger, requested: string, room: bool,
                              fromUser: bool, enabled: bool, work: bool, carriesImage: bool)
    requires Unattended(trigger, room)
    ensures Allowed(db, TurnModel(db, trigger, requested, room, fromUser, enabled, work, carriesImage)) <==>
            if Lifted(db, trigger, requested, room, carriesImage) then Allowed(db, Tier1Model(db, Vision))
            else !(PremiumModel(db) == CHEAP_DEFAULT_MODEL && Bottoms(db, requested, room))
  {
    FloorExactly(db, trigger, requested, room);
    RoutingClimbs(db, trigger, ModelForRun(db, trigger, requested, room), room, fromUser, enabled, work);
  }

  /** So a vision rung that is not premium keeps the guarantee of the floor. */
  lemma VisionRungKeepsTheFloor(db: Db, trigger: Trigger, requested: string, room: bool,
                                fromUser: bool, enabled: bool, work: bool, carriesImage: bool)
    requires Unattended(trigger, room) && Allowed(db, Tier1Model(db, Vision))
    requires Allowed(db, ModelForRun(db, trigger, requested, room))
    ensures Allowed(db, TurnModel(db, trigger, requested, room, fromUser, enabled, work, carriesImage))
  {
    UnattendedCallExactly(db, trigger, requested, room, fromUser, enabled, work, carriesImage);
    FloorExactly(db, trigger, requested, room);
  }

  /** What a person asked for in a conversation is never overridden by the floor or the lift. */
  lemma ConversationsKeepTheirModel(db: Db, requested: string, carriesImage: bool)
    ensures ModelForTurn(db, Chat, false, ModelForRun(db, Chat, requested, false), carriesImage) == requested
  {
  }

  /** Over a whole call of a conversation the model is the requested one, or one on a
      strictly higher rung that routing chose. */
  lemma ConversationsNeverFall(db: Db, requested: string, fromUser: bool, enabled: bool, work: bool,
                               carriesImage: bool)
    ensures var m := TurnModel(db, Chat, requested, false, fromUser, enabled, work, carriesImage);
            m == requested || (m == Tier1Model(db, Reason) && TierOf(db, m) > TierOf(db, requested))
  {
    ConversationsKeepTheirModel(db, requested, carriesImage);
    RoutingClimbs(db, Chat, requested, false, fromUser, enabled, work);
  }
}
