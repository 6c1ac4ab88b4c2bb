/**
 * Single-flight schema cache (src/validation/schema-cache.ts). Callers, provider answers, evictions and
 * invalidations interleave; a step is what happens between two awaits. The store may lose any entry at
 * any time, which covers LRU eviction, invalidation and clean-up.
 */
module SchemaCaching {
  import opened Wrappers

  datatype Schema = Schema(name: string, description: string, inputSchema: string, outputSchema: Option<string>)

  datatype Entry = Entry(schema: Schema, fetchedAt: int, expiresAt: int)

  datatype Answer = Found(full: Schema) | NotFound | ProviderError

  datatype Outcome = Value(schema: Option<Schema>) | Thrown

  /** One provider call: who started it and when, what it may fall back to, and what came of it. */
  datatype Flight = Flight(
    tool: string,
    owner: nat,
    startedAt: int,
    stale: Option<Entry>,
    answer: Option<Answer>,
    cleaned: bool)

  datatype Caller =
    | Waiting(tool: string, flight: nat)
    | FromCache(tool: string, at: int, entry: Entry)
    | FromFlight(tool: string, flight: nat, outcome: Outcome)

  datatype State = State(
    cache: map<string, Entry>,
    inFlight: map<string, nat>,
    flights: seq<Flight>,
    callers: seq<Caller>,
    loaded: set<(string, Entry)>)

  datatype Event =
    | Call(tool: string, now: int)
    | Respond(flight: nat, answer: Answer, fetchedAt: int, readAt: int)
    | Return(caller: nat)
    | Lose(tools: set<string>)
    | Load(entries: map<string, Entry>)

  /** What is kept of a provider's schema: everything but its output schema. */
  function Kept(full: Schema): Schema {
    full.(outputSchema := None)
  }

  function OutcomeOf(f: Flight): Outcome
    requires f.answer.Some?
  {
    match f.answer.value
    case Found(full) => Value(Some(Kept(full)))
    case NotFound => Value(None)
    case ProviderError => if f.stale.Some? then Value(Some(f.stale.value.schema)) else Thrown
  }

  predicate Enabled(s: State, e: Event) {
    match e
    case Call(_, _) => true
    case Respond(f, _, _, _) => f < |s.flights| && s.flights[f].answer.None?
    case Return(c) =>
      && c < |s.callers| && s.callers[c].Waiting?
      && s.callers[c].flight < |s.flights| && s.flights[s.callers[c].flight].answer.Some?
    case Lose(_) => true
    case Load(_) => true
  }

  function Apply(ttl: int, s: State, e: Event): State {
    if !Enabled(s, e) then s else
    match e
    case Call(tool, now) =>
      if tool in s.inFlight then
        s.(callers := s.callers + [Waiting(tool, s.inFlight[tool])])
      else if tool in s.cache && now < s.cache[tool].expiresAt then
        s.(callers := s.callers + [FromCache(tool, now, s.cache[tool])])
      else
        var stale := if tool in s.cache then Some(s.cache[tool]) else None;
        s.(inFlight := s.inFlight[tool := |s.flights|],
           flights := s.flights + [Flight(tool, |s.callers|, now, stale, None, false)],
           callers := s.callers + [Waiting(tool, |s.flights|)])
    case Respond(f, answer, fetchedAt, readAt) =>
      var s' := s.(flights := s.flights[f := s.flights[f].(answer := Some(answer))]);
      if answer.Found?
      then s'.(cache := s.cache[s.flights[f].tool := Entry(Kept(answer.full), fetchedAt, readAt + ttl)])
      else s'
    case Return(c) =>
      var f := s.callers[c].flight;
      var flight := s.flights[f];
      var s' := s.(callers := s.callers[c := FromFlight(s.callers[c].tool, f, OutcomeOf(flight))]);
      if flight.owner == c
      then s'.(inFlight := s.inFlight - {flight.tool}, flights := s.flights[f := flight.(cleaned := true)])
      else s'
    case Lose(tools) => s.(cache := s.cache - tools)
    case Load(entries) => s.(cache := s.cache + entries, loaded := s.loaded + entries.Items)
  }

  const EMPTY := State(map[], map[], [], [], {})

  function After(ttl: int, es: seq<Event>): State {
    if es == [] then EMPTY else Apply(ttl, After(ttl, es[..|es| - 1]), es[|es| - 1])
  }

  lemma AfterSnoc(ttl: int, es: seq<Event>, e: Event)
    ensures After(ttl, es + [e]) == Apply(ttl, After(ttl, es), e)
  {
    assert (es + [e])[..|es|] == es;
  }

  // ----- What every step keeps

  /** The tracking map holds exactly the flights whose owner has not cleaned up yet. */
  ghost predicate Tracked(s: State) {
    && (forall t | t in s.inFlight :: s.inFlight[t] < |s.flights|)
    && (forall t | t in s.inFlight :: s.flights[s.inFlight[t]].tool == t && !s.flights[s.inFlight[t]].cleaned)
    && (forall f | 0 <= f < |s.flights| && !s.flights[f].cleaned ::
          s.flights[f].tool in s.inFlight && s.inFlight[s.flights[f].tool] == f)
  }

  /** A flight is cleaned once, by its owner, after it was answered; it falls back on expired entries only. */
  ghost predicate FlightOwned(f: nat, flight: Flight, callers: seq<Caller>) {
    && flight.owner < |callers|
    && (flight.cleaned ==> flight.answer.Some? && !callers[flight.owner].Waiting?)
    && (!flight.cleaned ==> callers[flight.owner] == Waiting(flight.tool, f))
    && (flight.stale.Some? ==> flight.stale.value.expiresAt <= flight.startedAt)
  }

  ghost predicate Owned(s: State) {
    && (forall f | 0 <= f < |s.flights| :: FlightOwned(f, s.flights[f], s.callers))
    && (forall c | 0 <= c < |s.callers| && s.callers[c].Waiting? ::
          s.callers[c].flight < |s.flights| && s.flights[s.callers[c].flight].tool == s.callers[c].tool)
  }

  /** Whoever has returned from a flight has that flight's outcome. */
  ghost predicate Delivered(s: State) {
    forall c | 0 <= c < |s.callers| && s.callers[c].FromFlight? :: DeliveredTo(s, s.callers[c])
  }

  ghost predicate DeliveredTo(s: State, caller: Caller)
    requires caller.FromFlight?
  {
    && caller.flight < |s.flights|
    && s.flights[caller.flight].tool == caller.tool
    && s.flights[caller.flight].answer.Some?
    && caller.outcome == OutcomeOf(s.flights[caller.flight])
  }

  /** An entry stored for `tool` was loaded from disk, or returned by a provider call for that very tool. */
  ghost predicate Genuine(s: State, tool: string, entry: Entry) {
    || (tool, entry) in s.loaded
    || exists f | 0 <= f < |s.flights| :: Fetched(s.flights[f], tool, entry)
  }

  ghost predicate Fetched(f: Flight, tool: string, entry: Entry) {
    f.tool == tool && f.answer.Some? && f.answer.value.Found? && entry.schema == Kept(f.answer.value.full)
  }

  ghost predicate FlightGenuine(s: State, flight: Flight) {
    flight.stale.Some? ==> Genuine(s, flight.tool, flight.stale.value)
  }

  ghost predicate CallerGenuine(s: State, caller: Caller) {
    caller.FromCache? ==> Genuine(s, caller.tool, caller.entry) && caller.at < caller.entry.expiresAt
  }

  ghost predicate AllGenuine(s: State) {
    && (forall t | t in s.cache :: Genuine(s, t, s.cache[t]))
    && (forall f | 0 <= f < |s.flights| :: FlightGenuine(s, s.flights[f]))
    && (forall c | 0 <= c < |s.callers| :: CallerGenuine(s, s.callers[c]))
  }

  lemma CallTracked(ttl: int, s: State, tool: string, now: int)
    requires Tracked(s)
    ensures Tracked(Apply(ttl, s, Call(tool, now)))
  {
  }

  lemma RespondTracked(ttl: int, s: State, e: Event)
    requires Tracked(s) && e.Respond?
    ensures Tracked(Apply(ttl, s, e))
  {
  }

  /** The owner that cleans up finds its own flight under its tool. */
  lemma ReturnTracked(ttl: int, s: State, c: nat)
    requires Tracked(s) && Owned(s)
    ensures Tracked(Apply(ttl, s, Return(c)))
  {
    if Enabled(s, Return(c)) {
      assert FlightOwned(s.callers[c].flight, s.flights[s.callers[c].flight], s.callers);
    }
  }

  lemma TrackedKept(ttl: int, s: State, e: Event)
    requires Tracked(s) && Owned(s)
    ensures Tracked(Apply(ttl, s, e))
  {
    match e {
      case Call(tool, now) => CallTracked(ttl, s, tool, now);
      case Respond(_, _, _, _) => RespondTracked(ttl, s, e);
      case Return(c) => ReturnTracked(ttl, s, c);
      case Lose(_) =>
      case Load(_) =>
    }
  }

  lemma CallOwned(ttl: int, s: State, tool: string, now: int)
    requires Tracked(s) && Owned(s)
    ensures Owned(Apply(ttl, s, Call(tool, now)))
  {
    var s' := Apply(ttl, s, Call(tool, now));
    forall f | 0 <= f < |s'.flights| ensures FlightOwned(f, s'.flights[f], s'.callers) {
      if f < |s.flights| {
        assert FlightOwned(f, s.flights[f], s.callers);
      }
    }
  }

  lemma RespondOwned(ttl: int, s: State, e: Event)
    requires Owned(s) && e.Respond?
    ensures Owned(Apply(ttl, s, e))
  {
    var s' := Apply(ttl, s, e);
    forall f | 0 <= f < |s'.flights| ensures FlightOwned(f, s'.flights[f], s'.callers) {
      assert FlightOwned(f, s.flights[f], s.callers);
    }
  }

  lemma ReturnOwned(ttl: int, s: State, c: nat)
    requires Owned(s)
    ensures Owned(Apply(ttl, s, Return(c)))
  {
    var s' := Apply(ttl, s, Return(c));
    forall f | 0 <= f < |s'.flights| ensures FlightOwned(f, s'.flights[f], s'.callers) {
      assert FlightOwned(f, s.flights[f], s.callers);
    }
  }

  lemma OwnedKept(ttl: int, s: State, e: Event)
    requires Tracked(s) && Owned(s)
    ensures Owned(Apply(ttl, s, e))
  {
    match e {
      case Call(tool, now) => CallOwned(ttl, s, tool, now);
      case Respond(_, _, _, _) => RespondOwned(ttl, s, e);
      case Return(c) => ReturnOwned(ttl, s, c);
      case Lose(_) =>
      case Load(_) =>
    }
  }

  /** A flight that was answered keeps its tool and its outcome. */
  lemma OutcomeKept(ttl: int, s: State, e: Event, f: nat)
    requires f < |s.flights| && s.flights[f].answer.Some?
    ensures
      var s' := Apply(ttl, s, e);
      && f < |s'.flights| && s'.flights[f].tool == s.flights[f].tool && s'.flights[f].answer.Some?
      && OutcomeOf(s'.flights[f]) == OutcomeOf(s.flights[f])
  {
  }

  lemma DeliveredKept(ttl: int, s: State, e: Event)
    requires Owned(s) && Delivered(s)
    ensures Delivered(Apply(ttl, s, e))
  {
    hide OutcomeOf;
    var s' := Apply(ttl, s, e);
    forall c | 0 <= c < |s'.callers| && s'.callers[c].FromFlight?
      ensures DeliveredTo(s', s'.callers[c])
    {
      OutcomeKept(ttl, s, e, s'.callers[c].flight);
    }
  }

  /** Flights never lose their tool or their answer, so what was genuine stays genuine. */
  lemma GenuineLater(ttl: int, s: State, e: Event, tool: string, entry: Entry)
    requires Genuine(s, tool, entry)
    ensures Genuine(Apply(ttl, s, e), tool, entry)
  {
    var s' := Apply(ttl, s, e);
    if (tool, entry) !in s.loaded {
      var f :| 0 <= f < |s.flights| && Fetched(s.flights[f], tool, entry);
      assert Fetched(s'.flights[f], tool, entry);
    }
  }

  lemma CacheGenuineKept(ttl: int, s: State, e: Event, t: string)
    requires AllGenuine(s) && t in Apply(ttl, s, e).cache
    ensures Genuine(Apply(ttl, s, e), t, Apply(ttl, s, e).cache[t])
  {
    var s' := Apply(ttl, s, e);
    if t in s.cache && s'.cache[t] == s.cache[t] {
      GenuineLater(ttl, s, e, t, s.cache[t]);
    } else if e.Respond? {
      assert Fetched(s'.flights[e.flight], t, s'.cache[t]);
    } else {
      assert t in e.entries && (t, e.entries[t]) in e.entries.Items;
    }
  }

  lemma FlightGenuineKept(ttl: int, s: State, e: Event, f: nat)
    requires AllGenuine(s) && f < |Apply(ttl, s, e).flights|
    ensures FlightGenuine(Apply(ttl, s, e), Apply(ttl, s, e).flights[f])
  {
    hide Genuine, CallerGenuine;
    var flight := Apply(ttl, s, e).flights[f];
    if flight.stale.Some? {
      if f < |s.flights| {
        assert FlightGenuine(s, s.flights[f]);
      }
      GenuineLater(ttl, s, e, flight.tool, flight.stale.value);
    }
  }

  lemma CallerGenuineKept(ttl: int, s: State, e: Event, c: nat)
    requires AllGenuine(s) && c < |Apply(ttl, s, e).callers|
    ensures CallerGenuine(Apply(ttl, s, e), Apply(ttl, s, e).callers[c])
  {
    hide Genuine, FlightGenuine;
    var caller := Apply(ttl, s, e).callers[c];
    if caller.FromCache? {
      if c < |s.callers| {
        assert CallerGenuine(s, s.callers[c]);
      }
      GenuineLater(ttl, s, e, caller.tool, caller.entry);
    }
  }

  lemma AllGenuineKept(ttl: int, s: State, e: Event)
    requires AllGenuine(s)
    ensures AllGenuine(Apply(ttl, s, e))
  {
    var s' := Apply(ttl, s, e);
    forall t | t in s'.cache ensures Genuine(s', t, s'.cache[t]) {
      CacheGenuineKept(ttl, s, e, t);
    }
    forall f | 0 <= f < |s'.flights| ensures FlightGenuine(s', s'.flights[f]) {
      FlightGenuineKept(ttl, s, e, f);
    }
    forall c | 0 <= c < |s'.callers| ensures CallerGenuine(s', s'.callers[c]) {
      CallerGenuineKept(ttl, s, e, c);
    }
  }

  ghost predicate Inv(s: State) {
    Tracked(s) && Owned(s) && Delivered(s) && AllGenuine(s)
  }

  lemma {:induction false} Always(ttl: int, es: seq<Event>)
    ensures Inv(After(ttl, es))
  {
    if es == [] {
    } else {
      var s, e := After(ttl, es[..|es| - 1]), es[|es| - 1];
      Always(ttl, es[..|es| - 1]);
      TrackedKept(ttl, s, e);
      OwnedKept(ttl, s, e);
      DeliveredKept(ttl, s, e);
      AllGenuineKept(ttl, s, e);
    }
  }

  // ----- Main results

  /** At most one provider call per tool is outstanding, whatever interleaves. */
  lemma SingleFlight(ttl: int, es: seq<Event>)
    ensures
      var s := After(ttl, es);
      forall f, g | 0 <= f < g < |s.flights| && s.flights[f].answer.None? && s.flights[g].answer.None? ::
        s.flights[f].tool != s.flights[g].tool
  {
    Always(ttl, es);
  }

  /** The unconditional clean-up removes the returning owner's own flight and leaves every other tracked. */
  lemma CleanupIsOwn(ttl: int, es: seq<Event>, c: nat)
    requires Enabled(After(ttl, es), Return(c))
    ensures
      var s := After(ttl, es);
      var f := s.callers[c].flight;
      var s' := Apply(ttl, s, Return(c));
      if s.flights[f].owner == c
      then s.flights[f].tool in s.inFlight && s.inFlight[s.flights[f].tool] == f
           && s'.inFlight == s.inFlight - {s.flights[f].tool}
      else s'.inFlight == s.inFlight
  {
    Always(ttl, es);
  }

  /** Owner and joiners alike: everyone who waited on a flight gets the outcome of that flight. */
  lemma EveryJoinerGetsOutcome(ttl: int, es: seq<Event>, c: nat)
    requires c < |After(ttl, es).callers| && After(ttl, es).callers[c].FromFlight?
    ensures
      var s := After(ttl, es);
      var f := s.callers[c].flight;
      && f < |s.flights| && s.flights[f].answer.Some?
      && s.callers[c].outcome == OutcomeOf(s.flights[f])
  {
    Always(ttl, es);
  }

  ghost predicate Justified(s: State, caller: Caller) {
    match caller
    case Waiting(_, _) => true
    case FromCache(tool, at, entry) => at < entry.expiresAt && Genuine(s, tool, entry)
    case FromFlight(tool, f, outcome) =>
      && f < |s.flights| && s.flights[f].tool == tool && s.flights[f].answer.Some?
      && var flight := s.flights[f];
         match outcome
         case Value(None) => flight.answer.value.NotFound?
         case Thrown => flight.answer.value.ProviderError? && flight.stale.None?
         case Value(Some(schema)) =>
           || (flight.answer.value.Found? && schema == Kept(flight.answer.value.full))
           || (&& flight.answer.value.ProviderError? && flight.stale.Some?
               && schema == flight.stale.value.schema
               && flight.stale.value.expiresAt <= flight.startedAt
               && Genuine(s, tool, flight.stale.value))
  }

  /**
   * A schema a caller receives is either a cached one that had not expired when it was read, or what the
   * provider returned to the caller's flight, or - only when that provider call failed - an entry that
   * had expired before the flight started. In all cases it belongs to the tool that was asked for.
   */
  lemma ExpiredOnlyOnFailure(ttl: int, es: seq<Event>, c: nat)
    requires c < |After(ttl, es).callers|
    ensures Justified(After(ttl, es), After(ttl, es).callers[c])
  {
    Always(ttl, es);
    var s := After(ttl, es);
    assert CallerGenuine(s, s.callers[c]);
    if s.callers[c].FromFlight? {
      var f := s.callers[c].flight;
      assert FlightGenuine(s, s.flights[f]) && FlightOwned(f, s.flights[f], s.callers);
    }
  }

  /** A second caller for the same tool never starts a second fetch while the first is tracked. */
  lemma JoinerStartsNothing(ttl: int, es: seq<Event>, tool: string, now: int)
    ensures
      var s, s' := After(ttl, es), Apply(ttl, After(ttl, es), Call(tool, now));
      |s'.flights| > |s.flights| <==>
        && (forall f | 0 <= f < |s.flights| && s.flights[f].tool == tool :: s.flights[f].cleaned)
        && (tool in s.cache ==> s.cache[tool].expiresAt <= now)
  {
    Always(ttl, es);
    var s := After(ttl, es);
    if tool in s.inFlight {
      assert s.flights[s.inFlight[tool]].tool == tool;
    }
  }

  // ----- The output schema

  /**
   * A caller whose flight was answered with a schema receives that very schema exactly when it has no
   * output schema: whatever interleaves, an output schema the provider supplies reaches nobody.
   */
  lemma ReceivedUnchangedIff(ttl: int, es: seq<Event>, c: nat, full: Schema)
    requires c < |After(ttl, es).callers| && After(ttl, es).callers[c].FromFlight?
    requires
      var s := After(ttl, es);
      s.callers[c].flight < |s.flights| && s.flights[s.callers[c].flight].answer == Some(Found(full))
    ensures After(ttl, es).callers[c].outcome == Value(Some(full)) <==> full.outputSchema.None?
  {
    EveryJoinerGetsOutcome(ttl, es, c);
  }

  /** What is handed out from the cache had its output schema removed when it was stored. */
  lemma CachedWithoutOutput(ttl: int, es: seq<Event>, c: nat)
    requires forall x | x in After(ttl, es).loaded :: x.1.schema.outputSchema.None?
    requires c < |After(ttl, es).callers|
    ensures
      match After(ttl, es).callers[c]
      case FromCache(_, _, entry) => entry.schema.outputSchema.None?
      case FromFlight(_, _, Value(Some(schema))) => schema.outputSchema.None?
      case _ => true
  {
    ExpiredOnlyOnFailure(ttl, es, c);
  }

  /** A run for every schema with an output schema: one caller, one answer, and the output schema is gone. */
  lemma OutputSchemaLost(ttl: int, tool: string, full: Schema)
    requires full.outputSchema.Some?
    ensures
      var s := After(ttl, [Call(tool, 0), Respond(0, Found(full), 1, 1), Return(0)]);
      && s.callers == [FromFlight(tool, 0, Value(Some(Kept(full))))]
      && Kept(full) != full && Kept(full).(outputSchema := full.outputSchema) == full
  {
    var es := [Call(tool, 0), Respond(0, Found(full), 1, 1), Return(0)];
    assert es[..2] == [Call(tool, 0), Respond(0, Found(full), 1, 1)] && es[..2][..1] == [Call(tool, 0)];
    assert es[..2][..1][..0] == [];
    assert After(ttl, es[..2][..1]).callers == [Waiting(tool, 0)];
    assert After(ttl, es[..2]).callers == [Waiting(tool, 0)];
  }
}
