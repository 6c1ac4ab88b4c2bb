/** How long a fetched schema is served, and what a caller gets from its flight (src/validation/schema-cache.ts). */
module SchemaLifetimes {
  import opened Wrappers
  import opened SchemaCaching

  /** The event stored `entry` for `tool`: its provider call found a schema, and it lives from the clock reading on. */
  predicate Stored(ttl: int, s: State, e: Event, tool: string, entry: Entry) {
    && e.Respond? && Enabled(s, e) && e.answer.Found? && s.flights[e.flight].tool == tool
    && entry.schema.name == e.answer.full.name && entry.schema.description == e.answer.full.description
    && entry.schema.inputSchema == e.answer.full.inputSchema && entry.schema.outputSchema == None
    && entry.fetchedAt == e.fetchedAt && entry.expiresAt == e.readAt + ttl
  }

  ghost predicate FromResponse(ttl: int, es: seq<Event>, tool: string, entry: Entry) {
    exists n :: 0 <= n < |es| && Stored(ttl, After(ttl, es[..n]), es[n], tool, entry)
  }

  lemma FromResponseLater(ttl: int, es: seq<Event>, e: Event, tool: string, entry: Entry)
    requires FromResponse(ttl, es, tool, entry)
    ensures FromResponse(ttl, es + [e], tool, entry)
  {
    var n :| 0 <= n < |es| && Stored(ttl, After(ttl, es[..n]), es[n], tool, entry);
    assert (es + [e])[..n] == es[..n] && (es + [e])[n] == es[n];
  }

  /** Where an entry found after a step comes from. */
  lemma CacheStep(ttl: int, s: State, e: Event, tool: string)
    requires tool in Apply(ttl, s, e).cache
    ensures
      var s' := Apply(ttl, s, e);
      var entry := s'.cache[tool];
      && s.loaded <= s'.loaded
      && (|| (tool in s.cache && entry == s.cache[tool])
          || (tool, entry) in s'.loaded
          || Stored(ttl, s, e, tool, entry))
  {
    if e.Load? && tool in e.entries {
      assert (tool, e.entries[tool]) in e.entries.Items;
    }
  }

  /** Every cached entry was loaded from disk, or stored by an answer of the run with the configured lifetime. */
  lemma {:induction false} CachedFromResponse(ttl: int, es: seq<Event>, tool: string)
    requires tool in After(ttl, es).cache
    ensures
      var entry := After(ttl, es).cache[tool];
      (tool, entry) in After(ttl, es).loaded || FromResponse(ttl, es, tool, entry)
  {
    hide Apply, Stored;
    if es == [] {
    } else {
      var before, e := es[..|es| - 1], es[|es| - 1];
      var s, s' := After(ttl, before), After(ttl, es);
      assert es == before + [e];
      CacheStep(ttl, s, e, tool);
      if tool in s.cache && s.cache[tool] == s'.cache[tool] {
        CachedFromResponse(ttl, before, tool);
        if (tool, s.cache[tool]) !in s.loaded {
          FromResponseLater(ttl, before, e, tool, s.cache[tool]);
        }
      } else if (tool, s'.cache[tool]) !in s'.loaded {
        assert Stored(ttl, After(ttl, es[..|before|]), es[|before|], tool, s'.cache[tool]);
      }
    }
  }

  /** An answer stores its schema for its tool, and only a schema that was found. */
  lemma AnswerStores(ttl: int, es: seq<Event>, e: Event)
    requires e.Respond? && Enabled(After(ttl, es), e)
    ensures
      var s, s' := After(ttl, es), After(ttl, es + [e]);
      var tool := s.flights[e.flight].tool;
      if e.answer.Found?
      then tool in s'.cache && Stored(ttl, s, e, tool, s'.cache[tool]) && s'.cache - {tool} == s.cache - {tool}
      else s'.cache == s.cache
  {
    AfterSnoc(ttl, es, e);
  }

  /** Nothing in `more` stores, loads or removes an entry of the tool. */
  predicate Undisturbed(ttl: int, s: State, more: seq<Event>, tool: string)
    decreases |more|
  {
    more == [] ||
    (&& (match more[0]
         case Respond(f, answer, _, _) => Enabled(s, more[0]) && answer.Found? ==> s.flights[f].tool != tool
         case Lose(tools) => tool !in tools
         case Load(entries) => tool !in entries
         case _ => true)
     && Undisturbed(ttl, Apply(ttl, s, more[0]), more[1..], tool))
  }

  function Then(ttl: int, s: State, more: seq<Event>): State
    decreases |more|
  {
    if more == [] then s else Then(ttl, Apply(ttl, s, more[0]), more[1..])
  }

  lemma {:induction false} AfterThen(ttl: int, es: seq<Event>, more: seq<Event>)
    ensures After(ttl, es + more) == Then(ttl, After(ttl, es), more)
    decreases |more|
  {
    hide After, Apply;
    if more == [] {
      assert es + more == es;
    } else {
      AfterSnoc(ttl, es, more[0]);
      AfterThen(ttl, es + [more[0]], more[1..]);
      assert es + more == es + [more[0]] + more[1..];
    }
  }

  lemma {:induction false} StaysCached(ttl: int, s: State, more: seq<Event>, tool: string)
    requires tool in s.cache && Undisturbed(ttl, s, more, tool)
    ensures tool in Then(ttl, s, more).cache && Then(ttl, s, more).cache[tool] == s.cache[tool]
    decreases |more|
  {
    if more == [] {
    } else {
      StaysCached(ttl, Apply(ttl, s, more[0]), more[1..], tool);
    }
  }

  /**
   * The lifetime, exactly: after a schema was fetched, and as long as nothing disturbs it, a call that finds
   * no fetch under way is served that schema without a new fetch if and only if less than the lifetime has
   * passed since the clock was read; otherwise it starts a fetch, with that schema to fall back on.
   */
  lemma ServedWhileAlive(ttl: int, es: seq<Event>, e: Event, more: seq<Event>, tool: string, now: int)
    requires e.Respond? && Enabled(After(ttl, es), e)
    requires e.answer.Found? && After(ttl, es).flights[e.flight].tool == tool
    requires Undisturbed(ttl, After(ttl, es + [e]), more, tool)
    requires tool !in After(ttl, es + [e] + more).inFlight
    ensures
      var s, s' := After(ttl, es + [e] + more), After(ttl, es + [e] + more + [Call(tool, now)]);
      var schema := e.answer.full.(outputSchema := None);
      var entry := Entry(schema, e.fetchedAt, e.readAt + ttl);
      if now < e.readAt + ttl
      then s'.flights == s.flights && s'.callers == s.callers + [FromCache(tool, now, entry)]
      else s'.flights == s.flights + [Flight(tool, |s.callers|, now, Some(entry), None, false)]
           && s'.callers == s.callers + [Waiting(tool, |s.flights|)]
  {
    AnswerStores(ttl, es, e);
    AfterThen(ttl, es + [e], more);
    StaysCached(ttl, After(ttl, es + [e]), more, tool);
    AfterSnoc(ttl, es + [e] + more, Call(tool, now));
  }

  // ----- What a flight delivers

  lemma FlightKeeps(ttl: int, s: State, e: Event, f: nat)
    requires f < |s.flights|
    ensures
      var s' := Apply(ttl, s, e);
      && f < |s'.flights| && s'.flights[f].tool == s.flights[f].tool && s'.flights[f].stale == s.flights[f].stale
      && s'.flights[f].owner == s.flights[f].owner
      && (s'.flights[f].answer == s.flights[f].answer
          || (e.Respond? && e.flight == f && Enabled(s, e) && s'.flights[f].answer == Some(e.answer)))
  {
  }

  lemma {:induction false} FlightKeptThen(ttl: int, s: State, more: seq<Event>, f: nat)
    requires f < |s.flights|
    ensures
      var s' := Then(ttl, s, more);
      && f < |s'.flights| && s'.flights[f].tool == s.flights[f].tool && s'.flights[f].stale == s.flights[f].stale
      && (s.flights[f].answer.Some? ==> s'.flights[f].answer == s.flights[f].answer)
    decreases |more|
  {
    if more == [] {
    } else {
      FlightKeeps(ttl, s, more[0], f);
      FlightKeptThen(ttl, Apply(ttl, s, more[0]), more[1..], f);
    }
  }

  /** What is handed out for an answer, given the entry that was cached and expired when the flight started. */
  function Deserved(answer: Answer, expired: Option<Entry>): Outcome {
    match answer
    case Found(full) => Value(Some(Schema(full.name, full.description, full.inputSchema, None)))
    case NotFound => Value(None)
    case ProviderError => if expired.Some? then Value(Some(expired.value.schema)) else Thrown
  }

  /**
   * Every caller that returns from a flight gets what the provider answered to it; and when the provider
   * failed, the entry that was cached when the flight started, even if it has been evicted since, or else
   * the error.
   */
  lemma FlightDelivers(ttl: int, es: seq<Event>, tool: string, now: int, more: seq<Event>, c: nat)
    requires tool !in After(ttl, es).inFlight
    requires tool in After(ttl, es).cache ==> After(ttl, es).cache[tool].expiresAt <= now
    requires
      var s := After(ttl, es + [Call(tool, now)] + more);
      c < |s.callers| && s.callers[c].FromFlight? && s.callers[c].flight == |After(ttl, es).flights|
    ensures
      var s0, s := After(ttl, es), After(ttl, es + [Call(tool, now)] + more);
      var f := |s0.flights|;
      var expired := if tool in s0.cache then Some(s0.cache[tool]) else None;
      && f < |s.flights| && s.flights[f].answer.Some? && s.callers[c].tool == tool
      && s.callers[c].outcome == Deserved(s.flights[f].answer.value, expired)
  {
    var all := es + [Call(tool, now)] + more;
    AfterSnoc(ttl, es, Call(tool, now));
    AfterThen(ttl, es + [Call(tool, now)], more);
    FlightKeptThen(ttl, After(ttl, es + [Call(tool, now)]), more, |After(ttl, es).flights|);
    OwnOutcome(ttl, all, c);
    CallFlies(ttl, After(ttl, es), tool, now);
    hide After, Then, Apply;
  }

  lemma OwnOutcome(ttl: int, es: seq<Event>, c: nat)
    requires c < |After(ttl, es).callers| && After(ttl, es).callers[c].FromFlight?
    ensures DeliveredTo(After(ttl, es), After(ttl, es).callers[c])
  {
    Always(ttl, es);
  }

  lemma CallFlies(ttl: int, s: State, tool: string, now: int)
    requires tool !in s.inFlight && (tool in s.cache ==> s.cache[tool].expiresAt <= now)
    ensures
      var s' := Apply(ttl, s, Call(tool, now));
      && |s'.flights| == |s.flights| + 1 && s'.flights[|s.flights|].tool == tool
      && s'.flights[|s.flights|].stale == if tool in s.cache then Some(s.cache[tool]) else None
  {
  }

  /** The first answer to a flight is the one it keeps. */
  lemma FirstAnswerStands(ttl: int, es: seq<Event>, e: Event, more: seq<Event>)
    requires e.Respond? && Enabled(After(ttl, es), e)
    ensures
      var s := After(ttl, es + [e] + more);
      e.flight < |s.flights| && s.flights[e.flight].answer == Some(e.answer)
  {
    AfterSnoc(ttl, es, e);
    AfterThen(ttl, es + [e], more);
    FlightKeptThen(ttl, After(ttl, es + [e]), more, e.flight);
  }
}
