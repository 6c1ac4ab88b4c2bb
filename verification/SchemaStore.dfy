/**
 * The schema cache object itself (src/validation/schema-cache.ts), changed in place: each method is the
 * code between two awaits. A promise is a number, fresh for every fetch. The ghost history is the run of
 * the protocol performed so far; cache and tracking map are always those of that run.
 */
module SchemaStore {
  import opened Wrappers
  import opened SchemaCaching

  datatype Error = NotPositive

  datatype Reply =
    | Join(promise: nat)
    | Hit(schema: Schema)
    | Fetch(stale: Option<Entry>)

  class SchemaCache {
    const ttlMs: int
    const maxCacheSize: nat
    var cache: map<string, Entry>
    var inFlight: map<string, nat>
    ghost var history: seq<Event>

    ghost function Protocol(): State
      reads this
    {
      After(ttlMs, history)
    }

    ghost predicate Valid()
      reads this
    {
      cache == Protocol().cache && inFlight == Protocol().inFlight
    }

    static method Create(ttlMs: int, maxCacheSize: int) returns (r: Result<SchemaCache, Error>)
      ensures r.Success? <==> 0 < ttlMs && 0 < maxCacheSize
      ensures r.Success? ==> fresh(r.value) && r.value.Valid() && r.value.ttlMs == ttlMs
      ensures r.Success? ==> r.value.maxCacheSize == maxCacheSize && r.value.history == [] && r.value.cache == map[]
    {
      if ttlMs <= 0 || maxCacheSize <= 0 {
        return Failure(NotPositive);
      }
      var c := new SchemaCache(ttlMs, maxCacheSize);
      r := Success(c);
    }

    constructor (ttlMs: int, maxCacheSize: nat)
      ensures Valid() && this.ttlMs == ttlMs && this.maxCacheSize == maxCacheSize
      ensures history == [] && cache == map[]
    {
      this.ttlMs := ttlMs;
      this.maxCacheSize := maxCacheSize;
      cache, inFlight, history := map[], map[], [];
    }

    /** At most one provider call per tool is outstanding. */
    ghost predicate OneOutstanding()
      reads this
    {
      Outstanding(Protocol())
    }

    /** getToolSchema up to its first await; a fetch is tracked under its promise. */
    method GetToolSchema(toolName: string, now: int, promise: nat) returns (r: Reply)
      requires Valid() && promise == |Protocol().flights|
      modifies this
      ensures Valid() && history == old(history) + [Call(toolName, now)] && cache == old(cache)
      ensures OneOutstanding()
      ensures r.Fetch? <==> Starts(old(Protocol()), toolName, now)
      ensures r.Fetch? ==> inFlight == old(inFlight)[toolName := promise] && Expired(r.stale, now)
      ensures r.Join? <==> toolName in old(inFlight)
      ensures r.Join? ==> r.promise == inFlight[toolName] < |Protocol().flights|
                          && Protocol().flights[r.promise].tool == toolName
      ensures r.Hit? ==>
        exists entry :: Genuine(Protocol(), toolName, entry) && now < entry.expiresAt && r.schema == entry.schema
    {
      ghost var e, s := Call(toolName, now), Protocol();
      AfterSnoc(ttlMs, history, e);
      JoinerStartsNothing(ttlMs, history, toolName, now);
      SchemaCaching.Always(ttlMs, history);
      history := history + [e];
      SingleFlight(ttlMs, history);
      if toolName in inFlight {
        return Join(inFlight[toolName]);
      }
      if toolName in cache && now < cache[toolName].expiresAt {
        GenuineLater(ttlMs, s, e, toolName, cache[toolName]);
        return Hit(cache[toolName].schema);
      }
      r := Fetch(if toolName in cache then Some(cache[toolName]) else None);
      inFlight := inFlight[toolName := promise];
    }

    /** fetchAndCacheSchema once the provider has answered: an expired entry only if the provider failed. */
    method FetchAndCache(ghost f: nat, toolName: string, stale: Option<Entry>, answer: Answer, fetchedAt: int,
                         readAt: int)
      returns (outcome: Outcome)
      requires Valid() && Enabled(Protocol(), Respond(f, answer, fetchedAt, readAt))
      requires Protocol().flights[f].tool == toolName && Protocol().flights[f].stale == stale
      modifies this
      ensures Valid() && history == old(history) + [Respond(f, answer, fetchedAt, readAt)]
      ensures outcome == OutcomeOf(Protocol().flights[f])
      ensures answer.Found? ==> outcome == Value(Some(Kept(answer.full)))
      ensures answer.NotFound? ==> outcome == Value(None)
      ensures answer.ProviderError? ==>
        outcome == if stale.Some? then Value(Some(stale.value.schema)) else Thrown
      ensures cache ==
        if answer.Found? then old(cache)[toolName := Entry(Kept(answer.full), fetchedAt, readAt + ttlMs)]
        else old(cache)
      ensures inFlight == old(inFlight) && OneOutstanding()
    {
      ghost var e := Respond(f, answer, fetchedAt, readAt);
      AfterSnoc(ttlMs, history, e);
      history := history + [e];
      SingleFlight(ttlMs, history);
      match answer {
        case NotFound => return Value(None);
        case Found(full) =>
          var schema := full.(outputSchema := None);
          cache := cache[toolName := Entry(schema, fetchedAt, readAt + ttlMs)];
          return Value(Some(schema));
        case ProviderError =>
          if stale.Some? {
            return Value(Some(stale.value.schema));
          }
          return Thrown;
      }
    }

    /** The `finally` block of the call that started the fetch: it finds its own flight under its tool. */
    method CleanUp(ghost c: nat, toolName: string)
      requires Valid() && Enabled(Protocol(), Return(c)) && Protocol().callers[c].tool == toolName
      requires Protocol().flights[Protocol().callers[c].flight].owner == c
      modifies this
      ensures Valid() && history == old(history) + [Return(c)] && cache == old(cache)
      ensures toolName in old(inFlight) && old(inFlight)[toolName] == old(Protocol()).callers[c].flight
      ensures inFlight == old(inFlight) - {toolName}
    {
      AfterSnoc(ttlMs, history, Return(c));
      CleanupIsOwn(ttlMs, history, c);
      OwnTool(ttlMs, history, c);
      history := history + [Return(c)];
      inFlight := inFlight - {toolName};
    }

    /** A joiner returns, touching nothing. */
    ghost method JoinerReturns(c: nat)
      requires Valid() && Enabled(Protocol(), Return(c))
      requires Protocol().flights[Protocol().callers[c].flight].owner != c
      modifies this`history
      ensures Valid() && history == old(history) + [Return(c)]
    {
      AfterSnoc(ttlMs, history, Return(c));
      history := history + [Return(c)];
    }

    method Invalidate(toolName: string)
      requires Valid()
      modifies this
      ensures Valid() && inFlight == old(inFlight)
      ensures cache == if toolName != "" then old(cache) - {toolName} else map[]
      ensures history == old(history) + [Lose(if toolName != "" then {toolName} else old(cache).Keys)]
    {
      hide After;
      ghost var tools := if toolName != "" then {toolName} else cache.Keys;
      LoseStep(ttlMs, history, tools);
      history := history + [Lose(tools)];
      if toolName != "" {
        cache := cache - {toolName};
      } else {
        cache := map[];
      }
    }

    /** The store drops an entry of its own accord. */
    method Evict(toolName: string)
      requires Valid()
      modifies this
      ensures Valid() && inFlight == old(inFlight) && cache == old(cache) - {toolName}
      ensures history == old(history) + [Lose({toolName})]
    {
      hide After;
      LoseStep(ttlMs, history, {toolName});
      history := history + [Lose({toolName})];
      cache := cache - {toolName};
    }

    /** loadFromDisk: the most recently fetched entries of the file, as many as the cache holds. */
    method LoadFromDisk(parsed: seq<(string, Entry)>) returns (skipped: nat)
      requires Valid() && DistinctTools(parsed)
      modifies this
      ensures Valid() && inFlight == old(inFlight)
      ensures cache == old(cache) + Chosen(parsed, maxCacheSize)
      ensures history == old(history) + [Load(Chosen(parsed, maxCacheSize))]
      ensures skipped + |Chosen(parsed, maxCacheSize)| == |parsed|
    {
      ghost var chosen := Chosen(parsed, maxCacheSize);
      LoadStep(ttlMs, history, chosen);
      ChosenSize(parsed, maxCacheSize);
      hide After, Apply, AsMap, Recent, DistinctTools;
      var entries := Recent(parsed);
      var entriesToLoad := if |entries| <= maxCacheSize then entries else entries[..maxCacheSize];
      skipped := |entries| - |entriesToLoad|;
      SetAll(entriesToLoad);
      history := history + [Load(chosen)];
    }

    method SetAll(entries: seq<(string, Entry)>)
      modifies `cache
      ensures cache == old(cache) + AsMap(entries)
    {
      for i := 0 to |entries|
        invariant cache == old(cache) + AsMap(entries[..i])
      {
        AsMapSnoc(entries, i);
        cache := cache[entries[i].0 := entries[i].1];
      }
      assert entries[..|entries|] == entries;
    }
  }

  lemma LoseStep(ttl: int, es: seq<Event>, tools: set<string>)
    ensures
      var s, s' := After(ttl, es), After(ttl, es + [Lose(tools)]);
      s'.cache == s.cache - tools && s'.inFlight == s.inFlight
  {
    AfterSnoc(ttl, es, Lose(tools));
  }

  lemma LoadStep(ttl: int, es: seq<Event>, entries: map<string, Entry>)
    ensures
      var s, s' := After(ttl, es), After(ttl, es + [Load(entries)]);
      s'.cache == s.cache + entries && s'.inFlight == s.inFlight
  {
    AfterSnoc(ttl, es, Load(entries));
  }

  ghost predicate Outstanding(s: State) {
    forall f, g | 0 <= f < g < |s.flights| && s.flights[f].answer.None? && s.flights[g].answer.None? ::
      s.flights[f].tool != s.flights[g].tool
  }

  /** No flight of the tool is tracked any more, and no entry of it is alive. */
  ghost predicate Starts(s: State, tool: string, now: int) {
    && (forall f | 0 <= f < |s.flights| && s.flights[f].tool == tool :: s.flights[f].cleaned)
    && (tool in s.cache ==> s.cache[tool].expiresAt <= now)
  }

  ghost predicate Expired(stale: Option<Entry>, now: int) {
    stale.Some? ==> stale.value.expiresAt <= now
  }

  lemma OwnTool(ttl: int, es: seq<Event>, c: nat)
    requires Enabled(After(ttl, es), Return(c))
    ensures
      var s := After(ttl, es);
      s.flights[s.callers[c].flight].tool == s.callers[c].tool
  {
    SchemaCaching.Always(ttl, es);
  }

  // ----- Choosing what to load

  function Inserted(e: (string, Entry), sorted: seq<(string, Entry)>): seq<(string, Entry)> {
    if sorted == [] || e.1.fetchedAt > sorted[0].1.fetchedAt then [e] + sorted
    else [sorted[0]] + Inserted(e, sorted[1..])
  }

  /** The entries by time of fetching, latest first; those of the same time stay in order. */
  function Recent(entries: seq<(string, Entry)>): seq<(string, Entry)> {
    if entries == [] then [] else Inserted(entries[|entries| - 1], Recent(entries[..|entries| - 1]))
  }

  function AsMap(entries: seq<(string, Entry)>): map<string, Entry> {
    if entries == [] then map[]
    else AsMap(entries[..|entries| - 1])[entries[|entries| - 1].0 := entries[|entries| - 1].1]
  }

  lemma AsMapSnoc(entries: seq<(string, Entry)>, i: nat)
    requires i < |entries|
    ensures AsMap(entries[..i + 1]) == AsMap(entries[..i])[entries[i].0 := entries[i].1]
  {
    assert entries[..i + 1][..i] == entries[..i];
  }

  function Chosen(entries: seq<(string, Entry)>, max: nat): map<string, Entry> {
    var sorted := Recent(entries);
    AsMap(if |sorted| <= max then sorted else sorted[..max])
  }

  ghost predicate DistinctTools(entries: seq<(string, Entry)>) {
    forall i, j | 0 <= i < j < |entries| :: entries[i].0 != entries[j].0
  }

  ghost predicate LatestFirst(entries: seq<(string, Entry)>) {
    forall i, j | 0 <= i < j < |entries| :: entries[i].1.fetchedAt >= entries[j].1.fetchedAt
  }

  lemma {:induction false} InsertedElements(e: (string, Entry), sorted: seq<(string, Entry)>)
    ensures multiset(Inserted(e, sorted)) == multiset(sorted) + multiset{e}
    ensures forall x | x in Inserted(e, sorted) :: x == e || x in sorted
  {
    if sorted == [] || e.1.fetchedAt > sorted[0].1.fetchedAt {
    } else {
      InsertedElements(e, sorted[1..]);
      assert sorted == [sorted[0]] + sorted[1..];
    }
  }

  lemma {:induction false} InsertedKeeps(e: (string, Entry), sorted: seq<(string, Entry)>)
    requires LatestFirst(sorted)
    ensures LatestFirst(Inserted(e, sorted))
  {
    if sorted == [] || e.1.fetchedAt > sorted[0].1.fetchedAt {
    } else {
      var rest := Inserted(e, sorted[1..]);
      InsertedKeeps(e, sorted[1..]);
      InsertedElements(e, sorted[1..]);
      hide Inserted;
      forall x | x in rest ensures sorted[0].1.fetchedAt >= x.1.fetchedAt {
        assert x == e || x in sorted[1..];
      }
    }
  }

  lemma {:induction false} InsertedDistinct(e: (string, Entry), sorted: seq<(string, Entry)>)
    requires DistinctTools(sorted) && forall x | x in sorted :: x.0 != e.0
    ensures DistinctTools(Inserted(e, sorted))
    ensures forall x | x in Inserted(e, sorted) :: x == e || x in sorted
  {
    if sorted == [] || e.1.fetchedAt > sorted[0].1.fetchedAt {
    } else {
      InsertedDistinct(e, sorted[1..]);
      var rest := Inserted(e, sorted[1..]);
      forall x | x in rest ensures x.0 != sorted[0].0 {
        assert x == e || x in sorted[1..];
      }
    }
  }

  lemma {:induction false} RecentKeepsAll(entries: seq<(string, Entry)>)
    ensures LatestFirst(Recent(entries)) && multiset(Recent(entries)) == multiset(entries)
    ensures |Recent(entries)| == |entries|
  {
    if entries == [] {
    } else {
      var rest, last := entries[..|entries| - 1], entries[|entries| - 1];
      RecentKeepsAll(rest);
      InsertedKeeps(last, Recent(rest));
      InsertedElements(last, Recent(rest));
      assert entries == rest + [last];
    }
    assert |multiset(Recent(entries))| == |multiset(entries)|;
  }

  lemma SameElements(a: seq<(string, Entry)>, b: seq<(string, Entry)>)
    requires multiset(a) == multiset(b)
    ensures forall x :: x in a <==> x in b
  {
    forall x ensures x in a <==> x in b {
      assert x in a <==> x in multiset(a);
      assert x in b <==> x in multiset(b);
    }
  }

  lemma {:induction false} RecentDistinct(entries: seq<(string, Entry)>)
    requires DistinctTools(entries)
    ensures DistinctTools(Recent(entries))
  {
    if entries == [] {
    } else {
      var rest, last := entries[..|entries| - 1], entries[|entries| - 1];
      RecentDistinct(rest);
      RecentKeepsAll(rest);
      SameElements(rest, Recent(rest));
      forall x | x in Recent(rest) ensures x.0 != last.0 {
        assert x in rest;
      }
      InsertedDistinct(last, Recent(rest));
    }
  }

  lemma {:induction false} AsMapHolds(entries: seq<(string, Entry)>)
    requires DistinctTools(entries)
    ensures forall x | x in entries :: x.0 in AsMap(entries) && AsMap(entries)[x.0] == x.1
    ensures forall t | t in AsMap(entries) :: (t, AsMap(entries)[t]) in entries
  {
    if entries == [] {
    } else {
      var rest, last := entries[..|entries| - 1], entries[|entries| - 1];
      AsMapHolds(rest);
      assert entries == rest + [last];
      assert AsMap(entries) == AsMap(rest)[last.0 := last.1];
      hide AsMap;
    }
  }

  lemma {:induction false} AsMapSize(entries: seq<(string, Entry)>)
    requires DistinctTools(entries)
    ensures |AsMap(entries)| == |entries|
  {
    if entries == [] {
    } else {
      var rest, last := entries[..|entries| - 1], entries[|entries| - 1];
      AsMapSize(rest);
      AsMapHolds(rest);
      assert AsMap(entries) == AsMap(rest)[last.0 := last.1];
      hide AsMap;
      assert last.0 !in AsMap(rest);
      AddedKey(AsMap(rest), last.0, last.1);
    }
  }

  lemma AddedKey(m: map<string, Entry>, t: string, e: Entry)
    requires t !in m
    ensures |m[t := e]| == |m| + 1
  {
    assert m[t := e].Keys == m.Keys + {t};
    assert |m[t := e]| == |m[t := e].Keys| && |m| == |m.Keys|;
  }

  lemma SkippedAreOlder(sorted: seq<(string, Entry)>, k: nat, x: (string, Entry), y: (string, Entry))
    requires k <= |sorted| && LatestFirst(sorted) && x in sorted && x !in sorted[..k] && y in sorted[..k]
    ensures x.1.fetchedAt <= y.1.fetchedAt
  {
    forall n | 0 <= n < k ensures sorted[n] != x {
      assert sorted[..k][n] == sorted[n];
    }
    var i :| 0 <= i < |sorted| && sorted[i] == x;
    var j :| 0 <= j < k && sorted[..k][j] == y;
    assert sorted[j] == y;
  }

  lemma PrefixDistinct(sorted: seq<(string, Entry)>, k: nat)
    requires k <= |sorted| && DistinctTools(sorted)
    ensures DistinctTools(sorted[..k]) && forall x | x in sorted[..k] :: x in sorted
  {
  }

  lemma ChosenSize(entries: seq<(string, Entry)>, max: nat)
    requires DistinctTools(entries)
    ensures |Recent(entries)| == |entries|
    ensures |Chosen(entries, max)| == if |entries| <= max then |entries| else max
  {
    RecentKeepsAll(entries);
    MostRecentChosen(entries, max);
  }

  /**
   * Of the file's entries, as many as fit are chosen, and none that is left out was fetched later than one
   * that is chosen.
   */
  lemma MostRecentChosen(entries: seq<(string, Entry)>, max: nat)
    requires DistinctTools(entries)
    ensures
      var chosen := Chosen(entries, max);
      && |chosen| == (if |entries| <= max then |entries| else max)
      && (forall t | t in chosen :: (t, chosen[t]) in entries)
      && (forall x, t | x in entries && x.0 !in chosen && t in chosen :: x.1.fetchedAt <= chosen[t].fetchedAt)
  {
    var sorted, chosen := Recent(entries), Chosen(entries, max);
    var k := if |sorted| <= max then |sorted| else max;
    RecentKeepsAll(entries);
    RecentDistinct(entries);
    SameElements(sorted, entries);
    PrefixDistinct(sorted, k);
    assert sorted[..|sorted|] == sorted;
    assert chosen == AsMap(sorted[..k]);
    hide Recent, AsMap, Chosen, DistinctTools, LatestFirst;
    AsMapHolds(sorted[..k]);
    AsMapSize(sorted[..k]);
    forall x, t | x in entries && x.0 !in chosen && t in chosen ensures x.1.fetchedAt <= chosen[t].fetchedAt {
      SkippedAreOlder(sorted, k, x, (t, chosen[t]));
    }
  }
}
