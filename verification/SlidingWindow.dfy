/**
 * Sliding-window limiter (src/security/per-client-rate-limiter.ts). Times are whole milliseconds.
 * An absent endpoint is the empty string: the code tests truthiness and treats the two alike.
 */
module SlidingWindow {

  datatype Window = Window(maxRequests: int, windowMs: nat)

  datatype Config = Config(base: Window, overrides: map<string, Window>)

  type Buckets = map<string, seq<int>>

  datatype Verdict =
    | Allowed(remaining: int)
    | Refused(retryAfter: int)

  datatype Stats = Stats(requestCount: nat, windowStartTime: int, limits: Window)

  function EffectiveConfig(config: Config, endpoint: string): Window {
    if endpoint != "" && endpoint in config.overrides then config.overrides[endpoint] else config.base
  }

  function BucketKey(client: string, endpoint: string): string {
    if endpoint != "" then client + ":" + endpoint else client
  }

  /** The timestamps not older than `start`, in order. */
  function Since(times: seq<int>, start: int): seq<int> {
    if times == [] then []
    else Since(times[..|times| - 1], start) + (if times[|times| - 1] >= start then [times[|times| - 1]] else [])
  }

  /** Seconds, rounded up, as Math.ceil(ms / 1000). */
  function CeilSeconds(ms: int): int {
    -((-ms) / 1000)
  }

  function Retained(times: seq<int>, w: Window, now: int): seq<int> {
    Since(times, now - w.windowMs)
  }

  function Judge(times: seq<int>, w: Window, now: int): (seq<int>, Verdict) {
    var kept := Retained(times, w, now);
    if |kept| < w.maxRequests then
      (kept + [now], Allowed(w.maxRequests - (|kept| + 1)))
    else
      var oldest := if kept == [] then now else kept[0];
      (kept, Refused(CeilSeconds(oldest + w.windowMs - now)))
  }

  function Times(bs: Buckets, key: string): seq<int> {
    if key in bs then bs[key] else []
  }

  /** The client's own bucket and all of its endpoint buckets. */
  predicate BelongsTo(key: string, client: string) {
    key == client || client + ":" <= key
  }

  class PerClientRateLimiter {
    const config: Config
    var buckets: Buckets

    constructor (config: Config)
      ensures this.config == config && buckets == map[]
    {
      this.config := config;
      buckets := map[];
    }

    method CheckLimit(clientId: string, endpoint: string, now: int) returns (v: Verdict)
      modifies this
      ensures
        var key, w := BucketKey(clientId, endpoint), EffectiveConfig(config, endpoint);
        var (times, verdict) := Judge(Times(old(buckets), key), w, now);
        buckets == old(buckets)[key := times] && v == verdict
    {
      var bucketKey := BucketKey(clientId, endpoint);
      var effective := EffectiveConfig(config, endpoint);
      if bucketKey !in buckets {
        buckets := buckets[bucketKey := []];
      }
      var windowStart := now - effective.windowMs;
      buckets := buckets[bucketKey := Since(buckets[bucketKey], windowStart)];
      var timestamps := buckets[bucketKey];
      if |timestamps| < effective.maxRequests {
        buckets := buckets[bucketKey := timestamps + [now]];
        v := Allowed(effective.maxRequests - |buckets[bucketKey]|);
      } else {
        var oldest := if timestamps == [] then now else timestamps[0];
        v := Refused(CeilSeconds(oldest + effective.windowMs - now));
      }
    }

    method Reset(clientId: string)
      modifies this
      ensures buckets == map k | k in old(buckets) && !BelongsTo(k, clientId) :: old(buckets)[k]
    {
      var pending, keysToDelete := buckets.Keys, {};
      while pending != {}
        invariant pending + keysToDelete <= buckets.Keys
        invariant forall k | k in buckets.Keys - pending :: k in keysToDelete <==> BelongsTo(k, clientId)
        invariant pending !! keysToDelete
        decreases pending
      {
        var key :| key in pending;
        pending := pending - {key};
        if key == clientId || clientId + ":" <= key {
          keysToDelete := keysToDelete + {key};
        }
      }
      buckets := buckets - keysToDelete;
    }

    /** The requests the client's own bucket holds in the base window; nothing is pruned here. */
    method GetStats(clientId: string, now: int) returns (stats: Stats)
      ensures stats.requestCount == |Retained(Times(buckets, clientId), config.base, now)|
      ensures stats.windowStartTime + config.base.windowMs == now
      ensures stats.limits == config.base
    {
      var windowStart := now - config.base.windowMs;
      if clientId !in buckets || |buckets[clientId]| == 0 {
        return Stats(0, windowStart, config.base);
      }
      stats := Stats(|Since(buckets[clientId], windowStart)|, windowStart, config.base);
    }
  }

  // ----- Runs

  datatype Event =
    | Check(client: string, endpoint: string, at: int)
    | Reset(client: string, at: int)

  function Apply(config: Config, bs: Buckets, e: Event): Buckets {
    match e
    case Check(c, ep, t) =>
      var key := BucketKey(c, ep);
      bs[key := Judge(Times(bs, key), EffectiveConfig(config, ep), t).0]
    case Reset(c, _) => map k | k in bs && !BelongsTo(k, c) :: bs[k]
  }

  function Run(config: Config, es: seq<Event>): Buckets {
    if es == [] then map[] else Apply(config, Run(config, es[..|es| - 1]), es[|es| - 1])
  }

  function VerdictAfter(config: Config, es: seq<Event>, c: string, ep: string, now: int): Verdict {
    Judge(Times(Run(config, es), BucketKey(c, ep)), EffectiveConfig(config, ep), now).1
  }

  /** Every admission to (client, endpoint) since the client was last reset: nothing is ever pruned here. */
  function History(config: Config, es: seq<Event>, c: string, ep: string): seq<int> {
    if es == [] then []
    else
      var before, e := es[..|es| - 1], es[|es| - 1];
      var past := History(config, before, c, ep);
      match e
      case Check(c', ep', t) =>
        if c' == c && ep' == ep && VerdictAfter(config, before, c, ep, t).Allowed? then past + [t] else past
      case Reset(c', _) => if c' == c then [] else past
  }

  ghost predicate Clocked(es: seq<Event>) {
    forall i, j | 0 <= i < j < |es| :: es[i].at <= es[j].at
  }

  /** Hashed client identifiers have no colon; bucket keys rely on it. */
  ghost predicate PlainClients(es: seq<Event>) {
    forall i | 0 <= i < |es| :: ':' !in es[i].client
  }

  function CountIn(times: seq<int>, from: int, to: int): nat {
    if times == [] then 0
    else CountIn(times[..|times| - 1], from, to) + (if from <= times[|times| - 1] <= to then 1 else 0)
  }

  ghost predicate Sorted(times: seq<int>) {
    forall i, j | 0 <= i < j < |times| :: times[i] <= times[j]
  }

  ghost predicate NoneAfter(times: seq<int>, t: int) {
    forall i | 0 <= i < |times| :: times[i] <= t
  }

  // ----- Keys

  function UpToColon(key: string): string {
    if key == "" || key[0] == ':' then "" else [key[0]] + UpToColon(key[1..])
  }

  lemma {:induction false} UpToColonOf(c: string, rest: string)
    requires ':' !in c
    ensures UpToColon(c) == c && UpToColon(c + ":" + rest) == c
  {
    if c == "" {
    } else {
      UpToColonOf(c[1..], rest);
      assert (c + ":" + rest)[1..] == c[1..] + ":" + rest;
    }
  }

  /** Distinct (client, endpoint) pairs never share a bucket, and a reset touches its own client only. */
  lemma KeysSeparate(c: string, ep: string, c': string, ep': string)
    requires ':' !in c && ':' !in c'
    ensures BucketKey(c, ep) == BucketKey(c', ep') <==> c == c' && ep == ep'
    ensures BelongsTo(BucketKey(c, ep), c') <==> c == c'
  {
    hide UpToColon;
    var k := BucketKey(c, ep);
    UpToColonOf(c, ep);
    UpToColonOf(c', ep');
    if k == BucketKey(c', ep') {
      assert ep != "" ==> ep == k[|c| + 1..];
      assert ep' != "" ==> ep' == k[|c| + 1..];
    }
    if c' + ":" <= k {
      UpToColonOf(c', k[|c'| + 1..]);
      assert k == c' + ":" + k[|c'| + 1..];
    }
    if c == c' && ep != "" {
      assert k[..|c| + 1] == c + ":";
    }
  }

  // ----- The pruned bucket against the whole history

  lemma {:induction false} SinceTwice(times: seq<int>, a: int, b: int)
    requires a <= b
    ensures Since(Since(times, a), b) == Since(times, b)
  {
    if times == [] {
    } else {
      var rest, last := times[..|times| - 1], times[|times| - 1];
      SinceTwice(rest, a, b);
      if last >= a {
        assert Since(times, a)[..|Since(rest, a)|] == Since(rest, a);
      } else {
        assert Since(times, a) == Since(rest, a);
      }
    }
  }

  lemma {:induction false} SinceAppend(times: seq<int>, t: int, a: int)
    ensures Since(times + [t], a) == Since(times, a) + if t >= a then [t] else []
  {
    assert (times + [t])[..|times|] == times;
  }

  /** On a sorted history the retained part is sorted too, and it is counted by the window. */
  lemma {:induction false} SinceIsWindow(times: seq<int>, a: int, now: int)
    requires Sorted(times) && NoneAfter(times, now)
    ensures |Since(times, a)| == CountIn(times, a, now)
    ensures Sorted(Since(times, a)) && NoneAfter(Since(times, a), now)
  {
    if times == [] {
    } else {
      var rest, last := times[..|times| - 1], times[|times| - 1];
      assert NoneAfter(rest, last);
      SinceIsWindow(rest, a, last);
      CountUpTo(rest, a, last, now);
    }
  }

  /** What a bucket and the history have in common: from some past instant on, they hold the same admissions. */
  ghost predicate Agrees(bs: Buckets, key: string, history: seq<int>, w: Window, now: int) {
    && Sorted(history) && NoneAfter(history, now)
    && exists a | a <= now - w.windowMs :: Times(bs, key) == Since(history, a)
  }

  lemma AgreesLater(bs: Buckets, key: string, history: seq<int>, w: Window, t: int, now: int)
    requires Agrees(bs, key, history, w, t) && t <= now
    ensures Agrees(bs, key, history, w, now)
  {
    var a :| a <= t - w.windowMs && Times(bs, key) == Since(history, a);
    assert a <= now - w.windowMs;
  }

  lemma AgreesRetained(bs: Buckets, key: string, history: seq<int>, w: Window, now: int)
    requires Agrees(bs, key, history, w, now)
    ensures Retained(Times(bs, key), w, now) == Retained(history, w, now)
    ensures |Retained(history, w, now)| == CountIn(history, now - w.windowMs, now)
  {
    hide Since, CountIn;
    var a :| a <= now - w.windowMs && Times(bs, key) == Since(history, a);
    SinceTwice(history, a, now - w.windowMs);
    SinceIsWindow(history, now - w.windowMs, now);
  }

  lemma AgreesAfterCheck(bs: Buckets, key: string, history: seq<int>, w: Window, now: int)
    requires Agrees(bs, key, history, w, now)
    ensures
      var (times, v) := Judge(Times(bs, key), w, now);
      Agrees(bs[key := times], key, if v.Allowed? then history + [now] else history, w, now)
  {
    hide Since;
    var start, times := now - w.windowMs, Judge(Times(bs, key), w, now).0;
    AgreesRetained(bs, key, history, w, now);
    SinceAppend(history, now, start);
    assert Times(bs[key := times], key) == times;
    assert start <= now - w.windowMs;
  }

  /** After every run, each bucket holds exactly the recent part of its full admission history. */
  lemma {:induction false} RunAgrees(config: Config, es: seq<Event>, c: string, ep: string, now: int)
    requires Clocked(es) && PlainClients(es) && ':' !in c
    requires es != [] ==> es[|es| - 1].at <= now
    ensures Agrees(Run(config, es), BucketKey(c, ep), History(config, es, c, ep), EffectiveConfig(config, ep), now)
  {
    var key, w := BucketKey(c, ep), EffectiveConfig(config, ep);
    if es == [] {
      assert Since([], now - w.windowMs) == [];
      return;
    }
    var before, e := es[..|es| - 1], es[|es| - 1];
    var bs, past := Run(config, before), History(config, before, c, ep);
    RunAgrees(config, before, c, ep, e.at);
    if e.Check? {
      KeysSeparate(c, ep, e.client, e.endpoint);
      if e.client == c && e.endpoint == ep {
        AgreesAfterCheck(bs, key, past, w, e.at);
      }
    } else {
      KeysSeparate(c, ep, e.client, ep);
      assert e.client == c ==> Since([], e.at - w.windowMs) == [];
    }
    AgreesLater(Run(config, es), key, History(config, es, c, ep), w, e.at, now);
  }

  /**
   * The pruned bucket answers as the full history does: a check is admitted exactly when the window
   * [now - windowMs, now] holds fewer admissions than the limit.
   */
  lemma DecidedByFullHistory(config: Config, es: seq<Event>, c: string, ep: string, now: int)
    requires Clocked(es) && PlainClients(es) && ':' !in c
    requires es != [] ==> es[|es| - 1].at <= now
    ensures
      var w := EffectiveConfig(config, ep);
      VerdictAfter(config, es, c, ep, now).Allowed? <==>
      CountIn(History(config, es, c, ep), now - w.windowMs, now) < w.maxRequests
  {
    hide Run, History;
    RunAgrees(config, es, c, ep, now);
    AgreesRetained(Run(config, es), BucketKey(c, ep), History(config, es, c, ep), EffectiveConfig(config, ep), now);
  }

  lemma {:induction false} CountNarrows(times: seq<int>, from: int, to: int, from': int, to': int)
    requires from' <= from && to <= to'
    ensures CountIn(times, from, to) <= CountIn(times, from', to')
  {
    if times == [] {
    } else {
      CountNarrows(times[..|times| - 1], from, to, from', to');
    }
  }

  lemma CountAppend(times: seq<int>, t: int, from: int, to: int)
    ensures CountIn(times + [t], from, to) == CountIn(times, from, to) + if from <= t <= to then 1 else 0
  {
    assert (times + [t])[..|times|] == times;
  }

  function AtLeastZero(n: int): nat {
    if n < 0 then 0 else n
  }

  /** No closed interval as long as the window ever holds more admissions than the limit. */
  lemma {:induction false} WindowBound(config: Config, es: seq<Event>, c: string, ep: string, from: int)
    requires Clocked(es) && PlainClients(es) && ':' !in c
    ensures
      var w := EffectiveConfig(config, ep);
      CountIn(History(config, es, c, ep), from, from + w.windowMs) <= AtLeastZero(w.maxRequests)
  {
    hide Run, VerdictAfter;
    if es == [] {
    } else {
      var before, e := es[..|es| - 1], es[|es| - 1];
      var w, past := EffectiveConfig(config, ep), History(config, before, c, ep);
      WindowBound(config, before, c, ep, from);
      if e.Check? && e.client == c && e.endpoint == ep && VerdictAfter(config, before, c, ep, e.at).Allowed? {
        CountAppend(past, e.at, from, from + w.windowMs);
        if from <= e.at <= from + w.windowMs {
          DecidedByFullHistory(config, before, c, ep, e.at);
          RunAgrees(config, before, c, ep, e.at);
          CountUpTo(past, from, e.at, from + w.windowMs);
          CountNarrows(past, from, e.at, e.at - w.windowMs, e.at);
        }
      }
    }
  }

  lemma {:induction false} CountUpTo(times: seq<int>, from: int, t: int, to: int)
    requires NoneAfter(times, t) && t <= to
    ensures CountIn(times, from, to) == CountIn(times, from, t)
  {
    if times == [] {
    } else {
      CountUpTo(times[..|times| - 1], from, t, to);
    }
  }

  /** A refusal happens only when exactly the limit lies in the current window. */
  lemma RefusedOnlyWhenFull(config: Config, es: seq<Event>, c: string, ep: string, now: int)
    requires Clocked(es) && PlainClients(es) && ':' !in c
    requires es != [] ==> es[|es| - 1].at <= now
    ensures
      var w := EffectiveConfig(config, ep);
      VerdictAfter(config, es, c, ep, now).Refused? <==>
      CountIn(History(config, es, c, ep), now - w.windowMs, now) == AtLeastZero(w.maxRequests)
  {
    hide Run, History;
    var w := EffectiveConfig(config, ep);
    DecidedByFullHistory(config, es, c, ep, now);
    WindowBound(config, es, c, ep, now - w.windowMs);
    assert now - w.windowMs + w.windowMs == now;
  }

  // ----- When to come back

  /** The time of the oldest admission still in the window. */
  function Oldest(config: Config, es: seq<Event>, c: string, ep: string, now: int): int {
    var kept := Retained(Times(Run(config, es), BucketKey(c, ep)), EffectiveConfig(config, ep), now);
    if kept == [] then now else kept[0]
  }

  lemma {:induction false} SinceMember(times: seq<int>, a: int, i: nat)
    requires i < |Since(times, a)|
    ensures Since(times, a)[i] >= a
  {
    if i < |Since(times[..|times| - 1], a)| {
      SinceMember(times[..|times| - 1], a, i);
    }
  }

  lemma {:induction false} SinceAll(times: seq<int>, a: int)
    requires forall i | 0 <= i < |times| :: times[i] >= a
    ensures Since(times, a) == times
  {
    if times == [] {
    } else {
      SinceAll(times[..|times| - 1], a);
    }
  }

  lemma {:induction false} SinceDropsOld(times: seq<int>, a: int)
    requires times != [] && times[0] < a
    ensures |Since(times, a)| < |times|
  {
    assert Since([], a) == [];
    if |times| > 1 {
      SinceDropsOld(times[..|times| - 1], a);
    }
  }

  lemma CheckStep(config: Config, es: seq<Event>, c: string, ep: string, now: int)
    ensures Times(Run(config, es + [Check(c, ep, now)]), BucketKey(c, ep)) ==
            Judge(Times(Run(config, es), BucketKey(c, ep)), EffectiveConfig(config, ep), now).0
  {
    assert (es + [Check(c, ep, now)])[..|es|] == es;
  }

  /** A refused check finds and leaves a full, sorted window. */
  lemma AfterRefusal(config: Config, es: seq<Event>, c: string, ep: string, now: int)
    requires Clocked(es) && PlainClients(es) && ':' !in c
    requires es != [] ==> es[|es| - 1].at <= now
    requires EffectiveConfig(config, ep).maxRequests >= 1
    requires VerdictAfter(config, es, c, ep, now).Refused?
    ensures
      var kept := Retained(Times(Run(config, es), BucketKey(c, ep)), EffectiveConfig(config, ep), now);
      && Sorted(kept) && |kept| == EffectiveConfig(config, ep).maxRequests
      && Times(Run(config, es + [Check(c, ep, now)]), BucketKey(c, ep)) == kept
  {
    var w, key := EffectiveConfig(config, ep), BucketKey(c, ep);
    hide Run, History;
    var bs, past := Run(config, es), History(config, es, c, ep);
    RunAgrees(config, es, c, ep, now);
    AgreesRetained(bs, key, past, w, now);
    RefusedOnlyWhenFull(config, es, c, ep, now);
    SinceIsWindow(past, now - w.windowMs, now);
    CheckStep(config, es, c, ep, now);
  }

  /**
   * A refused client that makes no further request is admitted at exactly the times later than
   * oldest + windowMs.
   */
  lemma AdmittedAgainIff(config: Config, es: seq<Event>, c: string, ep: string, now: int, later: int)
    requires Clocked(es) && PlainClients(es) && ':' !in c && now <= later
    requires es != [] ==> es[|es| - 1].at <= now
    requires EffectiveConfig(config, ep).maxRequests >= 1
    requires VerdictAfter(config, es, c, ep, now).Refused?
    ensures VerdictAfter(config, es + [Check(c, ep, now)], c, ep, later).Allowed? <==>
            later > Oldest(config, es, c, ep, now) + EffectiveConfig(config, ep).windowMs
  {
    hide Run;
    var w := EffectiveConfig(config, ep);
    AfterRefusal(config, es, c, ep, now);
    var kept := Retained(Times(Run(config, es), BucketKey(c, ep)), w, now);
    ShrinksWhenOldestLeaves(kept, later - w.windowMs);
    SinceNoLonger(kept, later - w.windowMs);
  }

  lemma {:induction false} SinceNoLonger(times: seq<int>, a: int)
    ensures |Since(times, a)| <= |times|
  {
    if times == [] {
    } else {
      SinceNoLonger(times[..|times| - 1], a);
    }
  }

  lemma ShrinksWhenOldestLeaves(times: seq<int>, a: int)
    requires Sorted(times) && times != []
    ensures |Since(times, a)| < |times| <==> times[0] < a
  {
    if times[0] < a {
      SinceDropsOld(times, a);
    } else {
      forall i | 0 <= i < |times| ensures times[i] >= a {
        assert i > 0 ==> times[0] <= times[i];
      }
      SinceAll(times, a);
    }
  }

  /**
   * Waiting exactly the advertised number of seconds is enough except when the true wait is a whole
   * number of seconds: the window is closed, so the oldest admission is still in it at that instant.
   */
  lemma RetryAfterSufficesIff(config: Config, es: seq<Event>, c: string, ep: string, now: int)
    requires Clocked(es) && PlainClients(es) && ':' !in c
    requires es != [] ==> es[|es| - 1].at <= now
    requires EffectiveConfig(config, ep).maxRequests >= 1
    requires VerdictAfter(config, es, c, ep, now).Refused?
    ensures
      var wait := VerdictAfter(config, es, c, ep, now).retryAfter;
      && 0 <= wait
      && (VerdictAfter(config, es + [Check(c, ep, now)], c, ep, now + 1000 * wait).Allowed? <==>
          (Oldest(config, es, c, ep, now) + EffectiveConfig(config, ep).windowMs - now) % 1000 != 0)
  {
    hide Run;
    var w, key := EffectiveConfig(config, ep), BucketKey(c, ep);
    var wait := VerdictAfter(config, es, c, ep, now).retryAfter;
    var left := Oldest(config, es, c, ep, now) + w.windowMs - now;
    var kept := Retained(Times(Run(config, es), key), w, now);
    if kept != [] {
      SinceMember(Times(Run(config, es), key), now - w.windowMs, 0);
    }
    CeilSecondsAbove(left);
    AdmittedAgainIff(config, es, c, ep, now, now + 1000 * wait);
  }

  lemma CeilSecondsAbove(ms: int)
    requires 0 <= ms
    ensures 0 <= CeilSeconds(ms) && (1000 * CeilSeconds(ms) > ms <==> ms % 1000 != 0)
  {}

  /** The earliest admission of those not before `from`. */
  ghost predicate EarliestFrom(history: seq<int>, from: int, t: int) {
    t in history && from <= t && forall u | u in history && from <= u :: t <= u
  }

  lemma {:induction false} SinceHolds(times: seq<int>, a: int, t: int)
    ensures t in Since(times, a) <==> t in times && a <= t
  {
    if times == [] {
    } else {
      var rest, last := times[..|times| - 1], times[|times| - 1];
      SinceHolds(rest, a, t);
      assert times == rest + [last];
      assert t in Since(times, a) <==> t in Since(rest, a) || (last >= a && t == last);
    }
  }

  /**
   * The advertised wait is the true one, rounded up to whole seconds: the time until the earliest admission
   * in the window leaves it, or the whole window when the limit admits nothing and the window is empty.
   */
  lemma RetryAfterIsWait(config: Config, es: seq<Event>, c: string, ep: string, now: int, oldest: int)
    requires Clocked(es) && PlainClients(es) && ':' !in c
    requires es != [] ==> es[|es| - 1].at <= now
    requires VerdictAfter(config, es, c, ep, now).Refused?
    requires
      var history, from := History(config, es, c, ep), now - EffectiveConfig(config, ep).windowMs;
      EarliestFrom(history, from, oldest) || (oldest == now && forall u | u in history :: u < from)
    ensures
      var wait, w := VerdictAfter(config, es, c, ep, now).retryAfter, EffectiveConfig(config, ep);
      1000 * (wait - 1) < oldest + w.windowMs - now <= 1000 * wait
  {
    hide Run, History, Since, Agrees, Judge, Sorted, CountIn, EffectiveConfig, BucketKey, Times;
    var w, history := EffectiveConfig(config, ep), History(config, es, c, ep);
    RunAgrees(config, es, c, ep, now);
    AgreesRetained(Run(config, es), BucketKey(c, ep), history, w, now);
    WaitOfWindow(Times(Run(config, es), BucketKey(c, ep)), w, now);
    AgreesSorted(Run(config, es), BucketKey(c, ep), history, w, now);
    FirstOfWindow(history, now - w.windowMs, now, oldest);
  }

  lemma AgreesSorted(bs: Buckets, key: string, history: seq<int>, w: Window, now: int)
    requires Agrees(bs, key, history, w, now)
    ensures Sorted(history) && NoneAfter(history, now)
  {
  }

  lemma WaitOfWindow(times: seq<int>, w: Window, now: int)
    requires Judge(times, w, now).1.Refused?
    ensures
      var kept, wait := Retained(times, w, now), Judge(times, w, now).1.retryAfter;
      1000 * (wait - 1) < (if kept == [] then now else kept[0]) + w.windowMs - now <= 1000 * wait
  {
    hide Since;
  }

  lemma FirstOfWindow(history: seq<int>, from: int, now: int, oldest: int)
    requires Sorted(history) && NoneAfter(history, now)
    requires EarliestFrom(history, from, oldest) || (oldest == now && forall u | u in history :: u < from)
    ensures oldest == if Since(history, from) == [] then now else Since(history, from)[0]
  {
    hide Since;
    var kept := Since(history, from);
    SinceIsWindow(history, from, now);
    SinceHolds(history, from, oldest);
    if kept != [] {
      SinceHolds(history, from, kept[0]);
      assert kept[0] in kept;
    }
  }

  /** The reported request count is the number of admissions in the window ending now. */
  lemma RequestCountIsHistory(config: Config, es: seq<Event>, c: string, now: int)
    requires Clocked(es) && PlainClients(es) && ':' !in c
    requires es != [] ==> es[|es| - 1].at <= now
    ensures |Retained(Times(Run(config, es), c), config.base, now)| ==
            CountIn(History(config, es, c, ""), now - config.base.windowMs, now)
  {
    hide Run, History;
    RunAgrees(config, es, c, "", now);
    AgreesRetained(Run(config, es), c, History(config, es, c, ""), config.base, now);
  }

  /** One request per 1500 ms, made at 0: refused at 500 with "1 second", and refused again at 1500. */
  lemma RetryAfterCanBeTooShort()
    ensures
      var config, es := Config(Window(1, 1500), map[]), [Check("a", "", 0)];
      && VerdictAfter(config, es, "a", "", 500) == Refused(1)
      && VerdictAfter(config, es + [Check("a", "", 500)], "a", "", 1500).Refused?
  {
    var config, es := Config(Window(1, 1500), map[]), [Check("a", "", 0)];
    assert Run(config, []) == map[];
    hide Run;
    CheckStep(config, [], "a", "", 0);
    assert es == [] + [Check("a", "", 0)];
    SinceAll([], -1500);
    assert Times(Run(config, es), "a") == [0];
    SinceAll([0], -1000);
    SinceAll([0], 0);
    CheckStep(config, es, "a", "", 500);
  }

  // ----- Whose limits decide, and what is reported

  /** A check of an overridden endpoint is decided by the limit and the window of the override. */
  lemma OverrideDecides(config: Config, es: seq<Event>, c: string, ep: string, now: int)
    requires Clocked(es) && PlainClients(es) && ':' !in c
    requires es != [] ==> es[|es| - 1].at <= now
    requires ep != "" && ep in config.overrides
    ensures
      var w := config.overrides[ep];
      VerdictAfter(config, es, c, ep, now).Allowed? <==>
      CountIn(History(config, es, c, ep), now - w.windowMs, now) < w.maxRequests
  {
    hide Run, History, CountIn, VerdictAfter;
    DecidedByFullHistory(config, es, c, ep, now);
  }

  /** Every other check, with an endpoint or without, is decided by those of the base. */
  lemma BaseDecides(config: Config, es: seq<Event>, c: string, ep: string, now: int)
    requires Clocked(es) && PlainClients(es) && ':' !in c
    requires es != [] ==> es[|es| - 1].at <= now
    requires ep == "" || ep !in config.overrides
    ensures VerdictAfter(config, es, c, ep, now).Allowed? <==>
            CountIn(History(config, es, c, ep), now - config.base.windowMs, now) < config.base.maxRequests
  {
    hide Run, History, CountIn, VerdictAfter;
    DecidedByFullHistory(config, es, c, ep, now);
  }

  lemma HistorySnoc(config: Config, es: seq<Event>, c: string, ep: string, now: int)
    ensures History(config, es + [Check(c, ep, now)], c, ep) ==
            History(config, es, c, ep) + if VerdictAfter(config, es, c, ep, now).Allowed? then [now] else []
  {
    assert (es + [Check(c, ep, now)])[..|es|] == es;
  }

  /** The remaining requests reported with an admission are the limit less all admissions now in the window. */
  lemma RemainingIsRoom(config: Config, es: seq<Event>, c: string, ep: string, now: int)
    requires Clocked(es) && PlainClients(es) && ':' !in c
    requires es != [] ==> es[|es| - 1].at <= now
    requires VerdictAfter(config, es, c, ep, now).Allowed?
    ensures
      var w := EffectiveConfig(config, ep);
      var history := History(config, es + [Check(c, ep, now)], c, ep);
      VerdictAfter(config, es, c, ep, now).remaining == w.maxRequests - CountIn(history, now - w.windowMs, now) >= 0
  {
    hide Run, History, Since, CountIn, Agrees, Judge, EffectiveConfig, BucketKey, Times;
    var w, times := EffectiveConfig(config, ep), Times(Run(config, es), BucketKey(c, ep));
    RunAgrees(config, es, c, ep, now);
    AgreesRetained(Run(config, es), BucketKey(c, ep), History(config, es, c, ep), w, now);
    RoomOfWindow(times, w, now);
    HistorySnoc(config, es, c, ep, now);
    CountAppend(History(config, es, c, ep), now, now - w.windowMs, now);
  }

  lemma RoomOfWindow(times: seq<int>, w: Window, now: int)
    requires Judge(times, w, now).1.Allowed?
    ensures Judge(times, w, now).1.remaining == w.maxRequests - |Retained(times, w, now)| - 1 >= 0
  {
    hide Since;
  }
}
