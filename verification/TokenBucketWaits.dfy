/** Refusals and peeks of the token bucket: what they leave unchanged, and what a refusal promises. */
module TokenBucketWaits {
  import opened RateLimiting
  import opened TokenBucketProofs

  /** A refused check leaves every later check of that client exactly as it was. */
  lemma RefusalTransparent(l: Limits, b: Bucket, now: real, later: real)
    requires l.Valid() && b.lastRefill <= now <= later && !Spend(l, b, now).1.allowed
    ensures Spend(l, Spend(l, b, now).0, later) == Spend(l, b, later)
  {
    LevelTwice(l, b, now, later);
    SpendByLevel(l, Spend(l, b, now).0, b, later);
  }

  /** What is left of a bucket after checks at `now + delays[0]`, `now + delays[1]`, ... */
  function AfterChecks(l: Limits, b: Bucket, now: real, delays: seq<nat>): Bucket
    requires l.Valid()
  {
    if delays == [] then b
    else Spend(l, AfterChecks(l, b, now, delays[..|delays| - 1]), now + delays[|delays| - 1] as real).0
  }

  ghost predicate Ascending(delays: seq<nat>) {
    forall i, j | 0 <= i < j < |delays| :: delays[i] <= delays[j]
  }

  lemma CeilBound(x: real, d: int)
    ensures Ceil(x) <= d <==> x <= d as real
  {
  }

  /** `elapsed` milliseconds regain the missing part of a token exactly when they reach its wait. */
  lemma WaitRegains(tokens: real, elapsed: real, maxRequests: real, windowMs: real)
    requires 0.0 < maxRequests && 0.0 < windowMs && tokens < 1.0
    ensures tokens + elapsed * (maxRequests / windowMs) >= 1.0 <==> WaitMs(tokens, maxRequests, windowMs) <= elapsed
  {
    var r, q, x := maxRequests / windowMs, windowMs / maxRequests, 1.0 - tokens;
    assert r * q == 1.0 && r > 0.0;
    assert (q * x) * r == x;
    if q * x <= elapsed {
      Distribute(0.0, q * x, elapsed, r);
    } else {
      assert (q * x - elapsed) * r > 0.0;
    }
  }

  lemma AllowedAfter(l: Limits, b: Bucket, now: real, d: nat)
    requires l.Valid() && b.lastRefill <= now && !Spend(l, b, now).1.allowed
    ensures Spend(l, b, now + d as real).1.allowed <==> l.burst >= 1.0 && Spend(l, b, now).1.resetIn <= d
  {
    hide Refilled, WaitMs, Ceil;
    RateFacts(l);
    var level, later := Level(l, b, now), now + d as real;
    LevelTwice(l, b, now, later);
    LevelIsRefill(l, Bucket(level, now), later);
    WaitRegains(level, d as real, l.maxRequests, l.windowMs);
    CeilBound(WaitMs(level, l.maxRequests, l.windowMs), d);
  }

  /**
   * `resetIn` after a refusal is exact: whatever checks are made before it has passed are refused and
   * change nothing, and a check d milliseconds after the refusal is admitted exactly when d reaches it
   * (and never when the burst is below one token).
   */
  lemma {:induction false} RefusalWaitExact(l: Limits, b: Bucket, now: real, delays: seq<nat>, d: nat)
    requires l.Valid() && b.lastRefill <= now && !Spend(l, b, now).1.allowed
    requires Ascending(delays) && (forall i | 0 <= i < |delays| :: delays[i] <= d)
    requires forall i | 0 <= i < |delays| :: delays[i] < Spend(l, b, now).1.resetIn
    ensures Spend(l, AfterChecks(l, b, now, delays), now + d as real) == Spend(l, b, now + d as real)
    ensures AfterChecks(l, b, now, delays).lastRefill <= now + d as real
    ensures Spend(l, AfterChecks(l, b, now, delays), now + d as real).1.allowed <==>
            l.burst >= 1.0 && Spend(l, b, now).1.resetIn <= d
  {
    AllowedAfter(l, b, now, d);
    if delays == [] {
    } else {
      var rest, last := delays[..|delays| - 1], delays[|delays| - 1];
      RefusalWaitExact(l, b, now, rest, last);
      RefusalWaitExact(l, b, now, rest, d);
      RefusalTransparent(l, AfterChecks(l, b, now, rest), now + last as real, now + d as real);
    }
  }

  lemma LeastCreditUnique(burst: real, rate: real, adm: seq<real>, t: real, x: real, y: real)
    requires LeastCredit(burst, rate, adm, t, x) && LeastCredit(burst, rate, adm, t, y)
    ensures x == y
  {
    var v :| v <= t && Credit(burst, rate, adm, v, t) == x;
    var w :| w <= t && Credit(burst, rate, adm, w, t) == y;
    assert Credit(burst, rate, adm, v, t) >= y && Credit(burst, rate, adm, w, t) >= x;
  }

  /** What a check finds depends on the client's own admissions only, not on anything else that happened. */
  lemma SameAdmissionsSameLevel(l: Limits, es: seq<Event>, es': seq<Event>, client: string, t: real)
    requires l.Valid() && Clocked(es) && Clocked(es') && SweepsSafe(l, es) && SweepsSafe(l, es')
    requires (es != [] ==> es[|es| - 1].at <= t) && (es' != [] ==> es'[|es'| - 1].at <= t)
    requires Admitted(l, es, client) == Admitted(l, es', client)
    ensures Level(l, Found(l, Run(l, es), client, t), t) == Level(l, Found(l, Run(l, es'), client, t), t)
  {
    hide Run, Admitted, Refilled, LeastCredit;
    var adm := Admitted(l, es, client);
    RunFaithful(l, es, client, t);
    RunFaithful(l, es', client, t);
    FaithfulLevel(l, Run(l, es), client, adm, t);
    FaithfulLevel(l, Run(l, es'), client, adm, t);
    LeastCreditUnique(l.burst, l.Rate(), adm, t, Level(l, Found(l, Run(l, es), client, t), t),
                      Level(l, Found(l, Run(l, es'), client, t), t));
  }

  lemma FoundLater(l: Limits, bs: Buckets, client: string, now: real, later: real)
    requires l.Valid() && now <= later
    ensures Level(l, Found(l, bs, client, now), later) == Level(l, Found(l, bs, client, later), later)
  {
    FreshLevel(l, now, later);
    FreshLevel(l, later, later);
  }

  lemma PrefixSafe(l: Limits, es: seq<Event>, all: seq<Event>)
    requires l.Valid() && es <= all && Clocked(all) && SweepsSafe(l, all)
    ensures Clocked(es) && SweepsSafe(l, es)
  {
    assert forall i | 0 <= i < |es| :: all[i] == es[i];
  }

  lemma FoundIsOlder(l: Limits, es: seq<Event>, client: string, now: real)
    requires l.Valid() && Clocked(es) && SweepsSafe(l, es) && (es != [] ==> es[|es| - 1].at <= now)
    ensures Found(l, Run(l, es), client, now).lastRefill <= now
  {
    RunFaithful(l, es, client, now);
  }

  lemma WaitExactFrom(l: Limits, es: seq<Event>, client: string, now: real, all: seq<Event>, d: nat)
    requires l.Valid() && Clocked(es) && SweepsSafe(l, es) && Clocked(all) && SweepsSafe(l, all)
    requires (es != [] ==> es[|es| - 1].at <= now) && (all != [] ==> all[|all| - 1].at <= now + d as real)
    requires !CheckOutcome(l, Run(l, es), client, now).allowed && Admitted(l, all, client) == Admitted(l, es, client)
    ensures CheckOutcome(l, Run(l, all), client, now + d as real).allowed <==>
            l.burst >= 1.0 && CheckOutcome(l, Run(l, es), client, now).resetIn <= d
  {
    hide Run, Admitted, Refilled, WaitMs, Clocked, SweepsSafe, Found;
    var later := now + d as real;
    SameAdmissionsSameLevel(l, es, all, client, later);
    FoundLater(l, Run(l, es), client, now, later);
    FoundIsOlder(l, es, client, now);
    AllowedAfter(l, Found(l, Run(l, es), client, now), now, d);
  }

  /**
   * The advertised wait is exact over runs: when a check of a client is refused at `now`, then however the
   * run goes on - peeks, harmless clean-ups, checks of other clients, refused checks of its own - a check d
   * milliseconds later is admitted exactly when d has reached `resetIn` (and the burst is at least one token).
   */
  lemma WaitExactOverRuns(l: Limits, es: seq<Event>, client: string, now: real, all: seq<Event>, d: nat)
    requires l.Valid() && es + [Check(client, now)] <= all && Clocked(all) && SweepsSafe(l, all)
    requires all[|all| - 1].at <= now + d as real
    requires !CheckOutcome(l, Run(l, es), client, now).allowed && Admitted(l, all, client) == Admitted(l, es, client)
    ensures CheckOutcome(l, Run(l, all), client, now + d as real).allowed <==>
            l.burst >= 1.0 && CheckOutcome(l, Run(l, es), client, now).resetIn <= d
  {
    assert all[|es|] == (es + [Check(client, now)])[|es|];
    assert es <= all && (es != [] ==> es[|es| - 1] == all[|es| - 1]);
    PrefixSafe(l, es, all);
    WaitExactFrom(l, es, client, now, all, d);
  }

  /** A peek predicts the next check, except for an unseen client of a limiter whose burst is below one. */
  lemma PeekPredictsIff(l: Limits, bs: Buckets, client: string, now: real)
    requires l.Valid()
    ensures Look(l, bs, client, now).allowed == CheckOutcome(l, bs, client, now).allowed <==>
            client in bs || l.burst >= 1.0
  {
    FreshLevel(l, now, now);
  }

  // ----- The other figures of an answer

  /** `n` checks at the same instant, one after the other, are all admitted. */
  predicate AllAdmitted(l: Limits, b: Bucket, now: real, n: nat)
    requires l.Valid()
    decreases n
  {
    n == 0 || (Spend(l, b, now).1.allowed && AllAdmitted(l, Spend(l, b, now).0, now, n - 1))
  }

  lemma LevelOfLeft(l: Limits, tokens: real, now: real)
    requires l.Valid() && 0.0 <= tokens <= l.burst
    ensures Level(l, Bucket(tokens, now), now) == tokens
  {
    RateFacts(l);
    LevelIsRefill(l, Bucket(tokens, now), now);
    RefillBounds(l.burst, l.Rate(), tokens, now - now);
  }

  /** A bucket at some level admits exactly as many checks at once as it has whole tokens. */
  lemma {:induction false} WholeTokensAdmit(l: Limits, b: Bucket, now: real, n: nat)
    requires l.Valid() && 0.0 <= Level(l, b, now) <= l.burst
    ensures AllAdmitted(l, b, now, n) <==> n as real <= Level(l, b, now)
    decreases n
  {
    hide Refilled, WaitMs;
    if n == 0 {
    } else if Level(l, b, now) >= 1.0 {
      LevelOfLeft(l, Level(l, b, now) - 1.0, now);
      WholeTokensAdmit(l, Spend(l, b, now).0, now, n - 1);
    }
  }

  lemma LevelInRange(l: Limits, es: seq<Event>, client: string, now: real)
    requires l.Valid() && Clocked(es) && SweepsSafe(l, es) && (es != [] ==> es[|es| - 1].at <= now)
    ensures 0.0 <= Level(l, Found(l, Run(l, es), client, now), now) <= l.burst
  {
    RunFaithful(l, es, client, now);
    FaithfulLevel(l, Run(l, es), client, Admitted(l, es, client), now);
  }

  lemma FloorIs(x: real, n: nat)
    ensures n as real <= x.Floor as real <==> n as real <= x
  {
    var f := x.Floor;
    assert f as real <= x < (f + 1) as real;
    if n as real <= x {
      assert n < f + 1;
    }
  }

  /**
   * `remaining` of a check is how many further checks at the same instant are all admitted, and
   * `fillLevel` the part of the burst that is left.
   */
  lemma RemainingIsFurtherChecks(l: Limits, es: seq<Event>, client: string, now: real, n: nat)
    requires l.Valid() && Clocked(es) && SweepsSafe(l, es) && (es != [] ==> es[|es| - 1].at <= now)
    ensures
      var (left, outcome) := Spend(l, Found(l, Run(l, es), client, now), now);
      && (AllAdmitted(l, left, now, n) <==> n as real <= outcome.remaining)
      && outcome.fillLevel * l.burst == left.tokens && 0.0 <= outcome.fillLevel <= 1.0
  {
    hide Run, Refilled, WaitMs, AllAdmitted, Ceil, Clocked, SweepsSafe;
    LevelInRange(l, es, client, now);
    var (left, outcome) := Spend(l, Found(l, Run(l, es), client, now), now);
    LevelOfLeft(l, left.tokens, now);
    WholeTokensAdmit(l, left, now, n);
    FloorIs(left.tokens, n);
    PartOf(left.tokens, l.burst);
  }

  lemma PartOf(x: real, whole: real)
    requires 0.0 <= x <= whole && 0.0 < whole
    ensures (x / whole) * whole == x && 0.0 <= x / whole <= 1.0
  {
    var q := x / whole;
    assert q * whole == x;
    AtMostAll(q, whole);
  }

  lemma AtMostAll(q: real, whole: real)
    requires q * whole <= whole && 0.0 < whole
    ensures q <= 1.0
  {
    if q > 1.0 {
      StrictlyMore(1.0, q, whole);
    }
  }

  /** And those of a peek are how many checks at that instant are all admitted, and how full the bucket is. */
  lemma PeekedRemaining(l: Limits, es: seq<Event>, client: string, now: real, n: nat)
    requires l.Valid() && Clocked(es) && SweepsSafe(l, es) && (es != [] ==> es[|es| - 1].at <= now)
    ensures
      var b, outcome := Found(l, Run(l, es), client, now), Look(l, Run(l, es), client, now);
      && (AllAdmitted(l, b, now, n) <==> n as real <= outcome.remaining)
      && outcome.fillLevel * l.burst == Level(l, b, now) && 0.0 <= outcome.fillLevel <= 1.0
  {
    hide Run, Refilled, WaitMs, AllAdmitted, Ceil, Clocked, SweepsSafe;
    LevelInRange(l, es, client, now);
    var b := Found(l, Run(l, es), client, now);
    WholeTokensAdmit(l, b, now, n);
    FloorIs(Level(l, b, now), n);
    PartOf(Level(l, b, now), l.burst);
    FreshLevel(l, now, now);
  }

  /** Tokens an admitted check's client regains in `ms` milliseconds. */
  function Regained(l: Limits, ms: int): real
    requires l.Valid()
  {
    ms as real * l.Rate()
  }

  /** `resetIn` of an admitted check is the least whole number of milliseconds that regain a whole token. */
  lemma AdmittedWait(l: Limits, b: Bucket, now: real)
    requires l.Valid() && Spend(l, b, now).1.allowed
    ensures
      var wait := Spend(l, b, now).1.resetIn;
      Regained(l, wait - 1) < 1.0 <= Regained(l, wait)
  {
    hide Regained, Refilled, WaitMs, Ceil, Spend;
    WaitOfAdmitted(l, b, now);
    CeilIsNext(l.windowMs / l.maxRequests);
    OneToken(l.windowMs, l.maxRequests);
    RegainedBelow(l, Spend(l, b, now).1.resetIn - 1, l.windowMs / l.maxRequests);
    RegainedAbove(l, Spend(l, b, now).1.resetIn, l.windowMs / l.maxRequests);
  }

  lemma RegainedBelow(l: Limits, ms: int, q: real)
    requires l.Valid() && ms as real < q && q * l.Rate() == 1.0
    ensures Regained(l, ms) < 1.0
  {
    RateFacts(l);
    StrictlyMore(ms as real, q, l.Rate());
  }

  lemma RegainedAbove(l: Limits, ms: int, q: real)
    requires l.Valid() && q <= ms as real && q * l.Rate() == 1.0
    ensures 1.0 <= Regained(l, ms)
  {
    RateFacts(l);
    if q < ms as real {
      StrictlyMore(q, ms as real, l.Rate());
    }
  }

  lemma WaitOfAdmitted(l: Limits, b: Bucket, now: real)
    requires l.Valid() && Spend(l, b, now).1.allowed
    ensures Spend(l, b, now).1.resetIn == Ceil(l.windowMs / l.maxRequests)
  {
    hide Refilled, Ceil;
  }

  lemma CeilIsNext(x: real)
    ensures (Ceil(x) - 1) as real < x <= Ceil(x) as real
  {
  }

  lemma OneToken(windowMs: real, maxRequests: real)
    requires 0.0 < windowMs && 0.0 < maxRequests
    ensures (windowMs / maxRequests) * (maxRequests / windowMs) == 1.0 && maxRequests / windowMs > 0.0
  {
    var r, q := maxRequests / windowMs, windowMs / maxRequests;
    assert r * q == 1.0;
  }

  lemma StrictlyMore(x: real, y: real, r: real)
    requires x < y && r > 0.0
    ensures x * r < y * r
  {
    assert (y - x) * r > 0.0;
  }

  /** A peek at a known client reports the wait a check at that instant would; at an unseen one, none. */
  lemma PeekedWait(l: Limits, bs: Buckets, client: string, now: real)
    requires l.Valid()
    ensures Look(l, bs, client, now).resetIn ==
            if client in bs then CheckOutcome(l, bs, client, now).resetIn else 0
  {
  }
}
