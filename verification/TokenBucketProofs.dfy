/** Properties of the token bucket over every run of checks, peeks and clean-ups. */
module TokenBucketProofs {
  import opened RateLimiting

  datatype Event =
    | Check(client: string, at: real)
    | Peek(client: string, at: real)
    | Sweep(at: real)

  function Apply(l: Limits, bs: Buckets, e: Event): Buckets
    requires l.Valid()
  {
    match e
    case Check(c, t) => bs[c := Spend(l, Found(l, bs, c, t), t).0]
    case Peek(_, _) => bs
    case Sweep(t) => Swept(l, bs, t)
  }

  function CheckOutcome(l: Limits, bs: Buckets, client: string, now: real): Outcome
    requires l.Valid()
  {
    Spend(l, Found(l, bs, client, now), now).1
  }

  /** The buckets after a run that starts with none. */
  function Run(l: Limits, es: seq<Event>): Buckets
    requires l.Valid()
  {
    if es == [] then map[] else Apply(l, Run(l, es[..|es| - 1]), es[|es| - 1])
  }

  /** When the checks of `client` that the run admitted took place. */
  function Admitted(l: Limits, es: seq<Event>, client: string): seq<real>
    requires l.Valid()
  {
    if es == [] then []
    else
      var before, e := es[..|es| - 1], es[|es| - 1];
      if e.Check? && e.client == client && CheckOutcome(l, Run(l, before), client, e.at).allowed
      then Admitted(l, before, client) + [e.at]
      else Admitted(l, before, client)
  }

  ghost predicate Clocked(es: seq<Event>) {
    forall i, j | 0 <= i < j < |es| :: es[i].at <= es[j].at
  }

  /** Two windows refill a whole burst, or no client is ever admitted anything. */
  ghost predicate CleanupSafe(l: Limits) {
    l.burst <= 2.0 * l.maxRequests || l.burst < 1.0
  }

  ghost predicate IsWhole(x: real) {
    x == x.Floor as real
  }

  /** On a clock of whole milliseconds a bucket is stale one millisecond later than two windows: that suffices. */
  ghost predicate CleanupSafeOnClock(l: Limits)
    requires l.Valid()
  {
    IsWhole(l.windowMs) && l.burst <= (2.0 * l.windowMs + 1.0) * l.Rate()
  }

  ghost predicate OnClock(es: seq<Event>) {
    forall i | 0 <= i < |es| :: IsWhole(es[i].at)
  }

  /** Clean-ups are harmless; or there are none. */
  ghost predicate SweepsSafe(l: Limits, es: seq<Event>)
    requires l.Valid()
  {
    CleanupSafe(l) || (CleanupSafeOnClock(l) && OnClock(es)) || forall e <- es :: !e.Sweep?
  }

  function CountIn(times: seq<real>, from: real, to: real): nat {
    if times == [] then 0
    else CountIn(times[..|times| - 1], from, to) + (if from <= times[|times| - 1] <= to then 1 else 0)
  }

  /** What may still be spent at `t` as seen from `s`: the burst, plus what [s, t] regains, less what it spent. */
  function Credit(burst: real, rate: real, adm: seq<real>, s: real, t: real): real {
    burst + (t - s) * rate - CountIn(adm, s, t) as real
  }

  ghost predicate CreditAtLeast(burst: real, rate: real, adm: seq<real>, t: real, level: real) {
    forall s | s <= t :: Credit(burst, rate, adm, s, t) >= level
  }

  ghost predicate NoneAfter(adm: seq<real>, t: real) {
    forall i | 0 <= i < |adm| :: adm[i] <= t
  }

  /** A level that is exactly the least credit over all instants up to `t`. */
  ghost predicate LeastCredit(burst: real, rate: real, adm: seq<real>, t: real, level: real) {
    && NoneAfter(adm, t)
    && CreditAtLeast(burst, rate, adm, t, level)
    && exists s | s <= t :: Credit(burst, rate, adm, s, t) == level
  }

  lemma {:induction false} CountWidens(times: seq<real>, from: real, t: real, to: real)
    requires t <= to && NoneAfter(times, t)
    ensures CountIn(times, from, to) == CountIn(times, from, t)
    ensures from > t ==> CountIn(times, from, to) == 0
  {
    if times == [] {
    } else {
      CountWidens(times[..|times| - 1], from, t, to);
    }
  }

  lemma Distribute(x: real, y: real, z: real, rate: real)
    requires rate > 0.0
    ensures (z - x) * rate == (y - x) * rate + (z - y) * rate
    ensures y <= z ==> (z - y) * rate >= 0.0
  {
  }

  /** Credit seen at a later instant, when nothing was admitted in between. */
  lemma CreditGrows(burst: real, rate: real, adm: seq<real>, s: real, t: real, u: real)
    requires rate > 0.0 && s <= u && t <= u && NoneAfter(adm, t)
    ensures s <= t ==> Credit(burst, rate, adm, s, u) == Credit(burst, rate, adm, s, t) + (u - t) * rate
    ensures t < s ==> Credit(burst, rate, adm, s, u) == burst + (u - s) * rate >= burst
  {
    Distribute(s, t, u, rate);
    Distribute(t, s, u, rate);
    CountWidens(adm, s, t, u);
  }

  function Refill(burst: real, rate: real, level: real, elapsed: real): real {
    Min(burst, level + elapsed * rate)
  }

  lemma RefillBounds(burst: real, rate: real, level: real, elapsed: real)
    requires rate > 0.0 && 0.0 <= level && 0.0 <= elapsed && 0.0 <= burst
    ensures 0.0 <= Refill(burst, rate, level, elapsed)
    ensures level == burst ==> Refill(burst, rate, level, elapsed) == burst
    ensures elapsed == 0.0 && level <= burst ==> Refill(burst, rate, level, elapsed) == level
  {
    Distribute(0.0, 0.0, elapsed, rate);
  }

  /** Refilling with a cap at `burst` is taking the least credit over every instant up to `u`. */
  lemma RefillIsLeastCredit(burst: real, rate: real, adm: seq<real>, t: real, level: real, u: real)
    requires rate > 0.0 && t <= u && LeastCredit(burst, rate, adm, t, level)
    ensures LeastCredit(burst, rate, adm, u, Refill(burst, rate, level, u - t))
  {
    var gain := (u - t) * rate;
    Distribute(t, t, u, rate);
    forall s | s <= u ensures Credit(burst, rate, adm, s, u) >= Min(burst, level + gain) {
      CreditGrows(burst, rate, adm, s, t, u);
    }
    var w :| w <= t && Credit(burst, rate, adm, w, t) == level;
    CreditGrows(burst, rate, adm, w, t, u);
    if burst < level + gain {
      assert Credit(burst, rate, adm, t, t) >= level;
      CreditGrows(burst, rate, adm, u, t, u);
    }
  }

  /** Admitting at `t` lowers every credit seen at `t` by one. */
  lemma AdmitLowersCredit(burst: real, rate: real, adm: seq<real>, t: real, level: real)
    requires LeastCredit(burst, rate, adm, t, level)
    ensures LeastCredit(burst, rate, adm + [t], t, level - 1.0)
  {
    forall s | s <= t
      ensures Credit(burst, rate, adm + [t], s, t) == Credit(burst, rate, adm, s, t) - 1.0
    {
      assert (adm + [t])[..|adm|] == adm;
    }
    var w :| w <= t && Credit(burst, rate, adm, w, t) == level;
    assert Credit(burst, rate, adm + [t], w, t) == level - 1.0;
  }

  // ----- Exactness over every run

  /** Limits whose products and quotients Dafny is told once. */
  lemma RateFacts(l: Limits)
    requires l.Valid()
    ensures l.Rate() > 0.0
    ensures l.windowMs * l.Rate() == l.maxRequests
  {
  }

  lemma LevelIsRefill(l: Limits, b: Bucket, now: real)
    requires l.Valid()
    ensures Level(l, b, now) == Refill(l.burst, l.Rate(), b.tokens, now - b.lastRefill)
  {
  }

  /** The stored bucket, or its absence, says exactly what the admission history says. */
  ghost predicate Faithful(l: Limits, bs: Buckets, client: string, adm: seq<real>, now: real)
    requires l.Valid()
  {
    if client in bs then
      var b := bs[client];
      b.lastRefill <= now && 0.0 <= b.tokens && LeastCredit(l.burst, l.Rate(), adm, b.lastRefill, b.tokens)
    else
      LeastCredit(l.burst, l.Rate(), adm, now, l.burst)
  }

  lemma RefillCaps(burst: real, rate: real, level: real, enough: real, elapsed: real)
    requires rate > 0.0 && 0.0 <= level && enough <= elapsed && burst <= enough * rate
    ensures Refill(burst, rate, level, elapsed) == burst
  {
    Distribute(0.0, enough, elapsed, rate);
  }

  lemma TwoWindows(windowMs: real, rate: real)
    ensures (windowMs * 2.0) * rate == 2.0 * (windowMs * rate)
  {
  }

  lemma StaleIsFull(l: Limits, b: Bucket, now: real)
    requires l.Valid() && l.burst <= 2.0 * l.maxRequests
    requires 0.0 <= b.tokens && Stale(l, b, now)
    ensures Level(l, b, now) == l.burst
  {
    RateFacts(l);
    LevelIsRefill(l, b, now);
    TwoWindows(l.windowMs, l.Rate());
    RefillCaps(l.burst, l.Rate(), b.tokens, l.windowMs * 2.0, now - b.lastRefill);
  }

  lemma FaithfulLevel(l: Limits, bs: Buckets, client: string, adm: seq<real>, now: real)
    requires l.Valid() && Faithful(l, bs, client, adm, now)
    ensures LeastCredit(l.burst, l.Rate(), adm, now, Level(l, Found(l, bs, client, now), now))
    ensures 0.0 <= Level(l, Found(l, bs, client, now), now)
  {
    RateFacts(l);
    var b := Found(l, bs, client, now);
    LevelIsRefill(l, b, now);
    RefillBounds(l.burst, l.Rate(), b.tokens, now - b.lastRefill);
    RefillIsLeastCredit(l.burst, l.Rate(), adm, b.lastRefill, b.tokens, now);
  }

  /** Nothing is forgotten while time passes. */
  lemma FaithfulLater(l: Limits, bs: Buckets, client: string, adm: seq<real>, t: real, now: real)
    requires l.Valid() && Faithful(l, bs, client, adm, t) && t <= now
    ensures Faithful(l, bs, client, adm, now)
  {
    RateFacts(l);
    if client !in bs {
      RefillIsLeastCredit(l.burst, l.Rate(), adm, t, l.burst, now);
      RefillBounds(l.burst, l.Rate(), l.burst, now - t);
    }
  }

  lemma CheckFaithful(l: Limits, bs: Buckets, client: string, adm: seq<real>, now: real)
    requires l.Valid() && Faithful(l, bs, client, adm, now)
    ensures Faithful(l, Apply(l, bs, Check(client, now)), client,
              if CheckOutcome(l, bs, client, now).allowed then adm + [now] else adm, now)
  {
    FaithfulLevel(l, bs, client, adm, now);
    var level := Level(l, Found(l, bs, client, now), now);
    AdmitLowersCredit(l.burst, l.Rate(), adm, now, level);
  }

  /** A client that was never admitted anything has a full bucket. */
  lemma NothingSpent(burst: real, rate: real, t: real, level: real)
    requires rate > 0.0 && LeastCredit(burst, rate, [], t, level)
    ensures level == burst
  {
    var w :| w <= t && Credit(burst, rate, [], w, t) == level;
    Distribute(w, w, t, rate);
    assert Credit(burst, rate, [], t, t) == burst;
  }

  lemma SweepFaithful(l: Limits, bs: Buckets, client: string, adm: seq<real>, now: real)
    requires l.Valid() && Faithful(l, bs, client, adm, now)
    requires client in bs && Stale(l, bs[client], now) ==> Level(l, bs[client], now) == l.burst
    ensures Faithful(l, Swept(l, bs, now), client, adm, now)
  {
    if client in bs && Stale(l, bs[client], now) {
      FaithfulLevel(l, bs, client, adm, now);
    }
  }

  lemma StaleIsFullOnClock(l: Limits, b: Bucket, now: real)
    requires l.Valid() && CleanupSafeOnClock(l)
    requires 0.0 <= b.tokens && IsWhole(b.lastRefill) && IsWhole(now) && Stale(l, b, now)
    ensures Level(l, b, now) == l.burst
  {
    RateFacts(l);
    LevelIsRefill(l, b, now);
    assert now - b.lastRefill >= 2.0 * l.windowMs + 1.0 by {
      var n, r, w := now.Floor, b.lastRefill.Floor, l.windowMs.Floor;
      assert n - r > 2 * w;
      assert n - r >= 2 * w + 1;
    }
    RefillCaps(l.burst, l.Rate(), b.tokens, 2.0 * l.windowMs + 1.0, now - b.lastRefill);
  }

  lemma {:induction false} RefillsOnClock(l: Limits, es: seq<Event>, client: string)
    requires l.Valid() && OnClock(es) && client in Run(l, es)
    ensures IsWhole(Run(l, es)[client].lastRefill)
  {
    if es == [] {
    } else {
      var before, e := es[..|es| - 1], es[|es| - 1];
      if client in Run(l, before) {
        RefillsOnClock(l, before, client);
      }
    }
  }

  /** Under any of the conditions, what a clean-up deletes after a run is a full bucket. */
  lemma StaleAfterRun(l: Limits, es: seq<Event>, client: string, now: real)
    requires l.Valid() && (CleanupSafe(l) || (CleanupSafeOnClock(l) && OnClock(es) && IsWhole(now)))
    requires Faithful(l, Run(l, es), client, Admitted(l, es, client), now)
    requires client in Run(l, es) && Stale(l, Run(l, es)[client], now)
    ensures Level(l, Run(l, es)[client], now) == l.burst
  {
    hide Admitted, Run, Refilled, LeastCredit;
    var bs, adm := Run(l, es), Admitted(l, es, client);
    if l.burst <= 2.0 * l.maxRequests {
      StaleIsFull(l, bs[client], now);
    } else if l.burst < 1.0 {
      NobodyAdmitted(l, es, client);
      FaithfulLevel(l, bs, client, adm, now);
      RateFacts(l);
      NothingSpent(l.burst, l.Rate(), now, Level(l, bs[client], now));
    } else {
      RefillsOnClock(l, es, client);
      StaleIsFullOnClock(l, bs[client], now);
    }
  }

  /** A burst below one token admits nobody. */
  lemma {:induction false} NobodyAdmitted(l: Limits, es: seq<Event>, client: string)
    requires l.Valid() && l.burst < 1.0
    ensures Admitted(l, es, client) == []
  {
    if es == [] {
    } else {
      NobodyAdmitted(l, es[..|es| - 1], client);
    }
  }

  lemma {:induction false} RunFaithful(l: Limits, es: seq<Event>, client: string, now: real)
    requires l.Valid() && Clocked(es) && SweepsSafe(l, es)
    requires es != [] ==> es[|es| - 1].at <= now
    ensures Faithful(l, Run(l, es), client, Admitted(l, es, client), now)
  {
    if es == [] {
      RateFacts(l);
      NoHistory(l.burst, l.Rate(), now);
      return;
    }
    var before, e := es[..|es| - 1], es[|es| - 1];
    var bs, adm := Run(l, before), Admitted(l, before, client);
    RunFaithful(l, before, client, e.at);
    match e {
      case Check(c, t) =>
        if c == client {
          CheckFaithful(l, bs, client, adm, t);
        }
      case Peek(_, _) =>
      case Sweep(t) =>
        assert e in es;
        if client in bs && Stale(l, bs[client], t) {
          StaleAfterRun(l, before, client, t);
        }
        SweepFaithful(l, bs, client, adm, t);
    }
    FaithfulLater(l, Run(l, es), client, Admitted(l, es, client), e.at, now);
  }

  lemma NoHistory(burst: real, rate: real, now: real)
    requires rate > 0.0
    ensures LeastCredit(burst, rate, [], now, burst)
  {
    assert Credit(burst, rate, [], now, now) == burst;
    forall s | s <= now ensures Credit(burst, rate, [], s, now) >= burst {
      Distribute(s, s, now, rate);
    }
  }

  /** `more` further checks at `t` keep the traffic of [s, t] within the burst plus what [s, t] regains. */
  ghost predicate Fits(burst: real, rate: real, adm: seq<real>, s: real, t: real, more: nat) {
    (CountIn(adm, s, t) + more) as real <= burst + (t - s) * rate
  }

  lemma LeastCreditDecides(burst: real, rate: real, adm: seq<real>, t: real, level: real)
    requires LeastCredit(burst, rate, adm, t, level)
    ensures level >= 1.0 <==> RoomForOne(burst, rate, adm, t)
  {
    forall s | s <= t
      ensures Fits(burst, rate, adm, s, t, 1) <==> Credit(burst, rate, adm, s, t) >= 1.0
      ensures level >= 1.0 ==> Fits(burst, rate, adm, s, t, 1)
    {
      assert Credit(burst, rate, adm, s, t) >= level;
    }
    var w :| w <= t && Credit(burst, rate, adm, w, t) == level;
    if level < 1.0 {
      assert !Fits(burst, rate, adm, w, t, 1);
    }
  }

  /** One more check at `now` fits, whatever earlier instant the traffic is measured from. */
  ghost predicate RoomForOne(burst: real, rate: real, adm: seq<real>, now: real) {
    forall s | s <= now :: Fits(burst, rate, adm, s, now, 1)
  }

  lemma AllowedIsLevel(l: Limits, bs: Buckets, client: string, now: real)
    requires l.Valid()
    ensures CheckOutcome(l, bs, client, now).allowed <==> Level(l, Found(l, bs, client, now), now) >= 1.0
  {
  }

  /**
   * The bucket is exact: after any run, a check is admitted if and only if no earlier instant `s`
   * has already seen so much traffic that one more would exceed the burst plus what [s, now] regains.
   */
  lemma Exact(l: Limits, es: seq<Event>, client: string, now: real)
    requires l.Valid() && Clocked(es) && SweepsSafe(l, es)
    requires es != [] ==> es[|es| - 1].at <= now
    ensures CheckOutcome(l, Run(l, es), client, now).allowed <==>
            RoomForOne(l.burst, l.Rate(), Admitted(l, es, client), now)
  {
    var bs, adm := Run(l, es), Admitted(l, es, client);
    RunFaithful(l, es, client, now);
    FaithfulLevel(l, bs, client, adm, now);
    AllowedIsLevel(l, bs, client, now);
    LeastCreditDecides(l.burst, l.Rate(), adm, now, Level(l, Found(l, bs, client, now), now));
  }

  lemma NothingFits(burst: real, rate: real, s: real, t: real)
    requires 0.0 < rate && 0.0 <= burst && s <= t
    ensures Fits(burst, rate, [], s, t, 0)
  {
    Distribute(s, s, t, rate);
  }

  lemma {:induction false} AdmittedByNow(l: Limits, es: seq<Event>, client: string, now: real)
    requires l.Valid() && Clocked(es)
    requires es != [] ==> es[|es| - 1].at <= now
    ensures NoneAfter(Admitted(l, es, client), now)
  {
    if es == [] {
    } else {
      AdmittedByNow(l, es[..|es| - 1], client, now);
    }
  }

  /** One more admission at `a` respects the bound on [s, t] when it respected it on [s, a]. */
  lemma BoundExtends(burst: real, rate: real, adm: seq<real>, a: real, s: real, t: real)
    requires rate > 0.0 && s <= t && NoneAfter(adm, a)
    requires Fits(burst, rate, adm, s, t, 0)
    requires s <= a ==> Fits(burst, rate, adm, s, a, 1)
    ensures Fits(burst, rate, adm + [a], s, t, 0)
  {
    assert (adm + [a])[..|adm|] == adm;
    if s <= a <= t {
      CountWidens(adm, s, a, t);
      Distribute(s, a, t, rate);
    }
  }

  /** The arrival bound: no run ever admits more than burst + (t - s) * rate checks of a client in [s, t]. */
  lemma {:induction false} ArrivalBound(l: Limits, es: seq<Event>, client: string, s: real, t: real)
    requires l.Valid() && Clocked(es) && SweepsSafe(l, es) && s <= t
    ensures Fits(l.burst, l.Rate(), Admitted(l, es, client), s, t, 0)
  {
    RateFacts(l);
    if es == [] {
      NothingFits(l.burst, l.Rate(), s, t);
    } else {
      var before, e := es[..|es| - 1], es[|es| - 1];
      ArrivalBound(l, before, client, s, t);
      if e.Check? && e.client == client && CheckOutcome(l, Run(l, before), client, e.at).allowed {
        Exact(l, before, client, e.at);
        AdmittedByNow(l, before, client, e.at);
        BoundExtends(l.burst, l.Rate(), Admitted(l, before, client), e.at, s, t);
      }
    }
  }

  // ----- Levels over time

  /** Refilling in two goes is refilling once: the cap does not remember when it was applied. */
  lemma RefillTwice(burst: real, rate: real, level: real, d: real, e: real)
    requires rate > 0.0 && 0.0 <= d && 0.0 <= e
    ensures Refill(burst, rate, Refill(burst, rate, level, d), e) == Refill(burst, rate, level, d + e)
  {
    Distribute(0.0, d, d + e, rate);
    Distribute(0.0, 0.0, e, rate);
  }

  lemma LevelTwice(l: Limits, b: Bucket, now: real, later: real)
    requires l.Valid() && b.lastRefill <= now <= later
    ensures Level(l, Bucket(Level(l, b, now), now), later) == Level(l, b, later)
  {
    RateFacts(l);
    LevelIsRefill(l, b, now);
    LevelIsRefill(l, b, later);
    LevelIsRefill(l, Bucket(Level(l, b, now), now), later);
    RefillTwice(l.burst, l.Rate(), b.tokens, now - b.lastRefill, later - now);
    assert (now - b.lastRefill) + (later - now) == later - b.lastRefill;
  }

  lemma FreshLevel(l: Limits, now: real, later: real)
    requires l.Valid() && now <= later
    ensures Level(l, Bucket(l.burst, now), later) == l.burst
  {
    RateFacts(l);
    LevelIsRefill(l, Bucket(l.burst, now), later);
    RefillBounds(l.burst, l.Rate(), l.burst, later - now);
  }

  /** Same level, same outcome and bucket afterwards; and a different level shows. */
  lemma SpendByLevel(l: Limits, b: Bucket, c: Bucket, now: real)
    requires l.Valid()
    ensures Level(l, b, now) == Level(l, c, now) <==> Spend(l, b, now) == Spend(l, c, now)
  {
  }
}
