/** The clean-up of stale buckets: when it goes unnoticed, and what it can break otherwise. */
module TokenBucketCleanup {
  import opened RateLimiting
  import opened TokenBucketProofs

  // ----- One bucket

  ghost predicate Sound(l: Limits, b: Bucket, now: real) {
    0.0 <= b.tokens <= l.burst && b.lastRefill <= now
  }

  lemma FullStaysFull(l: Limits, b: Bucket, now: real, later: real)
    requires l.Valid() && b.lastRefill <= now <= later && Level(l, b, now) == l.burst
    ensures Level(l, b, later) == l.burst
  {
    LevelTwice(l, b, now, later);
    FreshLevel(l, now, later);
  }

  /** Every check at or after `now` has the same effect and answer with the bucket as without it. */
  ghost predicate DeletionInvisible(l: Limits, b: Bucket, now: real)
    requires l.Valid()
  {
    forall t | now <= t :: Spend(l, b, t) == Spend(l, Bucket(l.burst, t), t)
  }

  /** Forgetting a bucket goes unnoticed exactly when it has already refilled completely. */
  lemma DeletionInvisibleIffFull(l: Limits, b: Bucket, now: real)
    requires l.Valid() && b.lastRefill <= now
    ensures DeletionInvisible(l, b, now) <==> Level(l, b, now) == l.burst
  {
    FreshLevel(l, now, now);
    if Level(l, b, now) == l.burst {
      forall t | now <= t ensures Spend(l, b, t) == Spend(l, Bucket(l.burst, t), t) {
        FullStaysFull(l, b, now, t);
        FreshLevel(l, t, t);
        SpendByLevel(l, b, Bucket(l.burst, t), t);
      }
    } else {
      SpendByLevel(l, b, Bucket(l.burst, now), now);
      assert Spend(l, b, now) != Spend(l, Bucket(l.burst, now), now);
    }
  }

  // ----- Whole runs

  function WithoutSweeps(es: seq<Event>): seq<Event> {
    if es == [] then []
    else WithoutSweeps(es[..|es| - 1]) + (if es[|es| - 1].Sweep? then [] else [es[|es| - 1]])
  }

  /** What the checks of a run answered, in order. */
  function Answers(l: Limits, es: seq<Event>): seq<Outcome>
    requires l.Valid()
  {
    if es == [] then []
    else
      var before, e := es[..|es| - 1], es[|es| - 1];
      Answers(l, before) + if e.Check? then [CheckOutcome(l, Run(l, before), e.client, e.at)] else []
  }

  /** Buckets that differ only by full ones having been forgotten. */
  ghost predicate SameButFull(l: Limits, swept: Buckets, kept: Buckets, now: real)
    requires l.Valid()
  {
    && (forall c | c in kept :: Sound(l, kept[c], now))
    && (forall c | c in swept :: c in kept && swept[c] == kept[c])
    && (forall c | c in kept && c !in swept :: Level(l, kept[c], now) == l.burst)
  }

  lemma SameLater(l: Limits, swept: Buckets, kept: Buckets, now: real, later: real)
    requires l.Valid() && SameButFull(l, swept, kept, now) && now <= later
    ensures SameButFull(l, swept, kept, later)
  {
    forall c | c in kept && c !in swept ensures Level(l, kept[c], later) == l.burst {
      FullStaysFull(l, kept[c], now, later);
    }
  }

  lemma SpendIsSound(l: Limits, b: Bucket, now: real)
    requires l.Valid() && Sound(l, b, now)
    ensures Sound(l, Spend(l, b, now).0, now)
  {
    RateFacts(l);
    LevelIsRefill(l, b, now);
    RefillBounds(l.burst, l.Rate(), b.tokens, now - b.lastRefill);
  }

  lemma SameCheck(l: Limits, swept: Buckets, kept: Buckets, c: string, now: real)
    requires l.Valid() && SameButFull(l, swept, kept, now)
    ensures SameButFull(l, Apply(l, swept, Check(c, now)), Apply(l, kept, Check(c, now)), now)
    ensures CheckOutcome(l, swept, c, now) == CheckOutcome(l, kept, c, now)
  {
    FreshLevel(l, now, now);
    SpendByLevel(l, Found(l, swept, c, now), Found(l, kept, c, now), now);
    SpendIsSound(l, Found(l, kept, c, now), now);
  }

  lemma SameSweep(l: Limits, swept: Buckets, kept: Buckets, now: real)
    requires l.Valid() && SameButFull(l, swept, kept, now)
    requires forall c | c in swept && Stale(l, swept[c], now) :: Level(l, swept[c], now) == l.burst
    ensures SameButFull(l, Swept(l, swept, now), kept, now)
  {
    forall c | c in kept && c !in Swept(l, swept, now) ensures Level(l, kept[c], now) == l.burst {
      assert c in swept ==> swept[c] == kept[c];
    }
  }

  lemma AllStaleFull(l: Limits, es: seq<Event>, now: real)
    requires l.Valid() && Clocked(es) && (es != [] ==> es[|es| - 1].at <= now)
    requires CleanupSafe(l) || (CleanupSafeOnClock(l) && OnClock(es) && IsWhole(now))
    ensures forall c | c in Run(l, es) && Stale(l, Run(l, es)[c], now) :: Level(l, Run(l, es)[c], now) == l.burst
  {
    forall c | c in Run(l, es) && Stale(l, Run(l, es)[c], now) ensures Level(l, Run(l, es)[c], now) == l.burst {
      RunFaithful(l, es, c, now);
      StaleAfterRun(l, es, c, now);
    }
  }

  /** A run with clean-ups answers every check as the same run without them. */
  lemma {:induction false} SweepsInvisible(l: Limits, es: seq<Event>, now: real)
    requires l.Valid() && SweepsSafe(l, es) && Clocked(es)
    requires es != [] ==> es[|es| - 1].at <= now
    ensures Answers(l, es) == Answers(l, WithoutSweeps(es))
    ensures SameButFull(l, Run(l, es), Run(l, WithoutSweeps(es)), now)
  {
    if es == [] {
    } else {
      var before, e := es[..|es| - 1], es[|es| - 1];
      SweepsInvisible(l, before, e.at);
      var swept, kept := Run(l, before), Run(l, WithoutSweeps(before));
      if e.Sweep? {
        assert WithoutSweeps(es) == WithoutSweeps(before);
        assert e in es;
        AllStaleFull(l, before, e.at);
        SameSweep(l, swept, kept, e.at);
      } else {
        assert WithoutSweeps(es)[..|WithoutSweeps(es)| - 1] == WithoutSweeps(before);
        if e.Check? {
          SameCheck(l, swept, kept, e.client, e.at);
        }
      }
      SameLater(l, Run(l, es), Run(l, WithoutSweeps(es)), e.at, now);
    }
  }

  // ----- A run that empties a bucket, is swept, and empties it again

  lemma ClockedSnoc(es: seq<Event>, e: Event)
    requires Clocked(es) && (es != [] ==> es[|es| - 1].at <= e.at)
    ensures Clocked(es + [e])
  {
  }

  lemma RunSnoc(l: Limits, es: seq<Event>, e: Event)
    requires l.Valid()
    ensures Run(l, es + [e]) == Apply(l, Run(l, es), e)
    ensures Answers(l, es + [e]) ==
            Answers(l, es) + if e.Check? then [CheckOutcome(l, Run(l, es), e.client, e.at)] else []
    ensures WithoutSweeps(es + [e]) == WithoutSweeps(es) + if e.Sweep? then [] else [e]
    ensures forall c :: Admitted(l, es + [e], c) ==
              if e.Check? && e.client == c && CheckOutcome(l, Run(l, es), c, e.at).allowed
              then Admitted(l, es, c) + [e.at] else Admitted(l, es, c)
  {
    assert (es + [e])[..|es|] == es;
  }

  /** After `es` the next check of `client` at `at` finds `tokens`, and [from, to] has seen `spent` admissions. */
  ghost predicate Holds(l: Limits, es: seq<Event>, client: string, at: real, tokens: real,
                        from: real, to: real, spent: nat)
    requires l.Valid()
  {
    && Clocked(es) && (es != [] ==> es[|es| - 1].at <= at)
    && Level(l, Found(l, Run(l, es), client, at), at) == tokens
    && CountIn(Admitted(l, es, client), from, to) == spent
  }

  lemma TakeOne(l: Limits, es: seq<Event>, client: string, at: real, tokens: real, from: real, to: real, spent: nat)
    requires l.Valid() && Holds(l, es, client, at, tokens, from, to, spent)
    requires 1.0 <= tokens <= l.burst && from <= at <= to
    ensures
      var es' := es + [Check(client, at)];
      && Holds(l, es', client, at, tokens - 1.0, from, to, spent + 1)
      && client in Run(l, es') && Run(l, es')[client] == Bucket(tokens - 1.0, at)
  {
    hide Run, Admitted, Answers, WithoutSweeps, Refilled, WaitMs;
    var adm := Admitted(l, es, client);
    RunSnoc(l, es, Check(client, at));
    ClockedSnoc(es, Check(client, at));
    LevelAtOnce(l, tokens - 1.0, at);
    assert (adm + [at])[..|adm|] == adm;
  }

  lemma LevelAtOnce(l: Limits, tokens: real, at: real)
    requires l.Valid() && 0.0 <= tokens <= l.burst
    ensures Level(l, Bucket(tokens, at), at) == tokens
  {
    RateFacts(l);
    LevelIsRefill(l, Bucket(tokens, at), at);
    RefillBounds(l.burst, l.Rate(), tokens, at - at);
  }

  function Repeated(client: string, at: real, n: nat): seq<Event> {
    if n == 0 then [] else Repeated(client, at, n - 1) + [Check(client, at)]
  }

  lemma {:induction false} TakeMany(l: Limits, es: seq<Event>, client: string, at: real, from: real, to: real,
                                    spent: nat, n: nat)
    requires l.Valid() && Holds(l, es, client, at, l.burst, from, to, spent)
    requires from <= at <= to && n as real <= l.burst
    ensures
      var es' := es + Repeated(client, at, n);
      && Holds(l, es', client, at, l.burst - n as real, from, to, spent + n)
      && (n > 0 ==> client in Run(l, es') && Run(l, es')[client] == Bucket(l.burst - n as real, at))
    decreases n
  {
    hide Run, Admitted, Holds;
    if n == 0 {
      assert es + [] == es;
    } else {
      TakeMany(l, es, client, at, from, to, spent, n - 1);
      TakeOne(l, es + Repeated(client, at, n - 1), client, at, l.burst - (n - 1) as real, from, to, spent + n - 1);
      assert es + Repeated(client, at, n) == es + Repeated(client, at, n - 1) + [Check(client, at)];
    }
  }

  /** The whole tokens of a full bucket, and the time in which the fraction left over becomes a whole one. */
  function Whole(l: Limits): nat
    requires l.Valid()
  {
    l.burst.Floor
  }

  function Topping(l: Limits): real
    requires l.Valid()
  {
    (Whole(l) as real + 1.0 - l.burst) / l.Rate()
  }

  /** Takes everything at once, waits for the fraction, takes that. */
  function Drain(l: Limits, client: string, at: real): seq<Event>
    requires l.Valid()
  {
    Repeated(client, at, Whole(l)) + [Check(client, at + Topping(l))]
  }

  lemma ToppingGain(l: Limits)
    requires l.Valid()
    ensures Topping(l) > 0.0 && Topping(l) * l.Rate() == Whole(l) as real + 1.0 - l.burst
  {
    RateFacts(l);
    var x, r := Whole(l) as real + 1.0 - l.burst, l.Rate();
    assert x > 0.0;
    QuotientOf(x, r);
  }

  lemma QuotientOf(x: real, r: real)
    requires x > 0.0 && r > 0.0
    ensures x / r > 0.0 && (x / r) * r == x
  {
  }

  /** Draining a full bucket leaves it empty, having admitted one more than its whole tokens. */
  lemma DrainEmpties(l: Limits, es: seq<Event>, client: string, at: real, from: real, to: real, spent: nat)
    requires l.Valid() && l.burst >= 1.0 && Holds(l, es, client, at, l.burst, from, to, spent)
    requires from <= at && at + Topping(l) <= to
    ensures
      var es', end := es + Drain(l, client, at), at + Topping(l);
      && Holds(l, es', client, end, 0.0, from, to, spent + Whole(l) + 1)
      && client in Run(l, es') && Run(l, es')[client] == Bucket(0.0, end)
  {
    hide Holds;
    var k, end := Whole(l), at + Topping(l);
    var es1 := es + Repeated(client, at, k);
    ToppingGain(l);
    TakeMany(l, es, client, at, from, to, spent, k);
    ToppedUp(l, es1, client, at, from, to, spent + k);
    TakeOne(l, es1, client, end, 1.0, from, to, spent + k);
    assert es + Drain(l, client, at) == es1 + [Check(client, end)];
  }

  lemma ToppedUp(l: Limits, es: seq<Event>, client: string, at: real, from: real, to: real, spent: nat)
    requires l.Valid() && l.burst >= 1.0
    requires Holds(l, es, client, at, l.burst - Whole(l) as real, from, to, spent)
    requires client in Run(l, es) && Run(l, es)[client] == Bucket(l.burst - Whole(l) as real, at)
    ensures Holds(l, es, client, at + Topping(l), 1.0, from, to, spent)
  {
    hide Run, Admitted, Topping, Whole, Refilled, Clocked;
    ToppingGain(l);
    assert l.burst < Whole(l) as real + 1.0;
    LevelIsRefill(l, Run(l, es)[client], at + Topping(l));
    assert at + Topping(l) - at == Topping(l);
  }

  /** More than two windows, but not enough to refill an empty bucket. */
  function Idle(l: Limits): real
    requires l.Valid()
  {
    2.0 * l.windowMs + (l.burst - 2.0 * l.maxRequests) / (2.0 * l.Rate())
  }

  lemma IdleGain(l: Limits)
    requires l.Valid() && l.burst > 2.0 * l.maxRequests
    ensures Idle(l) > 2.0 * l.windowMs && 0.0 < Idle(l) * l.Rate() < l.burst
  {
    RateFacts(l);
    var x, r := l.burst - 2.0 * l.maxRequests, l.Rate();
    QuotientOf(x, 2.0 * r);
    IdleProduct(l.windowMs, x / (2.0 * r), r, l.maxRequests, x);
  }

  lemma IdleProduct(windowMs: real, extra: real, r: real, maxRequests: real, x: real)
    requires windowMs * r == maxRequests && extra * (2.0 * r) == x && 0.0 < maxRequests && 0.0 < x
    ensures (2.0 * windowMs + extra) * r == 2.0 * maxRequests + x / 2.0
  {
    assert extra * r == x / 2.0;
    assert (2.0 * windowMs + extra) * r == 2.0 * (windowMs * r) + extra * r;
  }

  function SweepTime(l: Limits): real
    requires l.Valid()
  {
    Topping(l) + Idle(l)
  }

  /** The client empties its bucket at the start; a clean-up comes when it is stale but not full again. */
  function DrainedAndSwept(l: Limits, client: string): seq<Event>
    requires l.Valid()
  {
    Drain(l, client, 0.0) + [Sweep(SweepTime(l))]
  }

  lemma StartDrained(l: Limits, client: string, to: real)
    requires l.Valid() && l.burst >= 1.0 && Topping(l) <= to
    ensures
      var es := Drain(l, client, 0.0);
      && Clocked(es) && es[|es| - 1].at <= Topping(l) && WithoutSweeps(es) == es
      && CountIn(Admitted(l, es, client), 0.0, to) == Whole(l) + 1
      && client in Run(l, es) && Run(l, es)[client] == Bucket(0.0, Topping(l))
  {
    FreshLevel(l, 0.0, 0.0);
    DrainEmpties(l, [], client, 0.0, 0.0, to, 0);
    assert [] + Drain(l, client, 0.0) == Drain(l, client, 0.0);
    assert 0.0 + Topping(l) == Topping(l);
    NoSweeps(client, 0.0, Whole(l));
    RunSnoc(l, Repeated(client, 0.0, Whole(l)), Check(client, 0.0 + Topping(l)));
  }

  lemma {:induction false} NoSweeps(client: string, at: real, n: nat)
    ensures WithoutSweeps(Repeated(client, at, n)) == Repeated(client, at, n)
  {
    if n == 0 {
    } else {
      NoSweeps(client, at, n - 1);
      var rest := Repeated(client, at, n - 1);
      assert (rest + [Check(client, at)])[..|rest|] == rest;
    }
  }

  /** The clean-up turns the partly refilled bucket into a full one. */
  lemma SweepRefills(l: Limits, client: string, to: real)
    requires l.Valid() && l.burst >= 1.0 && l.burst > 2.0 * l.maxRequests && SweepTime(l) <= to
    ensures
      var es, kept := DrainedAndSwept(l, client), Drain(l, client, 0.0);
      && Holds(l, es, client, SweepTime(l), l.burst, 0.0, to, Whole(l) + 1)
      && WithoutSweeps(es) == kept && Answers(l, es) == Answers(l, kept)
      && Level(l, Found(l, Run(l, kept), client, SweepTime(l)), SweepTime(l)) < l.burst
  {
    hide Run, Admitted, Answers, WithoutSweeps, Drain, Refilled, Topping, Idle;
    var kept, t := Drain(l, client, 0.0), SweepTime(l);
    ToppingGain(l);
    IdleGain(l);
    RateFacts(l);
    StartDrained(l, client, to);
    RunSnoc(l, kept, Sweep(t));
    ClockedSnoc(kept, Sweep(t));
    FreshLevel(l, t, t);
    LevelIsRefill(l, Bucket(0.0, Topping(l)), t);
    assert t - Topping(l) == Idle(l);
  }

  /** An answer shows the level it was given on. */
  lemma OutcomeShowsLevel(l: Limits, b: Bucket, c: Bucket, now: real)
    requires l.Valid() && Spend(l, b, now).1 == Spend(l, c, now).1
    ensures Level(l, b, now) == Level(l, c, now)
  {
    var x, y := Spend(l, b, now).0.tokens, Spend(l, c, now).0.tokens;
    assert x / l.burst == y / l.burst;
    assert (x / l.burst) * l.burst == x && (y / l.burst) * l.burst == y;
  }

  lemma AnswersDiffer(l: Limits, client: string)
    requires l.Valid() && !CleanupSafe(l)
    ensures
      var es := DrainedAndSwept(l, client) + [Check(client, SweepTime(l))];
      Clocked(es) && Answers(l, es) != Answers(l, WithoutSweeps(es))
  {
    var es, kept, t := DrainedAndSwept(l, client), Drain(l, client, 0.0), SweepTime(l);
    SweepRefills(l, client, t);
    RunSnoc(l, es, Check(client, t));
    RunSnoc(l, kept, Check(client, t));
    ClockedSnoc(es, Check(client, t));
    var a, b := CheckOutcome(l, Run(l, es), client, t), CheckOutcome(l, Run(l, kept), client, t);
    if a == b {
      OutcomeShowsLevel(l, Found(l, Run(l, es), client, t), Found(l, Run(l, kept), client, t), t);
      assert false;
    }
    assert Answers(l, es + [Check(client, t)])[|Answers(l, es)|] == a;
    assert Answers(l, kept + [Check(client, t)])[|Answers(l, kept)|] == b;
  }

  /** In every run the clean-ups could be left out without changing a single answer. */
  ghost predicate CleanupsInvisible(l: Limits)
    requires l.Valid()
  {
    forall es | Clocked(es) :: Answers(l, es) == Answers(l, WithoutSweeps(es))
  }

  /**
   * Deleting buckets idle for two windows is invisible in all runs exactly when two windows refill a
   * whole burst, or the burst is below one token.
   */
  lemma CleanupSafeIff(l: Limits)
    requires l.Valid()
    ensures CleanupsInvisible(l) <==> l.burst <= 2.0 * l.maxRequests || l.burst < 1.0
  {
    if CleanupSafe(l) {
      forall es: seq<Event> | Clocked(es) ensures Answers(l, es) == Answers(l, WithoutSweeps(es)) {
        SweepsInvisible(l, es, if es == [] then 0.0 else es[|es| - 1].at);
      }
    } else {
      AnswersDiffer(l, "client");
    }
  }

  // ----- The arrival bound under clean-ups

  lemma BoundBroken(l: Limits, client: string)
    requires l.Valid() && !CleanupSafe(l)
    ensures
      var es, t := DrainedAndSwept(l, client) + Drain(l, client, SweepTime(l)), SweepTime(l) + Topping(l);
      Clocked(es) && 0.0 <= t && !Fits(l.burst, l.Rate(), Admitted(l, es, client), 0.0, t, 0)
  {
    hide Run, Admitted, Drain, DrainedAndSwept, Topping, Idle, Whole;
    var at, k, r := SweepTime(l), Whole(l), l.Rate();
    var t := at + Topping(l);
    ToppingGain(l);
    IdleGain(l);
    SweepRefills(l, client, t);
    DrainEmpties(l, DrainedAndSwept(l, client), client, at, 0.0, t, k + 1);
    assert t == Topping(l) + Idle(l) + Topping(l);
    Overdrawn(l.burst, Topping(l), Idle(l), r, k);
  }

  lemma Overdrawn(burst: real, topping: real, idle: real, r: real, k: nat)
    requires topping * r == k as real + 1.0 - burst && idle * r < burst
    ensures burst + (topping + idle + topping - 0.0) * r < (k + 1 + k + 1) as real
  {
    assert (topping + idle + topping) * r == topping * r + idle * r + topping * r;
  }

  /** In every run no interval admits more than the burst plus what it regains. */
  ghost predicate ArrivalsBounded(l: Limits)
    requires l.Valid()
  {
    forall es, client, s, t | Clocked(es) && s <= t :: Fits(l.burst, l.Rate(), Admitted(l, es, client), s, t, 0)
  }

  /** With clean-ups in the run the arrival bound holds under exactly the same condition. */
  lemma ArrivalBoundIff(l: Limits)
    requires l.Valid()
    ensures ArrivalsBounded(l) <==> l.burst <= 2.0 * l.maxRequests || l.burst < 1.0
  {
    if CleanupSafe(l) {
      forall es, client, s, t | Clocked(es) && s <= t
        ensures Fits(l.burst, l.Rate(), Admitted(l, es, client), s, t, 0)
      {
        ArrivalBound(l, es, client, s, t);
      }
    } else {
      BoundBroken(l, "client");
    }
  }

  // ----- The same on a clock of whole milliseconds

  /** The first instant at which a bucket last refilled at zero is stale. */
  function FirstStale(l: Limits): real {
    2.0 * l.windowMs + 1.0
  }

  ghost predicate WholeLimits(l: Limits) {
    IsWhole(l.windowMs) && IsWhole(l.burst)
  }

  lemma {:induction false} RepeatedOnClock(client: string, at: real, n: nat)
    requires IsWhole(at)
    ensures OnClock(Repeated(client, at, n))
  {
    if n == 0 {
    } else {
      RepeatedOnClock(client, at, n - 1);
    }
  }

  lemma OnClockConcat(es: seq<Event>, more: seq<Event>)
    requires OnClock(es) && OnClock(more)
    ensures OnClock(es + more)
  {
  }

  /** The client empties its bucket at time zero; a clean-up comes at the first whole millisecond it is stale. */
  function EmptiedAndSwept(l: Limits, client: string): seq<Event>
    requires l.Valid()
  {
    Repeated(client, 0.0, Whole(l)) + [Sweep(FirstStale(l))]
  }

  lemma EmptiedAtZero(l: Limits, client: string, to: real)
    requires l.Valid() && WholeLimits(l) && 0.0 <= to
    ensures
      var es := Repeated(client, 0.0, Whole(l));
      && es != [] && Holds(l, es, client, 0.0, 0.0, 0.0, to, Whole(l)) && WithoutSweeps(es) == es
      && client in Run(l, es) && Run(l, es)[client] == Bucket(0.0, 0.0)
  {
    FreshLevel(l, 0.0, 0.0);
    TakeMany(l, [], client, 0.0, 0.0, to, 0, Whole(l));
    assert [] + Repeated(client, 0.0, Whole(l)) == Repeated(client, 0.0, Whole(l));
    NoSweeps(client, 0.0, Whole(l));
  }

  lemma FirstStaleIsWhole(l: Limits)
    requires l.Valid() && IsWhole(l.windowMs)
    ensures IsWhole(FirstStale(l)) && FirstStale(l) > 2.0 * l.windowMs
  {
    assert FirstStale(l) == (2 * l.windowMs.Floor + 1) as real;
  }

  lemma SweptOnClock(l: Limits, client: string, to: real)
    requires l.Valid() && WholeLimits(l) && !CleanupSafeOnClock(l) && FirstStale(l) <= to
    ensures
      var es, kept, t := EmptiedAndSwept(l, client), Repeated(client, 0.0, Whole(l)), FirstStale(l);
      && OnClock(es) && Holds(l, es, client, t, l.burst, 0.0, to, Whole(l))
      && WithoutSweeps(es) == kept && Answers(l, es) == Answers(l, kept)
      && Level(l, Found(l, Run(l, kept), client, t), t) < l.burst
  {
    hide Run, Admitted, Answers, WithoutSweeps, Repeated, Refilled, OnClock, Whole;
    var kept, t := Repeated(client, 0.0, Whole(l)), FirstStale(l);
    FirstStaleIsWhole(l);
    EmptiedAtZero(l, client, to);
    RepeatedOnClock(client, 0.0, Whole(l));
    SweepOnClock(t);
    OnClockConcat(kept, [Sweep(t)]);
    RunSnoc(l, kept, Sweep(t));
    ClockedSnoc(kept, Sweep(t));
    FreshLevel(l, t, t);
    LevelIsRefill(l, Bucket(0.0, 0.0), t);
  }

  lemma SweepOnClock(t: real)
    requires IsWhole(t)
    ensures OnClock([Sweep(t)])
  {
  }

  ghost predicate CleanupsInvisibleOnClock(l: Limits)
    requires l.Valid()
  {
    forall es | Clocked(es) && OnClock(es) :: Answers(l, es) == Answers(l, WithoutSweeps(es))
  }

  ghost predicate ArrivalsBoundedOnClock(l: Limits)
    requires l.Valid()
  {
    forall es, client, s, t | Clocked(es) && OnClock(es) && s <= t ::
      Fits(l.burst, l.Rate(), Admitted(l, es, client), s, t, 0)
  }

  lemma AnswersDifferOnClock(l: Limits, client: string)
    requires l.Valid() && WholeLimits(l) && !CleanupSafeOnClock(l)
    ensures
      var es := EmptiedAndSwept(l, client) + [Check(client, FirstStale(l))];
      Clocked(es) && OnClock(es) && Answers(l, es) != Answers(l, WithoutSweeps(es))
  {
    hide Run, Admitted, Answers, WithoutSweeps, Repeated, EmptiedAndSwept, Refilled, WaitMs;
    var es, kept, t := EmptiedAndSwept(l, client), Repeated(client, 0.0, Whole(l)), FirstStale(l);
    SweptOnClock(l, client, t);
    FirstStaleIsWhole(l);
    RunSnoc(l, es, Check(client, t));
    RunSnoc(l, kept, Check(client, t));
    ClockedSnoc(es, Check(client, t));
    var a, b := CheckOutcome(l, Run(l, es), client, t), CheckOutcome(l, Run(l, kept), client, t);
    if a == b {
      OutcomeShowsLevel(l, Found(l, Run(l, es), client, t), Found(l, Run(l, kept), client, t), t);
      assert false;
    }
    assert Answers(l, es + [Check(client, t)])[|Answers(l, es)|] == a;
    assert Answers(l, kept + [Check(client, t)])[|Answers(l, kept)|] == b;
  }

  lemma BoundBrokenOnClock(l: Limits, client: string)
    requires l.Valid() && WholeLimits(l) && !CleanupSafeOnClock(l)
    ensures
      var t := FirstStale(l);
      var es := EmptiedAndSwept(l, client) + Repeated(client, t, Whole(l));
      Clocked(es) && OnClock(es) && 0.0 <= t && !Fits(l.burst, l.Rate(), Admitted(l, es, client), 0.0, t, 0)
  {
    hide Run, Admitted, Repeated, EmptiedAndSwept, OnClock, Level, Whole, Clocked;
    var t := FirstStale(l);
    FirstStaleIsWhole(l);
    SweptOnClock(l, client, t);
    WholeBurst(l);
    TakeMany(l, EmptiedAndSwept(l, client), client, t, 0.0, t, Whole(l), Whole(l));
    RepeatedOnClock(client, t, Whole(l));
    OnClockConcat(EmptiedAndSwept(l, client), Repeated(client, t, Whole(l)));
    Overspent(l.burst, t, l.Rate(), Whole(l));
  }

  lemma WholeBurst(l: Limits)
    requires l.Valid() && WholeLimits(l)
    ensures Whole(l) as real == l.burst
  {
  }

  lemma Overspent(burst: real, t: real, rate: real, k: nat)
    requires k as real == burst && t * rate < burst
    ensures burst + (t - 0.0) * rate < (k + k) as real
  {
  }

  /**
   * On a clock of whole milliseconds, with a whole window and a whole burst, the clean-up is invisible in
   * all runs exactly when two windows and one millisecond refill a whole burst; and the arrival bound
   * survives it under exactly the same condition.
   */
  lemma CleanupSafeOnClockIff(l: Limits)
    requires l.Valid() && WholeLimits(l)
    ensures CleanupsInvisibleOnClock(l) <==> l.burst <= (2.0 * l.windowMs + 1.0) * l.Rate()
    ensures ArrivalsBoundedOnClock(l) <==> l.burst <= (2.0 * l.windowMs + 1.0) * l.Rate()
  {
    hide Clocked, Answers, WithoutSweeps, Fits, Admitted, EmptiedAndSwept, Repeated, OnClock;
    if CleanupSafeOnClock(l) {
      InvisibleOnClock(l);
      BoundedOnClock(l);
    } else {
      AnswersDifferOnClock(l, "client");
      FirstStaleIsWhole(l);
      BoundBrokenOnClock(l, "client");
    }
  }

  lemma InvisibleOnClock(l: Limits)
    requires l.Valid() && CleanupSafeOnClock(l)
    ensures CleanupsInvisibleOnClock(l)
  {
    forall es: seq<Event> | Clocked(es) && OnClock(es) ensures Answers(l, es) == Answers(l, WithoutSweeps(es)) {
      SweepsInvisible(l, es, if es == [] then 0.0 else es[|es| - 1].at);
    }
  }

  lemma BoundedOnClock(l: Limits)
    requires l.Valid() && CleanupSafeOnClock(l)
    ensures ArrivalsBoundedOnClock(l)
  {
    forall es, client, s, t | Clocked(es) && OnClock(es) && s <= t
      ensures Fits(l.burst, l.Rate(), Admitted(l, es, client), s, t, 0)
    {
      ArrivalBound(l, es, client, s, t);
    }
  }
}
