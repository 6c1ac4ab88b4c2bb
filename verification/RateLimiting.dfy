/**
 * Per-client token bucket (src/security/rate-limiter.ts) and the global sampling quota that
 * lives in the same class. Token levels and times are exact reals.
 */
module RateLimiting {
  import opened Wrappers

  /** The limits a configured limiter works with: `burst` is `burstSize ?? maxRequests ?? 10`. */
  datatype Limits = Limits(maxRequests: real, windowMs: real, burst: real) {
    predicate Valid() {
      0.0 < maxRequests && 0.0 < windowMs && 0.0 < burst
    }

    /** Tokens regained per millisecond. */
    function Rate(): real
      requires Valid()
    {
      maxRequests / windowMs
    }
  }

  datatype Bucket = Bucket(tokens: real, lastRefill: real)

  datatype Outcome = Outcome(allowed: bool, remaining: real, resetIn: int, fillLevel: real)

  type Buckets = map<string, Bucket>

  function Min(a: real, b: real): real {
    if a <= b then a else b
  }

  function Ceil(x: real): int {
    -((-x).Floor)
  }

  /** A level after `elapsed` milliseconds of refilling, capped at the burst size. */
  function Refilled(tokens: real, elapsed: real, maxRequests: real, windowMs: real, burst: real): real
    requires windowMs != 0.0
  {
    Min(burst, tokens + elapsed * (maxRequests / windowMs))
  }

  /** Milliseconds until a bucket at `tokens` has its next token. */
  function WaitMs(tokens: real, maxRequests: real, windowMs: real): real
    requires maxRequests != 0.0
  {
    var msPerToken := windowMs / maxRequests;
    if tokens >= 1.0 then msPerToken else msPerToken * (1.0 - tokens)
  }

  /** Tokens in a bucket once the time since its last refill has been credited. */
  function Level(l: Limits, b: Bucket, now: real): real
    requires l.Valid()
  {
    Refilled(b.tokens, now - b.lastRefill, l.maxRequests, l.windowMs, l.burst)
  }

  /** The bucket a check works on: the client's own, or a full one for a client not seen before. */
  function Found(l: Limits, bs: Buckets, client: string, now: real): Bucket {
    if client in bs then bs[client] else Bucket(l.burst, now)
  }

  function Spend(l: Limits, b: Bucket, now: real): (Bucket, Outcome)
    requires l.Valid()
  {
    var level := Level(l, b, now);
    var allowed := level >= 1.0;
    var left := if allowed then level - 1.0 else level;
    (Bucket(left, now),
     Outcome(allowed, left.Floor as real, Ceil(WaitMs(level, l.maxRequests, l.windowMs)), left / l.burst))
  }

  function Look(l: Limits, bs: Buckets, client: string, now: real): Outcome
    requires l.Valid()
  {
    if client !in bs then
      Outcome(true, l.burst, 0, 1.0)
    else
      var level := Level(l, bs[client], now);
      Outcome(level >= 1.0, level.Floor as real, Ceil(WaitMs(level, l.maxRequests, l.windowMs)), level / l.burst)
  }

  predicate Stale(l: Limits, b: Bucket, now: real) {
    now - b.lastRefill > l.windowMs * 2.0
  }

  function Swept(l: Limits, bs: Buckets, now: real): Buckets {
    map c | c in bs && !Stale(l, bs[c], now) :: bs[c]
  }

  // ----- The class

  datatype Config = Config(
    maxRequests: Option<real>,
    windowMs: Option<real>,
    burstSize: Option<real>,
    maxRoundsPerExecution: Option<nat>,
    maxTokensPerExecution: Option<nat>)

  datatype Error = NotConfigured

  /** JavaScript truthiness of an optional number. */
  predicate Truthy(x: Option<real>) {
    x.Some? && x.value != 0.0
  }

  class RateLimiter {
    const config: Config
    const burstSize: real
    var buckets: Buckets
    var roundsUsed: int
    var tokensUsed: int

    ghost predicate Configured() {
      Truthy(config.maxRequests) && Truthy(config.windowMs)
    }

    ghost function Effective(): Limits
      requires Configured()
    {
      Limits(config.maxRequests.value, config.windowMs.value, burstSize)
    }

    ghost predicate Valid() {
      Configured() ==> Effective().Valid()
    }

    /** Every configuration is accepted; the limiter is usable per client if the limits it has are positive. */
    constructor (config: Config)
      ensures this.config == config
      ensures Valid() <==>
        (Truthy(config.maxRequests) && Truthy(config.windowMs) ==>
           && 0.0 < config.maxRequests.value && 0.0 < config.windowMs.value
           && (config.burstSize.Some? ==> 0.0 < config.burstSize.value))
      ensures config.burstSize.Some? ==> burstSize == config.burstSize.value
      ensures config.burstSize.None? && config.maxRequests.Some? ==> burstSize == config.maxRequests.value
      ensures config.burstSize.None? && config.maxRequests.None? ==> burstSize == 10.0
      ensures buckets == map[] && roundsUsed == 0 && tokensUsed == 0
    {
      this.config := config;
      burstSize := if config.burstSize.Some? then config.burstSize.value
                   else if config.maxRequests.Some? then config.maxRequests.value else 10.0;
      buckets, roundsUsed, tokensUsed := map[], 0, 0;
    }

    method CheckLimit(clientId: string, now: real) returns (r: Result<Outcome, Error>)
      requires Valid()
      modifies `buckets
      ensures r.Failure? <==> !Configured()
      ensures r.Failure? ==> buckets == old(buckets)
      ensures r.Success? ==>
        var (bucket, outcome) := Spend(Effective(), Found(Effective(), old(buckets), clientId, now), now);
        buckets == old(buckets)[clientId := bucket] && r.value == outcome
    {
      if !Truthy(config.maxRequests) || !Truthy(config.windowMs) {
        return Failure(NotConfigured);
      }
      if clientId !in buckets {
        buckets := buckets[clientId := Bucket(burstSize, now)];
      }
      var bucket := buckets[clientId];
      bucket := bucket.(tokens :=
        Refilled(bucket.tokens, now - bucket.lastRefill, config.maxRequests.value, config.windowMs.value, burstSize));
      bucket := bucket.(lastRefill := now);
      var allowed := bucket.tokens >= 1.0;
      var resetIn := WaitMs(bucket.tokens, config.maxRequests.value, config.windowMs.value);
      if allowed {
        bucket := bucket.(tokens := bucket.tokens - 1.0);
      }
      buckets := buckets[clientId := bucket];
      r := Success(Outcome(allowed, bucket.tokens.Floor as real, Ceil(resetIn), bucket.tokens / burstSize));
    }

    method GetLimit(clientId: string, now: real) returns (r: Result<Outcome, Error>)
      requires Valid()
      ensures r == if Configured() then Success(Look(Effective(), buckets, clientId, now)) else Failure(NotConfigured)
    {
      if !Truthy(config.maxRequests) || !Truthy(config.windowMs) {
        return Failure(NotConfigured);
      }
      if clientId !in buckets {
        return Success(Outcome(true, burstSize, 0, 1.0));
      }
      var bucket := buckets[clientId];
      var currentTokens :=
        Refilled(bucket.tokens, now - bucket.lastRefill, config.maxRequests.value, config.windowMs.value, burstSize);
      var resetIn := WaitMs(currentTokens, config.maxRequests.value, config.windowMs.value);
      r := Success(
        Outcome(currentTokens >= 1.0, currentTokens.Floor as real, Ceil(resetIn), currentTokens / burstSize));
    }

    /** The clean-up timer's body: forget every bucket idle for more than two windows. */
    method Cleanup(now: real)
      requires Valid() && Configured()
      modifies `buckets
      ensures buckets == Swept(Effective(), old(buckets), now)
    {
      var staleThreshold := config.windowMs.value * 2.0;
      var pending := buckets.Keys;
      while pending != {}
        invariant pending <= buckets.Keys
        invariant buckets ==
                  map c | c in old(buckets) && (c in pending || !Stale(Effective(), old(buckets)[c], now)) ::
                    old(buckets)[c]
        decreases pending
      {
        var clientId :| clientId in pending;
        pending := pending - {clientId};
        if now - buckets[clientId].lastRefill > staleThreshold {
          buckets := buckets - {clientId};
        }
      }
    }

    // ----- Global quota for sampling

    method CheckRoundLimit() returns (allowed: bool)
      ensures allowed == RoundAllowed(config.maxRoundsPerExecution, roundsUsed)
    {
      if config.maxRoundsPerExecution.None? || config.maxRoundsPerExecution.value == 0 {
        return true;
      }
      allowed := roundsUsed < config.maxRoundsPerExecution.value;
    }

    method CheckTokenLimit(tokensToAdd: nat) returns (allowed: bool)
      ensures allowed == TokensAllowed(config.maxTokensPerExecution, tokensUsed, tokensToAdd)
    {
      if config.maxTokensPerExecution.None? || config.maxTokensPerExecution.value == 0 {
        return true;
      }
      allowed := tokensUsed + tokensToAdd <= config.maxTokensPerExecution.value;
    }

    method IncrementRounds()
      modifies `roundsUsed
      ensures roundsUsed == old(roundsUsed) + 1
    {
      roundsUsed := roundsUsed + 1;
    }

    method IncrementTokens(tokensToAdd: nat)
      modifies `tokensUsed
      ensures tokensUsed == old(tokensUsed) + tokensToAdd
    {
      tokensUsed := tokensUsed + tokensToAdd;
    }

    method DecrementRounds()
      modifies `roundsUsed
      ensures roundsUsed == if old(roundsUsed) == 0 then 0 else old(roundsUsed) - 1
    {
      if roundsUsed == 0 {
        return;
      }
      roundsUsed := roundsUsed - 1;
    }
  }

  predicate RoundAllowed(max: Option<nat>, used: int) {
    max.None? || max.value == 0 || used < max.value
  }

  predicate TokensAllowed(max: Option<nat>, used: int, add: nat) {
    max.None? || max.value == 0 || used + add <= max.value
  }

  /** What getQuotaRemaining reports for one counter; None is JavaScript's Infinity. */
  function QuotaRemaining(max: Option<nat>, used: int): Option<int> {
    if max.None? || max.value == 0 then None
    else Some(if max.value - used < 0 then 0 else max.value - used)
  }
}
