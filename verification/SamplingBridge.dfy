/**
 * The bridge server's own state (src/core/server/sampling-bridge-server.ts), changed in place: each
 * method is the code of one lock section, or of one limiter call within a section. The ghost history is
 * the run of the quota protocol performed so far; the server's counters are always those of that run, so
 * what is proved about every run holds of the server.
 */
module SamplingBridge {
  import opened Wrappers
  import opened Counting
  import opened RateLimiting
  import opened SamplingQuota

  datatype Remaining = Remaining(rounds: Option<int>, tokens: Option<int>)

  datatype SamplingMetrics = SamplingMetrics(
    totalRounds: int,
    totalTokens: int,
    totalDurationMs: int,
    averageTokensPerRound: real,
    quotaRemaining: Remaining)

  const DEFAULT_QUOTA := Quota(10, 10000)

  function Average(tokens: int, rounds: int): (a: real)
    ensures rounds > 0 ==> a * rounds as real == tokens as real
    ensures rounds == 0 ==> a == 0.0
  {
    if rounds > 0 then tokens as real / rounds as real else 0.0
  }

  class SamplingBridgeServer {
    const rateLimiter: RateLimiter
    const quota: Quota
    const startTime: int
    var samplingCalls: seq<nat>
    ghost var history: seq<Event>

    /** Where the protocol stands: counters, locks, and the program counter of every request. */
    ghost function Protocol(): State
      reads this
    {
      After(quota, history)
    }

    ghost predicate Valid()
      reads this, rateLimiter
    {
      && rateLimiter.config.maxRoundsPerExecution == Some(quota.maxRounds)
      && rateLimiter.config.maxTokensPerExecution == Some(quota.maxTokens)
      && rateLimiter.roundsUsed == Protocol().roundsUsed
      && rateLimiter.tokensUsed == Protocol().tokensUsed
      && samplingCalls == Protocol().calls
    }

    constructor (config: Option<Quota>, now: int)
      ensures Valid() && fresh(rateLimiter) && startTime == now && history == []
      ensures quota == if config.Some? then config.value else DEFAULT_QUOTA
      ensures rateLimiter.roundsUsed == rateLimiter.tokensUsed == 0 && samplingCalls == []
    {
      var q := if config.Some? then config.value else DEFAULT_QUOTA;
      quota := q;
      startTime := now;
      rateLimiter := new RateLimiter(Config(None, None, None, Some(q.maxRounds), Some(q.maxTokens)));
      samplingCalls, history := [], [];
    }

    /** First half of the quota check: a new request asks for a round, and keeps the check lock if it may have one. */
    method QuotaCheckRounds() returns (exceeded: bool)
      requires Valid() && Enabled(Protocol(), CheckRounds)
      modifies this
      ensures Valid() && history == old(history) + [CheckRounds]
      ensures exceeded <==> quota.maxRounds > 0 && old(Protocol()).roundsUsed >= quota.maxRounds
      ensures var i := |old(Protocol()).reqs|; Protocol().reqs[i] == if exceeded then Refused else Checking
    {
      AfterSnoc(quota, history, CheckRounds);
      var allowed := rateLimiter.CheckRoundLimit();
      exceeded := !allowed;
      history := history + [CheckRounds];
    }

    /** Second half of the quota check: with a token limit set it never refuses. */
    method QuotaCheckTokens(ghost i: nat) returns (exceeded: bool)
      requires Valid() && Enabled(Protocol(), CheckTokens(i))
      modifies this
      ensures Valid() && history == old(history) + [CheckTokens(i)]
      ensures !exceeded && Protocol().reqs[i] == Admitted
    {
      AfterSnoc(quota, history, CheckTokens(i));
      UpfrontCheckPasses(quota, history);
      var allowed := rateLimiter.CheckTokenLimit(0);
      exceeded := !allowed;
      history := history + [CheckTokens(i)];
    }

    method StartStream(ghost i: nat)
      requires Valid() && Enabled(Protocol(), OpenStream(i))
      modifies this, rateLimiter
      ensures Valid() && history == old(history) + [OpenStream(i)]
      ensures rateLimiter.roundsUsed == old(rateLimiter.roundsUsed) + 1
      ensures RoundsBounded()
    {
      AfterSnoc(quota, history, OpenStream(i));
      rateLimiter.IncrementRounds();
      history := history + [OpenStream(i)];
      BoundsHold();
    }

    /** The end of a stream: its tokens are checked, and on refusal the round is to be rolled back. */
    method CheckStreamTokens(ghost i: nat, tokensUsed: nat) returns (exceeded: bool)
      requires Valid() && Enabled(Protocol(), CheckStream(i)) && tokensUsed == Protocol().reqs[i].tokens
      modifies this
      ensures Valid() && history == old(history) + [CheckStream(i)]
      ensures exceeded <==> quota.maxTokens > 0 && rateLimiter.tokensUsed + tokensUsed > quota.maxTokens
      ensures Protocol().reqs[i] == if exceeded then RollingBack else StreamChecked(tokensUsed)
    {
      AfterSnoc(quota, history, CheckStream(i));
      var allowed := rateLimiter.CheckTokenLimit(tokensUsed);
      exceeded := !allowed;
      history := history + [CheckStream(i)];
    }

    method CommitStreamTokens(ghost i: nat, tokensUsed: nat)
      requires Valid() && Enabled(Protocol(), CommitStream(i)) && tokensUsed == Protocol().reqs[i].tokens
      modifies this, rateLimiter
      ensures Valid() && history == old(history) + [CommitStream(i)]
      ensures rateLimiter.tokensUsed == old(rateLimiter.tokensUsed) + tokensUsed
      ensures quota.maxTokens >= 1 ==> rateLimiter.tokensUsed <= quota.maxTokens
    {
      AfterSnoc(quota, history, CommitStream(i));
      rateLimiter.IncrementTokens(tokensUsed);
      history := history + [CommitStream(i)];
      BoundsHold();
    }

    /** Takes back exactly the round this stream counted. */
    method RollBackRound(ghost i: nat)
      requires Valid() && Enabled(Protocol(), RollBack(i))
      modifies this, rateLimiter
      ensures Valid() && history == old(history) + [RollBack(i)]
      ensures rateLimiter.roundsUsed == old(rateLimiter.roundsUsed) - 1
    {
      AfterSnoc(quota, history, RollBack(i));
      Always(quota, history);
      RollBackFindsRound(Protocol(), i);
      rateLimiter.DecrementRounds();
      history := history + [RollBack(i)];
    }

    /** The answer of a non-streaming call: its tokens are checked before anything is counted. */
    method CheckAnswerTokens(ghost i: nat, tokensUsed: nat) returns (exceeded: bool)
      requires Valid() && Enabled(Protocol(), CheckAnswer(i)) && tokensUsed == Protocol().reqs[i].tokens
      modifies this
      ensures Valid() && history == old(history) + [CheckAnswer(i)]
      ensures exceeded <==> quota.maxTokens > 0 && rateLimiter.tokensUsed + tokensUsed > quota.maxTokens
      ensures Protocol().reqs[i] == if exceeded then Refused else AnswerChecked(tokensUsed)
    {
      AfterSnoc(quota, history, CheckAnswer(i));
      var allowed := rateLimiter.CheckTokenLimit(tokensUsed);
      exceeded := !allowed;
      history := history + [CheckAnswer(i)];
    }

    method CommitAnswerRound(ghost i: nat)
      requires Valid() && Enabled(Protocol(), CountRound(i))
      modifies this, rateLimiter
      ensures Valid() && history == old(history) + [CountRound(i)]
      ensures rateLimiter.roundsUsed == old(rateLimiter.roundsUsed) + 1
      ensures RoundsBounded()
    {
      AfterSnoc(quota, history, CountRound(i));
      rateLimiter.IncrementRounds();
      history := history + [CountRound(i)];
      BoundsHold();
    }

    method CommitAnswerTokens(ghost i: nat, tokensUsed: nat)
      requires Valid() && Enabled(Protocol(), CountTokens(i)) && tokensUsed == Protocol().reqs[i].tokens
      modifies this, rateLimiter
      ensures Valid() && history == old(history) + [CountTokens(i)]
      ensures rateLimiter.tokensUsed == old(rateLimiter.tokensUsed) + tokensUsed
      ensures quota.maxTokens >= 1 ==> rateLimiter.tokensUsed <= quota.maxTokens
    {
      AfterSnoc(quota, history, CountTokens(i));
      rateLimiter.IncrementTokens(tokensUsed);
      history := history + [CountTokens(i)];
      BoundsHold();
    }

    /** A call is recorded after its round and its tokens were counted: there are never more calls than rounds. */
    method RecordCall(ghost i: nat, tokensUsed: nat)
      requires Valid() && Enabled(Protocol(), Record(i)) && tokensUsed == Protocol().reqs[i].tokens
      modifies this
      ensures Valid() && history == old(history) + [Record(i)]
      ensures samplingCalls == old(samplingCalls) + [tokensUsed]
      ensures |samplingCalls| <= rateLimiter.roundsUsed && Total(samplingCalls) <= rateLimiter.tokensUsed
    {
      AfterSnoc(quota, history, Record(i));
      samplingCalls := samplingCalls + [tokensUsed];
      history := history + [Record(i)];
      RecordedWithin(quota, history);
    }

    /** Steps of client and provider, which touch no field of the server. */
    ghost method Environment(e: Event)
      requires Valid() && Enabled(Protocol(), e)
      requires e.Reject? || e.Answer? || e.EndStream? || e.FailStream? || e.Disconnect?
      modifies this`history
      ensures Valid() && history == old(history) + [e]
    {
      AfterSnoc(quota, history, e);
      history := history + [e];
    }

    /** With at most `k` requests at once between check and count, the rounds stay within the limit plus k - 1. */
    ghost predicate RoundsBounded()
      reads this, rateLimiter
    {
      quota.maxRounds >= 1 ==>
        forall k: nat | AtMostUncounted(quota, history, k) ::
          0 <= rateLimiter.roundsUsed <= quota.maxRounds + k - 1
    }

    lemma BoundsHold()
      requires Valid()
      ensures RoundsBounded()
      ensures 0 <= rateLimiter.tokensUsed && (quota.maxTokens >= 1 ==> rateLimiter.tokensUsed <= quota.maxTokens)
    {
      Always(quota, history);
      if quota.maxRounds >= 1 {
        forall k: nat | AtMostUncounted(quota, history, k)
          ensures 0 <= rateLimiter.roundsUsed <= quota.maxRounds + k - 1
        {
          RoundsBound(quota, history, k);
        }
      }
    }

    /** The metrics reported to the client; used and remaining tokens always add up to the limit. */
    method GetSamplingMetrics(now: int) returns (m: SamplingMetrics)
      requires Valid()
      ensures m.totalRounds == Protocol().roundsUsed && m.totalTokens == Protocol().tokensUsed
      ensures m.totalDurationMs == now - startTime
      ensures quota.maxTokens >= 1 ==>
                0 <= m.totalTokens <= quota.maxTokens
                && m.quotaRemaining.tokens == Some(quota.maxTokens - m.totalTokens)
      ensures quota.maxRounds >= 1 ==>
                m.quotaRemaining.rounds.Some?
                && m.quotaRemaining.rounds.value + m.totalRounds ==
                   if m.totalRounds <= quota.maxRounds then quota.maxRounds else m.totalRounds
      ensures RoundsBounded()
      ensures m.totalRounds > 0 ==> m.averageTokensPerRound * m.totalRounds as real == m.totalTokens as real
      ensures m.totalRounds == 0 ==> m.averageTokensPerRound == 0.0
    {
      hide After, Average;
      BoundsHold();
      RoundsNeverNegative(quota, history);
      var totalRounds, totalTokens := rateLimiter.roundsUsed, rateLimiter.tokensUsed;
      var quotaRemaining := Remaining(
        QuotaRemaining(rateLimiter.config.maxRoundsPerExecution, totalRounds),
        QuotaRemaining(rateLimiter.config.maxTokensPerExecution, totalTokens));
      m := SamplingMetrics(
        totalRounds, totalTokens, now - startTime, Average(totalTokens, totalRounds), quotaRemaining);
    }
  }

  lemma UpfrontCheckPasses(q: Quota, es: seq<Event>)
    ensures TokensAllowed(Some(q.maxTokens), After(q, es).tokensUsed, 0)
  {
    Always(q, es);
  }

  lemma RoundsNeverNegative(q: Quota, es: seq<Event>)
    ensures 0 <= After(q, es).roundsUsed
  {
    RecordedWithin(q, es);
  }

  /** The calls recorded are among those counted. */
  lemma RecordedWithin(q: Quota, es: seq<Event>)
    ensures |After(q, es).calls| <= After(q, es).roundsUsed
    ensures Total(After(q, es).calls) <= After(q, es).tokensUsed
  {
    hide After, Sum, Apply;
    var s := After(q, es);
    Always(q, es);
    SumNonNegative(s.reqs, OpenStreams);
    SumNonNegative(s.reqs, Unrecorded);
    SumNonNegative(s.reqs, AbandonedOnes);
    SumNonNegative(s.reqs, UnrecordedTokens);
  }
}
