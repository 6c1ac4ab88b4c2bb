/**
 * The sampling quota told from the events alone: what was counted, by whom, and in which order the steps of
 * one request follow each other in handleRequest (src/core/server/sampling-bridge-server.ts).
 */
module SamplingLedger {
  import opened Wrappers
  import opened Counting
  import opened RateLimiting
  import opened SamplingQuota

  // ----- Events that took effect

  /** How many events of a kind took effect. */
  ghost function Happened(q: Quota, es: seq<Event>, kind: Event -> bool): nat {
    if es == [] then 0
    else
      var before, e := es[..|es| - 1], es[|es| - 1];
      Happened(q, before, kind) + if Enabled(After(q, before), e) && kind(e) then 1 else 0
  }

  /** The tokens request `i` reported when its stream ended or its answer came. */
  function Reported(q: Quota, es: seq<Event>, i: nat): nat {
    if es == [] then 0
    else
      var before, e := es[..|es| - 1], es[|es| - 1];
      if Enabled(After(q, before), e) && (e.EndStream? || e.Answer?) && e.i == i then e.tokens
      else Reported(q, before, i)
  }

  /** The tokens of every request whose commit took effect. */
  function CommittedTokens(q: Quota, es: seq<Event>): int {
    if es == [] then 0
    else
      var before, e := es[..|es| - 1], es[|es| - 1];
      CommittedTokens(q, before) +
      if Enabled(After(q, before), e) && (e.CommitStream? || e.CountTokens?) then Reported(q, before, e.i) else 0
  }

  /** The tokens of the recorded calls, in the order of recording. */
  function RecordedTokens(q: Quota, es: seq<Event>): seq<nat> {
    if es == [] then []
    else
      var before, e := es[..|es| - 1], es[|es| - 1];
      RecordedTokens(q, before) +
      if Enabled(After(q, before), e) && e.Record? then [Reported(q, before, e.i)] else []
  }

  ghost predicate CarriesReported(q: Quota, es: seq<Event>, s: State) {
    forall i | 0 <= i < |s.reqs| :: Carries(s.reqs[i]) ==> s.reqs[i].tokens == Reported(q, es, i)
  }

  predicate Carries(p: Phase) {
    || p.StreamEnded? || p.StreamChecked? || p.Answered? || p.AnswerChecked? || p.RoundCounted? || p.Committed?
    || p.Recorded?
  }

  lemma ReportedSnoc(q: Quota, es: seq<Event>, e: Event, i: nat)
    ensures Reported(q, es + [e], i) ==
            if Enabled(After(q, es), e) && (e.EndStream? || e.Answer?) && e.i == i then e.tokens else Reported(q, es, i)
  {
    assert (es + [e])[..|es|] == es;
  }

  lemma {:induction false} Carried(q: Quota, es: seq<Event>)
    ensures CarriesReported(q, es, After(q, es))
  {
    if es == [] {
    } else {
      var before, e := es[..|es| - 1], es[|es| - 1];
      var s, s' := After(q, before), After(q, es);
      Carried(q, before);
      forall i | 0 <= i < |s'.reqs| && Carries(s'.reqs[i]) ensures s'.reqs[i].tokens == Reported(q, es, i) {
        CarriedStep(q, s, e, i);
      }
    }
  }

  lemma CarriedStep(q: Quota, s: State, e: Event, i: nat)
    requires i < |Apply(q, s, e).reqs| && Carries(Apply(q, s, e).reqs[i])
    ensures i < |s.reqs|
    ensures if Enabled(s, e) && (e.EndStream? || e.Answer?) && e.i == i
            then Apply(q, s, e).reqs[i].tokens == e.tokens
            else Carries(s.reqs[i]) && Apply(q, s, e).reqs[i].tokens == s.reqs[i].tokens
  {
  }

  // ----- The ledger

  predicate Opens(e: Event) {
    e.OpenStream? || e.CountRound?
  }

  /** What one step does to the counters, in terms of the request's tokens. */
  lemma StepCounts(q: Quota, s: State, e: Event)
    requires RoundsConserved(s) && Enabled(s, e)
    ensures
      var s' := Apply(q, s, e);
      && s'.roundsUsed == s.roundsUsed + (if Opens(e) then 1 else 0) - (if e.RollBack? then 1 else 0)
      && s'.tokensUsed == s.tokensUsed + (if e.CommitStream? || e.CountTokens? then s.reqs[e.i].tokens else 0)
      && s'.calls == s.calls + if e.Record? then [s.reqs[e.i].tokens] else []
  {
    if e.RollBack? {
      RollBackFindsRound(s, e.i);
    }
    assert s.calls + [] == s.calls;
  }

  lemma StepAbandons(q: Quota, s: State, e: Event)
    requires Enabled(s, e)
    ensures Sum(Apply(q, s, e).reqs, AbandonedOnes) == Sum(s.reqs, AbandonedOnes) + if e.Disconnect? then 1 else 0
  {
    hide Sum;
    WeightMoves(q, s, e, AbandonedOnes);
  }

  /**
   * The ledger: the rounds used are the streams opened and the answers counted, less the roll-backs; the
   * tokens used are those reported by the requests that committed; the calls recorded are theirs, in order;
   * and the rounds kept by abandoned streams are exactly the clients that disconnected.
   */
  lemma {:induction false} Ledger(q: Quota, es: seq<Event>)
    ensures
      var s := After(q, es);
      && s.roundsUsed == Happened(q, es, Opens) - Happened(q, es, (e: Event) => e.RollBack?)
      && s.tokensUsed == CommittedTokens(q, es)
      && s.calls == RecordedTokens(q, es)
    ensures Sum(After(q, es).reqs, AbandonedOnes) == Happened(q, es, (e: Event) => e.Disconnect?)
  {
    if es == [] {
    } else {
      var before, e := es[..|es| - 1], es[|es| - 1];
      Ledger(q, before);
      Always(q, before);
      Carried(q, before);
      if Enabled(After(q, before), e) {
        StepCounts(q, After(q, before), e);
        StepAbandons(q, After(q, before), e);
      }
    }
  }

  // ----- Program order

  /** The last step request `i` took, and whether the check it made, if any, let it pass. */
  datatype Last = Last(e: Event, passed: bool)

  function LastStep(q: Quota, es: seq<Event>, i: nat): Option<Last> {
    if es == [] then None
    else
      var before, e := es[..|es| - 1], es[|es| - 1];
      var s := After(q, before);
      if !Enabled(s, e) then LastStep(q, before, i)
      else if e.CheckRounds? then
        (if i == |s.reqs| then Some(Last(e, q.maxRounds == 0 || s.roundsUsed < q.maxRounds))
         else LastStep(q, before, i))
      else if e.i != i then LastStep(q, before, i)
      else Some(Last(e, Passes(q, s, e, Reported(q, before, i))))
  }

  predicate Passes(q: Quota, s: State, e: Event, reported: nat) {
    match e
    case CheckTokens(_) => q.maxTokens == 0 || s.tokensUsed <= q.maxTokens
    case CheckStream(_) => q.maxTokens == 0 || s.tokensUsed + reported <= q.maxTokens
    case CheckAnswer(_) => q.maxTokens == 0 || s.tokensUsed + reported <= q.maxTokens
    case _ => true
  }

  /** Which step of a request may follow which: the order of the statements of handleRequest. */
  predicate Follows(last: Last, e: Event) {
    match last.e
    case CheckRounds => last.passed && e.CheckTokens?
    case CheckTokens(_) => last.passed && (e.Reject? || e.OpenStream? || e.Answer?)
    case OpenStream(_) => e.EndStream? || e.FailStream? || e.Disconnect?
    case EndStream(_, _) => e.CheckStream?
    case CheckStream(_) => if last.passed then e.CommitStream? else e.RollBack?
    case FailStream(_) => e.RollBack?
    case Answer(_, _) => e.CheckAnswer?
    case CheckAnswer(_) => last.passed && e.CountRound?
    case CountRound(_) => e.CountTokens?
    case CommitStream(_) => e.Record?
    case CountTokens(_) => e.Record?
    case Reject(_) => false
    case Disconnect(_) => false
    case RollBack(_) => false
    case Record(_) => false
  }

  /** The step is the request's next one; only a lock may still be in its way. */
  predicate Due(s: State, e: Event)
    requires !e.CheckRounds?
  {
    Enabled(s.(checkLock := None, updateLock := None), e)
  }

  /** The program counter, as the last step left it. */
  function CounterAfter(last: Last, reported: nat): Phase {
    match last.e
    case CheckRounds => if last.passed then Checking else Refused
    case CheckTokens(_) => if last.passed then Admitted else Refused
    case Reject(_) => Refused
    case OpenStream(_) => Streaming
    case EndStream(_, _) => StreamEnded(reported)
    case FailStream(_) => RollingBack
    case Disconnect(_) => Abandoned
    case CheckStream(_) => if last.passed then StreamChecked(reported) else RollingBack
    case CommitStream(_) => Committed(reported)
    case RollBack(_) => Refused
    case Answer(_, _) => Answered(reported)
    case CheckAnswer(_) => if last.passed then AnswerChecked(reported) else Refused
    case CountRound(_) => RoundCounted(reported)
    case CountTokens(_) => Committed(reported)
    case Record(_) => Recorded(reported)
  }

  lemma LastSnoc(q: Quota, es: seq<Event>, e: Event, i: nat)
    ensures
      var s := After(q, es);
      LastStep(q, es + [e], i) ==
      if !Enabled(s, e) then LastStep(q, es, i)
      else if e.CheckRounds? then
        (if i == |s.reqs| then Some(Last(e, q.maxRounds == 0 || s.roundsUsed < q.maxRounds)) else LastStep(q, es, i))
      else if e.i != i then LastStep(q, es, i)
      else Some(Last(e, Passes(q, s, e, Reported(q, es, i))))
  {
    assert (es + [e])[..|es|] == es;
  }

  ghost predicate CounterIsLast(q: Quota, es: seq<Event>, i: nat) {
    var s := After(q, es);
    if i < |s.reqs|
    then LastStep(q, es, i).Some? && s.reqs[i] == CounterAfter(LastStep(q, es, i).value, Reported(q, es, i))
    else LastStep(q, es, i).None?
  }

  lemma OwnStep(q: Quota, s: State, e: Event, reported: nat)
    requires Enabled(s, e) && !e.CheckRounds? && (Carries(s.reqs[e.i]) ==> s.reqs[e.i].tokens == reported)
    ensures
      var reported' := if e.EndStream? || e.Answer? then e.tokens else reported;
      Apply(q, s, e).reqs[e.i] == CounterAfter(Last(e, Passes(q, s, e, reported)), reported')
  {
  }

  lemma OtherStep(q: Quota, s: State, e: Event, i: nat)
    requires Enabled(s, e) && i < |s.reqs| && (e.CheckRounds? || e.i != i)
    ensures i < |Apply(q, s, e).reqs| && Apply(q, s, e).reqs[i] == s.reqs[i]
  {
  }

  lemma {:induction false} Counters(q: Quota, es: seq<Event>, i: nat)
    ensures CounterIsLast(q, es, i)
  {
    if es == [] {
    } else {
      var before, e := es[..|es| - 1], es[|es| - 1];
      var s := After(q, before);
      Counters(q, before, i);
      Carried(q, before);
      assert es == before + [e];
      LastSnoc(q, before, e, i);
      ReportedSnoc(q, before, e, i);
      AfterSnoc(q, before, e);
      hide LastStep, Reported, After;
      if Enabled(s, e) && !e.CheckRounds? && e.i == i {
        OwnStep(q, s, e, Reported(q, before, i));
        SameLength(q, s, e);
      } else if Enabled(s, e) && i < |s.reqs| {
        OtherStep(q, s, e, i);
      } else if Enabled(s, e) {
        Arrival(q, s, e);
      }
    }
  }

  lemma SameLength(q: Quota, s: State, e: Event)
    requires Enabled(s, e) && !e.CheckRounds?
    ensures |Apply(q, s, e).reqs| == |s.reqs|
  {
  }

  lemma Arrival(q: Quota, s: State, e: Event)
    requires Enabled(s, e)
    ensures |Apply(q, s, e).reqs| == |s.reqs| + if e.CheckRounds? then 1 else 0
    ensures e.CheckRounds? ==>
              Apply(q, s, e).reqs[|s.reqs|] ==
              if q.maxRounds == 0 || s.roundsUsed < q.maxRounds then Checking else Refused
  {
  }

  /**
   * Program order: in every interleaving, a step is a request's next one exactly when it follows the last
   * step the request took. In particular a stream that failed, or whose tokens did not fit, can only roll
   * back, and a client that disconnected has no step left.
   */
  lemma ProgramOrder(q: Quota, es: seq<Event>, e: Event)
    requires !e.CheckRounds?
    ensures Due(After(q, es), e) <==> LastStep(q, es, e.i).Some? && Follows(LastStep(q, es, e.i).value, e)
  {
    hide After, LastStep, Reported;
    Counters(q, es, e.i);
  }

  // ----- The locks

  /**
   * The update lock excludes: while a request holds it, no step of another request changes the rounds or the
   * tokens counted; and while a request holds the check lock, nobody else passes the round check.
   */
  lemma LocksExclude(q: Quota, es: seq<Event>, e: Event, holder: nat)
    ensures
      var s, s' := After(q, es), After(q, es + [e]);
      && (s.updateLock == Some(holder) && (e.CheckRounds? || e.i != holder) ==>
            s'.roundsUsed == s.roundsUsed && s'.tokensUsed == s.tokensUsed && s'.updateLock == Some(holder))
      && (s.checkLock == Some(holder) && (e.CheckRounds? || e.i != holder) ==>
            |s'.reqs| == |s.reqs| && s'.checkLock == Some(holder))
  {
    Always(q, es);
    AfterSnoc(q, es, e);
    hide After;
  }

  // ----- What a request costs from its first step to its last

  predicate SameCounters(s: State, s': State) {
    s'.roundsUsed == s.roundsUsed && s'.tokensUsed == s.tokensUsed && s'.calls == s.calls
  }

  function Then(q: Quota, s: State, es: seq<Event>): State
    decreases |es|
  {
    if es == [] then s else Then(q, Apply(q, s, es[0]), es[1..])
  }

  lemma {:induction false} AfterThen(q: Quota, es: seq<Event>, more: seq<Event>)
    ensures After(q, es + more) == Then(q, After(q, es), more)
    decreases |more|
  {
    hide After, Apply;
    if more == [] {
      assert es + more == es;
    } else {
      AfterSnoc(q, es, more[0]);
      AfterThen(q, es + [more[0]], more[1..]);
      assert es + more == es + [more[0]] + more[1..];
    }
  }

  /** A stream that fails, with the update lock free, gives back its round: first by one, then all it had taken. */
  lemma FailedStream(q: Quota, es: seq<Event>, i: nat)
    requires Enabled(After(q, es), FailStream(i)) && After(q, es).updateLock.None?
    ensures
      var s, s' := After(q, es), After(q, es + [FailStream(i)] + [RollBack(i)]);
      s'.roundsUsed == s.roundsUsed - 1 && s'.tokensUsed == s.tokensUsed && s'.calls == s.calls
  {
    Always(q, es + [FailStream(i)]);
    AfterSnoc(q, es, FailStream(i));
    AfterSnoc(q, es + [FailStream(i)], RollBack(i));
    hide After;
    RollBackFindsRound(After(q, es + [FailStream(i)]), i);
  }

  /** A stream whose tokens fit costs one round and its tokens, and is recorded; one whose tokens do not, nothing. */
  lemma StreamCosts(q: Quota, es: seq<Event>, i: nat, n: nat)
    requires Enabled(After(q, es), OpenStream(i))
    ensures
      var s := After(q, es);
      var fits := q.maxTokens == 0 || s.tokensUsed + n <= q.maxTokens;
      var script := [OpenStream(i), EndStream(i, n), CheckStream(i)] +
                    if fits then [CommitStream(i), Record(i)] else [RollBack(i)];
      var s' := After(q, es + script);
      && s'.updateLock == s.updateLock
      && if fits
         then s'.roundsUsed == s.roundsUsed + 1 && s'.tokensUsed == s.tokensUsed + n && s'.calls == s.calls + [n]
         else SameCounters(s, s')
  {
    var s := After(q, es);
    Always(q, es);
    RecordedAtMostUsed(s);
    var fits := q.maxTokens == 0 || s.tokensUsed + n <= q.maxTokens;
    var script := [OpenStream(i), EndStream(i, n), CheckStream(i)] +
                  if fits then [CommitStream(i), Record(i)] else [RollBack(i)];
    AfterThen(q, es, script);
    StreamEnds(q, s, i, n);
    hide After, RoundsConserved, Apply;
    ThenThree(q, s, script);
    var s3 := Apply(q, Apply(q, Apply(q, s, OpenStream(i)), EndStream(i, n)), CheckStream(i));
    if fits {
      ThenTwo(q, s3, script[3..]);
      Commits(q, s3, i);
    } else {
      ThenOne(q, s3, script[3..]);
      RollsBack(q, s3, i);
    }
  }

  lemma StreamEnds(q: Quota, s: State, i: nat, n: nat)
    requires Enabled(s, OpenStream(i))
    ensures
      var s' := Apply(q, Apply(q, Apply(q, s, OpenStream(i)), EndStream(i, n)), CheckStream(i));
      && s'.roundsUsed == s.roundsUsed + 1 && s'.tokensUsed == s.tokensUsed && s'.calls == s.calls
      && i < |s'.reqs| && s.updateLock.None?
      && if q.maxTokens == 0 || s.tokensUsed + n <= q.maxTokens
         then s'.reqs[i] == StreamChecked(n) && s'.updateLock == Some(i)
         else s'.reqs[i] == RollingBack && s'.updateLock.None?
  {
  }

  lemma Commits(q: Quota, s: State, i: nat)
    requires i < |s.reqs| && s.reqs[i].StreamChecked?
    ensures
      var s' := Apply(q, Apply(q, s, CommitStream(i)), Record(i));
      && s'.roundsUsed == s.roundsUsed && s'.tokensUsed == s.tokensUsed + s.reqs[i].tokens
      && s'.calls == s.calls + [s.reqs[i].tokens] && s'.updateLock.None?
  {
  }

  lemma RollsBack(q: Quota, s: State, i: nat)
    requires i < |s.reqs| && s.reqs[i].RollingBack? && s.updateLock.None? && s.roundsUsed >= 1
    ensures
      var s' := Apply(q, s, RollBack(i));
      && s'.roundsUsed == s.roundsUsed - 1 && s'.tokensUsed == s.tokensUsed && s'.calls == s.calls
      && s'.updateLock.None?
  {
  }

  lemma RecordedAtMostUsed(s: State)
    requires RoundsConserved(s)
    ensures s.roundsUsed >= 0
  {
    SumNonNegative(s.reqs, OpenStreams);
    SumNonNegative(s.reqs, Unrecorded);
    SumNonNegative(s.reqs, AbandonedOnes);
  }

  lemma ThenOne(q: Quota, s: State, es: seq<Event>)
    requires |es| == 1
    ensures Then(q, s, es) == Apply(q, s, es[0])
  {
    assert es[1..] == [];
  }

  lemma ThenTwo(q: Quota, s: State, es: seq<Event>)
    requires |es| == 2
    ensures Then(q, s, es) == Apply(q, Apply(q, s, es[0]), es[1])
  {
    ThenOne(q, Apply(q, s, es[0]), es[1..]);
  }

  lemma ThenThree(q: Quota, s: State, es: seq<Event>)
    requires |es| >= 3
    ensures Then(q, s, es) == Then(q, Apply(q, Apply(q, Apply(q, s, es[0]), es[1]), es[2]), es[3..])
  {
    assert es[1..][1..][1..] == es[3..];
    assert Then(q, s, es) == Then(q, Apply(q, s, es[0]), es[1..]);
    assert Then(q, Apply(q, s, es[0]), es[1..]) == Then(q, Apply(q, Apply(q, s, es[0]), es[1]), es[1..][1..]);
  }

  /** An answer without streaming costs one round and its tokens, and is recorded; if they do not fit, nothing. */
  lemma AnswerCosts(q: Quota, es: seq<Event>, i: nat, n: nat)
    requires After(q, es).updateLock.None? && Enabled(After(q, es), Answer(i, n))
    ensures
      var s := After(q, es);
      var fits := q.maxTokens == 0 || s.tokensUsed + n <= q.maxTokens;
      var script := [Answer(i, n), CheckAnswer(i)] + if fits then [CountRound(i), CountTokens(i), Record(i)] else [];
      var s' := After(q, es + script);
      && s'.updateLock == s.updateLock
      && if fits
         then s'.roundsUsed == s.roundsUsed + 1 && s'.tokensUsed == s.tokensUsed + n && s'.calls == s.calls + [n]
         else SameCounters(s, s')
  {
    var s := After(q, es);
    var fits := q.maxTokens == 0 || s.tokensUsed + n <= q.maxTokens;
    var script := [Answer(i, n), CheckAnswer(i)] + if fits then [CountRound(i), CountTokens(i), Record(i)] else [];
    AfterThen(q, es, script);
    AnswerEnds(q, s, i, n);
    hide After, Apply;
    if fits {
      ThenThree(q, s, script);
      ThenTwo(q, Apply(q, Apply(q, Apply(q, s, script[0]), script[1]), script[2]), script[3..]);
    } else {
      ThenTwo(q, s, script);
    }
  }

  lemma AnswerEnds(q: Quota, s: State, i: nat, n: nat)
    requires s.updateLock.None? && Enabled(s, Answer(i, n))
    ensures
      var fits := q.maxTokens == 0 || s.tokensUsed + n <= q.maxTokens;
      var checked := Apply(q, Apply(q, s, Answer(i, n)), CheckAnswer(i));
      var s' := Apply(q, Apply(q, Apply(q, checked, CountRound(i)), CountTokens(i)), Record(i));
      if fits
      then s'.roundsUsed == s.roundsUsed + 1 && s'.tokensUsed == s.tokensUsed + n && s'.calls == s.calls + [n]
           && s'.updateLock.None?
      else SameCounters(s, checked) && checked.updateLock.None?
  {
  }
}
