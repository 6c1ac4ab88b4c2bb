/**
 * The sampling quota protocol of SamplingBridgeServer.handleRequest
 * (src/core/server/sampling-bridge-server.ts). Every request is a program counter; a step is what one
 * request does between two awaits. The quota check and the counter updates use two different locks, so
 * they may interleave, and the updates themselves are several awaited calls under one lock.
 */
module SamplingQuota {
  import opened Wrappers
  import opened RateLimiting
  import opened Counting

  /** maxRoundsPerExecution and maxTokensPerExecution; zero means unlimited. */
  datatype Quota = Quota(maxRounds: nat, maxTokens: nat)

  datatype Phase =
    | Checking                        // round check passed; holds the check lock, token check to come
    | Admitted                        // past the quota check
    | Streaming                       // round counted, chunks flowing
    | StreamEnded(tokens: nat)        // waiting for the update lock
    | StreamChecked(tokens: nat)      // tokens fit; holds the update lock
    | RollingBack                     // stream failed or its tokens do not fit; round still counted
    | Answered(tokens: nat)           // LLM answered without streaming; waiting for the update lock
    | AnswerChecked(tokens: nat)      // tokens fit; holds the update lock
    | RoundCounted(tokens: nat)       // round counted; still holds the update lock
    | Committed(tokens: nat)          // round and tokens counted, call not yet recorded
    | Recorded(tokens: nat)
    | Abandoned                       // client gone in mid-stream: returns without rolling back
    | Refused

  datatype State = State(
    roundsUsed: int,
    tokensUsed: int,
    checkLock: Option<nat>,
    updateLock: Option<nat>,
    calls: seq<nat>,
    reqs: seq<Phase>)

  datatype Event =
    | CheckRounds
    | CheckTokens(i: nat)
    | Reject(i: nat)
    | OpenStream(i: nat)
    | EndStream(i: nat, tokens: nat)
    | FailStream(i: nat)
    | Disconnect(i: nat)
    | CheckStream(i: nat)
    | CommitStream(i: nat)
    | RollBack(i: nat)
    | Answer(i: nat, tokens: nat)
    | CheckAnswer(i: nat)
    | CountRound(i: nat)
    | CountTokens(i: nat)
    | Record(i: nat)

  const INIT := State(0, 0, None, None, [], [])

  predicate Enabled(s: State, e: Event) {
    match e
    case CheckRounds => s.checkLock.None?
    case CheckTokens(i) => i < |s.reqs| && s.reqs[i].Checking?
    case Reject(i) => i < |s.reqs| && s.reqs[i].Admitted?
    case OpenStream(i) => i < |s.reqs| && s.reqs[i].Admitted? && s.updateLock.None?
    case EndStream(i, _) => i < |s.reqs| && s.reqs[i].Streaming?
    case FailStream(i) => i < |s.reqs| && s.reqs[i].Streaming?
    case Disconnect(i) => i < |s.reqs| && s.reqs[i].Streaming?
    case CheckStream(i) => i < |s.reqs| && s.reqs[i].StreamEnded? && s.updateLock.None?
    case CommitStream(i) => i < |s.reqs| && s.reqs[i].StreamChecked?
    case RollBack(i) => i < |s.reqs| && s.reqs[i].RollingBack? && s.updateLock.None?
    case Answer(i, _) => i < |s.reqs| && s.reqs[i].Admitted?
    case CheckAnswer(i) => i < |s.reqs| && s.reqs[i].Answered? && s.updateLock.None?
    case CountRound(i) => i < |s.reqs| && s.reqs[i].AnswerChecked?
    case CountTokens(i) => i < |s.reqs| && s.reqs[i].RoundCounted?
    case Record(i) => i < |s.reqs| && s.reqs[i].Committed?
  }

  /** One step; an event that is not enabled does nothing, so every event sequence is an interleaving. */
  function Apply(q: Quota, s: State, e: Event): State {
    if !Enabled(s, e) then s else
    match e
    case CheckRounds =>
      if RoundAllowed(Some(q.maxRounds), s.roundsUsed)
      then s.(reqs := s.reqs + [Checking], checkLock := Some(|s.reqs|))
      else s.(reqs := s.reqs + [Refused])
    case CheckTokens(i) =>
      s.(checkLock := None,
         reqs := s.reqs[i := if TokensAllowed(Some(q.maxTokens), s.tokensUsed, 0) then Admitted else Refused])
    case Reject(i) => s.(reqs := s.reqs[i := Refused])
    case OpenStream(i) => s.(roundsUsed := s.roundsUsed + 1, reqs := s.reqs[i := Streaming])
    case EndStream(i, n) => s.(reqs := s.reqs[i := StreamEnded(n)])
    case FailStream(i) => s.(reqs := s.reqs[i := RollingBack])
    case Disconnect(i) => s.(reqs := s.reqs[i := Abandoned])
    case CheckStream(i) =>
      var n := s.reqs[i].tokens;
      if TokensAllowed(Some(q.maxTokens), s.tokensUsed, n)
      then s.(updateLock := Some(i), reqs := s.reqs[i := StreamChecked(n)])
      else s.(reqs := s.reqs[i := RollingBack])
    case CommitStream(i) =>
      var n := s.reqs[i].tokens;
      s.(tokensUsed := s.tokensUsed + n, updateLock := None, reqs := s.reqs[i := Committed(n)])
    case RollBack(i) =>
      s.(roundsUsed := if s.roundsUsed == 0 then 0 else s.roundsUsed - 1, reqs := s.reqs[i := Refused])
    case Answer(i, n) => s.(reqs := s.reqs[i := Answered(n)])
    case CheckAnswer(i) =>
      var n := s.reqs[i].tokens;
      if TokensAllowed(Some(q.maxTokens), s.tokensUsed, n)
      then s.(updateLock := Some(i), reqs := s.reqs[i := AnswerChecked(n)])
      else s.(reqs := s.reqs[i := Refused])
    case CountRound(i) => s.(roundsUsed := s.roundsUsed + 1, reqs := s.reqs[i := RoundCounted(s.reqs[i].tokens)])
    case CountTokens(i) =>
      var n := s.reqs[i].tokens;
      s.(tokensUsed := s.tokensUsed + n, updateLock := None, reqs := s.reqs[i := Committed(n)])
    case Record(i) => s.(calls := s.calls + [s.reqs[i].tokens], reqs := s.reqs[i := Recorded(s.reqs[i].tokens)])
  }

  function After(q: Quota, es: seq<Event>): State {
    if es == [] then INIT else Apply(q, After(q, es[..|es| - 1]), es[|es| - 1])
  }

  lemma AfterSnoc(q: Quota, es: seq<Event>, e: Event)
    ensures After(q, es + [e]) == Apply(q, After(q, es), e)
  {
    assert (es + [e])[..|es|] == es;
  }

  // ----- What each phase stands for

  function OpenStreams(p: Phase): int {
    if p.Streaming? || p.StreamEnded? || p.StreamChecked? || p.RollingBack? then 1 else 0
  }

  /** Rounds of calls on their way to being recorded. */
  function Unrecorded(p: Phase): int {
    if p.RoundCounted? || p.Committed? then 1 else 0
  }

  function UnrecordedTokens(p: Phase): int {
    if p.Committed? then p.tokens else 0
  }

  function AbandonedOnes(p: Phase): int {
    if p.Abandoned? then 1 else 0
  }

  /** Past the round check, round not counted yet. */
  function RoundsToCome(p: Phase): int {
    if p.Checking? || p.Admitted? || p.Answered? || p.AnswerChecked? then 1 else 0
  }

  /** Past the round check and not settled. */
  function InFlight(p: Phase): int {
    if p.Recorded? || p.Abandoned? || p.Refused? then 0 else 1
  }

  predicate HoldsUpdateLock(p: Phase) {
    p.StreamChecked? || p.AnswerChecked? || p.RoundCounted?
  }

  function Total(calls: seq<nat>): int {
    Sum(calls, n => n)
  }

  // ----- What every step keeps

  ghost predicate LocksHeld(s: State) {
    && (forall i | 0 <= i < |s.reqs| :: HoldsUpdateLock(s.reqs[i]) <==> s.updateLock == Some(i))
    && (forall i | 0 <= i < |s.reqs| :: s.reqs[i].Checking? <==> s.checkLock == Some(i))
    && (s.updateLock.Some? ==> s.updateLock.value < |s.reqs|)
    && (s.checkLock.Some? ==> s.checkLock.value < |s.reqs|)
  }

  ghost predicate RoundsConserved(s: State) {
    s.roundsUsed ==
    |s.calls| + Sum(s.reqs, OpenStreams) + Sum(s.reqs, Unrecorded) + Sum(s.reqs, AbandonedOnes)
  }

  ghost predicate TokensConserved(s: State) {
    s.tokensUsed == Total(s.calls) + Sum(s.reqs, UnrecordedTokens)
  }

  /** Whoever holds the update lock has been promised its tokens. */
  ghost predicate TokensWithin(q: Quota, s: State) {
    && 0 <= s.tokensUsed
    && (q.maxTokens > 0 ==>
          && s.tokensUsed <= q.maxTokens
          && (s.updateLock.Some? && s.updateLock.value < |s.reqs| && HoldsUpdateLock(s.reqs[s.updateLock.value])
              ==> s.tokensUsed + s.reqs[s.updateLock.value].tokens <= q.maxTokens))
  }

  ghost predicate Inv(q: Quota, s: State) {
    LocksHeld(s) && RoundsConserved(s) && TokensConserved(s) && TokensWithin(q, s)
  }

  /** How a step moves one weight: only the request it concerns changes phase. */
  lemma WeightMoves(q: Quota, s: State, e: Event, weight: Phase -> int)
    requires Enabled(s, e)
    ensures
      var s' := Apply(q, s, e);
      if e.CheckRounds? then Sum(s'.reqs, weight) == Sum(s.reqs, weight) + weight(s'.reqs[|s.reqs|])
      else Sum(s'.reqs, weight) == Sum(s.reqs, weight) - weight(s.reqs[e.i]) + weight(s'.reqs[e.i])
  {
    var s' := Apply(q, s, e);
    if e.CheckRounds? {
      SumAppend(s.reqs, s'.reqs[|s.reqs|], weight);
    } else {
      SumUpdate(s.reqs, e.i, s'.reqs[e.i], weight);
      assert s'.reqs == s.reqs[e.i := s'.reqs[e.i]];
    }
  }

  /** A request that takes or gives back a lock for itself keeps the locks accounted for. */
  lemma LocksMove(s: State, s': State, i: nat)
    requires LocksHeld(s) && i < |s.reqs| == |s'.reqs| && s'.reqs == s.reqs[i := s'.reqs[i]]
    requires HoldsUpdateLock(s'.reqs[i]) <==> s'.updateLock == Some(i)
    requires s'.updateLock == s.updateLock || {s.updateLock, s'.updateLock} == {None, Some(i)}
    requires s'.reqs[i].Checking? <==> s'.checkLock == Some(i)
    requires s'.checkLock == s.checkLock || {s.checkLock, s'.checkLock} == {None, Some(i)}
    ensures LocksHeld(s')
  {
    assert s.updateLock in {s.updateLock, s'.updateLock} && s'.updateLock in {s.updateLock, s'.updateLock};
    assert s.checkLock in {s.checkLock, s'.checkLock} && s'.checkLock in {s.checkLock, s'.checkLock};
    forall j | 0 <= j < |s'.reqs|
      ensures HoldsUpdateLock(s'.reqs[j]) <==> s'.updateLock == Some(j)
      ensures s'.reqs[j].Checking? <==> s'.checkLock == Some(j)
    {
      if j != i {
        assert s'.reqs[j] == s.reqs[j];
      }
    }
  }

  lemma LocksKept(q: Quota, s: State, e: Event)
    requires LocksHeld(s)
    ensures LocksHeld(Apply(q, s, e))
  {
    if Enabled(s, e) {
      if e.CheckRounds? {
        ArrivalKeepsLocks(q, s);
      } else {
        assert HoldsUpdateLock(s.reqs[e.i]) <==> s.updateLock == Some(e.i);
        LocksMove(s, Apply(q, s, e), e.i);
      }
    }
  }

  lemma ArrivalKeepsLocks(q: Quota, s: State)
    requires LocksHeld(s) && s.checkLock.None?
    ensures LocksHeld(Apply(q, s, CheckRounds))
  {
  }

  /** A roll-back always finds its own round still counted: decrementRounds is never reached at zero. */
  lemma RollBackFindsRound(s: State, i: nat)
    requires RoundsConserved(s) && Enabled(s, RollBack(i))
    ensures s.roundsUsed >= 1
  {
    SumAtLeast(s.reqs, i, OpenStreams);
    SumNonNegative(s.reqs, Unrecorded);
    SumNonNegative(s.reqs, AbandonedOnes);
  }

  lemma RoundsKept(q: Quota, s: State, e: Event)
    requires RoundsConserved(s)
    ensures RoundsConserved(Apply(q, s, e))
  {
    hide Sum;
    if Enabled(s, e) {
      WeightMoves(q, s, e, OpenStreams);
      WeightMoves(q, s, e, Unrecorded);
      WeightMoves(q, s, e, AbandonedOnes);
      if e.RollBack? {
        RollBackFindsRound(s, e.i);
      }
    }
  }

  lemma TokensKept(q: Quota, s: State, e: Event)
    requires TokensConserved(s)
    ensures TokensConserved(Apply(q, s, e))
  {
    if Enabled(s, e) {
      WeightMoves(q, s, e, UnrecordedTokens);
      if e.Record? {
        SumAppend(s.calls, s.reqs[e.i].tokens, n => n);
      }
    }
  }

  lemma TokensWithinKept(q: Quota, s: State, e: Event)
    requires LocksHeld(s) && TokensWithin(q, s)
    ensures TokensWithin(q, Apply(q, s, e))
  {
  }

  lemma {:induction false} Always(q: Quota, es: seq<Event>)
    ensures Inv(q, After(q, es))
  {
    if es == [] {
    } else {
      var before, e := es[..|es| - 1], es[|es| - 1];
      Always(q, before);
      LocksKept(q, After(q, before), e);
      RoundsKept(q, After(q, before), e);
      TokensKept(q, After(q, before), e);
      TokensWithinKept(q, After(q, before), e);
    }
  }

  // ----- Tokens

  /**
   * Token quota: in every interleaving the tokens used stay within the limit, what is reported as
   * remaining is exactly the rest, and the check made before the LLM is called never refuses.
   */
  lemma TokenQuota(q: Quota, es: seq<Event>)
    requires q.maxTokens >= 1
    ensures
      var s := After(q, es);
      && 0 <= s.tokensUsed <= q.maxTokens
      && QuotaRemaining(Some(q.maxTokens), s.tokensUsed) == Some(q.maxTokens - s.tokensUsed)
      && TokensAllowed(Some(q.maxTokens), s.tokensUsed, 0)
      && forall i: nat | Enabled(s, CheckTokens(i)) :: Apply(q, s, CheckTokens(i)).reqs[i] == Admitted
  {
    Always(q, es);
  }

  // ----- Rounds

  /** At no point of the run are more than `k` requests past the round check with their round not yet counted. */
  ghost predicate AtMostUncounted(q: Quota, es: seq<Event>, k: int) {
    forall n | 0 <= n <= |es| :: Sum(After(q, es[..n]).reqs, RoundsToCome) <= k
  }

  /** At no point of the run are more than `k` requests past the round check and unsettled. */
  ghost predicate AtMostInFlight(q: Quota, es: seq<Event>, k: int) {
    forall n | 0 <= n <= |es| :: Sum(After(q, es[..n]).reqs, InFlight) <= k
  }

  /** Open streams and commits under way are in flight, but their rounds are counted. */
  lemma UncountedAreInFlight(q: Quota, es: seq<Event>, k: int)
    requires AtMostInFlight(q, es, k)
    ensures AtMostUncounted(q, es, k)
  {
    forall n | 0 <= n <= |es| ensures Sum(After(q, es[..n]).reqs, RoundsToCome) <= k {
      SumOrder(After(q, es[..n]).reqs, RoundsToCome, InFlight);
    }
  }

  lemma UncountedPrefix(q: Quota, es: seq<Event>, k: int)
    requires es != [] && AtMostUncounted(q, es, k)
    ensures AtMostUncounted(q, es[..|es| - 1], k) && Sum(After(q, es).reqs, RoundsToCome) <= k
  {
    var before := es[..|es| - 1];
    forall n | 0 <= n <= |before| ensures Sum(After(q, before[..n]).reqs, RoundsToCome) <= k {
      assert before[..n] == es[..n];
    }
    assert es[..|es|] == es;
  }

  /** Rounds counted and still to be counted: only a passed round check raises their sum. */
  lemma ToComeKept(q: Quota, s: State, e: Event, k: nat)
    requires q.maxRounds >= 1 && RoundsConserved(s) && Sum(Apply(q, s, e).reqs, RoundsToCome) <= k
    requires s.roundsUsed + Sum(s.reqs, RoundsToCome) <= q.maxRounds + k - 1
    ensures Apply(q, s, e).roundsUsed + Sum(Apply(q, s, e).reqs, RoundsToCome) <= q.maxRounds + k - 1
  {
    hide Sum;
    if Enabled(s, e) {
      WeightMoves(q, s, e, RoundsToCome);
      if e.RollBack? {
        RollBackFindsRound(s, e.i);
      }
    }
  }

  lemma {:induction false} RoundsAndToCome(q: Quota, es: seq<Event>, k: nat)
    requires q.maxRounds >= 1 && AtMostUncounted(q, es, k)
    ensures After(q, es).roundsUsed + Sum(After(q, es).reqs, RoundsToCome) <= q.maxRounds + k - 1
  {
    if es == [] {
      assert es[..0] == [];
    } else {
      UncountedPrefix(q, es, k);
      RoundsAndToCome(q, es[..|es| - 1], k);
      Always(q, es[..|es| - 1]);
      ToComeKept(q, After(q, es[..|es| - 1]), es[|es| - 1], k);
    }
  }

  /**
   * Rounds bound: with at most k requests between the round check and the counting of their round, the
   * rounds used never exceed the limit by k or more; and those still to be counted are within it too.
   */
  lemma RoundsBound(q: Quota, es: seq<Event>, k: nat)
    requires q.maxRounds >= 1 && AtMostUncounted(q, es, k)
    ensures 0 <= After(q, es).roundsUsed <= q.maxRounds + k - 1
    ensures After(q, es).roundsUsed + Sum(After(q, es).reqs, RoundsToCome) <= q.maxRounds + k - 1
  {
    RoundsAndToCome(q, es, k);
    SumNonNegative(After(q, es).reqs, RoundsToCome);
    Always(q, es);
    SumNonNegative(After(q, es).reqs, OpenStreams);
    SumNonNegative(After(q, es).reqs, Unrecorded);
    SumNonNegative(After(q, es).reqs, AbandonedOnes);
  }

  /** In particular with at most k requests in flight, however long their streams stay open. */
  lemma InFlightBound(q: Quota, es: seq<Event>, k: nat)
    requires q.maxRounds >= 1 && AtMostInFlight(q, es, k)
    ensures 0 <= After(q, es).roundsUsed <= q.maxRounds + k - 1
  {
    UncountedAreInFlight(q, es, k);
    RoundsBound(q, es, k);
  }

  // ----- The bound is reached

  /** `n` requests one after the other, each opening a stream whose client then disconnects. */
  function OneByOne(n: nat): seq<Event> {
    if n == 0 then []
    else OneByOne(n - 1) + [CheckRounds] + [CheckTokens(n - 1)] + [OpenStream(n - 1)] + [Disconnect(n - 1)]
  }

  /** `n` more requests pass the quota check before any of them counts its round. */
  function AdmitAll(from: nat, n: nat): seq<Event> {
    if n == 0 then OneByOne(from) else AdmitAll(from, n - 1) + [CheckRounds] + [CheckTokens(from + n - 1)]
  }

  /** Then they open their streams. */
  function Overrun(from: nat, k: nat, n: nat): seq<Event> {
    if n == 0 then AdmitAll(from, k) else Overrun(from, k, n - 1) + [OpenStream(from + n - 1)]
  }

  /** `gone` abandoned streams, then `open` running ones, then `waiting` requests that passed the check. */
  ghost predicate Crowd(s: State, gone: nat, open: nat, waiting: nat) {
    && s.roundsUsed == gone + open && s.tokensUsed == 0 && s.checkLock == s.updateLock == None
    && |s.reqs| == gone + open + waiting
    && (forall i | gone <= i < gone + open :: s.reqs[i] == Streaming)
    && (forall i | gone + open <= i < |s.reqs| :: s.reqs[i] == Admitted)
    && Sum(s.reqs, InFlight) == open + waiting
  }

  lemma Extend(q: Quota, es: seq<Event>, e: Event, k: int)
    requires AtMostInFlight(q, es, k) && Sum(Apply(q, After(q, es), e).reqs, InFlight) <= k
    ensures After(q, es + [e]) == Apply(q, After(q, es), e) && AtMostInFlight(q, es + [e], k)
  {
    assert (es + [e])[..|es|] == es;
    forall n | 0 <= n <= |es + [e]| ensures Sum(After(q, (es + [e])[..n]).reqs, InFlight) <= k {
      if n <= |es| {
        assert (es + [e])[..n] == es[..n];
      } else {
        assert (es + [e])[..n] == es + [e];
      }
    }
  }

  lemma AdmitOne(q: Quota, es: seq<Event>, gone: nat, waiting: nat, k: int)
    requires AtMostInFlight(q, es, k) && Crowd(After(q, es), gone, 0, waiting)
    requires gone < q.maxRounds && waiting + 1 <= k
    ensures
      var es' := es + [CheckRounds] + [CheckTokens(gone + waiting)];
      AtMostInFlight(q, es', k) && Crowd(After(q, es'), gone, 0, waiting + 1)
  {
    hide After, AtMostInFlight, Sum;
    var s, i := After(q, es), gone + waiting;
    var s1 := Apply(q, s, CheckRounds);
    WeightMoves(q, s, CheckRounds, InFlight);
    Extend(q, es, CheckRounds, k);
    WeightMoves(q, s1, CheckTokens(i), InFlight);
    Extend(q, es + [CheckRounds], CheckTokens(i), k);
  }

  lemma OpenOne(q: Quota, es: seq<Event>, gone: nat, open: nat, waiting: nat, k: int)
    requires AtMostInFlight(q, es, k) && Crowd(After(q, es), gone, open, waiting + 1)
    requires open + waiting + 1 <= k
    ensures
      var es' := es + [OpenStream(gone + open)];
      AtMostInFlight(q, es', k) && Crowd(After(q, es'), gone, open + 1, waiting)
  {
    WeightMoves(q, After(q, es), OpenStream(gone + open), InFlight);
    Extend(q, es, OpenStream(gone + open), k);
  }

  lemma DisconnectOne(q: Quota, es: seq<Event>, gone: nat, k: int)
    requires AtMostInFlight(q, es, k) && Crowd(After(q, es), gone, 1, 0) && k >= 1
    ensures
      var es' := es + [Disconnect(gone)];
      AtMostInFlight(q, es', k) && Crowd(After(q, es'), gone + 1, 0, 0)
  {
    WeightMoves(q, After(q, es), Disconnect(gone), InFlight);
    Extend(q, es, Disconnect(gone), k);
  }

  lemma NoneYet(q: Quota, k: int)
    requires k >= 1
    ensures AtMostInFlight(q, [], k) && Crowd(After(q, []), 0, 0, 0)
  {
  }

  lemma {:induction false} OneByOneReaches(q: Quota, n: nat, k: int)
    requires n < q.maxRounds && k >= 1
    ensures AtMostInFlight(q, OneByOne(n), k) && Crowd(After(q, OneByOne(n)), n, 0, 0)
  {
    hide After, AtMostInFlight, Crowd;
    if n == 0 {
      NoneYet(q, k);
    } else {
      OneByOneReaches(q, n - 1, k);
      var es := OneByOne(n - 1);
      AdmitOne(q, es, n - 1, 0, k);
      var es1 := es + [CheckRounds] + [CheckTokens(n - 1)];
      OpenOne(q, es1, n - 1, 0, 0, k);
      DisconnectOne(q, es1 + [OpenStream(n - 1)], n - 1, k);
    }
  }

  lemma {:induction false} AdmitAllReaches(q: Quota, gone: nat, n: nat, k: int)
    requires gone < q.maxRounds && n <= k && k >= 1
    ensures AtMostInFlight(q, AdmitAll(gone, n), k) && Crowd(After(q, AdmitAll(gone, n)), gone, 0, n)
  {
    hide After, AtMostInFlight, Crowd;
    if n == 0 {
      OneByOneReaches(q, gone, k);
    } else {
      AdmitAllReaches(q, gone, n - 1, k);
      AdmitOne(q, AdmitAll(gone, n - 1), gone, n - 1, k);
    }
  }

  lemma {:induction false} OverrunReaches(q: Quota, gone: nat, k: nat, n: nat)
    requires gone < q.maxRounds && n <= k && k >= 1
    ensures AtMostInFlight(q, Overrun(gone, k, n), k) && Crowd(After(q, Overrun(gone, k, n)), gone, n, k - n)
  {
    hide After, AtMostInFlight, Crowd;
    if n == 0 {
      AdmitAllReaches(q, gone, k, k);
    } else {
      OverrunReaches(q, gone, k, n - 1);
      OpenOne(q, Overrun(gone, k, n - 1), gone, n - 1, k - n, k);
    }
  }

  ghost predicate LimitKept(q: Quota, k: nat) {
    forall es | AtMostUncounted(q, es, k) :: After(q, es).roundsUsed <= q.maxRounds
  }

  /**
   * The bound is attained for every k, even when only k requests are in flight at all; so the configured
   * number of rounds is guaranteed exactly when no two requests are between their check and their count
   * at once. Streams may overlap freely.
   */
  lemma RoundLimitKeptIff(q: Quota, k: nat)
    requires q.maxRounds >= 1
    ensures k >= 1 ==>
              var es := Overrun(q.maxRounds - 1, k, k);
              AtMostInFlight(q, es, k) && AtMostUncounted(q, es, k) && After(q, es).roundsUsed == q.maxRounds + k - 1
    ensures LimitKept(q, k) <==> k <= 1
  {
    if k >= 1 {
      OverrunReaches(q, q.maxRounds - 1, k, k);
      UncountedAreInFlight(q, Overrun(q.maxRounds - 1, k, k), k);
    }
    if k <= 1 {
      forall es | AtMostUncounted(q, es, k) ensures After(q, es).roundsUsed <= q.maxRounds {
        RoundsBound(q, es, k);
      }
    }
  }

  /**
   * Conservation: every round used is a recorded call, an open stream, a commit not yet recorded or a
   * stream whose client went away; every token used is a recorded or a committed one.
   */
  lemma Conservation(q: Quota, es: seq<Event>)
    ensures
      var s := After(q, es);
      && s.roundsUsed ==
         |s.calls| + Sum(s.reqs, OpenStreams) + Sum(s.reqs, Unrecorded) + Sum(s.reqs, AbandonedOnes)
      && s.tokensUsed == Total(s.calls) + Sum(s.reqs, UnrecordedTokens)
      && forall i: nat | Enabled(s, RollBack(i)) :: Apply(q, s, RollBack(i)).roundsUsed == s.roundsUsed - 1
  {
    Always(q, es);
    var s := After(q, es);
    forall i: nat | Enabled(s, RollBack(i)) ensures Apply(q, s, RollBack(i)).roundsUsed == s.roundsUsed - 1 {
      RollBackFindsRound(s, i);
    }
  }
}
