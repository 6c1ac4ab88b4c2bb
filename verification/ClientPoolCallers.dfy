/**
 * One caller of the client pool told from the events alone (callTool, waitForQueueSlot and
 * processNextQueuedRequest of src/mcp/client-pool.ts): which step may follow which, whose slot event wakes
 * whom, and what happens to a caller that is not listening when its event is emitted.
 */
module ClientPoolCallers {
  import opened Wrappers
  import opened Sequences
  import opened Counting
  import opened ClientPool
  import opened ClientPoolGrants
  import Q = RequestQueue

  // ----- What the events say about a caller

  /** The first request whose deadline is ahead. */
  function FirstLiveId(items: seq<Q.QueuedRequest>, now: int): Option<nat> {
    if items == [] then None
    else if items[0].timeoutAt > now then Some(items[0].requestId)
    else FirstLiveId(items[1..], now)
  }

  /** The request caller `c` was handed when it last asked for the next one. */
  function TakenBy(cfg: Config, es: seq<Event>, c: nat): Option<nat> {
    if es == [] then None
    else
      var before, e := es[..|es| - 1], es[|es| - 1];
      var s := After(cfg, before);
      if Enabled(s, e) && e.Take? && e.c == c then FirstLiveId(s.trace.q.items, e.now) else TakenBy(cfg, before, c)
  }

  /** Caller `c` counted itself in after waiting in the queue. */
  predicate CameThroughQueue(cfg: Config, es: seq<Event>, c: nat) {
    es != [] &&
    var before, e := es[..|es| - 1], es[|es| - 1];
    CameThroughQueue(cfg, before, c) || (Enabled(After(cfg, before), e) && e.Admit? && e.c == c)
  }

  /** The last thing that happened to a caller: a step of its own, which may be a check it passed, or its slot event. */
  datatype Last = Step(e: Event, passed: bool) | Woken

  function LastStep(cfg: Config, es: seq<Event>, c: nat): Option<Last> {
    if es == [] then None
    else
      var before, e := es[..|es| - 1], es[|es| - 1];
      var s, last := After(cfg, before), LastStep(cfg, before, c);
      if !Enabled(s, e) then last
      else if e.Arrive? then
        (if c == |s.callers| then Some(Step(e, Sum(s.callers, RunningOnes) < cfg.maxConcurrent)) else last)
      else if e.c == c then Some(Step(e, e.Enter? ==> |s.trace.q.items| < cfg.queue.maxSize))
      else if e.Emit? && TakenBy(cfg, before, e.c) == Some(c) && Listens(last) then Some(Woken)
      else last
  }

  predicate Listens(last: Option<Last>) {
    last.Some? && last.value.Step? && last.value.e.Listen?
  }

  /** Which step of a caller may follow which: the order of the statements of callTool. */
  predicate Follows(last: Last, e: Event) {
    match last
    case Woken => e.Admit?
    case Step(Arrive, passed) => if passed then e.Finish? else e.Enter?
    case Step(Enter(_, _, _, _), passed) => passed && e.Listen?
    case Step(Listen(_), _) => e.GiveUp?
    case Step(GiveUp(_), _) => false
    case Step(Admit(_), _) => e.Finish?
    case Step(Finish(_), _) => e.Take?
    case Step(Take(_, _), _) => e.Emit?
    case Step(Emit(_), _) => false
  }

  /** The program counter, as the last step left it. */
  function CounterAfter(last: Last, queued: bool, taken: Option<nat>): Phase {
    match last
    case Woken => Granted
    case Step(Arrive, passed) => if passed then Running(false) else Enqueuing
    case Step(Enter(_, _, _, _), passed) => if passed then Enqueued else Failed
    case Step(Listen(_), _) => Listening
    case Step(GiveUp(_), _) => Failed
    case Step(Admit(_), _) => Running(true)
    case Step(Finish(_), _) => Dequeuing(queued)
    case Step(Take(_, _), _) => Notifying(queued, taken)
    case Step(Emit(_), _) => Done(queued)
  }

  // ----- One step

  lemma {:induction false} FirstLiveIdIs(items: seq<Q.QueuedRequest>, now: int)
    ensures FirstLiveId(items, now).None? <==> Q.AllDue(items, now)
    ensures FirstLiveId(items, now).Some? ==>
              exists k: nat :: Q.FirstLive(items, now, k) && items[k].requestId == FirstLiveId(items, now).value
  {
    if items == [] {
    } else if items[0].timeoutAt > now {
      assert Q.FirstLive(items, now, 0);
    } else {
      var rest := items[1..];
      FirstLiveIdIs(rest, now);
      if FirstLiveId(rest, now).Some? {
        var k: nat :| Q.FirstLive(rest, now, k) && rest[k].requestId == FirstLiveId(rest, now).value;
        assert items[..k + 1] == [items[0]] + rest[..k];
        assert Q.FirstLive(items, now, k + 1);
      } else {
        assert forall i | 0 < i < |items| :: items[i] == rest[i - 1];
      }
    }
  }

  lemma NextIsFirstLive(q: Q.Queue, now: int)
    ensures NextId(q, now) == FirstLiveId(q.items, now)
  {
    hide FirstLiveId;
    FirstLiveIdIs(q.items, now);
    Q.DequeueAnswers(q, now);
  }

  predicate QueuedOf(p: Phase) {
    (p.Running? || p.Dequeuing? || p.Notifying? || p.Done?) && p.queued
  }

  lemma OwnStep(cfg: Config, s: State, e: Event)
    requires Enabled(s, e) && !e.Arrive?
    ensures
      var p, taken := s.callers[e.c], if e.Take? then FirstLiveId(s.trace.q.items, e.now) else None;
      var p' := CounterAfter(Step(e, e.Enter? ==> |s.trace.q.items| < cfg.queue.maxSize), QueuedOf(p), taken);
      |Apply(cfg, s, e).callers| == |s.callers| && Apply(cfg, s, e).callers[e.c] == p'
  {
    hide Q.Step, FirstLiveId;
    if e.Take? {
      NextIsFirstLive(s.trace.q, e.now);
    }
  }

  lemma OtherStep(cfg: Config, s: State, e: Event, c: nat)
    requires Enabled(s, e) && !e.Arrive? && e.c != c && c < |s.callers|
    ensures |Apply(cfg, s, e).callers| == |s.callers|
    ensures Apply(cfg, s, e).callers[c] ==
            if e.Emit? && s.callers[e.c].next == Some(c) && s.callers[c].Listening? then Granted else s.callers[c]
  {
    hide Q.Step, Q.Enqueued, NextId, Sum;
  }

  lemma Arrival(cfg: Config, s: State)
    requires s.active == Sum(s.callers, RunningOnes)
    ensures Apply(cfg, s, Arrive).callers ==
            s.callers + [if Sum(s.callers, RunningOnes) < cfg.maxConcurrent then Running(false) else Enqueuing]
  {
  }

  // ----- Over runs

  lemma Snoc(cfg: Config, es: seq<Event>, e: Event, c: nat)
    ensures
      var s, last := After(cfg, es), LastStep(cfg, es, c);
      LastStep(cfg, es + [e], c) ==
      if !Enabled(s, e) then last
      else if e.Arrive? then
        (if c == |s.callers| then Some(Step(e, Sum(s.callers, RunningOnes) < cfg.maxConcurrent)) else last)
      else if e.c == c then Some(Step(e, e.Enter? ==> |s.trace.q.items| < cfg.queue.maxSize))
      else if e.Emit? && TakenBy(cfg, es, e.c) == Some(c) && Listens(last) then Some(Woken)
      else last
    ensures TakenBy(cfg, es + [e], c) ==
            if Enabled(After(cfg, es), e) && e.Take? && e.c == c then FirstLiveId(After(cfg, es).trace.q.items, e.now)
            else TakenBy(cfg, es, c)
    ensures CameThroughQueue(cfg, es + [e], c) <==>
            CameThroughQueue(cfg, es, c) || (Enabled(After(cfg, es), e) && e.Admit? && e.c == c)
  {
    assert (es + [e])[..|es|] == es;
  }

  ghost predicate CounterIsLast(cfg: Config, es: seq<Event>, c: nat) {
    var s, last := After(cfg, es), LastStep(cfg, es, c);
    if c < |s.callers| then
      && last.Some? && s.callers[c] == CounterAfter(last.value, CameThroughQueue(cfg, es, c), TakenBy(cfg, es, c))
      && CameThroughQueue(cfg, es, c) == QueuedOf(s.callers[c])
    else
      last.None? && !CameThroughQueue(cfg, es, c)
  }

  lemma CounterStep(cfg: Config, es: seq<Event>, e: Event, c: nat)
    requires CounterIsLast(cfg, es, c) && (!e.Arrive? ==> CounterIsLast(cfg, es, e.c))
    requires Enabled(After(cfg, es), e)
    ensures CounterIsLast(cfg, es + [e], c)
  {
    Snoc(cfg, es, e, c);
    AfterSnoc(cfg, es, e);
    Protocol(cfg, es);
    var s := After(cfg, es);
    hide LastStep, TakenBy, CameThroughQueue, After, Apply, Sum, FirstLiveId, Subsequence;
    if e.Arrive? {
      Arrival(cfg, s);
    } else if e.c == c {
      OwnStep(cfg, s, e);
    } else {
      if c < |s.callers| {
        OtherStep(cfg, s, e, c);
      } else {
        OwnStep(cfg, s, e);
      }
    }
  }

  lemma {:induction false} Counters(cfg: Config, es: seq<Event>, c: nat)
    ensures CounterIsLast(cfg, es, c)
    decreases |es|
  {
    if es == [] {
    } else {
      var before, e := es[..|es| - 1], es[|es| - 1];
      Counters(cfg, before, c);
      assert es == before + [e];
      if Enabled(After(cfg, before), e) {
        if !e.Arrive? {
          Counters(cfg, before, e.c);
        }
        CounterStep(cfg, before, e, c);
      } else {
        Snoc(cfg, before, e, c);
        AfterSnoc(cfg, before, e);
      }
    }
  }

  /**
   * Program order: in every interleaving, a step is a caller's next one exactly when it follows what last
   * happened to the caller. In particular a caller that found the queue full or gave up has no step left,
   * and one that waits counts in exactly after the slot event for its own request, while it was listening.
   */
  lemma CallerOrder(cfg: Config, es: seq<Event>, e: Event)
    requires !e.Arrive?
    ensures Enabled(After(cfg, es), e) <==>
            LastStep(cfg, es, e.c).Some? && Follows(LastStep(cfg, es, e.c).value, e)
  {
    hide After, LastStep, TakenBy, CameThroughQueue;
    Counters(cfg, es, e.c);
  }

  // ----- What enters the queue

  /** The enqueue calls that found room, each under its own id, for its client and tool, with its deadline. */
  function Admissions(cfg: Config, es: seq<Event>): seq<Q.QueuedRequest> {
    if es == [] then []
    else
      var before, e := es[..|es| - 1], es[|es| - 1];
      var s := After(cfg, before);
      Admissions(cfg, before) +
      if Enabled(s, e) && e.Enter? && |s.trace.q.items| < cfg.queue.maxSize
      then [Q.QueuedRequest(e.c, e.clientId, e.toolName, e.now, e.now + cfg.queue.timeoutMs)] else []
  }

  lemma EnteredStep(cfg: Config, s: State, e: Event)
    ensures Apply(cfg, s, e).trace.entered == s.trace.entered +
            if Enabled(s, e) && e.Enter? && |s.trace.q.items| < cfg.queue.maxSize
            then [Q.QueuedRequest(e.c, e.clientId, e.toolName, e.now, e.now + cfg.queue.timeoutMs)] else []
  {
    assert s.trace.entered + [] == s.trace.entered;
    hide Sum, NextId, Q.Expired, Q.Live;
  }

  lemma {:induction false} EnteredAsAsked(cfg: Config, es: seq<Event>)
    ensures After(cfg, es).trace.entered == Admissions(cfg, es)
  {
    if es == [] {
    } else {
      var before, e := es[..|es| - 1], es[|es| - 1];
      EnteredAsAsked(cfg, before);
      EnteredStep(cfg, After(cfg, before), e);
    }
  }

  // ----- Each request is woken at most once

  ghost predicate Pending(s: State, c: nat, w: nat) {
    c < |s.callers| && s.callers[c].Notifying? && s.callers[c].next == Some(w)
  }

  /** A request taken by some caller is not emitted yet, and no other caller has taken it. */
  ghost predicate TakenOnce(s: State) {
    && (forall c, w | Pending(s, c, w) :: w !in s.emitted && w in Ids(s.trace.handedOut))
    && (forall c, d, w | Pending(s, c, w) && Pending(s, d, w) :: c == d)
    && (forall w | w in s.emitted :: w in Ids(s.trace.handedOut))
  }

  lemma DistinctLast(s: seq<nat>, x: nat)
    requires Distinct(s + [x])
    ensures x !in s
  {
    var t := s + [x];
    assert t[|s|] == x;
    forall i | 0 <= i < |s| ensures s[i] != x {
      assert t[i] == s[i];
    }
  }

  lemma {:induction false} SubsequenceDistinct(a: seq<nat>, b: seq<nat>)
    requires Subsequence(a, b) && Distinct(b)
    ensures Distinct(a)
    decreases |b|
  {
    if a == [] {
    } else {
      var b' := b[..|b| - 1];
      assert b == b' + [b[|b| - 1]] && Distinct(b');
      if a[|a| - 1] == b[|b| - 1] && Subsequence(a[..|a| - 1], b') {
        var a' := a[..|a| - 1];
        SubsequenceDistinct(a', b');
        DistinctLast(b', b[|b| - 1]);
        forall x | x in a' ensures x in b' {
          SubsequenceMember(a', b', x);
        }
        DistinctSnoc(a', a[|a| - 1]);
        assert a == a' + [a[|a| - 1]];
      } else {
        SubsequenceDistinct(a, b');
      }
    }
  }

  /** The requests handed out are pairwise different. */
  lemma HandedOutOnce(cfg: Config, es: seq<Event>)
    ensures Distinct(Ids(After(cfg, es).trace.handedOut))
  {
    hide After, Ids;
    HandedOutIds(cfg, es);
    GrantsAreHandedOut(cfg, es);
    SubsequenceDistinct(Ids(After(cfg, es).trace.handedOut), Ids(After(cfg, es).trace.entered));
  }

  lemma TakeOnceKept(cfg: Config, s: State, c: nat, now: int)
    requires TakenOnce(s) && Enabled(s, Take(c, now)) && Distinct(Ids(Apply(cfg, s, Take(c, now)).trace.handedOut))
    ensures TakenOnce(Apply(cfg, s, Take(c, now)))
  {
    var s' := Apply(cfg, s, Take(c, now));
    TakenIsNext(cfg, s, c, now);
    var ids, ids' := Ids(s.trace.handedOut), Ids(s'.trace.handedOut);
    var next := NextId(s.trace.q, now);
    hide Q.Step, Ids, NextId;
    assert s'.emitted == s.emitted && s'.callers == s.callers[c := Notifying(s.callers[c].queued, next)];
    if next.Some? {
      assert ids' == ids + [next.value];
      DistinctLast(ids, next.value);
    }
    forall d, w | Pending(s', d, w) ensures d != c ==> Pending(s, d, w) {
    }
  }

  lemma EmitOnceKept(cfg: Config, s: State, c: nat)
    requires TakenOnce(s) && Enabled(s, Emit(c))
    ensures TakenOnce(Apply(cfg, s, Emit(c)))
  {
    hide Ids;
    EmitEffect(cfg, s, c);
    var s' := Apply(cfg, s, Emit(c));
    assert !s'.callers[c].Notifying?;
    hide Apply;
    forall d, w | Pending(s', d, w) ensures Pending(s, d, w) && d != c {
    }
    if s.callers[c].next.Some? {
      assert Pending(s, c, s.callers[c].next.value);
    }
  }

  lemma {:induction false} AlwaysOnce(cfg: Config, es: seq<Event>)
    ensures TakenOnce(After(cfg, es))
  {
    if es == [] {
    } else {
      var before, e := es[..|es| - 1], es[|es| - 1];
      var s, s' := After(cfg, before), After(cfg, es);
      AlwaysOnce(cfg, before);
      HandedOutOnce(cfg, es);
      if Enabled(s, e) {
        if e.Take? {
          TakeOnceKept(cfg, s, e.c, e.now);
        } else if e.Emit? {
          EmitOnceKept(cfg, s, e.c);
        } else {
          OtherOnceKept(cfg, s, e);
        }
      }
    }
  }

  lemma OtherOnceKept(cfg: Config, s: State, e: Event)
    requires TakenOnce(s) && Enabled(s, e) && !e.Take? && !e.Emit?
    ensures TakenOnce(Apply(cfg, s, e))
  {
    hide Ids, Sum, Q.Enqueued;
    var s' := Apply(cfg, s, e);
    assert s'.trace.handedOut == s.trace.handedOut && s'.emitted == s.emitted;
    forall d, w | Pending(s', d, w) ensures Pending(s, d, w) {
    }
  }

  // ----- Who never gets a slot


  /** The slot event of `w` was emitted and did not reach it. */
  predicate Missed(s: State, w: nat) {
    w in s.emitted && w !in s.granted
  }

  lemma MissedStays(cfg: Config, es: seq<Event>, e: Event, w: nat)
    requires Missed(After(cfg, es), w)
    ensures Missed(After(cfg, es + [e]), w)
  {
    AlwaysOnce(cfg, es);
    AfterSnoc(cfg, es, e);
    var s := After(cfg, es);
    hide After, Ids, Sum, Q.Step;
    if e.Emit? && Enabled(s, e) && s.callers[e.c].next.Some? {
      assert Pending(s, e.c, s.callers[e.c].next.value);
    }
  }

  /**
   * A missed wake-up is final: the slot event of a request is emitted at most once, so a caller that was
   * not listening at that moment is never granted a slot, however long it listens afterwards.
   */
  lemma {:induction false} MissedForGood(cfg: Config, es: seq<Event>, w: nat, more: seq<Event>)
    requires Missed(After(cfg, es), w)
    ensures Missed(After(cfg, es + more), w)
    ensures w !in After(cfg, es + more).granted
    decreases |more|
  {
    hide After;
    if more == [] {
      assert es + more == es;
    } else {
      MissedStays(cfg, es, more[0], w);
      MissedForGood(cfg, es + [more[0]], w, more[1..]);
      assert es + more == es + [more[0]] + more[1..];
    }
  }

  /** An event misses its caller exactly when the caller is not listening at that moment. */
  lemma MissedIff(cfg: Config, es: seq<Event>, c: nat, w: nat)
    requires Enabled(After(cfg, es), Emit(c)) && TakenBy(cfg, es, c) == Some(w)
    ensures w !in After(cfg, es).emitted && w in After(cfg, es + [Emit(c)]).emitted
    ensures Missed(After(cfg, es + [Emit(c)]), w) <==> !Listens(LastStep(cfg, es, w))
  {
    AlwaysOnce(cfg, es);
    Counters(cfg, es, c);
    Counters(cfg, es, w);
    ClientPoolGrants.Always(cfg, es);
    AfterSnoc(cfg, es, Emit(c));
    hide After, LastStep, TakenBy, CameThroughQueue, Ids, Subsequence, Distinct;
    var s := After(cfg, es);
    assert Pending(s, c, w);
    if w in s.granted {
      SubsequenceMember(s.granted, s.emitted, w);
    }
  }

  /** One call runs, and another has just been queued, its listener not yet registered. */
  ghost predicate JustQueued(s: State) {
    && s.active == 1 && s.callers == [Running(false), Enqueued]
    && s.trace.q.items == [Q.QueuedRequest(1, "client", "tool", 0, 10)]
    && s.emitted == s.granted == []
  }

  lemma SecondWaits(cfg: Config)
    requires cfg == Config(1, Q.Config(1, 10))
    ensures
      var s := Apply(cfg, Apply(cfg, INIT, Arrive), Arrive);
      && s.active == 1 && s.callers == [Running(false), Enqueuing] && s.trace == INIT.trace
      && s.emitted == s.granted == []
  {
    hide Sum;
    assert Apply(cfg, INIT, Arrive).callers == [Running(false)];
  }

  lemma SecondEnters(cfg: Config, s: State)
    requires cfg == Config(1, Q.Config(1, 10)) && s.emitted == s.granted == []
    requires s.active == 1 && s.callers == [Running(false), Enqueuing] && s.trace.q.items == []
    ensures JustQueued(Apply(cfg, s, Enter(1, "client", "tool", 0)))
  {
    hide Sum;
  }

  lemma QueuesSecond(cfg: Config)
    requires cfg == Config(1, Q.Config(1, 10))
    ensures JustQueued(After(cfg, [Arrive, Arrive, Enter(1, "client", "tool", 0)]))
  {
    var e := Enter(1, "client", "tool", 0);
    SecondWaits(cfg);
    SecondEnters(cfg, Apply(cfg, Apply(cfg, INIT, Arrive), Arrive));
    AfterSnoc(cfg, [], Arrive);
    AfterSnoc(cfg, [Arrive], Arrive);
    AfterSnoc(cfg, [Arrive, Arrive], e);
    assert After(cfg, []) == INIT;
    hide After, Apply, JustQueued;
    assert [] + [Arrive] == [Arrive] && [Arrive] + [Arrive] == [Arrive, Arrive];
    assert [Arrive, Arrive] + [e] == [Arrive, Arrive, e];
  }

  lemma OffersTooEarly(cfg: Config, s: State)
    requires JustQueued(s)
    ensures
      var s' := Apply(cfg, Apply(cfg, Apply(cfg, Apply(cfg, s, Finish(0)), Take(0, 1)), Emit(0)), Listen(1));
      s'.active == 0 && s'.callers == [Done(false), Listening] && Missed(s', 1)
  {
    var s4 := Apply(cfg, s, Finish(0));
    assert s4.callers == [Dequeuing(false), Enqueued];
    OwnStep(cfg, s4, Take(0, 1));
    hide Q.Step;
    var s5 := Apply(cfg, s4, Take(0, 1));
    assert s5.callers == [Notifying(false, Some(1)), Enqueued];
    var s6 := Apply(cfg, s5, Emit(0));
    assert s6.callers == [Done(false), Enqueued] && s6.emitted == [1] && s6.granted == [];
  }

  /**
   * It happens: the slot that becomes free while a caller is being queued is offered to it before it has
   * registered its listener. It then listens in vain for good, with nobody running.
   */
  lemma WakeUpCanBeMissed()
    ensures
      var cfg := Config(1, Q.Config(1, 10));
      var s := After(cfg, [Arrive, Arrive, Enter(1, "client", "tool", 0)] + [Finish(0)] + [Take(0, 1)] + [Emit(0)]
                          + [Listen(1)]);
      s.active == 0 && s.callers == [Done(false), Listening] && Missed(s, 1)
  {
    var cfg, es := Config(1, Q.Config(1, 10)), [Arrive, Arrive, Enter(1, "client", "tool", 0)];
    QueuesSecond(cfg);
    OffersTooEarly(cfg, After(cfg, es));
    hide After, Apply;
    AfterSnoc(cfg, es, Finish(0));
    AfterSnoc(cfg, es + [Finish(0)], Take(0, 1));
    AfterSnoc(cfg, es + [Finish(0)] + [Take(0, 1)], Emit(0));
    AfterSnoc(cfg, es + [Finish(0)] + [Take(0, 1)] + [Emit(0)], Listen(1));
  }

  /** A caller that gave up, or found the queue full, has failed for good and is never granted a slot. */
  lemma {:induction false} FailedForGood(cfg: Config, es: seq<Event>, c: nat, more: seq<Event>)
    requires c < |After(cfg, es).callers| && After(cfg, es).callers[c].Failed?
    ensures
      var s := After(cfg, es + more);
      c < |s.callers| && s.callers[c].Failed? && c !in s.granted
    decreases |more|
  {
    hide After, Apply, Subsequence, Distinct, Ids;
    if more == [] {
      assert es + more == es;
      GrantsAreHandedOut(cfg, es);
    } else {
      AfterSnoc(cfg, es, more[0]);
      FailedStep(cfg, After(cfg, es), more[0], c);
      FailedForGood(cfg, es + [more[0]], c, more[1..]);
      assert es + more == es + [more[0]] + more[1..];
    }
  }

  lemma FailedStep(cfg: Config, s: State, e: Event, c: nat)
    requires c < |s.callers| && s.callers[c].Failed?
    ensures c < |Apply(cfg, s, e).callers| && Apply(cfg, s, e).callers[c].Failed?
  {
    hide Q.Step, Q.Enqueued, NextId, Sum;
  }
}
