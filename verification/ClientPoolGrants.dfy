/** Who is granted a slot of the client pool, and in which order. */
module ClientPoolGrants {
  import opened Wrappers
  import opened Counting
  import opened Sequences
  import opened ClientPool
  import Q = RequestQueue

  /** Admitted, or about to be, through the queue. */
  predicate FromQueue(p: Phase) {
    p.Granted? || ((p.Running? || p.Dequeuing? || p.Notifying? || p.Done?) && p.queued)
  }

  /** The request is in the queue, or was at some time. */
  predicate WasQueued(p: Phase) {
    p.Enqueued? || p.Listening? || p.Failed? || FromQueue(p)
  }

  function Ids(rs: seq<Q.QueuedRequest>): seq<nat> {
    if rs == [] then [] else Ids(rs[..|rs| - 1]) + [rs[|rs| - 1].requestId]
  }

  lemma IdsSnoc(rs: seq<Q.QueuedRequest>, r: Q.QueuedRequest)
    ensures Ids(rs + [r]) == Ids(rs) + [r.requestId]
  {
    assert (rs + [r])[..|rs|] == rs;
  }

  // ----- Subsequences

  lemma {:induction false} SubsequenceIds(a: seq<Q.QueuedRequest>, b: seq<Q.QueuedRequest>)
    requires Subsequence(a, b)
    ensures Subsequence(Ids(a), Ids(b))
    decreases |b|
  {
    if a == [] {
    } else if a[|a| - 1] == b[|b| - 1] && Subsequence(a[..|a| - 1], b[..|b| - 1]) {
      SubsequenceIds(a[..|a| - 1], b[..|b| - 1]);
      SubsequenceAppend(Ids(a[..|a| - 1]), Ids(b[..|b| - 1]), [a[|a| - 1].requestId]);
    } else {
      SubsequenceIds(a, b[..|b| - 1]);
      assert Ids(b)[..|Ids(b)| - 1] == Ids(b[..|b| - 1]);
    }
  }

  // ----- What every step keeps

  ghost predicate Emissions(s: State) {
    && Subsequence(s.granted, s.emitted)
    && (forall w | w in s.emitted :: w in Ids(s.trace.handedOut))
    && (forall c | 0 <= c < |s.callers| && s.callers[c].Notifying? && s.callers[c].next.Some? ::
          s.callers[c].next.value in Ids(s.trace.handedOut))
  }

  ghost predicate Grants(s: State) {
    && (forall w: nat :: w in s.granted <==> w < |s.callers| && FromQueue(s.callers[w]))
    && Distinct(s.granted)
  }

  ghost predicate Entries(s: State) {
    && Distinct(Ids(s.trace.entered))
    && (forall w | w in Ids(s.trace.entered) :: w < |s.callers| && WasQueued(s.callers[w]))
  }

  lemma GrantsKept(cfg: Config, s: State, e: Event)
    requires Grants(s) && Enabled(s, e)
    ensures Grants(Apply(cfg, s, e))
  {
    hide Q.Step, NextId;
    var s' := Apply(cfg, s, e);
    if WakesListener(s, e) {
      var w := s.callers[e.c].next.value;
      assert w !in s.granted && s'.granted == s.granted + [w];
    } else {
      assert s'.granted == s.granted;
    }
  }

  /** What a step hands out is what its caller will emit. */
  lemma TakenIsNext(cfg: Config, s: State, c: nat, now: int)
    requires Enabled(s, Take(c, now))
    ensures
      var ids, ids' := Ids(s.trace.handedOut), Ids(Apply(cfg, s, Take(c, now)).trace.handedOut);
      ids' == ids + match NextId(s.trace.q, now) case Some(w) => [w] case None => []
  {
    var r := Q.Dequeued(s.trace.q, now).1;
    if r.Some? {
      IdsSnoc(s.trace.handedOut, r.value);
    } else {
      assert s.trace.handedOut + [] == s.trace.handedOut;
    }
  }

  lemma EmissionsKept(cfg: Config, s: State, e: Event)
    requires Emissions(s) && Enabled(s, e)
    ensures Emissions(Apply(cfg, s, e))
  {
    if e.Take? {
      TakeKeepsEmissions(cfg, s, e.c, e.now);
    } else if e.Emit? {
      EmitKeepsEmissions(cfg, s, e.c);
    } else {
      hide Q.Enqueued, Subsequence, Ids, Sum;
      assert Apply(cfg, s, e).trace.handedOut == s.trace.handedOut;
    }
  }

  lemma TakeKeepsEmissions(cfg: Config, s: State, c: nat, now: int)
    requires Emissions(s) && Enabled(s, Take(c, now))
    ensures Emissions(Apply(cfg, s, Take(c, now)))
  {
    TakenIsNext(cfg, s, c, now);
    hide Q.Step, Subsequence, Ids, NextId;
  }

  lemma EmitEffect(cfg: Config, s: State, c: nat)
    requires Enabled(s, Emit(c))
    ensures
      var s', next := Apply(cfg, s, Emit(c)), s.callers[c].next;
      && s'.trace == s.trace && |s'.callers| == |s.callers|
      && (forall i | 0 <= i < |s.callers| && s'.callers[i].Notifying? :: s.callers[i] == s'.callers[i])
      && (if next.None? then s'.emitted == s.emitted && s'.granted == s.granted
          else s'.emitted == s.emitted + [next.value] &&
               (s'.granted == s.granted || s'.granted == s.granted + [next.value]))
  {
  }

  lemma EmitKeepsEmissions(cfg: Config, s: State, c: nat)
    requires Emissions(s) && Enabled(s, Emit(c))
    ensures Emissions(Apply(cfg, s, Emit(c)))
  {
    hide Subsequence, Ids, Apply;
    EmitEffect(cfg, s, c);
    if s.callers[c].next.Some? {
      var w := s.callers[c].next.value;
      SubsequenceAppend(s.granted, s.emitted, [w]);
      SubsequenceMore(s.granted, s.emitted, w);
    }
  }

  /** A caller stays one whose request entered the queue. */
  lemma StaysQueued(cfg: Config, s: State, e: Event, w: nat)
    requires Enabled(s, e) && w < |s.callers| && WasQueued(s.callers[w])
    ensures w < |Apply(cfg, s, e).callers| && WasQueued(Apply(cfg, s, e).callers[w])
  {
    hide Q.Step, Q.Enqueued, Sum, NextId;
  }

  lemma EnteredMoves(cfg: Config, s: State, e: Event)
    requires Enabled(s, e)
    ensures
      var ids, ids' := Ids(s.trace.entered), Ids(Apply(cfg, s, e).trace.entered);
      ids' == ids ||
      (&& e.Enter? && ids' == ids + [e.c]
       && e.c < |Apply(cfg, s, e).callers| && WasQueued(Apply(cfg, s, e).callers[e.c]))
  {
    hide Sum, NextId;
    if e.Enter? {
      IdsSnoc(s.trace.entered, Q.Stamped(cfg.queue, Request(e.c, e.clientId, e.toolName), e.now));
    }
  }

  lemma EntriesKept(cfg: Config, s: State, e: Event)
    requires Entries(s) && Enabled(s, e)
    ensures Entries(Apply(cfg, s, e))
  {
    hide Apply, Ids;
    EnteredMoves(cfg, s, e);
    var s' := Apply(cfg, s, e);
    if e.Enter? {
      assert !WasQueued(s.callers[e.c]);
      DistinctSnoc(Ids(s.trace.entered), e.c);
    }
    forall w | w in Ids(s'.trace.entered) ensures w < |s'.callers| && WasQueued(s'.callers[w]) {
      if w in Ids(s.trace.entered) {
        StaysQueued(cfg, s, e, w);
      }
    }
  }

  lemma {:induction false} Always(cfg: Config, es: seq<Event>)
    ensures Emissions(After(cfg, es)) && Grants(After(cfg, es)) && Entries(After(cfg, es))
  {
    hide Emissions, Grants, Entries, Apply;
    if es == [] {
      Initially();
    } else {
      var s, e := After(cfg, es[..|es| - 1]), es[|es| - 1];
      Always(cfg, es[..|es| - 1]);
      if Enabled(s, e) {
        EmissionsKept(cfg, s, e);
        GrantsKept(cfg, s, e);
        EntriesKept(cfg, s, e);
      } else {
        Disabled(cfg, s, e);
      }
    }
  }

  lemma Initially()
    ensures Emissions(INIT) && Grants(INIT) && Entries(INIT)
  {
  }

  lemma Disabled(cfg: Config, s: State, e: Event)
    requires !Enabled(s, e)
    ensures Apply(cfg, s, e) == s
  {
  }

  // ----- Main results

  /**
   * Who is granted a slot: the grants are exactly the callers that run, or ran, or are about to run
   * through the queue; each of them entered the queue once and its request was handed out; and no
   * request is granted twice.
   */
  lemma GrantsAreHandedOut(cfg: Config, es: seq<Event>)
    ensures
      var s := After(cfg, es);
      && (forall w: nat :: w in s.granted <==> w < |s.callers| && FromQueue(s.callers[w]))
      && (forall w | w in s.granted :: w in Ids(s.trace.handedOut) && w in Ids(s.trace.entered))
      && Distinct(s.granted) && Distinct(Ids(s.trace.entered))
  {
    Always(cfg, es);
    var s := After(cfg, es);
    HandedOutIds(cfg, es);
    forall w | w in s.granted ensures w in Ids(s.trace.handedOut) && w in Ids(s.trace.entered) {
      SubsequenceMember(s.granted, s.emitted, w);
      SubsequenceMember(Ids(s.trace.handedOut), Ids(s.trace.entered), w);
    }
  }

  /** The requests handed out are an order-preserving part of those that entered. */
  lemma HandedOutIds(cfg: Config, es: seq<Event>)
    ensures Subsequence(Ids(After(cfg, es).trace.handedOut), Ids(After(cfg, es).trace.entered))
  {
    var t := After(cfg, es).trace;
    Protocol(cfg, es);
    SubsequencePrepend(t.handedOut, [], t.q.items);
    assert t.handedOut + [] == t.handedOut;
    SubsequenceTrans(t.handedOut, t.handedOut + t.q.items, t.entered);
    SubsequenceIds(t.handedOut, t.entered);
  }

  /** Whoever emits now took its request before every other caller that has yet to emit. */
  predicate EmitsOldest(s: State, e: Event) {
    e.Emit? && Enabled(s, e) && s.callers[e.c].next.Some? ==>
      |s.emitted| < |s.trace.handedOut| && s.callers[e.c].next.value == s.trace.handedOut[|s.emitted|].requestId
  }

  /** Slot events are emitted in the order in which the queue's lock handed the requests out. */
  predicate InTakeOrder(cfg: Config, es: seq<Event>) {
    es == [] || (InTakeOrder(cfg, es[..|es| - 1]) && EmitsOldest(After(cfg, es[..|es| - 1]), es[|es| - 1]))
  }

  lemma {:induction false} IdsAt(rs: seq<Q.QueuedRequest>, i: nat)
    requires i < |rs|
    ensures |Ids(rs)| == |rs| && Ids(rs)[i] == rs[i].requestId
  {
    if |rs| > 1 {
      IdsAt(rs[..|rs| - 1], if i < |rs| - 1 then i else 0);
    }
  }

  lemma EmittedPrefixKept(cfg: Config, s: State, e: Event)
    requires s.emitted <= Ids(s.trace.handedOut) && EmitsOldest(s, e)
    ensures Apply(cfg, s, e).emitted <= Ids(Apply(cfg, s, e).trace.handedOut)
  {
    if Enabled(s, e) {
      if e.Take? {
        TakenIsNext(cfg, s, e.c, e.now);
      } else if e.Emit? && s.callers[e.c].next.Some? {
        IdsAt(s.trace.handedOut, |s.emitted|);
      }
    }
  }

  lemma {:induction false} EmittedPrefix(cfg: Config, es: seq<Event>)
    requires InTakeOrder(cfg, es)
    ensures After(cfg, es).emitted <= Ids(After(cfg, es).trace.handedOut)
  {
    hide Apply, EmitsOldest;
    if es == [] {
    } else {
      EmittedPrefix(cfg, es[..|es| - 1]);
      EmittedPrefixKept(cfg, After(cfg, es[..|es| - 1]), es[|es| - 1]);
    }
  }

  /**
   * Grants follow enqueue order: when slot events are emitted in the order the requests were taken, the
   * callers granted a slot are an order-preserving part of those that entered the queue.
   */
  lemma GrantOrder(cfg: Config, es: seq<Event>)
    requires InTakeOrder(cfg, es)
    ensures Subsequence(After(cfg, es).granted, Ids(After(cfg, es).trace.entered))
  {
    Always(cfg, es);
    EmittedPrefix(cfg, es);
    HandedOutIds(cfg, es);
    var s := After(cfg, es);
    var ids := Ids(s.trace.handedOut);
    PrefixIsSubsequence(ids, |s.emitted|);
    assert ids[..|s.emitted|] == s.emitted;
    SubsequenceTrans(s.granted, s.emitted, ids);
    SubsequenceTrans(s.granted, ids, Ids(s.trace.entered));
  }
}
