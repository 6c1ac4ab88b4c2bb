/**
 * What a deadline means for a queued request (src/mcp/connection-queue.ts): it is kept as long as its
 * deadline is ahead, and dropped once it is reached.
 */
module QueueDeadlines {
  import opened Wrappers
  import opened Sequences
  import opened RequestQueue

  // ----- Over runs

  /** Everything that entered did so by an enqueue of the run, stamped with its time and its deadline. */
  ghost predicate Stamps(config: Config, es: seq<Event>, r: QueuedRequest) {
    && r.timeoutAt == r.enqueuedAt + config.timeoutMs
    && exists n :: 0 <= n < |es| && EnqueuedAs(es[n], r)
  }

  ghost predicate EnqueuedAs(e: Event, r: QueuedRequest) {
    e.Enqueue? && e.at == r.enqueuedAt
    && e.r.requestId == r.requestId && e.r.clientId == r.clientId && e.r.toolName == r.toolName
  }

  lemma StampsLater(config: Config, es: seq<Event>, e: Event, r: QueuedRequest)
    requires Stamps(config, es, r)
    ensures Stamps(config, es + [e], r)
  {
    var n :| 0 <= n < |es| && EnqueuedAs(es[n], r);
    assert EnqueuedAs((es + [e])[n], r);
  }

  lemma RunSnoc(config: Config, es: seq<Event>, e: Event)
    ensures Run(config, es + [e]) == Step(config, Run(config, es), e)
  {
    assert (es + [e])[..|es|] == es;
  }

  lemma {:induction false} EnteredStamped(config: Config, es: seq<Event>)
    ensures forall r | r in Run(config, es).entered :: Stamps(config, es, r)
  {
    if es == [] {
    } else {
      var before, e := es[..|es| - 1], es[|es| - 1];
      EnteredStamped(config, before);
      assert es == before + [e];
      RunSnoc(config, before, e);
      forall r | r in Run(config, es).entered ensures Stamps(config, es, r) {
        if r in Run(config, before).entered {
          StampsLater(config, before, e, r);
        } else {
          assert EnqueuedAs(es[|before|], r);
        }
      }
    }
  }

  /** A request is taken in exactly when there is room. */
  lemma TakenInIff(config: Config, es: seq<Event>, r: QueuedRequest, now: int)
    ensures
      var t, t' := Run(config, es), Run(config, es + [Enqueue(r, now)]);
      if |t.q.items| < config.maxSize
      then |t'.entered| == |t.entered| + 1 && t'.q.items == t.q.items + [t'.entered[|t.entered|]]
      else t' == t
  {
    RunSnoc(config, es, Enqueue(r, now));
  }

  /** Handed out and queued requests are among those that entered. */
  lemma OnlyEntered(config: Config, es: seq<Event>, r: QueuedRequest)
    requires r in Run(config, es).handedOut || r in Run(config, es).timedOut || r in Run(config, es).q.items
    ensures r in Run(config, es).entered
  {
    Conservation(config, es);
    var t := Run(config, es);
    assert r in multiset(t.handedOut) || r in multiset(t.timedOut) || r in multiset(t.q.items);
    assert r in multiset(t.entered);
  }

  /**
   * Deadlines over runs: whatever a step at time `at` times out had been queued for at least the timeout,
   * whatever it hands out for less; a clean-up leaves exactly the queued requests whose time is not up.
   */
  lemma DeadlinesDecide(config: Config, es: seq<Event>, e: Event)
    requires e.Dequeue? || e.Cleanup?
    ensures
      var t, t' := Run(config, es), Run(config, es + [e]);
      && t.timedOut <= t'.timedOut && t.handedOut <= t'.handedOut
      && (forall r :: r in t'.timedOut[|t.timedOut|..] <==> r in t.q.items && r.enqueuedAt + config.timeoutMs <= e.at)
      && (forall r | r in t'.handedOut[|t.handedOut|..] :: r in t.q.items && e.at < r.enqueuedAt + config.timeoutMs)
      && (e.Cleanup? ==> t'.handedOut == t.handedOut &&
                         forall r :: r in t'.q.items <==> r in t.q.items && e.at < r.enqueuedAt + config.timeoutMs)
      && (e.Dequeue? ==>
            (|t'.handedOut| == |t.handedOut| <==> forall r | r in t.q.items :: r.enqueuedAt + config.timeoutMs <= e.at))
  {
    var t, t' := Run(config, es), Run(config, es + [e]);
    RunSnoc(config, es, e);
    EnteredStamped(config, es);
    forall r | r in t.q.items ensures r.timeoutAt == r.enqueuedAt + config.timeoutMs {
      OnlyEntered(config, es, r);
      assert Stamps(config, es, r);
    }
    hide Run, Live, Expired, Stamps;
    forall r {
      LiveIff(t.q.items, e.at, r);
    }
    var gone, live := Expired(t.q.items, e.at), Live(t.q.items, e.at);
    assert t'.timedOut == t.timedOut + gone;
    assert t'.timedOut[|t.timedOut|..] == gone;
    if e.Dequeue? && live != [] {
      assert t'.handedOut == t.handedOut + [live[0]] && live[0] in live;
      assert t'.handedOut[|t.handedOut|..] == [live[0]];
    } else {
      assert t'.handedOut == t.handedOut;
    }
  }
}
