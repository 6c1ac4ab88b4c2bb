/** How far barge-ins can push the client pool beyond its limit. */
module ClientPoolBarges {
  import opened Wrappers
  import opened Counting
  import opened ClientPool
  import Q = RequestQueue

  function GrantedNow(p: Phase): int {
    if p.Granted? then 1 else 0
  }

  /** `active` calls running, `waiting` callers granted a slot but not yet counted, and nobody queued. */
  ghost predicate Reached(cfg: Config, es: seq<Event>, active: int, waiting: nat, barges: nat) {
    var s := After(cfg, es);
    && s.active == active == Sum(s.callers, RunningOnes)
    && Sum(s.callers, GrantedNow) == waiting
    && s.trace.q.items == [] && s.barges == barges
  }

  /** A limit of at least one, and a queue that can hold a request for some time. */
  ghost predicate Usable(cfg: Config) {
    cfg.maxConcurrent >= 1 && cfg.queue.maxSize >= 1 && cfg.queue.timeoutMs > 0
  }

  lemma {:induction false} SomeoneWith(callers: seq<Phase>, weight: Phase -> int) returns (c: nat)
    requires Sum(callers, weight) > 0
    ensures c < |callers| && weight(callers[c]) > 0
  {
    if weight(callers[|callers| - 1]) > 0 {
      c := |callers| - 1;
    } else {
      c := SomeoneWith(callers[..|callers| - 1], weight);
    }
  }

  /** A newcomer passes the check although the slots still on their way leave no room for it. */
  lemma Pass(cfg: Config, es: seq<Event>, active: int, waiting: nat, barges: nat)
    requires Reached(cfg, es, active, waiting, barges) && active < cfg.maxConcurrent
    requires active + Sum(After(cfg, es).callers, SlotInTransit) >= cfg.maxConcurrent
    ensures Reached(cfg, es + [Arrive], active + 1, waiting, barges + 1)
  {
    hide Sum, After, Q.Step;
    AfterSnoc(cfg, es, Arrive);
    WeightMoves(cfg, After(cfg, es), Arrive, RunningOnes);
    WeightMoves(cfg, After(cfg, es), Arrive, GrantedNow);
  }

  /** The first arrivals fill the pool without any slot in transit. */
  ghost predicate Filling(cfg: Config, es: seq<Event>, n: nat) {
    Reached(cfg, es, n, 0, 0) && Sum(After(cfg, es).callers, SlotInTransit) == 0
  }

  lemma FillOne(cfg: Config, es: seq<Event>, n: nat)
    requires Filling(cfg, es, n) && n < cfg.maxConcurrent
    ensures Filling(cfg, es + [Arrive], n + 1)
  {
    hide Sum, After, Q.Step;
    AfterSnoc(cfg, es, Arrive);
    WeightMoves(cfg, After(cfg, es), Arrive, RunningOnes);
    WeightMoves(cfg, After(cfg, es), Arrive, GrantedNow);
    WeightMoves(cfg, After(cfg, es), Arrive, SlotInTransit);
  }

  lemma {:induction false} Fill(cfg: Config, n: nat) returns (es: seq<Event>)
    requires n <= cfg.maxConcurrent
    ensures Filling(cfg, es, n)
  {
    if n == 0 {
      es := [];
    } else {
      es := Fill(cfg, n - 1);
      FillOne(cfg, es, n - 1);
      es := es + [Arrive];
    }
  }

  /** A granted caller counts itself in. */
  lemma AdmitOne(cfg: Config, es: seq<Event>, active: int, waiting: nat, barges: nat) returns (es': seq<Event>)
    requires Reached(cfg, es, active, waiting + 1, barges)
    ensures Reached(cfg, es', active + 1, waiting, barges)
  {
    hide Sum, After, Q.Step;
    var s := After(cfg, es);
    var c := SomeoneWith(s.callers, GrantedNow);
    es' := es + [Admit(c)];
    AfterSnoc(cfg, es, Admit(c));
    WeightMoves(cfg, s, Admit(c), RunningOnes);
    WeightMoves(cfg, s, Admit(c), GrantedNow);
  }

  lemma {:induction false} AdmitAll(cfg: Config, es: seq<Event>, active: int, waiting: nat, barges: nat)
    returns (es': seq<Event>)
    requires Reached(cfg, es, active, waiting, barges)
    ensures Reached(cfg, es', active + waiting, 0, barges)
    decreases waiting
  {
    if waiting == 0 {
      es' := es;
    } else {
      es' := AdmitOne(cfg, es, active, waiting - 1, barges);
      es' := AdmitAll(cfg, es', active + 1, waiting - 1, barges);
    }
  }

  // ----- Handing a running call's slot to a newcomer through the queue

  function Ticket(cfg: Config, w: nat): Q.QueuedRequest {
    Q.Stamped(cfg.queue, Request(w, "client", "tool"), 0)
  }

  ghost predicate Counted(s: State, active: int, waiting: nat, barges: nat) {
    && s.active == active == Sum(s.callers, RunningOnes)
    && Sum(s.callers, GrantedNow) == waiting
    && s.barges == barges
  }

  lemma QueueUp(cfg: Config, s: State, active: int, waiting: nat, barges: nat)
    requires Usable(cfg) && active >= cfg.maxConcurrent
    requires Counted(s, active, waiting, barges) && s.trace.q.items == []
    ensures
      var w := |s.callers|;
      var s' := Apply(cfg, Apply(cfg, Apply(cfg, s, Arrive), Enter(w, "client", "tool", 0)), Listen(w));
      && Counted(s', active, waiting, barges) && s'.trace.q.items == [Ticket(cfg, w)]
      && |s'.callers| == w + 1 && s'.callers[w] == Listening
  {
    hide Sum;
    var w := |s.callers|;
    var s1 := Apply(cfg, s, Arrive);
    WeightMoves(cfg, s, Arrive, RunningOnes);
    WeightMoves(cfg, s, Arrive, GrantedNow);
    var s2 := Apply(cfg, s1, Enter(w, "client", "tool", 0));
    WeightMoves(cfg, s1, Enter(w, "client", "tool", 0), RunningOnes);
    WeightMoves(cfg, s1, Enter(w, "client", "tool", 0), GrantedNow);
    assert s2.trace.q.items == [] + [Ticket(cfg, w)];
    WeightMoves(cfg, s2, Listen(w), RunningOnes);
    WeightMoves(cfg, s2, Listen(w), GrantedNow);
  }

  lemma TicketIsNext(cfg: Config, q: Q.Queue, w: nat)
    requires Usable(cfg) && q.items == [Ticket(cfg, w)]
    ensures NextId(q, 0) == Some(w) && Q.Dequeued(q, 0).0.items == []
  {
    assert Q.Live([], 0) == [] && Q.Live([Ticket(cfg, w)], 0) == [Ticket(cfg, w)];
  }

  lemma HandOn(cfg: Config, s: State, active: int, waiting: nat, barges: nat, w: nat, c: nat)
    requires Usable(cfg) && Counted(s, active, waiting, barges) && s.trace.q.items == [Ticket(cfg, w)]
    requires w < |s.callers| && s.callers[w] == Listening && c < |s.callers| && s.callers[c].Running?
    ensures
      var s' := Apply(cfg, Apply(cfg, Apply(cfg, s, Finish(c)), Take(c, 0)), Emit(c));
      Counted(s', active - 1, waiting + 1, barges) && s'.trace.q.items == []
  {
    hide Sum, Q.Dequeued, NextId;
    var s1 := Apply(cfg, s, Finish(c));
    WeightMoves(cfg, s, Finish(c), RunningOnes);
    WeightMoves(cfg, s, Finish(c), GrantedNow);
    TicketIsNext(cfg, s1.trace.q, w);
    var s2 := Apply(cfg, s1, Take(c, 0));
    WeightMoves(cfg, s1, Take(c, 0), RunningOnes);
    WeightMoves(cfg, s1, Take(c, 0), GrantedNow);
    WeightMoves(cfg, s2, Emit(c), RunningOnes);
    WeightMoves(cfg, s2, Emit(c), GrantedNow);
  }

  lemma Snoc3(cfg: Config, es: seq<Event>, e1: Event, e2: Event, e3: Event)
    ensures After(cfg, es + [e1] + [e2] + [e3]) == Apply(cfg, Apply(cfg, Apply(cfg, After(cfg, es), e1), e2), e3)
  {
    AfterSnoc(cfg, es, e1);
    AfterSnoc(cfg, es + [e1], e2);
    AfterSnoc(cfg, es + [e1] + [e2], e3);
  }

  /** A newcomer that finds the pool full queues up, and a finishing call hands it its slot. */
  lemma RelayOne(cfg: Config, es: seq<Event>, active: int, waiting: nat, barges: nat) returns (es': seq<Event>)
    requires Usable(cfg) && Reached(cfg, es, active, waiting, barges) && active >= cfg.maxConcurrent
    ensures Reached(cfg, es', active - 1, waiting + 1, barges)
  {
    hide After, Apply, Sum;
    var s := After(cfg, es);
    var w := |s.callers|;
    QueueUp(cfg, s, active, waiting, barges);
    Snoc3(cfg, es, Arrive, Enter(w, "client", "tool", 0), Listen(w));
    var mid := es + [Arrive] + [Enter(w, "client", "tool", 0)] + [Listen(w)];
    var c := SomeoneWith(After(cfg, mid).callers, RunningOnes);
    HandOn(cfg, After(cfg, mid), active, waiting, barges, w, c);
    Snoc3(cfg, mid, Finish(c), Take(c, 0), Emit(c));
    es' := mid + [Finish(c)] + [Take(c, 0)] + [Emit(c)];
  }

  /** Relays until one slot below the limit is free. */
  lemma {:induction false} RelayAll(cfg: Config, es: seq<Event>, over: nat, waiting: nat, barges: nat)
    returns (es': seq<Event>)
    requires Usable(cfg) && Reached(cfg, es, cfg.maxConcurrent - 1 + over, waiting, barges)
    ensures Reached(cfg, es', cfg.maxConcurrent - 1, waiting + over, barges)
    decreases over
  {
    if over == 0 {
      es' := es;
    } else {
      es' := RelayOne(cfg, es, cfg.maxConcurrent - 1 + over, waiting, barges);
      es' := RelayAll(cfg, es', over - 1, waiting + 1, barges);
    }
  }

  lemma GrantsAreInTransit(s: State)
    ensures Sum(s.callers, GrantedNow) <= Sum(s.callers, SlotInTransit)
  {
    SumOrder(s.callers, GrantedNow, SlotInTransit);
  }

  /** For every number of barge-ins there is a run that exceeds the limit by all of them. */
  lemma {:induction false} BoundReached(cfg: Config, barges: nat) returns (es: seq<Event>)
    requires Usable(cfg)
    ensures Reached(cfg, es, cfg.maxConcurrent + barges, 0, barges)
  {
    hide After, Sum;
    if barges == 0 {
      es := Fill(cfg, cfg.maxConcurrent);
    } else {
      es := BoundReached(cfg, barges - 1);
      es := RelayAll(cfg, es, barges, 0, barges - 1);
      GrantsAreInTransit(After(cfg, es));
      Pass(cfg, es, cfg.maxConcurrent - 1, barges, barges - 1);
      es := AdmitAll(cfg, es + [Arrive], cfg.maxConcurrent, barges, barges);
    }
  }

  /** In all runs with at most `barges` barge-ins, at most `extra` calls above the limit are running. */
  ghost predicate ExceededAtMostBy(cfg: Config, barges: nat, extra: nat) {
    forall es | After(cfg, es).barges <= barges :: After(cfg, es).active <= cfg.maxConcurrent + extra
  }

  /**
   * How far the limit can be exceeded: over all runs with at most so many barge-ins, by that many calls
   * and no more.
   */
  lemma ExceededIff(cfg: Config, barges: nat, extra: nat)
    requires Usable(cfg)
    ensures ExceededAtMostBy(cfg, barges, extra) <==> barges <= extra
  {
    if barges <= extra {
      forall es | After(cfg, es).barges <= barges ensures After(cfg, es).active <= cfg.maxConcurrent + extra {
        BargeBound(cfg, es);
      }
    } else {
      var es := BoundReached(cfg, barges);
      assert After(cfg, es).active > cfg.maxConcurrent + extra;
    }
  }
}
