/**
 * The concurrency limit of MCPClientPool.callTool (src/mcp/client-pool.ts) as a protocol. A step is what
 * one caller does between two awaits: lowering the count and handing the slot on are separate steps, so
 * a newcomer may pass the capacity check in between.
 */
module ClientPool {
  import opened Wrappers
  import opened Sequences
  import opened Counting
  import Q = RequestQueue

  datatype Config = Config(maxConcurrent: nat, queue: Q.Config)

  datatype Phase =
    | Enqueuing                                      // found the pool at capacity
    | Enqueued                                       // in the queue, not yet listening for its slot
    | Listening
    | Granted                                        // slot event received, not yet counted
    | Running(queued: bool)
    | Dequeuing(queued: bool)                        // count lowered, next request not yet asked for
    | Notifying(queued: bool, next: Option<nat>)     // next request taken, its event not yet emitted
    | Done(queued: bool)
    | Failed                                         // queue full, or gave up waiting

  /**
   * `barges` counts the callers let through although the calls running and the freed slots still on their
   * way already took up the limit; `emitted` are the requests whose slot event was emitted, `granted` those
   * among them whose caller was listening, in order.
   */
  datatype State = State(
    active: int,
    trace: Q.Trace,
    callers: seq<Phase>,
    barges: nat,
    emitted: seq<nat>,
    granted: seq<nat>)

  datatype Event =
    | Arrive
    | Enter(c: nat, clientId: string, toolName: string, now: int)
    | Listen(c: nat)
    | GiveUp(c: nat)
    | Admit(c: nat)
    | Finish(c: nat)
    | Take(c: nat, now: int)
    | Emit(c: nat)

  const INIT := State(0, Q.Trace(Q.EMPTY, [], [], []), [], 0, [], [])

  predicate Enabled(s: State, e: Event) {
    match e
    case Arrive => true
    case Enter(c, _, _, _) => c < |s.callers| && s.callers[c].Enqueuing?
    case Listen(c) => c < |s.callers| && s.callers[c].Enqueued?
    case GiveUp(c) => c < |s.callers| && s.callers[c].Listening?
    case Admit(c) => c < |s.callers| && s.callers[c].Granted?
    case Finish(c) => c < |s.callers| && s.callers[c].Running?
    case Take(c, _) => c < |s.callers| && s.callers[c].Dequeuing?
    case Emit(c) => c < |s.callers| && s.callers[c].Notifying?
  }

  function Request(c: nat, clientId: string, toolName: string): Q.QueuedRequest {
    Q.QueuedRequest(c, clientId, toolName, 0, 0)
  }

  function Apply(cfg: Config, s: State, e: Event): State {
    if !Enabled(s, e) then s else
    match e
    case Arrive =>
      if s.active >= cfg.maxConcurrent then s.(callers := s.callers + [Enqueuing])
      else s.(active := s.active + 1, callers := s.callers + [Running(false)],
              barges := s.barges + if s.active + Sum(s.callers, SlotInTransit) >= cfg.maxConcurrent then 1 else 0)
    case Enter(c, clientId, toolName, now) =>
      var full := Q.Enqueued(cfg.queue, s.trace.q, Request(c, clientId, toolName), now).Failure?;
      s.(trace := Q.Step(cfg.queue, s.trace, Q.Enqueue(Request(c, clientId, toolName), now)),
         callers := s.callers[c := if full then Failed else Enqueued])
    case Listen(c) => s.(callers := s.callers[c := Listening])
    case GiveUp(c) => s.(callers := s.callers[c := Failed])
    case Admit(c) => s.(active := s.active + 1, callers := s.callers[c := Running(true)])
    case Finish(c) => s.(active := s.active - 1, callers := s.callers[c := Dequeuing(s.callers[c].queued)])
    case Take(c, now) =>
      s.(trace := Q.Step(cfg.queue, s.trace, Q.Dequeue(now)),
         callers := s.callers[c := Notifying(s.callers[c].queued, NextId(s.trace.q, now))])
    case Emit(c) =>
      var callers := s.callers[c := Done(s.callers[c].queued)];
      var next := s.callers[c].next;
      if next.None? then s.(callers := callers)
      else if next.value < |callers| && callers[next.value].Listening?
      then s.(callers := callers[next.value := Granted],
              emitted := s.emitted + [next.value], granted := s.granted + [next.value])
      else s.(callers := callers, emitted := s.emitted + [next.value])
  }

  function NextId(q: Q.Queue, now: int): Option<nat> {
    var r := Q.Dequeued(q, now).1;
    if r.Some? then Some(r.value.requestId) else None
  }

  function After(cfg: Config, es: seq<Event>): State {
    if es == [] then INIT else Apply(cfg, After(cfg, es[..|es| - 1]), es[|es| - 1])
  }

  lemma AfterSnoc(cfg: Config, es: seq<Event>, e: Event)
    ensures After(cfg, es + [e]) == Apply(cfg, After(cfg, es), e)
  {
    assert (es + [e])[..|es|] == es;
  }

  // ----- What each phase counts for

  function RunningOnes(p: Phase): int {
    if p.Running? then 1 else 0
  }

  function RunningDirectly(p: Phase): int {
    if p.Running? && !p.queued then 1 else 0
  }

  function AdmittedFromQueue(p: Phase): int {
    if (p.Running? || p.Dequeuing? || p.Notifying? || p.Done?) && p.queued then 1 else 0
  }

  function GrantedEver(p: Phase): int {
    if p.Granted? then 1 else AdmittedFromQueue(p)
  }

  function Completed(p: Phase): int {
    if p.Dequeuing? || p.Notifying? || p.Done? then 1 else 0
  }

  function HandedOn(p: Phase): int {
    if p.Done? then 1 else 0
  }

  /** A freed slot between the decrement and the moment its new owner counts itself in. */
  function SlotInTransit(p: Phase): int {
    if p.Dequeuing? || (p.Notifying? && p.next.Some?) || p.Granted? then 1 else 0
  }

  ghost predicate Inv(cfg: Config, s: State) {
    && s.active == Sum(s.callers, RunningOnes)
    && Sum(s.callers, RunningDirectly) <= cfg.maxConcurrent
    && Sum(s.callers, GrantedEver) <= Sum(s.callers, HandedOn)
    && s.active + Sum(s.callers, SlotInTransit) <= cfg.maxConcurrent + s.barges
    && Subsequence(s.trace.handedOut + s.trace.q.items, s.trace.entered)
  }

  ghost predicate WakesListener(s: State, e: Event) {
    && e.Emit? && Enabled(s, e) && s.callers[e.c].next.Some?
    && s.callers[e.c].next.value < |s.callers| && s.callers[s.callers[e.c].next.value].Listening?
  }

  lemma WeightMoves(cfg: Config, s: State, e: Event, weight: Phase -> int)
    requires Enabled(s, e)
    ensures
      var s' := Apply(cfg, s, e);
      if e.Arrive? then Sum(s'.callers, weight) == Sum(s.callers, weight) + weight(s'.callers[|s.callers|])
      else Sum(s'.callers, weight) == Sum(s.callers, weight) - weight(s.callers[e.c]) + weight(s'.callers[e.c])
             + if WakesListener(s, e) then weight(Granted) - weight(Listening) else 0
  {
    var s' := Apply(cfg, s, e);
    match e {
      case Arrive => SumAppend(s.callers, s'.callers[|s.callers|], weight);
      case Emit(c) =>
        var mid := s.callers[c := Done(s.callers[c].queued)];
        SumUpdate(s.callers, c, Done(s.callers[c].queued), weight);
        if WakesListener(s, e) {
          SumUpdate(mid, s.callers[c].next.value, Granted, weight);
        }
      case _ =>
        SumUpdate(s.callers, e.c, s'.callers[e.c], weight);
    }
  }

  lemma CountsKept(cfg: Config, s: State, e: Event)
    requires Inv(cfg, s) && Enabled(s, e)
    ensures
      var s' := Apply(cfg, s, e);
      && s'.active == Sum(s'.callers, RunningOnes)
      && Sum(s'.callers, RunningDirectly) <= cfg.maxConcurrent
  {
    hide Sum, Q.Step, Subsequence;
    WeightMoves(cfg, s, e, RunningOnes);
    WeightMoves(cfg, s, e, RunningDirectly);
    SumOrder(s.callers, RunningDirectly, RunningOnes);
  }

  lemma GrantsKept(cfg: Config, s: State, e: Event)
    requires Inv(cfg, s) && Enabled(s, e)
    ensures
      var s' := Apply(cfg, s, e);
      Sum(s'.callers, GrantedEver) <= Sum(s'.callers, HandedOn)
  {
    hide Sum, Q.Step, Subsequence;
    WeightMoves(cfg, s, e, GrantedEver);
    WeightMoves(cfg, s, e, HandedOn);
  }

  lemma TransitKept(cfg: Config, s: State, e: Event)
    requires Inv(cfg, s) && Enabled(s, e)
    ensures
      var s' := Apply(cfg, s, e);
      s'.active + Sum(s'.callers, SlotInTransit) <= cfg.maxConcurrent + s'.barges
  {
    hide Sum, Q.Step, Subsequence;
    WeightMoves(cfg, s, e, SlotInTransit);
    SumNonNegative(s.callers, SlotInTransit);
  }

  lemma OrderKept(cfg: Config, s: State, e: Event)
    requires Inv(cfg, s) && Enabled(s, e)
    ensures var t := Apply(cfg, s, e).trace; Subsequence(t.handedOut + t.q.items, t.entered)
  {
    match e {
      case Enter(c, clientId, toolName, now) =>
        Q.StepInOrder(cfg.queue, s.trace, Q.Enqueue(Request(c, clientId, toolName), now));
      case Take(_, now) =>
        Q.StepInOrder(cfg.queue, s.trace, Q.Dequeue(now));
      case _ =>
    }
  }

  lemma {:induction false} Always(cfg: Config, es: seq<Event>)
    ensures Inv(cfg, After(cfg, es))
  {
    if es != [] {
      var s, e := After(cfg, es[..|es| - 1]), es[|es| - 1];
      Always(cfg, es[..|es| - 1]);
      if Enabled(s, e) {
        CountsKept(cfg, s, e);
        GrantsKept(cfg, s, e);
        TransitKept(cfg, s, e);
        OrderKept(cfg, s, e);
      }
    } else {
      assert INIT.trace.handedOut + INIT.trace.q.items == [];
    }
  }

  /**
   * In every interleaving: the count is the number of running calls; the running calls that came straight
   * through the capacity check never exceed the limit; calls admitted from the queue never outnumber the
   * completed ones; and slots are handed out in the order of enqueuing.
   */
  lemma Protocol(cfg: Config, es: seq<Event>)
    ensures
      var s := After(cfg, es);
      && s.active == Sum(s.callers, RunningOnes)
      && Sum(s.callers, RunningDirectly) <= cfg.maxConcurrent
      && Sum(s.callers, AdmittedFromQueue) <= Sum(s.callers, Completed)
      && Subsequence(s.trace.handedOut + s.trace.q.items, s.trace.entered)
  {
    Always(cfg, es);
    var s := After(cfg, es);
    SumOrder(s.callers, AdmittedFromQueue, GrantedEver);
    SumOrder(s.callers, HandedOn, Completed);
  }

  /** The running calls and the slots in transit exceed the limit by at most the number of barge-ins. */
  lemma BargeBound(cfg: Config, es: seq<Event>)
    ensures
      var s := After(cfg, es);
      && s.active + Sum(s.callers, SlotInTransit) <= cfg.maxConcurrent + s.barges
      && 0 <= s.active <= cfg.maxConcurrent + s.barges
  {
    Always(cfg, es);
    SumNonNegative(After(cfg, es).callers, SlotInTransit);
    SumNonNegative(After(cfg, es).callers, RunningOnes);
  }
}
