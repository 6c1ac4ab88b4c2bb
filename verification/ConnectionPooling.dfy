/**
 * Slot pool with hand-off and graceful drain (src/mcp/connection-pool.ts). A promise's resolve
 * function is represented by the number of the caller that awaits it.
 */
module ConnectionPooling {
  import opened Wrappers
  import opened Sequences

  datatype Pool = Pool(
    maxConcurrent: int,
    activeConnections: int,
    waitingQueue: seq<nat>,
    draining: bool,
    drainResolvers: seq<nat>)

  datatype Grant = Granted | Waiting | Rejected

  datatype Error = MaxConcurrentTooSmall

  function Acquired(p: Pool, caller: nat): (Pool, Grant) {
    if p.draining then (p, Rejected)
    else if p.activeConnections < p.maxConcurrent
    then (p.(activeConnections := p.activeConnections + 1), Granted)
    else (p.(waitingQueue := p.waitingQueue + [caller]), Waiting)
  }

  /** The new pool, the waiting caller that inherits the slot, and the drain calls that are resolved. */
  function Released(p: Pool): (Pool, Option<nat>, seq<nat>) {
    if p.waitingQueue != [] then
      (p.(waitingQueue := p.waitingQueue[1..]), Some(p.waitingQueue[0]), [])
    else
      var active := p.activeConnections - 1;
      if active == 0 && p.draining
      then (p.(activeConnections := active, drainResolvers := []), None, p.drainResolvers)
      else (p.(activeConnections := active), None, [])
  }

  /** The new pool, and whether the drain call returns without waiting. */
  function Drained(p: Pool, caller: nat): (Pool, bool) {
    var p' := p.(draining := true, waitingQueue := []);
    if p.activeConnections > 0
    then (p'.(drainResolvers := p.drainResolvers + [caller]), false)
    else (p', true)
  }

  class ConnectionPool {
    const maxConcurrent: int
    var activeConnections: int
    var waitingQueue: seq<nat>
    var draining: bool
    var drainResolvers: seq<nat>

    ghost function View(): Pool
      reads this
    {
      Pool(maxConcurrent, activeConnections, waitingQueue, draining, drainResolvers)
    }

    constructor (maxConcurrent: int)
      ensures View() == Pool(maxConcurrent, 0, [], false, [])
    {
      this.maxConcurrent := maxConcurrent;
      activeConnections, waitingQueue, draining, drainResolvers := 0, [], false, [];
    }

    static method Create(maxConcurrent: int) returns (r: Result<ConnectionPool, Error>)
      ensures r.Success? <==> maxConcurrent >= 1
      ensures r.Success? ==> fresh(r.value) && r.value.View() == Pool(maxConcurrent, 0, [], false, [])
    {
      if maxConcurrent < 1 {
        return Failure(MaxConcurrentTooSmall);
      }
      var p := new ConnectionPool(maxConcurrent);
      r := Success(p);
    }

    method Acquire(caller: nat) returns (g: Grant)
      modifies this
      ensures (View(), g) == Acquired(old(View()), caller)
      ensures g.Rejected? <==> old(draining)
      ensures g.Granted? <==> !old(draining) && old(activeConnections) < maxConcurrent
      ensures activeConnections == old(activeConnections) + if g.Granted? then 1 else 0
      ensures waitingQueue == old(waitingQueue) + if g.Waiting? then [caller] else []
    {
      if draining {
        return Rejected;
      }
      if activeConnections < maxConcurrent {
        activeConnections := activeConnections + 1;
        return Granted;
      }
      waitingQueue := waitingQueue + [caller];
      g := Waiting;
    }

    method Release() returns (woken: Option<nat>, resolved: seq<nat>)
      modifies this
      ensures (View(), woken, resolved) == Released(old(View()))
    {
      woken, resolved := None, [];
      if waitingQueue != [] {
        woken := Some(waitingQueue[0]);
        waitingQueue := waitingQueue[1..];
      } else {
        activeConnections := activeConnections - 1;
        if activeConnections == 0 && draining {
          resolved := drainResolvers;
          drainResolvers := [];
        }
      }
    }

    method Drain(caller: nat) returns (immediately: bool)
      modifies this
      ensures (View(), immediately) == Drained(old(View()), caller)
      ensures draining && waitingQueue == [] && activeConnections == old(activeConnections)
      ensures immediately <==> old(activeConnections) <= 0
      ensures drainResolvers == old(drainResolvers) + if immediately then [] else [caller]
    {
      draining := true;
      waitingQueue := [];
      if activeConnections > 0 {
        drainResolvers := drainResolvers + [caller];
        return false;
      }
      immediately := true;
    }
  }

  // ----- Runs of callers that acquire, hold, and release exactly once

  datatype Event =
    | Arrive
    | Finish(caller: nat)
    | Drain(caller: nat)
    | Timeout(caller: nat)

  /**
   * Callers are numbered in arrival order. A caller's promise is fulfilled when it is in `grants`, rejected
   * when it is in `rejected`; `dropped` holds those whose resolve function was thrown away.
   */
  datatype System = System(
    pool: Pool,
    callers: nat,
    holders: set<nat>,
    arrivals: seq<nat>,
    grants: seq<nat>,
    rejected: set<nat>,
    dropped: set<nat>,
    drainsReturned: seq<nat>,
    drainsTimedOut: set<nat>)

  function Start(max: int): System {
    System(Pool(max, 0, [], false, []), 0, {}, [], [], {}, {}, [], {})
  }

  predicate Enabled(s: System, e: Event) {
    match e
    case Finish(c) => c in s.holders
    case Timeout(d) => d in s.pool.drainResolvers
    case _ => true
  }

  function Apply(s: System, e: Event): System {
    if !Enabled(s, e) then s else
    match e
    case Arrive =>
      var c := s.callers;
      var (p, g) := Acquired(s.pool, c);
      var s' := s.(pool := p, callers := c + 1);
      if g.Rejected? then s'.(rejected := s.rejected + {c})
      else if g.Granted? then s'.(holders := s.holders + {c}, arrivals := s.arrivals + [c], grants := s.grants + [c])
      else s'.(arrivals := s.arrivals + [c])
    case Finish(c) =>
      var (p, woken, resolved) := Released(s.pool);
      var s' := s.(pool := p, holders := s.holders - {c}, drainsReturned := s.drainsReturned + resolved);
      if woken.Some?
      then s'.(holders := s'.holders + {woken.value}, grants := s.grants + [woken.value])
      else s'
    case Drain(d) =>
      var (p, immediately) := Drained(s.pool, d);
      s.(pool := p,
         dropped := s.dropped + (set c | c in s.pool.waitingQueue),
         drainsReturned := s.drainsReturned + if immediately then [d] else [])
    case Timeout(d) =>
      // The drain call returns by its timer; its resolver stays in the list, to be called without effect.
      s.(drainsTimedOut := s.drainsTimedOut + {d})
  }

  function From(s: System, es: seq<Event>): System {
    if es == [] then s else Apply(From(s, es[..|es| - 1]), es[|es| - 1])
  }

  ghost predicate Inv(s: System) {
    PoolInv(s) && CallersInv(s)
  }

  ghost predicate PoolInv(s: System) {
    var p := s.pool;
    && p.activeConnections == |s.holders|
    && p.activeConnections <= p.maxConcurrent && 1 <= p.maxConcurrent
    && (p.waitingQueue != [] ==> p.activeConnections == p.maxConcurrent)
    && Increasing(p.waitingQueue)
    && (forall i | 0 <= i < |p.waitingQueue| :: p.waitingQueue[i] < s.callers && p.waitingQueue[i] !in s.holders)
    && (forall c | c in s.holders :: c < s.callers)
    && (!p.draining ==> s.grants + p.waitingQueue == s.arrivals && p.drainResolvers == [])
    && (p.draining ==> p.waitingQueue == [])
    && (p.draining && p.activeConnections == 0 ==> p.drainResolvers == [])
  }

  ghost predicate Increasing(cs: seq<nat>) {
    forall i, j | 0 <= i < j < |cs| :: cs[i] < cs[j]
  }

  /** Every caller that arrived is in exactly one place, and nobody is granted a slot twice. */
  ghost predicate CallersInv(s: System) {
    && (forall c | 0 <= c < s.callers :: c in s.grants || c in s.pool.waitingQueue || c in s.rejected || c in s.dropped)
    && (forall c | c in s.grants :: c < s.callers && c !in s.pool.waitingQueue)
    && (forall c | c in s.rejected + s.dropped :: c < s.callers && c !in s.grants && c !in s.pool.waitingQueue)
    && s.rejected !! s.dropped
    && (forall c | c in s.holders :: c in s.grants)
    && Distinct(s.grants)
    && (!s.pool.draining ==> s.rejected == s.dropped == {})
  }

  function Elements(cs: seq<nat>): set<nat> {
    set c | c in cs
  }

  lemma ArriveKeeps(s: System)
    requires PoolInv(s)
    ensures PoolInv(Apply(s, Arrive))
  {
    assert s.callers !in s.holders;
  }

  lemma RejectedPlaced(s: System)
    requires Inv(s) && s.pool.draining
    ensures CallersInv(Apply(s, Arrive))
  {
    var s' := Apply(s, Arrive);
    assert s'.grants == s.grants && s'.pool == s.pool && s'.rejected == s.rejected + {s.callers};
  }

  lemma AdmittedPlaced(s: System)
    requires Inv(s) && !s.pool.draining && s.pool.activeConnections < s.pool.maxConcurrent
    ensures CallersInv(Apply(s, Arrive))
  {
    var s' := Apply(s, Arrive);
    assert s'.grants == s.grants + [s.callers] && s'.pool.waitingQueue == s.pool.waitingQueue;
  }

  lemma QueuedPlaced(s: System)
    requires Inv(s) && !s.pool.draining && s.pool.activeConnections >= s.pool.maxConcurrent
    ensures CallersInv(Apply(s, Arrive))
  {
    var s' := Apply(s, Arrive);
    assert s'.grants == s.grants && s'.pool.waitingQueue == s.pool.waitingQueue + [s.callers];
  }

  lemma ArrivePlaced(s: System)
    requires Inv(s)
    ensures CallersInv(Apply(s, Arrive))
  {
    hide Inv;
    if s.pool.draining {
      RejectedPlaced(s);
    } else if s.pool.activeConnections < s.pool.maxConcurrent {
      AdmittedPlaced(s);
    } else {
      QueuedPlaced(s);
    }
  }

  lemma FinishKeeps(s: System, c: nat)
    requires PoolInv(s) && c in s.holders
    ensures PoolInv(Apply(s, Finish(c)))
  {
    var s' := Apply(s, Finish(c));
    if s.pool.waitingQueue != [] {
      var w := s.pool.waitingQueue[0];
      assert s'.holders == s.holders - {c} + {w};
      assert w !in s.holders;
      assert s'.pool.waitingQueue == s.pool.waitingQueue[1..];
      assert s.grants + s.pool.waitingQueue == s'.grants + s'.pool.waitingQueue;
    }
  }

  lemma FinishPlaced(s: System, c: nat)
    requires Inv(s) && c in s.holders
    ensures CallersInv(Apply(s, Finish(c)))
  {
    var s', q := Apply(s, Finish(c)), s.pool.waitingQueue;
    if q != [] {
      assert q == [q[0]] + q[1..];
      assert q[0] !in s.grants;
      assert q[0] in s'.grants;
      forall x | x in s.grants ensures x in s'.grants && x !in q[1..] {
        assert x !in q;
      }
    }
  }

  lemma DrainKeeps(s: System, d: nat)
    requires PoolInv(s)
    ensures PoolInv(Apply(s, Drain(d)))
  {
  }

  lemma DrainPlaced(s: System, d: nat)
    requires Inv(s)
    ensures CallersInv(Apply(s, Drain(d)))
  {
    var s' := Apply(s, Drain(d));
    assert s'.dropped == s.dropped + Elements(s.pool.waitingQueue) && s'.pool.waitingQueue == [];
  }

  lemma TimeoutKeeps(s: System, d: nat)
    requires Inv(s)
    ensures Inv(Apply(s, Timeout(d)))
  {
  }

  lemma StepKeeps(s: System, e: Event)
    requires Inv(s)
    ensures Inv(Apply(s, e)) && Apply(s, e).pool.maxConcurrent == s.pool.maxConcurrent
  {
    hide PoolInv, CallersInv;
    match e {
      case Arrive =>
        ArriveKeeps(s);
        ArrivePlaced(s);
      case Finish(c) =>
        if c in s.holders {
          FinishKeeps(s, c);
          FinishPlaced(s, c);
        }
      case Drain(d) =>
        DrainKeeps(s, d);
        DrainPlaced(s, d);
      case Timeout(d) =>
        TimeoutKeeps(s, d);
    }
  }

  lemma StartKeeps(max: int)
    requires max >= 1
    ensures Inv(Start(max))
  {
  }

  /**
   * Slot pool: in every run of paired acquires and releases the count is the number of holders and within
   * the limit, somebody waits only when every slot is taken, and until a drain begins the grants followed
   * by the waiting queue are exactly the arrivals in order. While draining, nobody waits, and no drain
   * call is left unresolved once the count is zero.
   */
  lemma {:induction false} SlotPool(max: int, es: seq<Event>)
    requires max >= 1
    ensures Inv(From(Start(max), es)) && From(Start(max), es).pool.maxConcurrent == max
  {
    hide Inv, Apply;
    if es == [] {
      StartKeeps(max);
    } else {
      SlotPool(max, es[..|es| - 1]);
      StepKeeps(From(Start(max), es[..|es| - 1]), es[|es| - 1]);
    }
  }

  // ----- Drain

  lemma DrainingStep(s: System, e: Event)
    requires Inv(s) && s.pool.draining
    ensures
      var s' := Apply(s, e);
      && s'.pool.draining && s'.grants == s.grants && s'.holders <= s.holders
      && s'.pool.activeConnections <= s.pool.activeConnections
  {
  }

  /** Once draining, no step admits anybody, and the count only falls: by one for each release. */
  lemma {:induction false} DrainingOnlyShrinks(s: System, es: seq<Event>)
    requires Inv(s) && s.pool.draining
    ensures
      var s' := From(s, es);
      && Inv(s') && s'.pool.draining
      && s'.grants == s.grants && s'.holders <= s.holders
      && s'.pool.activeConnections <= s.pool.activeConnections
  {
    hide Inv, Apply;
    if es == [] {
    } else {
      DrainingOnlyShrinks(s, es[..|es| - 1]);
      StepKeeps(From(s, es[..|es| - 1]), es[|es| - 1]);
      DrainingStep(From(s, es[..|es| - 1]), es[|es| - 1]);
    }
  }

  /** A drain call is resolved by the release that takes the count to zero, and by no other. */
  lemma ResolvedByLastRelease(s: System, c: nat)
    requires Inv(s) && s.pool.draining && c in s.holders
    ensures
      var s' := Apply(s, Finish(c));
      && s'.pool.activeConnections == s.pool.activeConnections - 1
      && (s'.pool.activeConnections == 0 ==>
            s'.drainsReturned == s.drainsReturned + s.pool.drainResolvers && s'.pool.drainResolvers == [])
      && (s'.pool.activeConnections > 0 ==>
            s'.drainsReturned == s.drainsReturned && s'.pool.drainResolvers == s.pool.drainResolvers)
  {
  }

  function Finishes(callers: seq<nat>): seq<Event> {
    if callers == [] then [] else Finishes(callers[..|callers| - 1]) + [Finish(callers[|callers| - 1])]
  }

  /** `s'` is `s` after the callers `gone` released: the drain calls are back if and only if nobody is left. */
  ghost predicate Shrunk(s: System, s': System, gone: set<nat>) {
    && Inv(s') && s'.pool.draining && s'.holders == s.holders - gone
    && (s'.holders == {} ==>
          s'.drainsReturned == s.drainsReturned + s.pool.drainResolvers && s'.pool.drainResolvers == [])
    && (s'.holders != {} ==>
          s'.drainsReturned == s.drainsReturned && s'.pool.drainResolvers == s.pool.drainResolvers)
  }

  lemma ShrinkByOne(s: System, s': System, gone: set<nat>, c: nat)
    requires Shrunk(s, s', gone) && c in s'.holders
    ensures Shrunk(s, Apply(s', Finish(c)), gone + {c})
  {
    ResolvedByLastRelease(s', c);
    StepKeeps(s', Finish(c));
    assert Apply(s', Finish(c)).holders == s.holders - (gone + {c});
  }

  lemma FromSnoc(s: System, es: seq<Event>, e: Event)
    ensures From(s, es + [e]) == Apply(From(s, es), e)
  {
    assert (es + [e])[..|es|] == es;
  }

  lemma ElementsSnoc(cs: seq<nat>, c: nat)
    requires Distinct(cs + [c])
    ensures Elements(cs + [c]) == Elements(cs) + {c} && c !in Elements(cs) && Distinct(cs)
  {
    forall i | 0 <= i < |cs| ensures cs[i] != c && (cs + [c])[i] == cs[i] {
      assert (cs + [c])[i] != (cs + [c])[|cs|];
    }
  }

  /** Distinct holders release one after the other: only the last of all brings the drain calls back. */
  lemma {:induction false} DrainStepByStep(s: System, order: seq<nat>)
    requires Inv(s) && s.pool.draining && s.holders != {}
    requires Distinct(order) && Elements(order) <= s.holders
    ensures Shrunk(s, From(s, Finishes(order)), Elements(order))
  {
    if order == [] {
    } else {
      var rest, c := order[..|order| - 1], order[|order| - 1];
      assert order == rest + [c];
      ElementsSnoc(rest, c);
      DrainStepByStep(s, rest);
      ShrinkByOne(s, From(s, Finishes(rest)), Elements(rest), c);
      FromSnoc(s, Finishes(rest), Finish(c));
    }
  }

  /** Whatever order the holders release in, the drain ends with an empty pool and every drain call returned. */
  lemma DrainCompletes(s: System, order: seq<nat>)
    requires Inv(s) && s.pool.draining && s.holders != {}
    requires Distinct(order) && Elements(order) == s.holders
    ensures
      var s' := From(s, Finishes(order));
      && s'.pool.activeConnections == 0 && s'.pool.drainResolvers == []
      && s'.drainsReturned == s.drainsReturned + s.pool.drainResolvers
  {
    DrainStepByStep(s, order);
  }

  // ----- Whose promise is ever settled

  ghost predicate Settled(s: System, c: nat) {
    c in s.grants || c in s.rejected
  }

  lemma {:induction false} FromCons(s: System, e: Event, es: seq<Event>)
    ensures From(s, [e] + es) == From(Apply(s, e), es)
  {
    if es == [] {
      assert ([e] + es)[..0] == [];
    } else {
      FromCons(s, e, es[..|es| - 1]);
      assert ([e] + es)[..|es|] == [e] + es[..|es| - 1];
    }
  }

  /** While somebody waits, any release grants the first in the queue its slot. */
  lemma NextGrant(s: System) returns (e: Event)
    requires Inv(s) && s.pool.waitingQueue != []
    ensures e.Finish? && Enabled(s, e) && Inv(Apply(s, e))
    ensures Apply(s, e).grants == s.grants + [s.pool.waitingQueue[0]]
    ensures Apply(s, e).pool.waitingQueue == s.pool.waitingQueue[1..]
  {
    var c :| c in s.holders;
    e := Finish(c);
    StepKeeps(s, e);
  }

  /** The caller in place i of the queue is granted a slot by i + 1 releases. */
  lemma {:induction false} GrantReached(s: System, i: nat) returns (es: seq<Event>)
    requires Inv(s) && i < |s.pool.waitingQueue|
    ensures |es| == i + 1 && (forall e | e in es :: e.Finish?)
    ensures s.pool.waitingQueue[i] in From(s, es).grants
    decreases i
  {
    var e := NextGrant(s);
    var s' := Apply(s, e);
    if i == 0 {
      es := [e];
      FromCons(s, e, []);
      assert From(s', []) == s';
      assert s.pool.waitingQueue[0] in s'.grants;
    } else {
      var rest := GrantReached(s', i - 1);
      es := [e] + rest;
      FromCons(s, e, rest);
    }
  }

  /** Only a drain drops callers: those waiting when it begins. */
  lemma DroppedByStep(s: System, e: Event)
    ensures Apply(s, e).dropped == s.dropped + if e.Drain? then Elements(s.pool.waitingQueue) else {}
  {
  }

  lemma {:induction false} DroppedForGood(s: System, es: seq<Event>, c: nat)
    requires Inv(s) && c in s.dropped
    ensures Inv(From(s, es)) && c in From(s, es).dropped && !Settled(From(s, es), c)
  {
    if es == [] {
    } else {
      DroppedForGood(s, es[..|es| - 1], c);
      StepKeeps(From(s, es[..|es| - 1]), es[|es| - 1]);
      DroppedByStep(From(s, es[..|es| - 1]), es[|es| - 1]);
    }
  }

  ghost predicate CanSettle(s: System, c: nat) {
    exists es :: Settled(From(s, es), c)
  }

  /** In every reachable state, a caller's promise can still be settled exactly when no drain has dropped it. */
  lemma SettlesIff(max: int, before: seq<Event>, c: nat)
    requires max >= 1 && c < From(Start(max), before).callers
    ensures CanSettle(From(Start(max), before), c) <==> c !in From(Start(max), before).dropped
  {
    SlotPool(max, before);
    var s := From(Start(max), before);
    if c in s.dropped {
      forall es ensures !Settled(From(s, es), c) {
        DroppedForGood(s, es, c);
      }
    } else if c in s.pool.waitingQueue {
      var i :| 0 <= i < |s.pool.waitingQueue| && s.pool.waitingQueue[i] == c;
      var es := GrantReached(s, i);
      assert Settled(From(s, es), c);
    } else {
      assert Settled(From(s, []), c);
    }
  }

  /**
   * A drain decides the fate of a waiting caller: without it, as many releases as its place in the queue
   * says grant it a slot; after it, no continuation whatever settles its promise.
   */
  lemma DroppedByDrain(max: int, before: seq<Event>, d: nat, i: nat)
    requires max >= 1 && i < |From(Start(max), before).pool.waitingQueue|
    ensures
      var s := From(Start(max), before);
      var c := s.pool.waitingQueue[i];
      && !Settled(s, c)
      && (exists es: seq<Event> :: |es| == i + 1 && (forall e | e in es :: e.Finish?) && Settled(From(s, es), c))
      && (forall es: seq<Event> :: !Settled(From(Apply(s, Drain(d)), es), c))
  {
    SlotPool(max, before);
    var s := From(Start(max), before);
    var c := s.pool.waitingQueue[i];
    var es := GrantReached(s, i);
    assert |es| == i + 1 && (forall e | e in es :: e.Finish?) && Settled(From(s, es), c);
    DroppedByStep(s, Drain(d));
    StepKeeps(s, Drain(d));
    forall later ensures !Settled(From(Apply(s, Drain(d)), later), c) {
      DroppedForGood(Apply(s, Drain(d)), later, c);
    }
  }

  // ----- When a drain call returns

  /** A drain call returns at once exactly when nobody holds a slot, and otherwise waits in the list. */
  lemma DrainWaitsForHolders(max: int, es: seq<Event>, d: nat)
    requires max >= 1
    ensures
      var s, s' := From(Start(max), es), From(Start(max), es + [Drain(d)]);
      && s'.pool.draining && s'.holders == s.holders && s'.grants == s.grants
      && s'.drainsReturned == s.drainsReturned + (if s.holders == {} then [d] else [])
      && s'.pool.drainResolvers == s.pool.drainResolvers + (if s.holders == {} then [] else [d])
  {
    SlotPool(max, es);
    FromSnoc(Start(max), es, Drain(d));
    assert From(Start(max), es).pool.drainResolvers + [] == From(Start(max), es).pool.drainResolvers;
  }

  /** Whenever a drain call returns, other than by its timer, nobody holds a slot any more. */
  lemma ReturnedWhenEmpty(max: int, es: seq<Event>, e: Event)
    requires max >= 1
    requires From(Start(max), es + [e]).drainsReturned != From(Start(max), es).drainsReturned
    ensures From(Start(max), es + [e]).holders == {}
  {
    SlotPool(max, es);
    SlotPool(max, es + [e]);
    FromSnoc(Start(max), es, e);
    var s := From(Start(max), es);
    assert s.drainsReturned + [] == s.drainsReturned;
  }

  /** The drain calls made so far. */
  function DrainCalls(es: seq<Event>): seq<nat> {
    if es == [] then []
    else DrainCalls(es[..|es| - 1]) + if es[|es| - 1].Drain? then [es[|es| - 1].caller] else []
  }

  /** Every drain call made has returned or is still in the list, and none is lost or returned twice. */
  lemma {:induction false} DrainsAccounted(max: int, es: seq<Event>)
    requires max >= 1
    ensures
      var s := From(Start(max), es);
      multiset(DrainCalls(es)) == multiset(s.drainsReturned) + multiset(s.pool.drainResolvers)
  {
    if es == [] {
    } else {
      var before, e := es[..|es| - 1], es[|es| - 1];
      hide Apply;
      DrainsAccounted(max, before);
      DrainStepAccounted(From(Start(max), before), e);
      assert DrainCalls(before) + [] == DrainCalls(before);
    }
  }

  lemma DrainStepAccounted(s: System, e: Event)
    ensures
      var s' := Apply(s, e);
      multiset(s'.drainsReturned) + multiset(s'.pool.drainResolvers) ==
      multiset(s.drainsReturned) + multiset(s.pool.drainResolvers) +
      (if e.Drain? then multiset{e.caller} else multiset{})
  {
    hide Apply;
    DrainStepMoves(s, e);
  }

  /** A step leaves the drain calls where they are, adds its own, or returns all that wait. */
  lemma DrainStepMoves(s: System, e: Event)
    ensures
      var s', r, w := Apply(s, e), s.drainsReturned, s.pool.drainResolvers;
      if e.Drain? then
        || (s'.drainsReturned == r + [e.caller] && s'.pool.drainResolvers == w)
        || (s'.drainsReturned == r && s'.pool.drainResolvers == w + [e.caller])
      else
        || (s'.drainsReturned == r && s'.pool.drainResolvers == w)
        || (s'.drainsReturned == r + w && s'.pool.drainResolvers == [])
  {
    assert s.drainsReturned + [] == s.drainsReturned;
  }

  ghost predicate TimedOutAt(max: int, es: seq<Event>, n: nat, d: nat) {
    n < |es| && es[n] == Timeout(d) && d in From(Start(max), es[..n]).pool.drainResolvers
  }

  /** A drain call is returned by its timer exactly when the timer ran out while the call was waiting. */
  lemma {:induction false} TimedOutIff(max: int, es: seq<Event>, d: nat)
    ensures d in From(Start(max), es).drainsTimedOut <==> exists n: nat :: TimedOutAt(max, es, n, d)
  {
    if es == [] {
    } else {
      var before, e := es[..|es| - 1], es[|es| - 1];
      TimedOutIff(max, before, d);
      assert forall n: nat | n < |before| :: es[..n] == before[..n];
      assert forall n: nat | n < |before| :: TimedOutAt(max, es, n, d) <==> TimedOutAt(max, before, n, d);
      assert TimedOutAt(max, es, |before|, d) <==>
             e == Timeout(d) && d in From(Start(max), before).pool.drainResolvers;
    }
  }

  /** From a drain call on, every arrival is rejected and nobody is granted a slot. */
  lemma {:induction false} NothingAfterDrain(max: int, before: seq<Event>, d: nat, later: seq<Event>)
    requires max >= 1
    ensures
      var s, s' := From(Start(max), before), From(From(Start(max), before + [Drain(d)]), later);
      && Inv(s') && s'.pool.draining && s'.grants == s.grants
      && forall c | s.callers <= c < s'.callers :: c in s'.rejected
  {
    DrainWaitsForHolders(max, before, d);
    SlotPool(max, before + [Drain(d)]);
    FromSnoc(Start(max), before, Drain(d));
    var s0 := From(Start(max), before + [Drain(d)]);
    hide Inv, Apply;
    if later == [] {
      DrainAddsNobody(From(Start(max), before), d);
    } else {
      NothingAfterDrain(max, before, d, later[..|later| - 1]);
      StepKeeps(From(s0, later[..|later| - 1]), later[|later| - 1]);
      DrainingStep(From(s0, later[..|later| - 1]), later[|later| - 1]);
      ArrivalsRejected(From(s0, later[..|later| - 1]), later[|later| - 1]);
    }
  }

  lemma DrainAddsNobody(s: System, d: nat)
    ensures Apply(s, Drain(d)).callers == s.callers
  {
  }

  lemma ArrivalsRejected(s: System, e: Event)
    requires s.pool.draining
    ensures
      var s' := Apply(s, e);
      && s'.callers == s.callers + (if e.Arrive? then 1 else 0)
      && s'.rejected == s.rejected + (if e.Arrive? then {s.callers} else {})
  {
  }
}
