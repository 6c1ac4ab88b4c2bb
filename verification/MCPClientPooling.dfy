/**
 * The pool object itself (src/mcp/client-pool.ts), changed in place: each method is the code of callTool,
 * waitForQueueSlot or processNextQueuedRequest between two awaits. The ghost history is the run of the
 * protocol performed so far; counter, queue and listeners are always those of that run, so what is proved
 * about every interleaving holds of the pool.
 */
module MCPClientPooling {
  import opened Wrappers
  import opened Sequences
  import opened ClientPool
  import opened ClientPoolGrants
  import Q = RequestQueue

  class MCPClientPool {
    const config: Config
    const connectionQueue: Q.ConnectionQueue
    var activeConcurrent: int
    var slotListeners: set<nat>
    ghost var history: seq<Event>

    /** Where the protocol stands: the program counter of every caller, and what was handed out so far. */
    ghost function Protocol(): State
      reads this
    {
      After(config, history)
    }

    ghost predicate Valid()
      reads this, connectionQueue
    {
      && connectionQueue.config == config.queue
      && connectionQueue.View() == Protocol().trace.q
      && activeConcurrent == Protocol().active
      && Listened(Protocol().callers, slotListeners)
    }

    /** At most one call above the limit is running for every newcomer that barged in. */
    ghost predicate WithinBound()
      reads this
    {
      0 <= activeConcurrent <= config.maxConcurrent + Protocol().barges
    }

    constructor (maxConcurrent: Option<nat>, queueSize: Option<nat>, queueTimeoutMs: Option<int>, defaults: Config)
      ensures Valid() && fresh(connectionQueue) && history == []
      ensures config.maxConcurrent == maxConcurrent.GetOr(defaults.maxConcurrent)
      ensures config.queue.maxSize == queueSize.GetOr(defaults.queue.maxSize)
      ensures config.queue.timeoutMs == queueTimeoutMs.GetOr(defaults.queue.timeoutMs)
      ensures activeConcurrent == 0 && slotListeners == {}
    {
      var queue := Q.Config(queueSize.GetOr(defaults.queue.maxSize), queueTimeoutMs.GetOr(defaults.queue.timeoutMs));
      config := Config(maxConcurrent.GetOr(defaults.maxConcurrent), queue);
      connectionQueue := new Q.ConnectionQueue(queue);
      activeConcurrent, slotListeners, history := 0, {}, [];
    }

    /** callTool up to its first await. */
    method StartCall() returns (atCapacity: bool)
      requires Valid()
      modifies this
      ensures Valid() && history == old(history) + [Arrive]
      ensures atCapacity <==> old(activeConcurrent) >= config.maxConcurrent
      ensures activeConcurrent == old(activeConcurrent) + if atCapacity then 0 else 1
      ensures WithinBound()
    {
      ghost var e := Arrive;
      AfterSnoc(config, history, e);
      KeepsListeners(config, Protocol(), e, slotListeners);
      atCapacity := activeConcurrent >= config.maxConcurrent;
      if !atCapacity {
        activeConcurrent := activeConcurrent + 1;
      }
      history := history + [e];
      BargeBound(config, history);
    }

    /** The request id stands for the caller's own unique string. */
    method EnterQueue(requestId: nat, clientId: string, toolName: string, now: int) returns (unavailable: bool)
      requires Valid() && Enabled(Protocol(), Enter(requestId, clientId, toolName, now))
      modifies this, connectionQueue
      ensures Valid() && history == old(history) + [Enter(requestId, clientId, toolName, now)]
      ensures unavailable <==> |old(connectionQueue.queue)| >= config.queue.maxSize
      ensures Protocol().callers[requestId] == if unavailable then Failed else Enqueued
    {
      ghost var e := Enter(requestId, clientId, toolName, now);
      AfterSnoc(config, history, e);
      KeepsListeners(config, Protocol(), e, slotListeners);
      var r := connectionQueue.Enqueue(Request(requestId, clientId, toolName), now);
      unavailable := r.Failure?;
      history := history + [e];
    }

    /** waitForQueueSlot: the listener is registered. */
    method WaitForSlot(requestId: nat)
      requires Valid() && Enabled(Protocol(), Listen(requestId))
      modifies this
      ensures Valid() && history == old(history) + [Listen(requestId)]
      ensures slotListeners == old(slotListeners) + {requestId}
    {
      ghost var e := Listen(requestId);
      AfterSnoc(config, history, e);
      slotListeners := slotListeners + {requestId};
      history := history + [e];
    }

    /** Its timer: the listener is removed and the caller rejected. */
    method SlotTimeout(requestId: nat)
      requires Valid() && Enabled(Protocol(), GiveUp(requestId))
      modifies this
      ensures Valid() && history == old(history) + [GiveUp(requestId)]
      ensures slotListeners == old(slotListeners) - {requestId}
    {
      ghost var e := GiveUp(requestId);
      AfterSnoc(config, history, e);
      slotListeners := slotListeners - {requestId};
      history := history + [e];
    }

    /** callTool after its slot event: whoever counts in here was handed out by the queue. */
    method CountIn(ghost c: nat)
      requires Valid() && Enabled(Protocol(), Admit(c))
      modifies this
      ensures Valid() && history == old(history) + [Admit(c)]
      ensures activeConcurrent == old(activeConcurrent) + 1
      ensures c in Protocol().granted && c in Ids(Protocol().trace.handedOut)
      ensures WithinBound()
    {
      ghost var e := Admit(c);
      AfterSnoc(config, history, e);
      KeepsListeners(config, Protocol(), e, slotListeners);
      activeConcurrent := activeConcurrent + 1;
      history := history + [e];
      BargeBound(config, history);
      GrantsAreHandedOut(config, history);
      assert FromQueue(Protocol().callers[c]);
    }

    /** The `finally` block up to its await. */
    method FinishCall(ghost c: nat)
      requires Valid() && Enabled(Protocol(), Finish(c))
      modifies this
      ensures Valid() && history == old(history) + [Finish(c)]
      ensures activeConcurrent == old(activeConcurrent) - 1
      ensures WithinBound()
    {
      ghost var e := Finish(c);
      AfterSnoc(config, history, e);
      KeepsListeners(config, Protocol(), e, slotListeners);
      activeConcurrent := activeConcurrent - 1;
      history := history + [e];
      BargeBound(config, history);
    }

    /** processNextQueuedRequest up to its await: the first request still live, if there is one. */
    method TakeNext(ghost c: nat, now: int) returns (next: Option<Q.QueuedRequest>)
      requires Valid() && Enabled(Protocol(), Take(c, now))
      modifies this, connectionQueue
      ensures Valid() && history == old(history) + [Take(c, now)]
      ensures Protocol().callers[c].Notifying? && Protocol().callers[c].next == IdOf(next)
      ensures next.None? <==> Q.AllDue(old(connectionQueue.queue), now)
      ensures forall k: nat | Q.FirstLive(old(connectionQueue.queue), now, k) ::
                next == Some(old(connectionQueue.queue)[k])
    {
      ghost var e := Take(c, now);
      AfterSnoc(config, history, e);
      KeepsListeners(config, Protocol(), e, slotListeners);
      next := connectionQueue.Dequeue(now);
      history := history + [e];
    }

    /** And after it: the event wakes the caller of that very request, if it is still listening. */
    method EmitSlot(ghost c: nat, next: Option<Q.QueuedRequest>) returns (woken: Option<nat>)
      requires Valid() && Enabled(Protocol(), Emit(c)) && Protocol().callers[c].next == IdOf(next)
      modifies this
      ensures Valid() && history == old(history) + [Emit(c)]
      ensures woken == if next.Some? && next.value.requestId in old(slotListeners) then IdOf(next) else None
      ensures Protocol().granted == old(Protocol()).granted + if woken.Some? then [woken.value] else []
      ensures InTakeOrder(config, history) ==> Subsequence(Protocol().granted, Ids(Protocol().trace.entered))
    {
      hide Apply, Listened, InTakeOrder;
      ghost var e := Emit(c);
      AfterSnoc(config, history, e);
      WakesTheListener(config, Protocol(), c, slotListeners);
      woken := None;
      if next.Some? && next.value.requestId in slotListeners {
        slotListeners := slotListeners - {next.value.requestId};
        woken := IdOf(next);
      }
      history := history + [e];
      if InTakeOrder(config, history) {
        GrantOrder(config, history);
      }
    }
  }

  function IdOf(r: Option<Q.QueuedRequest>): Option<nat> {
    if r.Some? then Some(r.value.requestId) else None
  }

  /** The listeners are the callers waiting for their slot event. */
  ghost predicate Listened(callers: seq<Phase>, listeners: set<nat>) {
    forall id: nat :: id in listeners <==> id < |callers| && callers[id].Listening?
  }

  /** Emitting wakes the listener for that request, which is granted its slot; or nobody. */
  lemma WakesTheListener(cfg: Config, s: State, c: nat, listeners: set<nat>)
    requires Enabled(s, Emit(c)) && Listened(s.callers, listeners)
    ensures
      var s', next := Apply(cfg, s, Emit(c)), s.callers[c].next;
      && s'.active == s.active && s'.trace == s.trace
      && if next.Some? && next.value in listeners
         then Listened(s'.callers, listeners - {next.value}) && s'.granted == s.granted + [next.value]
         else Listened(s'.callers, listeners) && s'.granted == s.granted
  {
  }

  /** Only registering, giving up and emitting change who listens. */
  lemma KeepsListeners(cfg: Config, s: State, e: Event, listeners: set<nat>)
    requires Listened(s.callers, listeners) && !e.Listen? && !e.GiveUp? && !e.Emit?
    ensures Listened(Apply(cfg, s, e).callers, listeners)
  {
  }
}
