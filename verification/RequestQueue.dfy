/**
 * FIFO overflow queue with expiry (src/mcp/connection-queue.ts). Every operation runs under the
 * queue's lock, so each is one step; request identifiers are numbers standing for unique strings.
 */
module RequestQueue {
  import opened Wrappers
  import opened Sequences

  datatype Config = Config(maxSize: nat, timeoutMs: int)

  datatype QueuedRequest = QueuedRequest(
    requestId: nat,
    clientId: string,
    toolName: string,
    enqueuedAt: int,
    timeoutAt: int)

  datatype Stats = Stats(queueSize: nat, enqueuedRequests: nat, dequeuedRequests: nat, expiredRequests: nat)

  datatype Queue = Queue(items: seq<QueuedRequest>, stats: Stats)

  datatype Error = QueueFull

  const EMPTY := Queue([], Stats(0, 0, 0, 0))

  /** The requests whose deadline is still ahead, in order. */
  function Live(items: seq<QueuedRequest>, now: int): seq<QueuedRequest> {
    if items == [] then []
    else
      var last := items[|items| - 1];
      Live(items[..|items| - 1], now) + (if last.timeoutAt > now then [last] else [])
  }

  function Expired(items: seq<QueuedRequest>, now: int): seq<QueuedRequest> {
    if items == [] then []
    else
      var last := items[|items| - 1];
      Expired(items[..|items| - 1], now) + (if last.timeoutAt > now then [] else [last])
  }

  function Stamped(config: Config, r: QueuedRequest, now: int): QueuedRequest {
    r.(enqueuedAt := now, timeoutAt := now + config.timeoutMs)
  }

  function Enqueued(config: Config, q: Queue, r: QueuedRequest, now: int): Result<Queue, Error> {
    if |q.items| >= config.maxSize then Failure(QueueFull)
    else
      var items := q.items + [Stamped(config, r, now)];
      Success(Queue(items, q.stats.(enqueuedRequests := q.stats.enqueuedRequests + 1, queueSize := |items|)))
  }

  function Cleaned(q: Queue, now: int): Queue {
    var live := Live(q.items, now);
    var count := |q.items| - |live|;
    if count > 0
    then Queue(live, q.stats.(expiredRequests := q.stats.expiredRequests + count, queueSize := |live|))
    else Queue(live, q.stats)
  }

  function Dequeued(q: Queue, now: int): (Queue, Option<QueuedRequest>) {
    var c := Cleaned(q, now);
    if c.items == [] then (c, None)
    else
      var rest := c.items[1..];
      (Queue(rest, c.stats.(dequeuedRequests := c.stats.dequeuedRequests + 1, queueSize := |rest|)), Some(c.items[0]))
  }

  // ----- What a deadline decides

  lemma LiveSnoc(rest: seq<QueuedRequest>, last: QueuedRequest, now: int)
    ensures Live(rest + [last], now) == if last.timeoutAt > now then Live(rest, now) + [last] else Live(rest, now)
    ensures Expired(rest + [last], now) ==
            if last.timeoutAt > now then Expired(rest, now) else Expired(rest, now) + [last]
  {
    assert (rest + [last])[..|rest|] == rest;
  }

  lemma OneMore(rs: seq<QueuedRequest>, x: QueuedRequest, r: QueuedRequest)
    ensures multiset(rs + [x])[r] == multiset(rs)[r] + if x == r then 1 else 0
  {
    assert multiset(rs + [x]) == multiset(rs) + multiset{x};
  }

  lemma NothingKept(now: int)
    ensures Live([], now) == [] && Expired([], now) == []
  {
  }

  /** A request is kept, as often as it is queued, exactly if its deadline is ahead; all others are expired. */
  lemma {:induction false} KeptIff(items: seq<QueuedRequest>, now: int, r: QueuedRequest)
    ensures multiset(Live(items, now))[r] == if r.timeoutAt > now then multiset(items)[r] else 0
    ensures multiset(Expired(items, now))[r] == if r.timeoutAt > now then 0 else multiset(items)[r]
  {
    hide Live, Expired;
    if items == [] {
      NothingKept(now);
    } else {
      var rest, last := items[..|items| - 1], items[|items| - 1];
      assert items == rest + [last];
      KeptIff(rest, now, r);
      LiveSnoc(rest, last, now);
      OneMore(rest, last, r);
      OneMore(Live(rest, now), last, r);
      OneMore(Expired(rest, now), last, r);
    }
  }

  lemma LiveIff(items: seq<QueuedRequest>, now: int, r: QueuedRequest)
    ensures r in Live(items, now) <==> r in items && r.timeoutAt > now
    ensures r in Expired(items, now) <==> r in items && r.timeoutAt <= now
  {
    KeptIff(items, now, r);
    assert r in items <==> r in multiset(items);
    assert r in Live(items, now) <==> r in multiset(Live(items, now));
    assert r in Expired(items, now) <==> r in multiset(Expired(items, now));
  }

  ghost predicate AllDue(items: seq<QueuedRequest>, now: int) {
    forall i | 0 <= i < |items| :: items[i].timeoutAt <= now
  }

  /** The request in place `k` is the first whose deadline is ahead. */
  ghost predicate FirstLive(items: seq<QueuedRequest>, now: int, k: nat) {
    k < |items| && items[k].timeoutAt > now && AllDue(items[..k], now)
  }

  lemma {:induction false} LiveStart(items: seq<QueuedRequest>, now: int)
    ensures Live(items, now) == [] <==> AllDue(items, now)
    ensures forall k: nat | FirstLive(items, now, k) :: Live(items, now) != [] && Live(items, now)[0] == items[k]
  {
    if items == [] {
    } else {
      var rest, last := items[..|items| - 1], items[|items| - 1];
      LiveStart(rest, now);
      assert items == rest + [last];
      assert AllDue(items, now) <==> AllDue(rest, now) && last.timeoutAt <= now;
      forall k: nat | FirstLive(items, now, k) ensures Live(items, now) != [] && Live(items, now)[0] == items[k] {
        if k < |rest| {
          assert rest[..k] == items[..k];
          assert FirstLive(rest, now, k);
        } else {
          assert items[..k] == rest;
        }
      }
    }
  }

  /** A dequeue answers nothing exactly when every deadline has been reached, and else the first one ahead. */
  lemma DequeueAnswers(q: Queue, now: int)
    ensures Dequeued(q, now).1.None? <==> AllDue(q.items, now)
    ensures forall k: nat | FirstLive(q.items, now, k) :: Dequeued(q, now).1 == Some(q.items[k])
  {
    LiveStart(q.items, now);
  }

  /** What is left are the requests whose deadline is ahead, each as often as before, in the same order. */
  ghost predicate KeepsExactlyLive(before: seq<QueuedRequest>, after: seq<QueuedRequest>, now: int) {
    && (forall r :: multiset(after)[r] == if r.timeoutAt > now then multiset(before)[r] else 0)
    && Subsequence(after, before)
  }

  lemma KeepsLive(items: seq<QueuedRequest>, now: int)
    ensures KeepsExactlyLive(items, Live(items, now), now)
  {
    hide Live, Expired, Subsequence;
    LiveIsSubsequence(items, now);
    forall r ensures multiset(Live(items, now))[r] == if r.timeoutAt > now then multiset(items)[r] else 0 {
      KeptIff(items, now, r);
    }
  }

  // ----- The class

  class ConnectionQueue {
    const config: Config
    var queue: seq<QueuedRequest>
    var stats: Stats

    ghost function View(): Queue
      reads this
    {
      Queue(queue, stats)
    }

    constructor (config: Config)
      ensures this.config == config && View() == EMPTY
    {
      this.config := config;
      queue, stats := [], Stats(0, 0, 0, 0);
    }

    method Enqueue(request: QueuedRequest, now: int) returns (r: Result<(), Error>)
      modifies this
      ensures r.Success? <==> Enqueued(config, old(View()), request, now).Success?
      ensures View() == if r.Success? then Enqueued(config, old(View()), request, now).value else old(View())
      ensures r.Failure? <==> |old(queue)| >= config.maxSize
      ensures r.Success? ==>
        queue == old(queue) + [request.(enqueuedAt := now, timeoutAt := now + config.timeoutMs)]
    {
      if |queue| >= config.maxSize {
        return Failure(QueueFull);
      }
      var queuedRequest := request.(enqueuedAt := now, timeoutAt := now + config.timeoutMs);
      queue := queue + [queuedRequest];
      stats := stats.(enqueuedRequests := stats.enqueuedRequests + 1);
      stats := stats.(queueSize := |queue|);
      r := Success(());
    }

    method CleanupExpired(now: int)
      modifies this
      ensures View() == Cleaned(old(View()), now)
      ensures KeepsExactlyLive(old(queue), queue, now)
    {
      hide KeepsExactlyLive, Live, Expired;
      KeepsLive(queue, now);
      var beforeSize := |queue|;
      queue := Live(queue, now);
      LivePlusExpired(old(queue), now);
      var expiredCount := beforeSize - |queue|;
      if expiredCount > 0 {
        stats := stats.(expiredRequests := stats.expiredRequests + expiredCount);
        stats := stats.(queueSize := |queue|);
      }
    }

    method Dequeue(now: int) returns (request: Option<QueuedRequest>)
      modifies this
      ensures (View(), request) == Dequeued(old(View()), now)
      ensures request.None? <==> AllDue(old(queue), now)
      ensures forall k: nat | FirstLive(old(queue), now, k) :: request == Some(old(queue)[k])
    {
      hide KeepsExactlyLive, Live, Expired, AllDue, FirstLive;
      DequeueAnswers(View(), now);
      CleanupExpired(now);
      if queue == [] {
        return None;
      }
      request := Some(queue[0]);
      queue := queue[1..];
      stats := stats.(dequeuedRequests := stats.dequeuedRequests + 1);
      stats := stats.(queueSize := |queue|);
    }
  }

  // ----- Runs

  datatype Event =
    | Enqueue(r: QueuedRequest, at: int)
    | Dequeue(at: int)
    | Cleanup(at: int)

  /** The queue together with everything that ever entered, was handed out, and timed out. */
  datatype Trace = Trace(
    q: Queue,
    entered: seq<QueuedRequest>,
    handedOut: seq<QueuedRequest>,
    timedOut: seq<QueuedRequest>)

  function Step(config: Config, t: Trace, e: Event): Trace {
    match e
    case Enqueue(r, now) =>
      var q := Enqueued(config, t.q, r, now);
      if q.Failure? then t else t.(q := q.value, entered := t.entered + [Stamped(config, r, now)])
    case Dequeue(now) =>
      var (q, r) := Dequeued(t.q, now);
      t.(q := q,
         handedOut := t.handedOut + if r.Some? then [r.value] else [],
         timedOut := t.timedOut + Expired(t.q.items, now))
    case Cleanup(now) =>
      t.(q := Cleaned(t.q, now), timedOut := t.timedOut + Expired(t.q.items, now))
  }

  function Run(config: Config, es: seq<Event>): Trace {
    if es == [] then Trace(EMPTY, [], [], []) else Step(config, Run(config, es[..|es| - 1]), es[|es| - 1])
  }

  ghost predicate Clocked(es: seq<Event>) {
    forall i, j | 0 <= i < j < |es| :: es[i].at <= es[j].at
  }

  // ----- Conservation

  lemma {:induction false} LivePlusExpired(items: seq<QueuedRequest>, now: int)
    ensures |Live(items, now)| + |Expired(items, now)| == |items|
    ensures multiset(Live(items, now)) + multiset(Expired(items, now)) == multiset(items)
  {
    if items == [] {
    } else {
      var rest := items[..|items| - 1];
      assert items == rest + [items[|items| - 1]];
      LivePlusExpired(rest, now);
    }
  }

  ghost predicate Balanced(config: Config, t: Trace) {
    && t.q.stats == Stats(|t.q.items|, |t.entered|, |t.handedOut|, |t.timedOut|)
    && |t.q.items| <= config.maxSize
    && multiset(t.entered) == multiset(t.handedOut) + multiset(t.timedOut) + multiset(t.q.items)
  }

  lemma MultisetHead<T>(s: seq<T>)
    requires s != []
    ensures multiset(s) == multiset([s[0]]) + multiset(s[1..])
  {
    assert s == [s[0]] + s[1..];
  }

  lemma EnqueueBalanced(config: Config, t: Trace, r: QueuedRequest, now: int)
    requires Balanced(config, t)
    ensures Balanced(config, Step(config, t, Enqueue(r, now)))
  {
  }

  lemma CleanupBalanced(config: Config, t: Trace, now: int)
    requires Balanced(config, t)
    ensures Balanced(config, Step(config, t, Cleanup(now)))
  {
    LivePlusExpired(t.q.items, now);
  }

  lemma DequeueBalanced(config: Config, t: Trace, now: int)
    requires Balanced(config, t)
    ensures Balanced(config, Step(config, t, Dequeue(now)))
  {
    hide Live, Expired;
    var c := Step(config, t, Cleanup(now));
    CleanupBalanced(config, t, now);
    if c.q.items != [] {
      MultisetHead(c.q.items);
    }
  }

  lemma StepBalanced(config: Config, t: Trace, e: Event)
    requires Balanced(config, t)
    ensures Balanced(config, Step(config, t, e))
  {
    match e {
      case Enqueue(r, now) => EnqueueBalanced(config, t, r, now);
      case Dequeue(now) => DequeueBalanced(config, t, now);
      case Cleanup(now) => CleanupBalanced(config, t, now);
    }
  }

  /**
   * Conservation: after every run each request that entered is in exactly one of handed out, timed out
   * and queued; the four counters are exactly those sizes; and the capacity is respected.
   */
  lemma {:induction false} Conservation(config: Config, es: seq<Event>)
    ensures Balanced(config, Run(config, es))
    ensures |Run(config, es).entered| ==
            |Run(config, es).handedOut| + |Run(config, es).timedOut| + |Run(config, es).q.items|
  {
    if es == [] {
    } else {
      Conservation(config, es[..|es| - 1]);
      StepBalanced(config, Run(config, es[..|es| - 1]), es[|es| - 1]);
    }
    var t := Run(config, es);
    assert |multiset(t.entered)| == |multiset(t.handedOut)| + |multiset(t.timedOut)| + |multiset(t.q.items)|;
  }

  // ----- Order

  lemma {:induction false} LiveIsSubsequence(items: seq<QueuedRequest>, now: int)
    ensures Subsequence(Live(items, now), items)
  {
    if items == [] {
    } else {
      var rest, last := items[..|items| - 1], items[|items| - 1];
      LiveIsSubsequence(rest, now);
      if last.timeoutAt > now {
        SubsequenceAppend(Live(rest, now), rest, [last]);
        assert items == rest + [last];
      } else {
        assert Live(items, now) == Live(rest, now);
      }
    }
  }

  lemma {:induction false} LiveMember(items: seq<QueuedRequest>, now: int, i: nat)
    requires i < |Live(items, now)|
    ensures Live(items, now)[i].timeoutAt > now
  {
    if i < |Live(items[..|items| - 1], now)| {
      LiveMember(items[..|items| - 1], now, i);
    }
  }

  /** A request handed out has not expired. */
  lemma HandedOutIsLive(q: Queue, now: int)
    ensures Dequeued(q, now).1.Some? ==> Dequeued(q, now).1.value.timeoutAt > now
  {
    if Live(q.items, now) != [] {
      LiveMember(q.items, now, 0);
    }
  }

  /**
   * FIFO: whatever the clock does, the requests handed out so far followed by those still queued are an
   * order-preserving part of the requests in the order they entered.
   */
  lemma {:induction false} FirstInFirstOut(config: Config, es: seq<Event>)
    ensures var t := Run(config, es); Subsequence(t.handedOut + t.q.items, t.entered)
  {
    if es == [] {
    } else {
      FirstInFirstOut(config, es[..|es| - 1]);
      StepInOrder(config, Run(config, es[..|es| - 1]), es[|es| - 1]);
    }
  }

  lemma StepInOrder(config: Config, t: Trace, e: Event)
    requires Subsequence(t.handedOut + t.q.items, t.entered)
    ensures var t' := Step(config, t, e); Subsequence(t'.handedOut + t'.q.items, t'.entered)
  {
    hide Subsequence, Live, Expired;
    var t' := Step(config, t, e);
    if e.Enqueue? {
      if |t.q.items| < config.maxSize {
        var r := Stamped(config, e.r, e.at);
        SubsequenceAppend(t.handedOut + t.q.items, t.entered, [r]);
        assert t'.handedOut + t'.q.items == t.handedOut + t.q.items + [r];
      }
    } else {
      var live := Live(t.q.items, e.at);
      LiveIsSubsequence(t.q.items, e.at);
      SubsequencePrepend(t.handedOut, live, t.q.items);
      SubsequenceTrans(t.handedOut + live, t.handedOut + t.q.items, t.entered);
      assert t'.handedOut + t'.q.items == t.handedOut + live;
    }
  }

  // ----- A monotone clock

  ghost predicate SortedByDeadline(items: seq<QueuedRequest>) {
    forall i, j | 0 <= i < j < |items| :: items[i].timeoutAt <= items[j].timeoutAt
  }

  lemma {:induction false} NoneLive(items: seq<QueuedRequest>, now: int)
    requires forall i | 0 <= i < |items| :: items[i].timeoutAt <= now
    ensures Live(items, now) == []
  {
    if items == [] {
    } else {
      NoneLive(items[..|items| - 1], now);
    }
  }

  /** On a sorted queue, filtering out the expired is dropping a prefix. */
  lemma {:induction false} ExpiryIsPrefix(items: seq<QueuedRequest>, now: int)
    requires SortedByDeadline(items)
    ensures |Expired(items, now)| <= |items|
    ensures Expired(items, now) == items[..|Expired(items, now)|]
    ensures Live(items, now) == items[|Expired(items, now)|..]
  {
    if items == [] {
    } else {
      var rest, last := items[..|items| - 1], items[|items| - 1];
      ExpiryIsPrefix(rest, now);
      if last.timeoutAt <= now {
        NoneLive(rest, now);
      }
      assert items == rest + [last];
    }
  }

  ghost predicate IsSuffix<T>(a: seq<T>, b: seq<T>) {
    |a| <= |b| && a == b[|b| - |a|..]
  }

  ghost predicate DeadlinesBy(items: seq<QueuedRequest>, t: int) {
    forall i | 0 <= i < |items| :: items[i].timeoutAt <= t
  }

  /** A queue sorted by deadline that is exactly the latest part of what entered. */
  ghost predicate Orderly(config: Config, t: Trace, now: int) {
    && SortedByDeadline(t.q.items)
    && DeadlinesBy(t.q.items, now + config.timeoutMs)
    && IsSuffix(t.q.items, t.entered)
  }

  lemma DropOrderly(config: Config, t: Trace, k: nat, now: int)
    requires Orderly(config, t, now) && k <= |t.q.items|
    ensures Orderly(config, t.(q := t.q.(items := t.q.items[k..])), now)
  {
  }

  lemma StepOrderly(config: Config, t: Trace, e: Event)
    requires Orderly(config, t, e.at)
    ensures Orderly(config, Step(config, t, e), e.at)
  {
    hide Live, Expired;
    if !e.Enqueue? {
      ExpiryIsPrefix(t.q.items, e.at);
      DropOrderly(config, t, |Expired(t.q.items, e.at)|, e.at);
      var live := t.(q := t.q.(items := Live(t.q.items, e.at)));
      if e.Dequeue? && live.q.items != [] {
        DropOrderly(config, live, 1, e.at);
      }
    }
  }

  /**
   * While the clock does not run backwards the queue stays sorted by deadline and is exactly the latest
   * part of what entered, so each clean-up only drops a prefix.
   */
  lemma {:induction false} MonotoneClock(config: Config, es: seq<Event>, now: int)
    requires Clocked(es) && (es != [] ==> es[|es| - 1].at <= now)
    ensures Orderly(config, Run(config, es), now)
    ensures IsSuffix(Live(Run(config, es).q.items, now), Run(config, es).q.items)
  {
    hide Live, Expired, Step;
    if es == [] {
    } else {
      MonotoneClock(config, es[..|es| - 1], es[|es| - 1].at);
      StepOrderly(config, Run(config, es[..|es| - 1]), es[|es| - 1]);
    }
    ExpiryIsPrefix(Run(config, es).q.items, now);
  }
}
