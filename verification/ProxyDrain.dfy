/** Request tracking and drain of the proxy server (src/core/server/mcp-proxy-server.ts). */
module ProxyDrain {

  datatype Proxy = Proxy(activeRequests: int, draining: bool, drainResolvers: seq<nat>)

  function Entered(p: Proxy): Proxy {
    p.(activeRequests := p.activeRequests + 1)
  }

  /** The `finally` block: the new proxy, and the drain calls it resolves. */
  function Left(p: Proxy): (Proxy, seq<nat>) {
    var active := p.activeRequests - 1;
    if active == 0 && p.draining
    then (p.(activeRequests := active, drainResolvers := []), p.drainResolvers)
    else (p.(activeRequests := active), [])
  }

  function Drained(p: Proxy, caller: nat): (Proxy, bool) {
    if p.activeRequests > 0
    then (p.(draining := true, drainResolvers := p.drainResolvers + [caller]), false)
    else (p.(draining := true), true)
  }

  class MCPProxyServer {
    var activeRequests: int
    var draining: bool
    var drainResolvers: seq<nat>

    ghost function View(): Proxy
      reads this
    {
      Proxy(activeRequests, draining, drainResolvers)
    }

    constructor ()
      ensures View() == Proxy(0, false, [])
    {
      activeRequests, draining, drainResolvers := 0, false, [];
    }

    /** Up to the first await: a request arriving during a drain is answered 503 and leaves at once. */
    method HandleRequest() returns (refused: bool, resolved: seq<nat>)
      modifies this
      ensures refused == old(draining)
      ensures refused ==> (View(), resolved) == Left(Entered(old(View())))
      ensures !refused ==> View() == Entered(old(View())) && resolved == []
    {
      activeRequests := activeRequests + 1;
      refused, resolved := draining, [];
      if refused {
        resolved := FinishRequest();
      }
    }

    method FinishRequest() returns (resolved: seq<nat>)
      modifies this
      ensures (View(), resolved) == Left(old(View()))
    {
      resolved := [];
      activeRequests := activeRequests - 1;
      if activeRequests == 0 && draining {
        resolved := drainResolvers;
        drainResolvers := [];
      }
    }

    method Drain(caller: nat) returns (immediately: bool)
      modifies this
      ensures (View(), immediately) == Drained(old(View()), caller)
      ensures draining && activeRequests == old(activeRequests)
      ensures immediately <==> old(activeRequests) <= 0
      ensures drainResolvers == old(drainResolvers) + if immediately then [] else [caller]
    {
      draining := true;
      if activeRequests > 0 {
        drainResolvers := drainResolvers + [caller];
        return false;
      }
      immediately := true;
    }
  }

  // ----- Runs

  datatype Event =
    | Arrive
    | Finish(request: nat)
    | Drain(caller: nat)
    | Timeout(caller: nat)

  datatype System = System(
    proxy: Proxy,
    arrived: nat,
    open: set<nat>,
    refused: set<nat>,
    drainsReturned: seq<nat>,
    drainsTimedOut: set<nat>)

  const START := System(Proxy(0, false, []), 0, {}, {}, [], {})

  predicate Enabled(s: System, e: Event) {
    match e
    case Finish(r) => r in s.open
    case Timeout(d) => d in s.proxy.drainResolvers
    case _ => true
  }

  function Apply(s: System, e: Event): System {
    if !Enabled(s, e) then s else
    match e
    case Arrive =>
      if s.proxy.draining then
        var (p, resolved) := Left(Entered(s.proxy));
        s.(proxy := p, arrived := s.arrived + 1, refused := s.refused + {s.arrived},
           drainsReturned := s.drainsReturned + resolved)
      else
        s.(proxy := Entered(s.proxy), arrived := s.arrived + 1, open := s.open + {s.arrived})
    case Finish(r) =>
      var (p, resolved) := Left(s.proxy);
      s.(proxy := p, open := s.open - {r}, drainsReturned := s.drainsReturned + resolved)
    case Drain(d) =>
      var (p, immediately) := Drained(s.proxy, d);
      s.(proxy := p, drainsReturned := s.drainsReturned + if immediately then [d] else [])
    case Timeout(d) =>
      // The drain call returns by its timer; its resolver stays in the list, to be called without effect.
      s.(drainsTimedOut := s.drainsTimedOut + {d})
  }

  function From(s: System, es: seq<Event>): System {
    if es == [] then s else Apply(From(s, es[..|es| - 1]), es[|es| - 1])
  }

  ghost predicate Inv(s: System) {
    && s.proxy.activeRequests == |s.open|
    && (forall r | r in s.open :: r < s.arrived)
    && (!s.proxy.draining ==> s.proxy.drainResolvers == [])
    && (s.proxy.draining && s.proxy.activeRequests == 0 ==> s.proxy.drainResolvers == [])
  }

  lemma StepKeeps(s: System, e: Event)
    requires Inv(s)
    ensures Inv(Apply(s, e))
  {
    if e.Arrive? {
      assert s.arrived !in s.open;
    }
  }

  /** The counter is the number of open requests, and no drain call is left over when it is zero. */
  lemma {:induction false} Tracking(es: seq<Event>)
    ensures Inv(From(START, es))
  {
    if es == [] {
    } else {
      Tracking(es[..|es| - 1]);
      StepKeeps(From(START, es[..|es| - 1]), es[|es| - 1]);
    }
  }

  /** A request refused during a drain counts up and down without resolving anything or leaving a trace. */
  lemma RefusalIsNeutral(s: System)
    requires Inv(s) && s.proxy.draining
    ensures Apply(s, Arrive).proxy == s.proxy && Apply(s, Arrive).drainsReturned == s.drainsReturned
  {
  }

  /** A finishing request lowers the count by one, and the one to zero resolves every drain call. */
  lemma FinishLowers(s: System, r: nat)
    requires Inv(s) && s.proxy.draining && r in s.open
    ensures
      var s' := Apply(s, Finish(r));
      && s'.proxy.activeRequests == s.proxy.activeRequests - 1
      && s'.drainsReturned ==
         s.drainsReturned + (if s'.proxy.activeRequests == 0 then s.proxy.drainResolvers else [])
  {
  }

  lemma DrainingStep(s: System, e: Event)
    requires Inv(s) && s.proxy.draining
    ensures
      var s' := Apply(s, e);
      s'.proxy.draining && s'.open <= s.open && s'.proxy.activeRequests <= s.proxy.activeRequests
  {
  }

  /** While draining nothing is opened, and each release lowers the count; the one to zero resolves every drain. */
  lemma {:induction false} DrainingOnlyShrinks(s: System, es: seq<Event>)
    requires Inv(s) && s.proxy.draining
    ensures
      var s' := From(s, es);
      && Inv(s') && s'.proxy.draining && s'.open <= s.open
      && s'.proxy.activeRequests <= s.proxy.activeRequests
      && forall r | r in s'.open ::
           var s'' := Apply(s', Finish(r));
           && s''.proxy.activeRequests == s'.proxy.activeRequests - 1
           && s''.drainsReturned ==
              s'.drainsReturned + (if s''.proxy.activeRequests == 0 then s'.proxy.drainResolvers else [])
  {
    hide Inv, Apply;
    if es == [] {
    } else {
      DrainingOnlyShrinks(s, es[..|es| - 1]);
      StepKeeps(From(s, es[..|es| - 1]), es[|es| - 1]);
      DrainingStep(From(s, es[..|es| - 1]), es[|es| - 1]);
    }
    forall r | r in From(s, es).open {
      FinishLowers(From(s, es), r);
    }
  }

  // ----- When a drain call returns

  lemma FromSnoc(s: System, es: seq<Event>, e: Event)
    ensures From(s, es + [e]) == Apply(From(s, es), e)
  {
    assert (es + [e])[..|es|] == es;
  }

  /** A drain call returns at once exactly when no request is open, and otherwise waits in the list. */
  lemma DrainWaitsForRequests(es: seq<Event>, d: nat)
    ensures
      var s, s' := From(START, es), From(START, es + [Drain(d)]);
      && s'.proxy.draining && s'.open == s.open
      && s'.drainsReturned == s.drainsReturned + (if s.open == {} then [d] else [])
      && s'.proxy.drainResolvers == s.proxy.drainResolvers + (if s.open == {} then [] else [d])
  {
    Tracking(es);
    FromSnoc(START, es, Drain(d));
    assert From(START, es).proxy.drainResolvers + [] == From(START, es).proxy.drainResolvers;
  }

  /** Whenever a drain call returns, other than by its timer, no request is open any more. */
  lemma ReturnedWhenEmpty(es: seq<Event>, e: Event)
    requires From(START, es + [e]).drainsReturned != From(START, es).drainsReturned
    ensures From(START, es + [e]).open == {}
  {
    Tracking(es);
    Tracking(es + [e]);
    FromSnoc(START, es, e);
    assert From(START, es).drainsReturned + [] == From(START, es).drainsReturned;
  }

  function DrainCalls(es: seq<Event>): seq<nat> {
    if es == [] then []
    else DrainCalls(es[..|es| - 1]) + if es[|es| - 1].Drain? then [es[|es| - 1].caller] else []
  }

  /** A step leaves the drain calls where they are, adds its own, or returns all that wait. */
  lemma DrainStepMoves(s: System, e: Event)
    requires Inv(s)
    ensures
      var s', r, w := Apply(s, e), s.drainsReturned, s.proxy.drainResolvers;
      if e.Drain? then
        || (s'.drainsReturned == r + [e.caller] && s'.proxy.drainResolvers == w)
        || (s'.drainsReturned == r && s'.proxy.drainResolvers == w + [e.caller])
      else
        || (s'.drainsReturned == r && s'.proxy.drainResolvers == w)
        || (s'.drainsReturned == r + w && s'.proxy.drainResolvers == [])
  {
    assert s.drainsReturned + [] == s.drainsReturned;
  }

  lemma DrainStepAccounted(s: System, e: Event)
    requires Inv(s)
    ensures
      var s' := Apply(s, e);
      multiset(s'.drainsReturned) + multiset(s'.proxy.drainResolvers) ==
      multiset(s.drainsReturned) + multiset(s.proxy.drainResolvers) +
      (if e.Drain? then multiset{e.caller} else multiset{})
  {
    hide Apply;
    DrainStepMoves(s, e);
  }

  /** Every drain call made has returned or is still in the list, and none is lost or returned twice. */
  lemma {:induction false} DrainsAccounted(es: seq<Event>)
    ensures
      var s := From(START, es);
      multiset(DrainCalls(es)) == multiset(s.drainsReturned) + multiset(s.proxy.drainResolvers)
  {
    if es == [] {
    } else {
      var before, e := es[..|es| - 1], es[|es| - 1];
      DrainsAccounted(before);
      Tracking(before);
      assert es == before + [e];
      assert DrainCalls(before) + [] == DrainCalls(before);
      DrainStepAccounted(From(START, before), e);
    }
  }

  ghost predicate TimedOutAt(es: seq<Event>, n: nat, d: nat) {
    n < |es| && es[n] == Timeout(d) && d in From(START, es[..n]).proxy.drainResolvers
  }

  /** A drain call is returned by its timer exactly when the timer ran out while the call was waiting. */
  lemma {:induction false} TimedOutIff(es: seq<Event>, d: nat)
    ensures d in From(START, es).drainsTimedOut <==> exists n: nat :: TimedOutAt(es, n, d)
  {
    if es == [] {
    } else {
      var before, e := es[..|es| - 1], es[|es| - 1];
      TimedOutIff(before, d);
      assert forall n: nat | n < |before| :: es[..n] == before[..n];
      assert forall n: nat | n < |before| :: TimedOutAt(es, n, d) <==> TimedOutAt(before, n, d);
      assert TimedOutAt(es, |before|, d) <==>
             e == Timeout(d) && d in From(START, before).proxy.drainResolvers;
    }
  }

  /** A request is refused exactly when it arrives while draining. */
  lemma RefusedIffDraining(es: seq<Event>)
    ensures
      var s, s' := From(START, es), From(START, es + [Arrive]);
      && s'.refused == s.refused + (if s.proxy.draining then {s.arrived} else {})
      && s'.open == s.open + (if s.proxy.draining then {} else {s.arrived})
  {
    FromSnoc(START, es, Arrive);
  }
}
