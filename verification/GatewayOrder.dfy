/** Nothing is skipped and nothing is out of order on a request's way upstream. */
module GatewayOrder {
  import opened Prelude
  import opened Gateway
  import RL = RateLimit
  import RD = Redis
  import CB = CircuitBreaker

  /** The i-th act took place, and was this step of this request. */
  ghost predicate Took(t: Table, acts: seq<Act>, i: nat, id: nat, m: Move) {
    i < |acts| && acts[i] == Step(id, m) && Possible(t, After(t, acts[..i]), acts[i])
  }

  // ----- The checks, as acts of the run

  ghost predicate MatchedAt(t: Table, acts: seq<Act>, i: nat, id: nat, route: string) {
    Took(t, acts, i, id, Match(Some(route)))
  }

  ghost predicate AuthenticatedAt(t: Table, acts: seq<Act>, i: nat, id: nat) {
    Took(t, acts, i, id, Authenticate(true))
  }

  /** The route has no limit that is enabled, or Redis allowed the call, or this replica's limiter did. */
  ghost predicate LetByAt(t: Table, acts: seq<Act>, i: nat, id: nat) {
    exists m :: Took(t, acts, i, id, m) && LetsBy(t, After(t, acts[..i]), id, m)
  }

  ghost predicate LetsBy(t: Table, g: Gateway, id: nat, m: Move) {
    id in g.requests && Routed(t, g.requests[id]) &&
    var r := g.requests[id];
    match t[r.route.value].limit
    case Some(LimitCfg(true, limit, window)) =>
      Allows(g.shared, JoinKey(r.route.value, r.client), limit, window, m) == Some(true)
    case _ => m.Limit?
  }

  /** What the limiter asked by this step answers, if it is one that asks and gets an answer. */
  function Allows(w: Shared, key: string, limit: int, window: int, m: Move): Option<bool> {
    match m
    case CallRedis(true, at) => Some(RD.Check(w.redis, key, limit, window, at).1.allowed)
    case Limit(now, later) => Some(RL.Answer(w.limiter, RL.Call(key, limit, window, now, later)).allowed)
    case _ => None
  }

  /** The balancer's turn was this position's. */
  ghost predicate GivenAt(t: Table, acts: seq<Act>, i: nat, id: nat, route: string, position: nat) {
    && Took(t, acts, i, id, Balance) && route in t && t[route].endpoints != []
    && position == Turn(After(t, acts[..i]).shared, route) % |t[route].endpoints|
  }

  /** Breaker `b` let the request through. */
  ghost predicate AdmittedAt(t: Table, acts: seq<Act>, i: nat, id: nat, b: nat) {
    exists now :: Took(t, acts, i, id, Admit(now)) &&
      var g := After(t, acts[..i]);
      g.requests[id].found == Some(b) && CB.Admits(g.shared.configs[b], g.shared.breakers[b], now)
  }

  /** How many of the five checks a request has behind it. */
  function Depth(r: Request): nat {
    if r.admitted.Some? then 5
    else if r.target.Some? then 4
    else if r.pc.Balancing? then 3
    else if r.pc.Limiting? || r.pc.FallingBack? then 2
    else if r.route.Some? then 1
    else 0
  }

  /** The i-th act was check `k` of request `id`, which is now as `r` says. */
  ghost predicate CheckedAt(t: Table, acts: seq<Act>, i: nat, id: nat, r: Request, k: nat) {
    match k
    case 0 => r.route.Some? && MatchedAt(t, acts, i, id, r.route.value)
    case 1 => AuthenticatedAt(t, acts, i, id)
    case 2 => LetByAt(t, acts, i, id)
    case 3 => r.route.Some? && r.target.Some? && GivenAt(t, acts, i, id, r.route.value, r.target.value)
    case _ => r.admitted.Some? && AdmittedAt(t, acts, i, id, r.admitted.value)
  }

  /** The acts at these indices were the first checks of the request, in their order. */
  ghost predicate Trail(t: Table, acts: seq<Act>, id: nat, r: Request, at: seq<nat>) {
    && (forall k :: 0 <= k < |at| ==> at[k] < |acts| && CheckedAt(t, acts, at[k], id, r, k))
    && (forall k, k' :: 0 <= k < k' < |at| ==> at[k] < at[k'])
  }

  ghost predicate HasTrail(t: Table, acts: seq<Act>, id: nat, r: Request) {
    exists at :: |at| == Depth(r) && Trail(t, acts, id, r, at)
  }

  // ----- Every step keeps the trail

  lemma TookBefore(t: Table, acts: seq<Act>, a: Act, i: nat, id: nat, m: Move)
    requires Took(t, acts, i, id, m)
    ensures Took(t, acts + [a], i, id, m)
  {
    assert (acts + [a])[..i] == acts[..i];
  }

  lemma LetByLater(t: Table, acts: seq<Act>, a: Act, i: nat, id: nat)
    requires LetByAt(t, acts, i, id) && i < |acts|
    ensures LetByAt(t, acts + [a], i, id)
  {
    assert (acts + [a])[..i] == acts[..i];
    var m := acts[i].move;
    TookBefore(t, acts, a, i, id, m);
  }

  lemma CheckedLater(t: Table, acts: seq<Act>, a: Act, i: nat, id: nat, r: Request, k: nat)
    requires CheckedAt(t, acts, i, id, r, k) && i < |acts|
    ensures CheckedAt(t, acts + [a], i, id, r, k)
  {
    assert (acts + [a])[..i] == acts[..i];
    TookBefore(t, acts, a, i, id, acts[i].move);
    if k == 2 {
      LetByLater(t, acts, a, i, id);
    }
  }

  lemma TrailLater(t: Table, acts: seq<Act>, a: Act, id: nat, r: Request)
    requires HasTrail(t, acts, id, r)
    ensures HasTrail(t, acts + [a], id, r)
  {
    var at :| |at| == Depth(r) && Trail(t, acts, id, r, at);
    forall k | 0 <= k < |at|
      ensures CheckedAt(t, acts + [a], at[k], id, r, k)
    {
      CheckedLater(t, acts, a, at[k], id, r, k);
    }
    assert Trail(t, acts + [a], id, r, at);
  }

  /** What the checks behind a request found is still so. */
  ghost predicate Keeps(r: Request, r': Request) {
    && (r.route.Some? ==> r'.route == r.route)
    && (r.target.Some? ==> r'.target == r.target)
    && (r.admitted.Some? ==> r'.admitted == r.admitted)
  }

  /** A step takes a request at most one check further, and what the checks behind it found stays. */
  lemma DepthAdvance(t: Table, w: Shared, r: Request, m: Move)
    requires Enabled(t, w, r, m) && Shaped(t, w.store, r)
    ensures var r' := Advance(t, w, r, m).0;
            Depth(r') <= Depth(r) + 1 && Keeps(r, r')
  {}

  predicate IsCheck(m: Move) {
    m.Match? || m.Authenticate? || m.CallRedis? || m.Limit? || m.Balance? || m.Admit?
  }

  lemma NoDeeper(t: Table, w: Shared, r: Request, m: Move)
    requires Enabled(t, w, r, m) && Shaped(t, w.store, r) && !IsCheck(m)
    ensures Depth(Advance(t, w, r, m).0) <= Depth(r)
  {}

  /** If the step takes the request a check further, it is that check. */
  ghost predicate IsNextCheck(t: Table, acts: seq<Act>, id: nat, m: Move)
    requires Possible(t, After(t, acts), Step(id, m))
  {
    var r := After(t, acts).requests[id];
    var r' := Advance(t, After(t, acts).shared, r, m).0;
    Depth(r') == Depth(r) + 1 ==> CheckedAt(t, acts + [Step(id, m)], |acts|, id, r', Depth(r))
  }

  lemma FirstChecks(t: Table, acts: seq<Act>, id: nat, m: Move)
    requires Possible(t, After(t, acts), Step(id, m)) && (m.Match? || m.Authenticate? || m.Balance?)
    requires Shaped(t, After(t, acts).shared.store, After(t, acts).requests[id])
    ensures IsNextCheck(t, acts, id, m)
  {
    assert (acts + [Step(id, m)])[..|acts|] == acts;
    assert Took(t, acts + [Step(id, m)], |acts|, id, m);
  }

  lemma LimiterCheck(t: Table, acts: seq<Act>, id: nat, m: Move)
    requires Possible(t, After(t, acts), Step(id, m)) && (m.CallRedis? || m.Limit?)
    requires Shaped(t, After(t, acts).shared.store, After(t, acts).requests[id])
    ensures IsNextCheck(t, acts, id, m)
  {
    assert (acts + [Step(id, m)])[..|acts|] == acts;
    assert Took(t, acts + [Step(id, m)], |acts|, id, m);
  }

  lemma BreakerCheck(t: Table, acts: seq<Act>, id: nat, m: Move)
    requires Possible(t, After(t, acts), Step(id, m)) && m.Admit?
    requires Shaped(t, After(t, acts).shared.store, After(t, acts).requests[id])
    ensures IsNextCheck(t, acts, id, m)
  {
    assert (acts + [Step(id, m)])[..|acts|] == acts;
    assert Took(t, acts + [Step(id, m)], |acts|, id, m);
  }

  lemma Deeper(t: Table, acts: seq<Act>, id: nat, m: Move)
    requires Possible(t, After(t, acts), Step(id, m))
    requires Shaped(t, After(t, acts).shared.store, After(t, acts).requests[id])
    ensures IsNextCheck(t, acts, id, m)
  {
    if m.Match? || m.Authenticate? || m.Balance? {
      FirstChecks(t, acts, id, m);
    } else if m.CallRedis? || m.Limit? {
      LimiterCheck(t, acts, id, m);
    } else if m.Admit? {
      BreakerCheck(t, acts, id, m);
    } else {
      NoDeeper(t, After(t, acts).shared, After(t, acts).requests[id], m);
    }
  }

  lemma TrailPrefix(t: Table, acts: seq<Act>, a: Act, id: nat, r: Request, r': Request, at: seq<nat>)
    requires |at| == Depth(r) && Trail(t, acts, id, r, at) && Keeps(r, r') && Depth(r') <= Depth(r)
    ensures HasTrail(t, acts + [a], id, r')
  {
    var at' := at[..Depth(r')];
    forall k | 0 <= k < |at'|
      ensures CheckedAt(t, acts + [a], at'[k], id, r', k)
    {
      CheckedLater(t, acts, a, at[k], id, r, k);
    }
    assert Trail(t, acts + [a], id, r', at');
  }

  lemma TrailGrows(t: Table, acts: seq<Act>, a: Act, id: nat, r: Request, r': Request, at: seq<nat>)
    requires |at| == Depth(r) && Trail(t, acts, id, r, at) && Keeps(r, r') && Depth(r') == Depth(r) + 1
    requires CheckedAt(t, acts + [a], |acts|, id, r', Depth(r))
    ensures HasTrail(t, acts + [a], id, r')
  {
    var at' := at + [|acts|];
    forall k | 0 <= k < |at|
      ensures CheckedAt(t, acts + [a], at'[k], id, r', k)
    {
      CheckedLater(t, acts, a, at[k], id, r, k);
    }
    assert Trail(t, acts + [a], id, r', at');
  }

  lemma TrailStep(t: Table, acts: seq<Act>, id: nat, m: Move)
    requires Possible(t, After(t, acts), Step(id, m))
    requires Shaped(t, After(t, acts).shared.store, After(t, acts).requests[id])
    requires HasTrail(t, acts, id, After(t, acts).requests[id])
    ensures HasTrail(t, acts + [Step(id, m)], id, Advance(t, After(t, acts).shared, After(t, acts).requests[id], m).0)
  {
    var whole := acts + [Step(id, m)];
    var g := After(t, acts);
    var r := g.requests[id];
    var r' := Advance(t, g.shared, r, m).0;
    var at :| |at| == Depth(r) && Trail(t, acts, id, r, at);
    DepthAdvance(t, g.shared, r, m);
    Deeper(t, acts, id, m);
    if Depth(r') <= Depth(r) {
      TrailPrefix(t, acts, Step(id, m), id, r, r', at);
    } else {
      TrailGrows(t, acts, Step(id, m), id, r, r', at);
    }
  }

  ghost predicate AllHaveTrails(t: Table, acts: seq<Act>, requests: map<nat, Request>) {
    forall id :: id in requests ==> HasTrail(t, acts, id, requests[id])
  }

  lemma AllTrailsLater(t: Table, acts: seq<Act>, a: Act, requests: map<nat, Request>)
    requires AllHaveTrails(t, acts, requests)
    ensures AllHaveTrails(t, acts + [a], requests)
  {
    forall id | id in requests
      ensures HasTrail(t, acts + [a], id, requests[id])
    {
      TrailLater(t, acts, a, id, requests[id]);
    }
  }

  lemma TrailOfNew(t: Table, acts: seq<Act>, id: nat, r: Request)
    requires Depth(r) == 0
    ensures HasTrail(t, acts, id, r)
  {
    assert Trail(t, acts, id, r, []);
  }

  lemma StepUpdates(t: Table, g: Gateway, id: nat, m: Move)
    requires Possible(t, g, Step(id, m))
    ensures Do(t, g, Step(id, m)).requests == g.requests[id := Advance(t, g.shared, g.requests[id], m).0]
  {}

  lemma AllTrailsUpdate(t: Table, acts: seq<Act>, requests: map<nat, Request>, id: nat, r: Request)
    requires AllHaveTrails(t, acts, requests) && HasTrail(t, acts, id, r)
    ensures AllHaveTrails(t, acts, requests[id := r])
  {}

  lemma TrailsStep(t: Table, acts: seq<Act>, a: Act)
    requires Inv(t, After(t, acts)) && AllHaveTrails(t, acts, After(t, acts).requests)
    ensures AllHaveTrails(t, acts + [a], Do(t, After(t, acts), a).requests)
  {
    var g := After(t, acts);
    AllTrailsLater(t, acts, a, g.requests);
    if Possible(t, g, a) {
      match a
      case Step(id, m) =>
        TrailStep(t, acts, id, m);
        StepUpdates(t, g, id, m);
        AllTrailsUpdate(t, acts + [a], g.requests, id, Advance(t, g.shared, g.requests[id], m).0);
      case Arrive(id, _, _) => TrailOfNew(t, acts + [a], id, Do(t, g, a).requests[id]);
      case _ =>
    }
  }

  lemma {:induction false} TrailsAlways(t: Table, acts: seq<Act>)
    ensures AllHaveTrails(t, acts, After(t, acts).requests)
  {
    if acts != [] {
      var init := acts[..|acts| - 1];
      assert acts == init + [acts[|acts| - 1]];
      TrailsAlways(t, init);
      InvAlways(t, init);
      TrailsStep(t, init, acts[|acts| - 1]);
    }
  }

  lemma TrailReads(t: Table, acts: seq<Act>, id: nat, r: Request, at: seq<nat>)
    requires |at| >= 4 && Trail(t, acts, id, r, at)
    ensures r.route.Some? && r.target.Some?
    ensures at[0] < at[1] < at[2] < at[3]
    ensures MatchedAt(t, acts, at[0], id, r.route.value) && AuthenticatedAt(t, acts, at[1], id)
    ensures LetByAt(t, acts, at[2], id) && GivenAt(t, acts, at[3], id, r.route.value, r.target.value)
    ensures |at| == 5 ==> at[3] < at[4] && r.admitted.Some? && AdmittedAt(t, acts, at[4], id, r.admitted.value)
  {
    assert CheckedAt(t, acts, at[0], id, r, 0) && CheckedAt(t, acts, at[1], id, r, 1);
    assert CheckedAt(t, acts, at[2], id, r, 2) && CheckedAt(t, acts, at[3], id, r, 3);
    assert |at| == 5 ==> CheckedAt(t, acts, at[4], id, r, 4);
  }

  /** A request is sent upstream only after it was matched to its route, then authenticated, then let
      by the limiter, then given the endpoint whose turn it was and then, where the route has a
      breaker, let through by the breaker of that endpoint. */
  lemma OnlyThroughEveryCheck(t: Table, acts: seq<Act>, id: nat)
    requires id in After(t, acts).requests && After(t, acts).requests[id].pc == Proxying
    ensures var g := After(t, acts);
            var r := g.requests[id];
            && Targeted(t, r)
            && exists i1: nat, i2: nat, i3: nat, i4: nat | i1 < i2 < i3 < i4 ::
                 && MatchedAt(t, acts, i1, id, r.route.value)
                 && AuthenticatedAt(t, acts, i2, id)
                 && LetByAt(t, acts, i3, id)
                 && GivenAt(t, acts, i4, id, r.route.value, r.target.value)
                 && (t[r.route.value].breaker.Some? ==>
                       && BreakerKey(t, r) in g.shared.store
                       && exists i5: nat :: i4 < i5 && AdmittedAt(t, acts, i5, id, g.shared.store[BreakerKey(t, r)]))
  {
    TrailsAlways(t, acts);
    InvAlways(t, acts);
    var r := After(t, acts).requests[id];
    assert Shaped(t, After(t, acts).shared.store, r);
    var at :| |at| == Depth(r) && Trail(t, acts, id, r, at);
    TrailReads(t, acts, id, r, at);
  }

  // ----- Refusals

  predicate Returned(pc: Pc) {
    pc.Leaving? || pc.Counting? || pc.Observing? || pc.Finished?
  }

  /** What a request that returned without reaching an upstream was answered. */
  ghost predicate RefusedProperly(t: Table, r: Request) {
    && (Returned(r.pc) && r.target.None? ==>
          || (r.route.None? && r.status == 404)
          || (r.route.Some? && (r.status == 401 || r.status == 429))
          || (Routed(t, r) && t[r.route.value].endpoints == [] && r.status == 503))
    && (r.asked == Some(false) ==> Returned(r.pc) && r.status == 503)
    && (r.pc.Matching? ==> r.route.None?)
    && (r.route.None? ==> r.pc.Matching? || Returned(r.pc))
  }

  lemma RefusedAdvance(t: Table, w: Shared, r: Request, m: Move)
    requires Enabled(t, w, r, m) && Shaped(t, w.store, r) && RefusedProperly(t, r)
    ensures RefusedProperly(t, Advance(t, w, r, m).0)
  {}

  /** 404 means no route, 503 no endpoint or an open breaker, and otherwise a refusal is 401 or 429. */
  lemma {:induction false} RefusalsAreProper(t: Table, acts: seq<Act>)
    ensures forall id :: id in After(t, acts).requests ==> RefusedProperly(t, After(t, acts).requests[id])
  {
    if acts != [] {
      var g := After(t, acts[..|acts| - 1]);
      var a := acts[|acts| - 1];
      RefusalsAreProper(t, acts[..|acts| - 1]);
      InvAlways(t, acts[..|acts| - 1]);
      if a.Step? && Possible(t, g, a) {
        RefusedAdvance(t, g.shared, g.requests[a.id], a.move);
      }
    }
  }
}
