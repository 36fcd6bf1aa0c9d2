/** How the balancer spreads a route's requests, and how many of them meet an open breaker. */
module GatewayBalancing {
  import opened Prelude
  import opened Gateway
  import CB = CircuitBreaker
  import RR = Balancer

  /** The route's requests that were given an endpoint. */
  function Balanced(route: string): Request -> bool {
    (r: Request) => r.route == Some(route) && r.target.Some?
  }

  function Picked(route: string, j: nat): Request -> bool {
    (r: Request) => r.route == Some(route) && r.target == Some(j)
  }

  function PickedIn(route: string, positions: set<nat>): Request -> bool {
    (r: Request) => r.route == Some(route) && r.target.Some? && r.target.value in positions
  }

  lemma {:induction false} PicksSnoc(start: nat, calls: nat, n: nat, j: nat)
    requires n > 0 && start < RR.WORD
    ensures RR.Picks(start, calls + 1, n, j)
         == RR.Picks(start, calls, n, j) + One(((start + calls) % RR.WORD) % n == j)
    decreases calls
  {
    if calls > 0 {
      PicksSnoc(RR.Bump(start), calls - 1, n, j);
      if start + 1 == RR.WORD {
        Quotient(start + calls, RR.WORD, (calls - 1) / RR.WORD + 1, (calls - 1) % RR.WORD);
      }
    } else {
      Quotient(start, RR.WORD, 0, start);
    }
  }

  lemma BumpIs(k: nat)
    ensures RR.Bump(k % RR.WORD) == (k + 1) % RR.WORD
  {
    if k % RR.WORD + 1 == RR.WORD {
      Quotient(k + 1, RR.WORD, k / RR.WORD + 1, 0);
    } else {
      Quotient(k + 1, RR.WORD, k / RR.WORD, k % RR.WORD + 1);
    }
  }

  ghost predicate Spread(t: Table, g: Gateway, route: string, j: nat)
    requires route in t && t[route].endpoints != []
  {
    var k := |Where(g.requests, Balanced(route))|;
    && Turn(g.shared, route) == k % RR.WORD
    && |Where(g.requests, Picked(route, j))| == RR.Picks(0, k, |t[route].endpoints|, j)
  }

  lemma BalanceAdvance(t: Table, w: Shared, r: Request, m: Move, route: string, j: nat)
    requires Enabled(t, w, r, m) && Shaped(t, w.store, r)
    requires route in t && t[route].endpoints != []
    ensures var (r', w') := Advance(t, w, r, m);
            var here := m.Balance? && r.route == Some(route);
            && One(Balanced(route)(r')) == One(Balanced(route)(r)) + One(here)
            && One(Picked(route, j)(r')) == One(Picked(route, j)(r))
                 + One(here && Turn(w, route) % |t[route].endpoints| == j)
            && Turn(w', route) == if here then RR.Bump(Turn(w, route)) else Turn(w, route)
  {}

  lemma SpreadStep(t: Table, g: Gateway, a: Act, route: string, j: nat)
    requires route in t && t[route].endpoints != []
    requires Inv(t, g) && Spread(t, g, route, j)
    ensures Spread(t, Do(t, g, a), route, j)
  {
    var k := |Where(g.requests, Balanced(route))|;
    if Possible(t, g, a) && (a.Arrive? || a.Step?) {
      var r' := Do(t, g, a).requests[a.id];
      WhereUpdate(g.requests, a.id, r', Balanced(route));
      WhereUpdate(g.requests, a.id, r', Picked(route, j));
      if a.Step? {
        BalanceAdvance(t, g.shared, g.requests[a.id], a.move, route, j);
        PicksSnoc(0, k, |t[route].endpoints|, j);
        BumpIs(k);
      }
    }
  }

  /** Position j of a route gets exactly the picks of a round robin that counts from zero and is
      asked once for every request of the route that reaches the balancer. */
  lemma {:induction false} SpreadAlways(t: Table, acts: seq<Act>, route: string, j: nat)
    requires route in t && t[route].endpoints != []
    ensures Spread(t, After(t, acts), route, j)
  {
    if acts == [] {
      assert Where(map[], Balanced(route)) == {} == Where(map[], Picked(route, j));
    } else {
      var init := acts[..|acts| - 1];
      InvAlways(t, init);
      SpreadAlways(t, init, route, j);
      SpreadStep(t, After(t, init), acts[|acts| - 1], route, j);
    }
  }

  // ----- From any moment on

  /** Balanced after the moment at which the requests were as in `before`. */
  function Newly(before: map<nat, Request>, after: map<nat, Request>, route: string, p: Request -> bool): set<nat> {
    Where(after, p) - Where(before, Balanced(route))
  }

  /** A request keeps the endpoint it was given. */
  ghost predicate Keeps(before: map<nat, Request>, after: map<nat, Request>, route: string) {
    forall id :: id in before && Balanced(route)(before[id]) ==>
      id in after && after[id].route == before[id].route && after[id].target == before[id].target
  }

  lemma TargetStays(t: Table, w: Shared, r: Request, m: Move)
    requires Enabled(t, w, r, m) && Shaped(t, w.store, r) && r.target.Some?
    ensures var r' := Advance(t, w, r, m).0; r'.route == r.route && r'.target == r.target
  {}

  lemma {:induction false} TargetsStay(t: Table, acts: seq<Act>, from: nat, route: string)
    requires from <= |acts|
    ensures Keeps(After(t, acts[..from]).requests, After(t, acts).requests, route)
  {
    if from == |acts| {
      assert acts[..from] == acts;
    } else {
      var init := acts[..|acts| - 1];
      var a := acts[|acts| - 1];
      var g := After(t, init);
      assert init[..from] == acts[..from];
      TargetsStay(t, init, from, route);
      InvAlways(t, init);
      if a.Step? && Possible(t, g, a) && g.requests[a.id].target.Some? {
        TargetStays(t, g.shared, g.requests[a.id], a.move);
      }
    }
  }

  lemma {:induction false} PicksAdd(start: nat, calls: nat, mid: nat, more: nat, n: nat, j: nat)
    requires n > 0 && start < RR.WORD && mid == (start + calls) % RR.WORD
    ensures RR.Picks(start, calls + more, n, j) == RR.Picks(start, calls, n, j) + RR.Picks(mid, more, n, j)
    decreases more
  {
    if more > 0 {
      PicksAdd(start, calls, mid, more - 1, n, j);
      PicksAddNext(start, calls, mid, more - 1, n, j);
    }
  }

  lemma PicksAddNext(start: nat, calls: nat, mid: nat, more: nat, n: nat, j: nat)
    requires n > 0 && start < RR.WORD && mid == (start + calls) % RR.WORD
    ensures RR.Picks(start, calls + (more + 1), n, j) - RR.Picks(start, calls + more, n, j)
         == RR.Picks(mid, more + 1, n, j) - RR.Picks(mid, more, n, j)
  {
    Shifted(start + calls, more);
    var at := (start + calls + more) % RR.WORD;
    PicksNext(start, calls + more, at, n, j);
    PicksNext(mid, more, at, n, j);
  }

  lemma PicksNext(start: nat, calls: nat, at: nat, n: nat, j: nat)
    requires n > 0 && start < RR.WORD && at == (start + calls) % RR.WORD
    ensures RR.Picks(start, calls + 1, n, j) == RR.Picks(start, calls, n, j) + One(at % n == j)
  {
    PicksSnoc(start, calls, n, j);
  }

  lemma Shifted(x: nat, y: nat)
    ensures (x % RR.WORD + y) % RR.WORD == (x + y) % RR.WORD
  {
    var q := (x % RR.WORD + y) / RR.WORD;
    Quotient(x + y, RR.WORD, x / RR.WORD + q, (x % RR.WORD + y) % RR.WORD);
  }

  lemma Split(a: set<nat>, b: set<nat>)
    requires a <= b
    ensures |b| == |a| + |b - a|
  {
    assert b == a + (b - a);
  }

  lemma NewlyBalanced(before: map<nat, Request>, after: map<nat, Request>, route: string)
    requires Keeps(before, after, route)
    ensures |Where(after, Balanced(route))|
         == |Where(before, Balanced(route))| + |Newly(before, after, route, Balanced(route))|
  {
    Split(Where(before, Balanced(route)), Where(after, Balanced(route)));
  }

  lemma StillPicked(before: map<nat, Request>, after: map<nat, Request>, route: string, j: nat, id: nat)
    requires Keeps(before, after, route)
    ensures id in Where(before, Picked(route, j)) <==>
            id in Where(after, Picked(route, j)) && id in Where(before, Balanced(route))
  {
    assert id in Where(before, Picked(route, j)) ==> Balanced(route)(before[id]);
  }

  lemma NewlyPicked(before: map<nat, Request>, after: map<nat, Request>, route: string, j: nat)
    requires Keeps(before, after, route)
    ensures |Where(after, Picked(route, j))|
         == |Where(before, Picked(route, j))| + |Newly(before, after, route, Picked(route, j))|
  {
    var balanced := Where(before, Balanced(route));
    var earlier, later := Where(before, Picked(route, j)), Where(after, Picked(route, j));
    forall id
      ensures id in earlier <==> id in later && id in balanced
    {
      StillPicked(before, after, route, j, id);
    }
    Split(earlier, later);
    assert later - earlier == later - balanced;
  }

  lemma PicksBetween(earlier: nat, later: nat, turn: nat, n: nat, j: nat)
    requires n > 0 && earlier <= later && turn == earlier % RR.WORD
    ensures turn < RR.WORD
    ensures RR.Picks(0, later, n, j) == RR.Picks(0, earlier, n, j) + RR.Picks(turn, later - earlier, n, j)
  {
    PicksAdd(0, earlier, turn, later - earlier, n, j);
  }

  lemma SpreadBetween(t: Table, base: Gateway, g: Gateway, route: string, j: nat)
    requires route in t && t[route].endpoints != []
    requires Spread(t, base, route, j) && Spread(t, g, route, j) && Keeps(base.requests, g.requests, route)
    ensures var k := |Newly(base.requests, g.requests, route, Balanced(route))|;
            Turn(base.shared, route) < RR.WORD &&
            |Newly(base.requests, g.requests, route, Picked(route, j))|
              == RR.Picks(Turn(base.shared, route), k, |t[route].endpoints|, j)
  {
    var earlier, later := |Where(base.requests, Balanced(route))|, |Where(g.requests, Balanced(route))|;
    NewlyBalanced(base.requests, g.requests, route);
    NewlyPicked(base.requests, g.requests, route, j);
    PicksBetween(earlier, later, Turn(base.shared, route), |t[route].endpoints|, j);
  }

  /** From any moment of a run on, position j gets the picks of a round robin that counts from where
      the balancer was at that moment. */
  lemma SpreadSince(t: Table, acts: seq<Act>, from: nat, route: string, j: nat)
    requires route in t && t[route].endpoints != [] && from <= |acts|
    ensures var base, g := After(t, acts[..from]), After(t, acts);
            var k := |Newly(base.requests, g.requests, route, Balanced(route))|;
            Turn(base.shared, route) < RR.WORD &&
            |Newly(base.requests, g.requests, route, Picked(route, j))|
              == RR.Picks(Turn(base.shared, route), k, |t[route].endpoints|, j)
  {
    SpreadAlways(t, acts[..from], route, j);
    SpreadAlways(t, acts, route, j);
    TargetsStay(t, acts, from, route);
    SpreadBetween(t, After(t, acts[..from]), After(t, acts), route, j);
  }

  // ----- Meeting open breakers

  ghost predicate MeetsAsExpected(w: Shared, r: Request, now: int, dead: set<nat>)
    requires Found(w, r)
  {
    var b := r.found.value;
    r.target.Some? &&
    (r.target.value in dead <==> w.breakers[b].state == CB.Open && now - w.breakers[b].openTime < w.configs[b].timeout)
  }

  /** From the act at `from` on, whenever a request of the route asks its breaker, the breaker is open
      with its timeout running if and only if the request's position is in `dead`. */
  ghost predicate DeadSince(t: Table, acts: seq<Act>, from: nat, route: string, dead: set<nat>) {
    forall i :: from <= i < |acts| ==> AsksAsExpected(t, After(t, acts[..i]), acts[i], route, dead)
  }

  ghost predicate AsksAsExpected(t: Table, g: Gateway, a: Act, route: string, dead: set<nat>) {
    a.Step? && a.move.Admit? && Possible(t, g, a) && g.requests[a.id].route == Some(route) ==>
      MeetsAsExpected(g.shared, g.requests[a.id], a.move.now, dead)
  }

  lemma DeadSinceInit(t: Table, acts: seq<Act>, from: nat, route: string, dead: set<nat>)
    requires from < |acts| && DeadSince(t, acts, from, route, dead)
    ensures DeadSince(t, acts[..|acts| - 1], from, route, dead)
    ensures AsksAsExpected(t, After(t, acts[..|acts| - 1]), acts[|acts| - 1], route, dead)
  {
    var n := |acts| - 1;
    assert forall i :: 0 <= i < n ==> acts[..n][..i] == acts[..i];
  }

  /** Answered CIRCUIT_OPEN. */
  function Rejected(route: string): Request -> bool {
    (r: Request) => r.route == Some(route) && r.asked == Some(false)
  }

  /** Given a position in `dead`, and its breaker not asked yet. */
  function Waiting(route: string, dead: set<nat>): Request -> bool {
    (r: Request) => r.route == Some(route) && r.target.Some? && r.target.value in dead && r.asked.None?
  }

  ghost predicate AnsweredAsExpected(r: Request, route: string, dead: set<nat>) {
    r.route == Some(route) && r.asked.Some? ==>
      r.target.Some? && (r.asked.value <==> r.target.value !in dead)
  }

  lemma AnswerAdvance(t: Table, w: Shared, r: Request, m: Move, route: string, dead: set<nat>)
    requires Enabled(t, w, r, m) && Shaped(t, w.store, r) && AnsweredAsExpected(r, route, dead)
    requires m.Admit? && r.route == Some(route) ==> MeetsAsExpected(w, r, m.now, dead)
    ensures AnsweredAsExpected(Advance(t, w, r, m).0, route, dead)
  {}

  /** Holds of all requests but those already balanced at that moment. */
  ghost predicate NewlyAnswered(before: map<nat, Request>, after: map<nat, Request>, route: string, dead: set<nat>) {
    forall id :: id in after && id !in Where(before, Balanced(route)) ==> AnsweredAsExpected(after[id], route, dead)
  }

  lemma AnswersStep(t: Table, before: map<nat, Request>, g: Gateway, a: Act, route: string, dead: set<nat>)
    requires Inv(t, g) && AsksAsExpected(t, g, a, route, dead) && NewlyAnswered(before, g.requests, route, dead)
    ensures NewlyAnswered(before, Do(t, g, a).requests, route, dead)
  {
    if a.Step? && Possible(t, g, a) && a.id !in Where(before, Balanced(route)) {
      assert AnsweredAsExpected(g.requests[a.id], route, dead);
      AnswerAdvance(t, g.shared, g.requests[a.id], a.move, route, dead);
    }
  }

  lemma NobodyAskedYet(t: Table, g: Gateway, route: string, dead: set<nat>)
    requires Inv(t, g)
    ensures NewlyAnswered(g.requests, g.requests, route, dead)
  {
    forall id | id in g.requests && id !in Where(g.requests, Balanced(route))
      ensures AnsweredAsExpected(g.requests[id], route, dead)
    {
      assert Shaped(t, g.shared.store, g.requests[id]);
    }
  }

  lemma {:induction false} AnswersSince(t: Table, acts: seq<Act>, from: nat, route: string, dead: set<nat>)
    requires from <= |acts| && DeadSince(t, acts, from, route, dead)
    ensures NewlyAnswered(After(t, acts[..from]).requests, After(t, acts).requests, route, dead)
  {
    if from == |acts| {
      assert acts[..from] == acts;
      InvAlways(t, acts);
      NobodyAskedYet(t, After(t, acts), route, dead);
    } else {
      var n := |acts| - 1;
      assert acts[..n][..from] == acts[..from];
      DeadSinceInit(t, acts, from, route, dead);
      AnswersSince(t, acts[..n], from, route, dead);
      InvAlways(t, acts[..n]);
      AnswersStep(t, After(t, acts[..from]).requests, After(t, acts[..n]), acts[n], route, dead);
    }
  }

  /** `x` is a sum of `n` numbers from `low` to `high`. */
  predicate Within(x: nat, n: nat, low: nat, high: nat) {
    n * low <= x <= n * high
  }

  ghost predicate EachWithin(
      before: map<nat, Request>, after: map<nat, Request>, route: string, positions: set<nat>, low: nat, high: nat)
  {
    forall j :: j in positions ==> low <= |Newly(before, after, route, Picked(route, j))| <= high
  }

  lemma NoneWithin(before: map<nat, Request>, after: map<nat, Request>, route: string, low: nat, high: nat)
    ensures Within(|Newly(before, after, route, PickedIn(route, {}))|, 0, low, high)
  {
    assert Newly(before, after, route, PickedIn(route, {})) == {};
  }

  lemma FewerWithin(
      before: map<nat, Request>, after: map<nat, Request>, route: string, positions: set<nat>, j: nat,
      low: nat, high: nat)
    requires EachWithin(before, after, route, positions, low, high) && j in positions
    ensures EachWithin(before, after, route, positions - {j}, low, high)
    ensures low <= |Newly(before, after, route, Picked(route, j))| <= high
    ensures |positions| == |positions - {j}| + 1
  {}

  lemma {:induction false} PickedInBounds(
      before: map<nat, Request>, after: map<nat, Request>, route: string, positions: set<nat>, low: nat, high: nat)
    requires EachWithin(before, after, route, positions, low, high)
    ensures Within(|Newly(before, after, route, PickedIn(route, positions))|, |positions|, low, high)
  {
    if positions == {} {
      NoneWithin(before, after, route, low, high);
    } else {
      var j :| j in positions;
      var fewer := positions - {j};
      FewerWithin(before, after, route, positions, j, low, high);
      PickedInBounds(before, after, route, fewer, low, high);
      PickedInSplit(before, after, route, positions, j);
      WithinNext(|Newly(before, after, route, PickedIn(route, fewer))|, |Newly(before, after, route, Picked(route, j))|,
                 |fewer|, low, high);
    }
  }

  lemma WithinNext(x: nat, y: nat, n: nat, low: nat, high: nat)
    requires Within(x, n, low, high) && low <= y <= high
    ensures Within(x + y, n + 1, low, high)
  {
    OneMore(n, low);
    OneMore(n, high);
  }

  lemma PickedInSplit(before: map<nat, Request>, after: map<nat, Request>, route: string, positions: set<nat>, j: nat)
    requires j in positions
    ensures |Newly(before, after, route, PickedIn(route, positions))|
         == |Newly(before, after, route, PickedIn(route, positions - {j}))|
            + |Newly(before, after, route, Picked(route, j))|
  {
    var others := Newly(before, after, route, PickedIn(route, positions - {j}));
    var mine := Newly(before, after, route, Picked(route, j));
    assert Newly(before, after, route, PickedIn(route, positions)) == others + mine;
    assert others !! mine;
  }

  /** Those sent to the dead are rejected, or about to be. */
  lemma RejectedOrWaiting(t: Table, acts: seq<Act>, from: nat, route: string, dead: set<nat>)
    requires from <= |acts| && DeadSince(t, acts, from, route, dead)
    ensures var before, after := After(t, acts[..from]).requests, After(t, acts).requests;
            var rejected := Newly(before, after, route, Rejected(route));
            var waiting := Newly(before, after, route, Waiting(route, dead));
            rejected !! waiting && rejected + waiting == Newly(before, after, route, PickedIn(route, dead))
  {
    var before, after := After(t, acts[..from]).requests, After(t, acts).requests;
    AnswersSince(t, acts, from, route, dead);
    forall id | id in after && id !in Where(before, Balanced(route))
      ensures PickedIn(route, dead)(after[id]) <==> Rejected(route)(after[id]) || Waiting(route, dead)(after[id])
    {
      assert AnsweredAsExpected(after[id], route, dead);
    }
  }

  /** If from some moment on the breakers of f of a route's n positions, and no others of the route,
      reject, then of the k requests the balancer has handled since, before its counter wraps, between
      f * floor(k / n) and f * ceil(k / n) are answered CIRCUIT_OPEN or on their way to be: exactly
      those it sent to the f. */
  lemma CircuitOpenShare(t: Table, acts: seq<Act>, from: nat, route: string, dead: set<nat>)
    requires route in t && t[route].endpoints != [] && from <= |acts|
    requires forall j :: j in dead ==> j < |t[route].endpoints|
    requires DeadSince(t, acts, from, route, dead)
    requires var base, g := After(t, acts[..from]), After(t, acts);
             Turn(base.shared, route) + |Newly(base.requests, g.requests, route, Balanced(route))| <= RR.WORD
    ensures var before, after := After(t, acts[..from]).requests, After(t, acts).requests;
            var k, n := |Newly(before, after, route, Balanced(route))|, |t[route].endpoints|;
            var rejected := Newly(before, after, route, Rejected(route));
            var waiting := Newly(before, after, route, Waiting(route, dead));
            && rejected !! waiting && rejected + waiting == Newly(before, after, route, PickedIn(route, dead))
            && |dead| * RR.ShareDown(k, n) <= |rejected| + |waiting| <= |dead| * RR.ShareUp(k, n)
  {
    var before, after := After(t, acts[..from]).requests, After(t, acts).requests;
    var k, n := |Newly(before, after, route, Balanced(route))|, |t[route].endpoints|;
    RejectedOrWaiting(t, acts, from, route, dead);
    forall j | j in dead
      ensures RR.ShareDown(k, n) <= |Newly(before, after, route, Picked(route, j))| <= RR.ShareUp(k, n)
    {
      SpreadSince(t, acts, from, route, j);
      RR.FairUnwrapped(Turn(After(t, acts[..from]).shared, route), k, n, j);
    }
    PickedInBounds(before, after, route, dead, RR.ShareDown(k, n), RR.ShareUp(k, n));
  }
}
