/**
 The limiter inside the gateway: what one client of one route gets through it, by way of Redis and by
 way of this replica's memory, and that other clients make no difference.
 */
module GatewayLimiter {
  import opened Prelude
  import opened Gateway
  import RL = RateLimit
  import RD = Redis
  import FO = Failover
  import W = Windows

  // ----- What each back end goes through

  /** What an act means to the in-memory limiter: the call of a request whose route has a limit that is
      enabled, or a cleanup. */
  function EventFor(t: Table, g: Gateway, a: Act): Option<RL.Event> {
    match a
    case CleanLimiter(now) => Some(RL.Clean(now))
    case Step(id, Limit(now, later)) =>
      if !Possible(t, g, a) then None
      else
        var r := g.requests[id];
        (match t[r.route.value].limit
         case Some(LimitCfg(true, limit, window)) =>
           Some(RL.Call(JoinKey(r.route.value, r.client), limit, window, now, later))
         case _ => None)
    case _ => None
  }

  function Events(t: Table, acts: seq<Act>): seq<RL.Event> {
    if acts == [] then []
    else
      var init := acts[..|acts| - 1];
      var e := EventFor(t, After(t, init), acts[|acts| - 1]);
      if e.Some? then Events(t, init) + [e.value] else Events(t, init)
  }

  /** What an act means to Redis, whether or not anybody here hears the answer. */
  function ScriptFor(t: Table, g: Gateway, a: Act): Option<FO.FleetEvent> {
    if !Possible(t, g, a) then None
    else
      match a
      case Step(id, CallRedis(replied, at)) => Script(t, g.requests[id].route.value, g.requests[id].client, at, replied)
      case Elsewhere(route, client, at) => Script(t, route, client, at, false)
      case _ => None
  }

  function Script(t: Table, route: string, client: string, at: int, replied: bool): Option<FO.FleetEvent>
    requires route in t
  {
    match t[route].limit
    case Some(LimitCfg(true, limit, window)) => Some(FO.Script(JoinKey(route, client), limit, window, at, replied))
    case _ => None
  }

  function Scripts(t: Table, acts: seq<Act>): seq<FO.FleetEvent> {
    if acts == [] then []
    else
      var init := acts[..|acts| - 1];
      var e := ScriptFor(t, After(t, init), acts[|acts| - 1]);
      if e.Some? then Scripts(t, init) + [e.value] else Scripts(t, init)
  }

  // ----- Projection

  lemma OthersLeaveLimiter(t: Table, w: Shared, r: Request, m: Move)
    requires Enabled(t, w, r, m) && !m.Limit?
    ensures Advance(t, w, r, m).1.limiter == w.limiter
  {}

  lemma OthersLeaveRedis(t: Table, w: Shared, r: Request, m: Move)
    requires Enabled(t, w, r, m) && !m.CallRedis?
    ensures Advance(t, w, r, m).1.redis == w.redis
  {
    match m
    case Limit(now, later) => assert Advance(t, w, r, m).1 == DoLimit(t, w, r, now, later).1;
    case Balance => assert Advance(t, w, r, m).1 == DoBalance(t, w, r).1;
    case Insert => assert Advance(t, w, r, m).1 == DoInsert(t, w, r).1;
    case Record(seen, now) => assert Advance(t, w, r, m).1 == DoRecord(w, r, seen, now).1;
    case _ =>
  }

  lemma LimiterStep(t: Table, g: Gateway, a: Act)
    ensures var e := EventFor(t, g, a);
            Do(t, g, a).shared.limiter == if e.Some? then RL.Step(g.shared.limiter, e.value) else g.shared.limiter
  {
    if a.Step? && Possible(t, g, a) && !a.move.Limit? {
      OthersLeaveLimiter(t, g.shared, g.requests[a.id], a.move);
    }
  }

  /** The gateway's limiter is one that sees the calls of the requests and the cleanups, in order. */
  lemma {:induction false} LimiterProjection(t: Table, acts: seq<Act>)
    ensures After(t, acts).shared.limiter == RL.Final(map[], Events(t, acts))
  {
    if acts != [] {
      var init := acts[..|acts| - 1];
      LimiterProjection(t, init);
      LimiterStep(t, After(t, init), acts[|acts| - 1]);
      var e := EventFor(t, After(t, init), acts[|acts| - 1]);
      if e.Some? {
        RL.FinalSnoc(map[], Events(t, init), e.value);
      }
    }
  }

  function Ran(ks: RD.Keyspace, e: FO.FleetEvent): RD.Keyspace
    requires e.Script?
  {
    RD.Check(ks, e.key, e.limit, e.window, e.now).0
  }

  lemma RedisStep(t: Table, g: Gateway, a: Act)
    ensures var e := ScriptFor(t, g, a);
            Do(t, g, a).shared.redis == if e.Some? then Ran(g.shared.redis, e.value) else g.shared.redis
  {
    if a.Step? && Possible(t, g, a) && !a.move.CallRedis? {
      OthersLeaveRedis(t, g.shared, g.requests[a.id], a.move);
    }
  }

  /** Redis is where the scripts leave it, those of other replicas included. */
  lemma {:induction false} RedisProjection(t: Table, acts: seq<Act>)
    ensures After(t, acts).shared.redis == FO.RedisAfter(map[], Scripts(t, acts))
  {
    if acts != [] {
      var init := acts[..|acts| - 1];
      RedisProjection(t, init);
      RedisStep(t, After(t, init), acts[|acts| - 1]);
      var e := ScriptFor(t, After(t, init), acts[|acts| - 1]);
      if e.Some? {
        FO.AtRedisSnoc(map[], Scripts(t, init), e.value, "");
      }
    }
  }

  // ----- Requests that get past

  predicate Asks(r: Request, route: string, client: string) {
    r.route == Some(route) && r.client == client
  }

  /** Whether the act is a request of this client on this route going on to the balancer after it was at
      this replica's limiter. */
  predicate PassesMemory(t: Table, g: Gateway, a: Act, route: string, client: string) {
    && a.Step? && a.move.Limit? && Possible(t, g, a) && Asks(g.requests[a.id], route, client)
    && Do(t, g, a).requests[a.id].pc == Balancing
  }

  /** ... or after Redis was called for it. */
  predicate PassesRedis(t: Table, g: Gateway, a: Act, route: string, client: string) {
    && a.Step? && a.move.CallRedis? && Possible(t, g, a) && Asks(g.requests[a.id], route, client)
    && Do(t, g, a).requests[a.id].pc == Balancing
  }

  predicate Within(a: Act, from: int, to: int) {
    TimeOf(a).Some? && from <= TimeOf(a).value < to
  }

  /** Requests of the client that get past the limiter in [from, to) by way of this replica's memory. */
  function PassedMemory(t: Table, acts: seq<Act>, route: string, client: string, from: int, to: int): nat {
    if acts == [] then 0
    else
      var init := acts[..|acts| - 1];
      var a := acts[|acts| - 1];
      PassedMemory(t, init, route, client, from, to) +
      One(PassesMemory(t, After(t, init), a, route, client) && Within(a, from, to))
  }

  /** ... and by way of Redis. */
  function PassedRedis(t: Table, acts: seq<Act>, route: string, client: string, from: int, to: int): nat {
    if acts == [] then 0
    else
      var init := acts[..|acts| - 1];
      var a := acts[|acts| - 1];
      PassedRedis(t, init, route, client, from, to) +
      One(PassesRedis(t, After(t, init), a, route, client) && Within(a, from, to))
  }

  lemma OneDecision(m: RL.Entries, e: RL.Event, key: string, from: int, to: int)
    ensures W.AllowedIn(RL.Decisions(m, [e], key), from, to)
         == One(e.Call? && e.key == key && RL.Answer(m, e).allowed && from <= e.now < to)
  {
    assert [e][1..] == [];
    assert RL.Decisions(RL.Step(m, e), [], key) == [];
  }

  predicate Enforces(t: Table, route: string, limit: int, window: int) {
    route in t && t[route].limit == Some(RL.LimitCfg(true, limit, window))
  }

  lemma PassesAre(
      t: Table, g: Gateway, a: Act, route: string, client: string, limit: int, window: int, from: int, to: int)
    requires Apart(t) && Enforces(t, route, limit, window)
    ensures var e := EventFor(t, g, a);
            (PassesMemory(t, g, a, route, client) && Within(a, from, to)) <==>
            (e.Some? && e.value.Call? && e.value.key == JoinKey(route, client)
             && RL.Answer(g.shared.limiter, e.value).allowed && from <= e.value.now < to)
  {
    var e := EventFor(t, g, a);
    if e.Some? && e.value.Call? && e.value.key == JoinKey(route, client) {
      JoinKeyInjective(g.requests[a.id].route.value, g.requests[a.id].client, route, client);
    }
  }

  /** Requests of a client of a route with a limit get past by way of memory exactly as often as the
      projected limiter allows calls on their key. */
  lemma {:induction false} PassedAreAllowed(
      t: Table, acts: seq<Act>, route: string, client: string, limit: int, window: int, from: int, to: int)
    requires Apart(t) && Enforces(t, route, limit, window)
    ensures PassedMemory(t, acts, route, client, from, to)
         == W.AllowedIn(RL.Decisions(map[], Events(t, acts), JoinKey(route, client)), from, to)
  {
    if acts != [] {
      var init := acts[..|acts| - 1];
      var g := After(t, init);
      var a := acts[|acts| - 1];
      var e := EventFor(t, g, a);
      var key := JoinKey(route, client);
      PassedAreAllowed(t, init, route, client, limit, window, from, to);
      PassesAre(t, g, a, route, client, limit, window, from, to);
      if e.Some? {
        LimiterProjection(t, init);
        RL.DecisionsAppend(map[], Events(t, init), [e.value], key);
        var before := RL.Decisions(map[], Events(t, init), key);
        W.AllowedInAppend(before, RL.Decisions(g.shared.limiter, [e.value], key), from, to);
        OneDecision(g.shared.limiter, e.value, key, from, to);
      }
    }
  }

  lemma PassesRedisOnlyIf(t: Table, g: Gateway, a: Act, route: string, client: string, limit: int, window: int)
    requires Enforces(t, route, limit, window) && PassesRedis(t, g, a, route, client)
    ensures ScriptFor(t, g, a).Some?
    ensures var e := ScriptFor(t, g, a).value;
            && e.Script? && e.key == JoinKey(route, client) && TimeOf(a) == Some(e.now)
            && RD.Check(g.shared.redis, e.key, e.limit, e.window, e.now).1.allowed
  {}

  /** Redis allows at least those that get past by way of it: other replicas' and lost replies count too. */
  lemma {:induction false} PassedRedisAreAllowed(
      t: Table, acts: seq<Act>, route: string, client: string, limit: int, window: int, from: int, to: int)
    requires Enforces(t, route, limit, window)
    ensures PassedRedis(t, acts, route, client, from, to)
         <= W.AllowedIn(FO.AtRedis(map[], Scripts(t, acts), JoinKey(route, client)), from, to)
  {
    if acts != [] {
      var init := acts[..|acts| - 1];
      var g := After(t, init);
      var a := acts[|acts| - 1];
      var e := ScriptFor(t, g, a);
      var key := JoinKey(route, client);
      PassedRedisAreAllowed(t, init, route, client, limit, window, from, to);
      if e.Some? {
        RedisProjection(t, init);
        FO.AtRedisSnoc(map[], Scripts(t, init), e.value, key);
        var before := FO.AtRedis(map[], Scripts(t, init), key);
        var one := FO.RedisDecision(g.shared.redis, e.value, key);
        W.AllowedInAppend(before, one, from, to);
        if PassesRedis(t, g, a, route, client) {
          PassesRedisOnlyIf(t, g, a, route, client, limit, window);
          assert one[1..] == [];
        }
      } else if PassesRedis(t, g, a, route, client) {
        PassesRedisOnlyIf(t, g, a, route, client, limit, window);
      }
    }
  }

  // ----- The interval bound for one client of one route

  ghost predicate AllTimely(acts: seq<Act>, events: seq<RL.Event>) {
    forall k :: 0 <= k < |events| ==> Timely(acts, events[k].now)
  }

  lemma AllTimelyLater(acts: seq<Act>, events: seq<RL.Event>)
    requires acts != [] && Clocked(acts) && AllTimely(acts[..|acts| - 1], events)
    ensures AllTimely(acts, events)
    ensures var now := TimeOf(acts[|acts| - 1]);
            now.Some? ==> forall k :: 0 <= k < |events| ==> events[k].now <= now.value
  {
    forall k | 0 <= k < |events|
      ensures Timely(acts, events[k].now)
    {
      TimelyLater(acts, events[k].now);
    }
  }

  lemma ClockedSnoc(run: seq<RL.Event>, e: RL.Event)
    requires RL.Clocked(run) && (e.Call? ==> e.now <= e.later)
    requires forall k :: 0 <= k < |run| ==> run[k].now <= e.now
    ensures RL.Clocked(run + [e])
  {}

  lemma EventTime(t: Table, g: Gateway, a: Act)
    requires EventFor(t, g, a).Some?
    ensures var e := EventFor(t, g, a).value; TimeOf(a) == Some(e.now) && (e.Call? ==> e.now <= e.later)
  {}

  lemma {:induction false} EventsClocked(t: Table, acts: seq<Act>)
    requires Clocked(acts)
    ensures RL.Clocked(Events(t, acts)) && AllTimely(acts, Events(t, acts))
  {
    if acts != [] {
      var init := acts[..|acts| - 1];
      var a := acts[|acts| - 1];
      EventsClocked(t, init);
      AllTimelyLater(acts, Events(t, init));
      var e := EventFor(t, After(t, init), a);
      if e.Some? {
        EventTime(t, After(t, init), a);
        ClockedSnoc(Events(t, init), e.value);
        assert Timely(acts, e.value.now);
      }
    }
  }

  lemma {:induction false} ScriptsClocked(t: Table, acts: seq<Act>)
    requires Clocked(acts)
    ensures FO.Possible(Scripts(t, acts), 1)
    ensures forall k :: 0 <= k < |Scripts(t, acts)| ==>
              Scripts(t, acts)[k].Script? && Timely(acts, Scripts(t, acts)[k].now)
  {
    if acts != [] {
      var init := acts[..|acts| - 1];
      var a := acts[|acts| - 1];
      ScriptsClocked(t, init);
      var before := Scripts(t, init);
      forall k | 0 <= k < |before|
        ensures Timely(acts, before[k].now)
        ensures TimeOf(a).Some? ==> before[k].now <= TimeOf(a).value
      {
        TimelyLater(acts, before[k].now);
      }
      var e := ScriptFor(t, After(t, init), a);
      if e.Some? {
        assert TimeOf(a) == Some(e.value.now);
      }
    }
  }

  lemma {:induction false} EventsConfigured(
      t: Table, acts: seq<Act>, route: string, client: string, limit: int, window: int)
    requires Apart(t) && Enforces(t, route, limit, window)
    ensures RL.Configured(Events(t, acts), JoinKey(route, client), limit, window)
  {
    if acts != [] {
      var g := After(t, acts[..|acts| - 1]);
      var a := acts[|acts| - 1];
      EventsConfigured(t, acts[..|acts| - 1], route, client, limit, window);
      var e := EventFor(t, g, a);
      if e.Some? && e.value.Call? && e.value.key == JoinKey(route, client) {
        JoinKeyInjective(g.requests[a.id].route.value, g.requests[a.id].client, route, client);
      }
    }
  }

  lemma {:induction false} ScriptsConfigured(
      t: Table, acts: seq<Act>, route: string, client: string, limit: int, window: int)
    requires Apart(t) && Enforces(t, route, limit, window)
    ensures FO.SameConfig(Scripts(t, acts), JoinKey(route, client), limit, window)
  {
    if acts != [] {
      var g := After(t, acts[..|acts| - 1]);
      var a := acts[|acts| - 1];
      ScriptsConfigured(t, acts[..|acts| - 1], route, client, limit, window);
      var e := ScriptFor(t, g, a);
      if e.Some? && e.value.key == JoinKey(route, client) {
        if a.Elsewhere? {
          JoinKeyInjective(a.route, a.client, route, client);
        } else {
          JoinKeyInjective(g.requests[a.id].route.value, g.requests[a.id].client, route, client);
        }
      }
    }
  }

  /** However requests for any routes interleave, Redis fails and other replicas use it, with route
      IDs apart one client of one route gets at most (m + 1) * limit - 1 requests past this
      replica in any m windows' time by way of its memory; and as many by way of Redis, when windows
      are whole milliseconds. */
  lemma ClientBound(
      t: Table, acts: seq<Act>, route: string, client: string, limit: int, window: int, from: int, m: nat)
    requires Clocked(acts) && Apart(t) && Enforces(t, route, limit, window) && window > 0 && m > 0
    ensures PassedMemory(t, acts, route, client, from, from + m * window) <= W.MostIn(limit, m)
    ensures window % RD.MILLISECOND == 0 ==>
              PassedRedis(t, acts, route, client, from, from + m * window) <= W.MostIn(limit, m)
  {
    var key := JoinKey(route, client);
    var to := from + m * window;
    EventsClocked(t, acts);
    EventsConfigured(t, acts, route, client, limit, window);
    PassedAreAllowed(t, acts, route, client, limit, window, from, to);
    RL.IntervalBound(Events(t, acts), key, limit, window, from, m);
    if window % RD.MILLISECOND == 0 {
      ScriptsClocked(t, acts);
      ScriptsConfigured(t, acts, route, client, limit, window);
      PassedRedisAreAllowed(t, acts, route, client, limit, window, from, to);
      FO.RedisShare(Scripts(t, acts), 1, key, limit, window, from, m);
    }
  }

  // ----- Routes without a limit

  predicate Unlimited(t: Table, route: string) {
    route in t && (t[route].limit.None? || !t[route].limit.value.enabled)
  }

  ghost predicate Unhindered(r: Request, route: string) {
    && (r.pc.Matching? ==> r.status == 0)
    && (r.route == Some(route) ==>
          !r.pc.FallingBack? && !r.pc.Rejecting? && (r.target.None? ==> r.status != 429))
  }

  lemma UnhinderedAdvance(t: Table, w: Shared, r: Request, m: Move, route: string)
    requires Enabled(t, w, r, m) && Shaped(t, w.store, r) && Unlimited(t, route) && Unhindered(r, route)
    ensures Unhindered(Advance(t, w, r, m).0, route)
  {}

  /** A route whose limit is missing or disabled: the limiter is never called for it, and the gateway
      never answers 429. */
  lemma {:induction false} UnlimitedNeverRefused(t: Table, acts: seq<Act>, route: string, client: string)
    requires Unlimited(t, route)
    ensures forall id :: id in After(t, acts).requests ==> Unhindered(After(t, acts).requests[id], route)
    ensures Mine(t, acts, route, client) == []
  {
    if acts != [] {
      var init := acts[..|acts| - 1];
      var a := acts[|acts| - 1];
      var g := After(t, init);
      UnlimitedNeverRefused(t, init, route, client);
      InvAlways(t, init);
      if a.Step? && Possible(t, g, a) {
        UnhinderedAdvance(t, g.shared, g.requests[a.id], a.move, route);
      }
    }
  }

  // ----- Isolation

  /** The calls to this replica's limiter that requests of this client on this route make. */
  function Mine(t: Table, acts: seq<Act>, route: string, client: string): seq<RL.Event> {
    if acts == [] then []
    else
      var init := acts[..|acts| - 1];
      var g := After(t, init);
      var a := acts[|acts| - 1];
      var e := EventFor(t, g, a);
      if e.Some? && a.Step? && Asks(g.requests[a.id], route, client) then Mine(t, init, route, client) + [e.value]
      else Mine(t, init, route, client)
  }

  lemma {:induction false} MineAreOnlyKey(t: Table, acts: seq<Act>, route: string, client: string)
    requires Apart(t) && route in t
    ensures RL.OnlyKey(Events(t, acts), JoinKey(route, client)) == Mine(t, acts, route, client)
  {
    if acts != [] {
      var init := acts[..|acts| - 1];
      var g := After(t, init);
      var a := acts[|acts| - 1];
      var e := EventFor(t, g, a);
      MineAreOnlyKey(t, init, route, client);
      if e.Some? {
        RL.OnlyKeySnoc(Events(t, init), e.value, JoinKey(route, client));
        if e.value.Call? && e.value.key == JoinKey(route, client) {
          JoinKeyInjective(g.requests[a.id].route.value, g.requests[a.id].client, route, client);
        }
      }
    }
  }

  /** Whose call to Redis the act is: one of a request here, or one at another replica. */
  predicate CallsFor(g: Gateway, a: Act, route: string, client: string)
    requires a.Step? ==> a.id in g.requests
  {
    (a.Step? && Asks(g.requests[a.id], route, client)) || (a.Elsewhere? && a.route == route && a.client == client)
  }

  /** The calls to Redis for this client on this route, here and elsewhere. */
  function MyScripts(t: Table, acts: seq<Act>, route: string, client: string): seq<FO.FleetEvent> {
    if acts == [] then []
    else
      var init := acts[..|acts| - 1];
      var g := After(t, init);
      var a := acts[|acts| - 1];
      var e := ScriptFor(t, g, a);
      if e.Some? && CallsFor(g, a, route, client) then MyScripts(t, init, route, client) + [e.value]
      else MyScripts(t, init, route, client)
  }

  lemma {:induction false} MyScriptsAreOnlyScripts(t: Table, acts: seq<Act>, route: string, client: string)
    requires Apart(t) && route in t
    ensures FO.OnlyScripts(Scripts(t, acts), JoinKey(route, client)) == MyScripts(t, acts, route, client)
  {
    if acts != [] {
      var init := acts[..|acts| - 1];
      var g := After(t, init);
      var a := acts[|acts| - 1];
      var e := ScriptFor(t, g, a);
      MyScriptsAreOnlyScripts(t, init, route, client);
      if e.Some? {
        FO.OnlyScriptsSnoc(Scripts(t, init), e.value, JoinKey(route, client));
        if e.value.key == JoinKey(route, client) {
          if a.Elsewhere? {
            JoinKeyInjective(a.route, a.client, route, client);
          } else {
            JoinKeyInjective(g.requests[a.id].route.value, g.requests[a.id].client, route, client);
          }
        }
      }
    }
  }

  /** With route IDs apart, this replica's limiter answers one client of one route as if it
      served nobody else and never cleaned up, and Redis decides about it and answers it as if it served
      only that client of that route. */
  lemma ClientsAreIsolated(t: Table, acts: seq<Act>, route: string, client: string)
    requires Clocked(acts) && Apart(t) && route in t
    ensures RL.AnswersTo(map[], Events(t, acts), JoinKey(route, client))
         == RL.Answers(map[], Mine(t, acts, route, client))
    ensures FO.AtRedis(map[], Scripts(t, acts), JoinKey(route, client))
         == FO.AtRedis(map[], MyScripts(t, acts, route, client), JoinKey(route, client))
    ensures FO.Replies(map[], Scripts(t, acts), JoinKey(route, client))
         == FO.Replies(map[], MyScripts(t, acts, route, client), JoinKey(route, client))
  {
    EventsClocked(t, acts);
    MineAreOnlyKey(t, acts, route, client);
    RL.KeysAreIsolated(Events(t, acts), JoinKey(route, client));
    MyScriptsAreOnlyScripts(t, acts, route, client);
    FO.RedisIsolatesKeys(map[], map[], Scripts(t, acts), JoinKey(route, client));
  }
}
