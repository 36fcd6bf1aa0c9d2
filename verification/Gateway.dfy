/**
 serveRoute as the steps of any number of requests in flight at once. A step is one section under
 one lock, or purely local; between steps anything else may happen. The upstream is a status of its
 own choosing, or an abort that unwinds the handler; routing and authentication are choices too.
 */
module Gateway {
  import opened Prelude
  import RL = RateLimit
  import RD = Redis
  import CB = CircuitBreaker
  import BS = BreakerStore
  import RR = Balancer
  import M = Metrics

  /** What the steps read of a route; `breaker` is present when one is configured and enabled. */
  datatype RouteCfg = RouteCfg(limit: Option<RL.LimitCfg>, breaker: Option<CB.Config>, endpoints: seq<string>)

  /** The routes, by their IDs. */
  type Table = map<string, RouteCfg>

  /** What a request does next. The last three are the deferred steps every return leads to. */
  datatype Pc =
    | Matching | Authenticating | Limiting | FallingBack | Rejecting | Balancing
    | Looking | Inserting | Admitting
    | Proxying
    | LookingAgain | InsertingAgain | Recording
    | Leaving | Counting | Observing | Finished

  datatype Request = Request(
    pc: Pc,
    verb: string,
    client: string,            // as the limiter names it
    route: Option<string>,
    status: nat,
    target: Option<nat>,       // position of the endpoint picked
    found: Option<nat>,        // breaker returned by the latest lookup
    asked: Option<bool>,       // what the breaker answered
    admitted: Option<nat>,     // breaker that let the request through
    reported: Option<nat>)     // breaker that was told the result

  /** Everything behind a lock. A breaker is named by the order of its creation. */
  datatype Shared = Shared(
    active: int,
    totals: map<string, nat>,
    durations: map<string, M.Hist>,
    rejections: map<string, nat>,
    redis: RD.Keyspace,        // shared with other replicas
    limiter: RL.Entries,
    turns: map<string, nat>,
    store: map<string, nat>,
    created: seq<string>,
    configs: seq<CB.Config>,
    breakers: seq<CB.Breaker>)

  datatype Gateway = Gateway(requests: map<nat, Request>, shared: Shared)

  const IDLE: Gateway := Gateway(map[], Shared(0, map[], map[], map[], map[], map[], map[], map[], [], [], []))

  /** One step of a request. */
  datatype Move =
    | Match(route: Option<string>)
    | Authenticate(ok: bool)
    | CallRedis(replied: bool, at: int)  // the script ran; its reply may be lost
    | Limit(now: int, later: int)        // no limit, or no Redis, or Redis failed
    | Reject
    | Balance
    | Look
    | Insert
    | Admit(now: int)
    | Proxy(status: nat)
    | Abort(status: nat)
    | Record(seen: int, now: int)
    | Leave
    | Count
    | Observe(seconds: real)

  datatype Act =
    | Arrive(id: nat, verb: string, client: string)
    | Step(id: nat, move: Move)
    | CleanLimiter(now: int)
    | Elsewhere(route: string, client: string, at: int)  // another replica counts a call in Redis

  /** No two route IDs can be given the same joined key. */
  ghost predicate Apart(t: Table) {
    forall r, r' :: r in t && r' in t && r != r' ==> Separate(r, r')
  }

  /** That is exactly what it takes for joined keys to tell routes apart, whatever they are joined with. */
  lemma ApartExactly(t: Table)
    ensures Apart(t) <==>
              forall r, r', x, x' | r in t && r' in t && JoinKey(r, x) == JoinKey(r', x') :: r == r' && x == x'
  {
    if Apart(t) {
      forall r, r', x, x' | r in t && r' in t && JoinKey(r, x) == JoinKey(r', x')
        ensures r == r' && x == x'
      {
        JoinKeyInjective(r, x, r', x');
      }
    } else {
      var r, r' :| r in t && r' in t && r != r' && !Separate(r, r');
      JoinKeyCollides(r, r');
    }
  }

  predicate Routed(t: Table, r: Request) {
    r.route.Some? && r.route.value in t
  }

  /** The request has been routed and given an endpoint. */
  predicate Targeted(t: Table, r: Request) {
    Routed(t, r) && r.target.Some? && r.target.value < |t[r.route.value].endpoints|
  }

  /** The breaker the latest lookup found exists. */
  predicate Found(w: Shared, r: Request) {
    r.found.Some? && r.found.value < |w.breakers| == |w.configs|
  }

  /** The route's limit, if it is to be enforced. */
  function LimitOf(t: Table, route: string): Option<RL.LimitCfg>
    requires route in t
  {
    match t[route].limit
    case Some(LimitCfg(true, limit, window)) => t[route].limit
    case _ => None
  }

  predicate Enabled(t: Table, w: Shared, r: Request, m: Move) {
    match m
    case Match(route) => r.pc == Matching && (route.Some? ==> route.value in t)
    case Authenticate(_) => r.pc == Authenticating
    case CallRedis(_, _) => r.pc == Limiting && Routed(t, r) && LimitOf(t, r.route.value).Some?
    case Limit(now, later) => (r.pc == Limiting || r.pc == FallingBack) && Routed(t, r) && now <= later
    case Reject => r.pc == Rejecting && Routed(t, r)
    case Balance => r.pc == Balancing && Routed(t, r)
    case Look => (r.pc == Looking || r.pc == LookingAgain) && Targeted(t, r)
    case Insert => (r.pc == Inserting || r.pc == InsertingAgain) && Targeted(t, r) && t[r.route.value].breaker.Some?
    case Admit(_) => r.pc == Admitting && Found(w, r)
    case Proxy(_) => r.pc == Proxying && Routed(t, r)
    case Abort(_) => r.pc == Proxying
    case Record(seen, now) => r.pc == Recording && Found(w, r) && seen <= now
    case Leave => r.pc == Leaving
    case Count => r.pc == Counting
    case Observe(_) => r.pc == Observing
  }

  /** A response written before the upstream is reached; the handler returns. */
  function Reply(r: Request, status: nat): Request {
    r.(status := status, pc := Leaving)
  }

  function BreakerKey(t: Table, r: Request): string
    requires Targeted(t, r)
  {
    JoinKey(r.route.value, t[r.route.value].endpoints[r.target.value])
  }

  function RouteLabel(r: Request): string {
    match r.route case None => "unknown" case Some(id) => id
  }

  function Digits(n: nat): string {
    if n < 10 then [('0' as int + n) as char] else Digits(n / 10) + Digits(n % 10)
  }

  function TotalsKey(r: Request): string {
    M.Key([RouteLabel(r), r.verb, Digits(r.status)])
  }

  function DurationKey(r: Request): string {
    M.Key([RouteLabel(r), r.verb])
  }

  function Turn(w: Shared, route: string): nat {
    if route in w.turns then w.turns[route] else 0
  }

  /** What a recorded status tells the breaker; nothing was written if it is zero. */
  function Result(status: nat, seen: int, now: int): Option<CB.Event> {
    if status >= 500 then Some(CB.Failure(seen, now))
    else if status > 0 then Some(CB.Success(now))
    else None
  }

  /** The limiter call a request makes, if its route has a limit. */
  function LimiterCall(t: Table, r: Request, now: int, later: int): Option<RL.Event>
    requires Routed(t, r)
  {
    match LimitOf(t, r.route.value)
    case Some(LimitCfg(_, limit, window)) => Some(RL.Call(JoinKey(r.route.value, r.client), limit, window, now, later))
    case None => None
  }

  /** What Redis makes of a call, and what it answers. */
  function RedisCheck(t: Table, w: Shared, route: string, client: string, at: int): (RD.Keyspace, RL.Verdict)
    requires route in t && LimitOf(t, route).Some?
  {
    var LimitCfg(_, limit, window) := LimitOf(t, route).value;
    RD.Check(w.redis, JoinKey(route, client), limit, window, at)
  }

  function Judged(r: Request, allowed: bool): Request {
    r.(pc := if allowed then Balancing else Rejecting)
  }

  function DoRedis(t: Table, w: Shared, r: Request, replied: bool, at: int): (Request, Shared)
    requires Routed(t, r) && LimitOf(t, r.route.value).Some?
  {
    var (keys, verdict) := RedisCheck(t, w, r.route.value, r.client, at);
    (if replied then Judged(r, verdict.allowed) else r.(pc := FallingBack), w.(redis := keys))
  }

  function DoLimit(t: Table, w: Shared, r: Request, now: int, later: int): (Request, Shared)
    requires Routed(t, r)
  {
    match LimiterCall(t, r, now, later)
    case None => (r.(pc := Balancing), w)
    case Some(call) => (Judged(r, RL.Answer(w.limiter, call).allowed), w.(limiter := RL.Step(w.limiter, call)))
  }

  function DoBalance(t: Table, w: Shared, r: Request): (Request, Shared)
    requires Routed(t, r)
  {
    var cfg := t[r.route.value];
    if cfg.endpoints == [] then (Reply(r, 503), w)
    else
      var turn := Turn(w, r.route.value);
      (r.(target := Some(turn % |cfg.endpoints|), pc := if cfg.breaker.Some? then Looking else Proxying),
       w.(turns := w.turns[r.route.value := RR.Bump(turn)]))
  }

  function DoLook(t: Table, w: Shared, r: Request): Request
    requires Targeted(t, r)
  {
    var key := BreakerKey(t, r);
    if key in w.store
    then r.(found := Some(w.store[key]), pc := if r.pc == Looking then Admitting else Recording)
    else r.(pc := if r.pc == Looking then Inserting else InsertingAgain)
  }

  function DoInsert(t: Table, w: Shared, r: Request): (Request, Shared)
    requires Targeted(t, r) && t[r.route.value].breaker.Some?
  {
    var key := BreakerKey(t, r);
    var (store, created, breaker) := BS.Atomic(w.store, w.created, key);
    (r.(found := Some(breaker), pc := if r.pc == Inserting then Admitting else Recording),
     if key in w.store then w
     else w.(store := store, created := created,
             configs := w.configs + [t[r.route.value].breaker.value],
             breakers := w.breakers + [CB.INITIAL]))
  }

  function Tell(w: Shared, b: nat, e: CB.Event): Shared
    requires b < |w.breakers| == |w.configs|
  {
    w.(breakers := w.breakers[b := CB.Step(w.configs[b], w.breakers[b], e)])
  }

  function DoAdmit(w: Shared, r: Request, now: int): Request
    requires Found(w, r)
  {
    var b := r.found.value;
    if CB.Admits(w.configs[b], w.breakers[b], now)
    then r.(asked := Some(true), admitted := Some(b), pc := Proxying)
    else Reply(r.(asked := Some(false)), 503)
  }

  function DoRecord(w: Shared, r: Request, seen: int, now: int): (Request, Shared)
    requires Found(w, r)
  {
    match Result(r.status, seen, now)
    case None => (r.(pc := Leaving), w)
    case Some(e) => (r.(reported := r.found, pc := Leaving), Tell(w, r.found.value, e))
  }

  function DoObserve(w: Shared, r: Request, seconds: real): Shared {
    var h := M.Observed(M.HistAt(w.durations, DurationKey(r)), M.DEFAULT_BUCKETS, seconds);
    w.(durations := w.durations[DurationKey(r) := h])
  }

  function Advance(t: Table, w: Shared, r: Request, m: Move): (Request, Shared)
    requires Enabled(t, w, r, m)
  {
    match m
    case Match(None) => (Reply(r, 404), w)
    case Match(Some(route)) => (r.(route := Some(route), pc := Authenticating), w)
    case Authenticate(ok) => (if ok then r.(pc := Limiting) else Reply(r, 401), w)
    case CallRedis(replied, at) => DoRedis(t, w, r, replied, at)
    case Limit(now, later) => DoLimit(t, w, r, now, later)
    case Reject => (Reply(r, 429), w.(rejections := M.Inc(w.rejections, M.Key([r.route.value]))))
    case Balance => DoBalance(t, w, r)
    case Look => (DoLook(t, w, r), w)
    case Insert => DoInsert(t, w, r)
    case Admit(now) => (DoAdmit(w, r, now), Tell(w, r.found.value, CB.Ask(now)))
    case Proxy(status) =>
      (r.(status := status, pc := if t[r.route.value].breaker.Some? then LookingAgain else Leaving), w)
    case Abort(status) => (Reply(r, status), w)
    case Record(seen, now) => DoRecord(w, r, seen, now)
    case Leave => (r.(pc := Counting), w.(active := w.active - 1))
    case Count => (r.(pc := Observing), w.(totals := M.Inc(w.totals, TotalsKey(r))))
    case Observe(seconds) => (r.(pc := Finished), DoObserve(w, r, seconds))
  }

  /** Whether the act is the next thing that can happen where it applies. */
  predicate Possible(t: Table, g: Gateway, a: Act) {
    match a
    case Arrive(id, _, _) => id !in g.requests
    case Step(id, m) => id in g.requests && Enabled(t, g.shared, g.requests[id], m)
    case CleanLimiter(_) => true
    case Elsewhere(route, _, _) => route in t && LimitOf(t, route).Some?
  }

  /** One step; an act whose time has not come changes nothing. */
  function Do(t: Table, g: Gateway, a: Act): Gateway {
    if !Possible(t, g, a) then g
    else
      match a
      case Arrive(id, verb, client) =>
        var r := Request(Matching, verb, client, None, 0, None, None, None, None, None);
        Gateway(g.requests[id := r], g.shared.(active := g.shared.active + 1))
      case Step(id, m) =>
        var (r, w) := Advance(t, g.shared, g.requests[id], m);
        Gateway(g.requests[id := r], w)
      case CleanLimiter(now) => g.(shared := g.shared.(limiter := RL.Unexpired(g.shared.limiter, now)))
      case Elsewhere(route, client, at) =>
        g.(shared := g.shared.(redis := RedisCheck(t, g.shared, route, client, at).0))
  }

  function After(t: Table, acts: seq<Act>): Gateway {
    if acts == [] then IDLE else Do(t, After(t, acts[..|acts| - 1]), acts[|acts| - 1])
  }

  // ----- The clock

  /** When the act read the clock. */
  function TimeOf(a: Act): Option<int> {
    match a
    case Step(_, CallRedis(_, at)) => Some(at)
    case Step(_, Limit(now, _)) => Some(now)
    case Step(_, Admit(now)) => Some(now)
    case Step(_, Record(_, now)) => Some(now)
    case CleanLimiter(now) => Some(now)
    case Elsewhere(_, _, at) => Some(at)
    case _ => None
  }

  ghost predicate Clocked(acts: seq<Act>) {
    forall i, j :: 0 <= i < j < |acts| && TimeOf(acts[i]).Some? && TimeOf(acts[j]).Some? ==>
      TimeOf(acts[i]).value <= TimeOf(acts[j]).value
  }

  /** Some act of the run happened at this time. */
  ghost predicate Timely(acts: seq<Act>, now: int) {
    exists i :: 0 <= i < |acts| && TimeOf(acts[i]) == Some(now)
  }

  lemma TimelyLater(acts: seq<Act>, now: int)
    requires acts != [] && Timely(acts[..|acts| - 1], now)
    ensures Timely(acts, now)
  {
    var i :| 0 <= i < |acts| - 1 && TimeOf(acts[..|acts| - 1][i]) == Some(now);
    assert TimeOf(acts[i]) == Some(now);
  }

  // ----- Counting requests

  function Where(requests: map<nat, Request>, p: Request -> bool): set<nat> {
    set id | id in requests && p(requests[id])
  }

  lemma SizeWithout(s: set<nat>, id: nat)
    ensures |s| == |s - {id}| + (if id in s then 1 else 0)
  {
    if id in s {
      assert s == (s - {id}) + {id};
    } else {
      assert s == s - {id};
    }
  }

  lemma WhereOthers(requests: map<nat, Request>, id: nat, r: Request, p: Request -> bool)
    ensures Where(requests[id := r], p) - {id} == Where(requests, p) - {id}
  {
    var updated := requests[id := r];
    forall i | i != id
      ensures i in Where(updated, p) <==> i in Where(requests, p)
    {
      assert i in updated <==> i in requests;
      assert i in requests ==> updated[i] == requests[i];
    }
  }

  /** Changing one request changes how many satisfy a predicate by what it does to that one. */
  lemma WhereUpdate(requests: map<nat, Request>, id: nat, r: Request, p: Request -> bool)
    ensures |Where(requests[id := r], p)|
         == |Where(requests, p)| - (if id in requests && p(requests[id]) then 1 else 0) + (if p(r) then 1 else 0)
  {
    WhereOthers(requests, id, r, p);
    SizeWithout(Where(requests, p), id);
    SizeWithout(Where(requests[id := r], p), id);
    assert requests[id := r][id] == r;
  }

  // ----- The shape of reachable states

  predicate BreakerPc(pc: Pc) {
    pc.Looking? || pc.Inserting? || pc.Admitting? || pc.LookingAgain? || pc.InsertingAgain? || pc.Recording?
  }

  predicate BeforeBalancer(pc: Pc) {
    pc.Matching? || pc.Authenticating? || pc.Limiting? || pc.FallingBack? || pc.Rejecting? || pc.Balancing?
  }

  /** What a request knows of its way at each point of it. */
  ghost predicate OnItsWay(t: Table, r: Request) {
    && (r.route.Some? ==> r.route.value in t)
    && (r.pc.Matching? ==> r.route.None?)
    && (BeforeBalancer(r.pc) && !r.pc.Matching? ==> r.route.Some?)
    && (BreakerPc(r.pc) || r.pc.Proxying? ==> Targeted(t, r))
    && (BreakerPc(r.pc) ==> t[r.route.value].breaker.Some?)
    && (r.target.Some? ==> Targeted(t, r))
    && (BeforeBalancer(r.pc) ==> r.target.None?)
    && (r.pc.Proxying? && t[r.route.value].breaker.Some? ==> r.admitted.Some?)
  }

  /** ... and of its breaker. */
  ghost predicate WithItsBreaker(t: Table, store: map<string, nat>, r: Request) {
    && (r.found.Some? ==> Targeted(t, r) && BreakerKey(t, r) in store && r.found.value == store[BreakerKey(t, r)])
    && (r.target.None? ==> r.found.None? && r.asked.None?)
    && (r.admitted.Some? ==> r.admitted == r.found)
    && (r.reported.Some? ==> r.reported == r.admitted)
    && (r.asked == Some(true) <==> r.admitted.Some?)
    && (r.pc.Looking? || r.pc.Inserting? || r.pc.Admitting? ==> r.asked.None? && r.reported.None?)
    && (r.pc.Admitting? || r.pc.Recording? ==> r.found.Some?)
    && (r.pc.Proxying? ==> r.reported.None?)
    && (r.pc.LookingAgain? || r.pc.InsertingAgain? || r.pc.Recording? ==> r.admitted.Some? && r.reported.None?)
  }

  ghost predicate Shaped(t: Table, store: map<string, nat>, r: Request) {
    OnItsWay(t, r) && WithItsBreaker(t, store, r)
  }

  /** Keys and breakers correspond one to one. */
  ghost predicate Pooled(w: Shared) {
    && |w.breakers| == |w.configs| == |w.created|
    && (forall key :: key in w.store ==> w.store[key] < |w.created| && w.created[w.store[key]] == key)
    && (forall i :: 0 <= i < |w.created| ==> w.created[i] in w.store && w.store[w.created[i]] == i)
  }

  ghost predicate Inv(t: Table, g: Gateway) {
    Pooled(g.shared) && forall id :: id in g.requests ==> Shaped(t, g.shared.store, g.requests[id])
  }

  /** Breakers are created, never replaced. */
  ghost predicate Grows(w: Shared, w': Shared) {
    && w.created <= w'.created && w.configs <= w'.configs && |w.breakers| <= |w'.breakers|
    && (forall key :: key in w.store ==> key in w'.store && w'.store[key] == w.store[key])
  }

  predicate ForTheBreaker(m: Move) {
    m.Look? || m.Admit? || m.Record?
  }

  lemma OthersLeaveBreakers(t: Table, w: Shared, r: Request, m: Move)
    requires Enabled(t, w, r, m) && !m.Insert? && !ForTheBreaker(m)
    ensures SamePool(w, Advance(t, w, r, m).1)
  {
    match m
    case CallRedis(_, _) => LimiterLeavesBreakers(t, w, r, m);
    case Limit(_, _) => LimiterLeavesBreakers(t, w, r, m);
    case Balance => assert Advance(t, w, r, m).1 == DoBalance(t, w, r).1;
    case Observe(seconds) => assert Advance(t, w, r, m).1 == DoObserve(w, r, seconds);
    case _ =>
  }

  predicate SamePool(w: Shared, w': Shared) {
    w'.store == w.store && w'.created == w.created && w'.configs == w.configs && w'.breakers == w.breakers
  }

  lemma LimiterLeavesBreakers(t: Table, w: Shared, r: Request, m: Move)
    requires Enabled(t, w, r, m) && (m.CallRedis? || m.Limit?)
    ensures SamePool(w, Advance(t, w, r, m).1)
  {}

  /** Nothing is stored or created. */
  predicate SameKeys(w: Shared, w': Shared) {
    w'.store == w.store && w'.created == w.created && w'.configs == w.configs && |w'.breakers| == |w.breakers|
  }

  lemma TellKeepsKeys(w: Shared, b: nat, e: CB.Event)
    requires b < |w.breakers| == |w.configs|
    ensures SameKeys(w, Tell(w, b, e))
  {}

  lemma RecordKeepsKeys(t: Table, w: Shared, r: Request, seen: int, now: int)
    requires Enabled(t, w, r, Record(seen, now))
    ensures SameKeys(w, DoRecord(w, r, seen, now).1)
  {
    match Result(r.status, seen, now)
    case None =>
    case Some(e) => TellKeepsKeys(w, r.found.value, e);
  }

  lemma OnlyInsertGrows(t: Table, w: Shared, r: Request, m: Move)
    requires Enabled(t, w, r, m) && !m.Insert?
    ensures SameKeys(w, Advance(t, w, r, m).1)
  {
    match m
    case Look => assert Advance(t, w, r, m).1 == w;
    case Admit(now) => TellKeepsKeys(w, r.found.value, CB.Ask(now));
    case Record(seen, now) => RecordKeepsKeys(t, w, r, seen, now);
    case _ => OthersLeaveBreakers(t, w, r, m);
  }

  lemma InsertGrows(t: Table, w: Shared, r: Request)
    requires Enabled(t, w, r, Insert) && Pooled(w)
    ensures Pooled(DoInsert(t, w, r).1) && Grows(w, DoInsert(t, w, r).1)
  {
    var key := BreakerKey(t, r);
    if key !in w.store {
      PoolExtended(w, DoInsert(t, w, r).1, key);
    }
  }

  lemma PoolExtended(w: Shared, w': Shared, key: string)
    requires Pooled(w) && key !in w.store
    requires w'.store == w.store[key := |w.created|] && w'.created == w.created + [key]
    requires |w'.configs| == |w.configs| + 1 && w.configs <= w'.configs && |w'.breakers| == |w.breakers| + 1
    ensures Pooled(w') && Grows(w, w')
  {}

  lemma WayStep(t: Table, w: Shared, r: Request, m: Move)
    requires Enabled(t, w, r, m) && Shaped(t, w.store, r)
    ensures OnItsWay(t, Advance(t, w, r, m).0)
  {
    if ForTheBreaker(m) || m.Insert? {
      WayAtBreaker(t, w, r, m);
    }
  }

  lemma WayAtBreaker(t: Table, w: Shared, r: Request, m: Move)
    requires Enabled(t, w, r, m) && Shaped(t, w.store, r) && (ForTheBreaker(m) || m.Insert?)
    ensures OnItsWay(t, Advance(t, w, r, m).0)
  {}

  lemma BreakerStep(t: Table, w: Shared, r: Request, m: Move)
    requires Enabled(t, w, r, m) && Shaped(t, w.store, r) && ForTheBreaker(m)
    ensures WithItsBreaker(t, w.store, Advance(t, w, r, m).0)
  {}

  lemma OtherStep(t: Table, w: Shared, r: Request, m: Move)
    requires Enabled(t, w, r, m) && Shaped(t, w.store, r) && !ForTheBreaker(m) && !m.Insert?
    ensures WithItsBreaker(t, w.store, Advance(t, w, r, m).0)
  {}

  lemma ShapeStep(t: Table, w: Shared, r: Request, m: Move)
    requires Enabled(t, w, r, m) && Pooled(w) && Shaped(t, w.store, r)
    ensures var (r', w') := Advance(t, w, r, m);
            Shaped(t, w'.store, r')
  {
    WayStep(t, w, r, m);
    if m.Insert? {
      InsertGrows(t, w, r);
    } else {
      if ForTheBreaker(m) {
        BreakerStep(t, w, r, m);
      } else {
        OtherStep(t, w, r, m);
      }
      OnlyInsertGrows(t, w, r, m);
    }
  }

  lemma StoreGrows(t: Table, w: Shared, r: Request, m: Move)
    requires Enabled(t, w, r, m) && Pooled(w)
    ensures Pooled(Advance(t, w, r, m).1) && Grows(w, Advance(t, w, r, m).1)
  {
    if m.Insert? {
      InsertGrows(t, w, r);
    } else {
      OnlyInsertGrows(t, w, r, m);
    }
  }

  lemma InvStep(t: Table, g: Gateway, a: Act)
    requires Inv(t, g)
    ensures Inv(t, Do(t, g, a)) && Grows(g.shared, Do(t, g, a).shared)
  {
    if a.Step? && Possible(t, g, a) {
      var r := g.requests[a.id];
      StoreGrows(t, g.shared, r, a.move);
      ShapeStep(t, g.shared, r, a.move);
    }
  }

  lemma {:induction false} InvAlways(t: Table, acts: seq<Act>)
    ensures Inv(t, After(t, acts))
  {
    if acts != [] {
      InvAlways(t, acts[..|acts| - 1]);
      InvStep(t, After(t, acts[..|acts| - 1]), acts[|acts| - 1]);
    }
  }

  /** No request is ever stuck: in every reachable state each unfinished one has a next step. */
  lemma NeverStuck(t: Table, acts: seq<Act>, id: nat)
    requires id in After(t, acts).requests && After(t, acts).requests[id].pc != Finished
    ensures exists m :: Possible(t, After(t, acts), Step(id, m))
  {
    InvAlways(t, acts);
    var g := After(t, acts);
    var r := g.requests[id];
    assert Shaped(t, g.shared.store, r);
    var m := match r.pc
      case Matching => Match(None)
      case Authenticating => Authenticate(true)
      case Limiting => Limit(0, 0)
      case FallingBack => Limit(0, 0)
      case Rejecting => Reject
      case Balancing => Balance
      case Looking => Look
      case LookingAgain => Look
      case Inserting => Insert
      case InsertingAgain => Insert
      case Admitting => Admit(0)
      case Proxying => Abort(0)
      case Recording => Record(0, 0)
      case Leaving => Leave
      case Counting => Count
      case _ => Observe(0.0);
    assert Possible(t, g, Step(id, m));
  }

  /** The second lookup of a request finds the breaker that let it through, so that is the one that
      is told the result. */
  lemma ReportsToItsOwnBreaker(t: Table, acts: seq<Act>, id: nat)
    requires id in After(t, acts).requests
    ensures var r := After(t, acts).requests[id];
            && (r.pc == Recording ==> r.admitted.Some? && r.found == r.admitted)
            && (r.reported.Some? ==> r.reported == r.admitted)
  {
    InvAlways(t, acts);
    assert Shaped(t, After(t, acts).shared.store, After(t, acts).requests[id]);
  }
}
