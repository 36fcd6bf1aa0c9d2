/** A run of the gateway in which a breaker opens and requests meet it. */
module GatewayOutage {
  import opened Prelude
  import opened Gateway
  import opened GatewayBalancing
  import CB = CircuitBreaker
  import RR = Balancer

  const CFG := CB.Config(1, 10)
  const KEY := JoinKey("r", "a")

  /** The route has no limit, two endpoints, and a breaker for each that trips on the first failure. */
  predicate Has(t: Table) {
    "r" in t && t["r"] == RouteCfg(None, Some(CFG), ["a", "b"])
  }

  /** A run to `g` that, from the act at `from` on, finds only the first endpoint's breaker open. */
  ghost predicate Reaches(t: Table, acts: seq<Act>, from: nat, g: Gateway) {
    After(t, acts) == g && DeadSince(t, acts, from, "r", {0})
  }

  lemma Extend(t: Table, acts: seq<Act>, from: nat, g: Gateway, a: Act)
    requires Reaches(t, acts, from, g)
    requires |acts| < from || AsksAsExpected(t, g, a, "r", {0})
    ensures Reaches(t, acts + [a], from, Do(t, g, a))
  {
    var whole := acts + [a];
    assert whole[..|acts|] == acts;
    assert forall i :: 0 <= i <= |acts| ==> whole[..i] == acts[..i];
  }

  lemma Taken(t: Table, others: map<nat, Request>, id: nat, r: Request, w: Shared, m: Move, r': Request, w': Shared)
    requires Enabled(t, w, r, m) && Advance(t, w, r, m) == (r', w')
    ensures Do(t, Gateway(others[id := r], w), Step(id, m)) == Gateway(others[id := r'], w')
  {
    assert others[id := r][id := r'] == others[id := r'];
  }

  lemma AsksSo(t: Table, others: map<nat, Request>, id: nat, r: Request, w: Shared, m: Move)
    requires Enabled(t, w, r, m) && (m.Admit? ==> MeetsAsExpected(w, r, m.now, {0}))
    ensures AsksAsExpected(t, Gateway(others[id := r], w), Step(id, m), "r", {0})
  {}

  /** One step of request `id`, from `r` to `r'`. */
  lemma Walk(
      t: Table, acts: seq<Act>, from: nat, others: map<nat, Request>, id: nat,
      r: Request, w: Shared, m: Move, r': Request, w': Shared)
    requires Reaches(t, acts, from, Gateway(others[id := r], w))
    requires Enabled(t, w, r, m) && Advance(t, w, r, m) == (r', w')
    requires |acts| < from || (m.Admit? ==> MeetsAsExpected(w, r, m.now, {0}))
    ensures Reaches(t, acts + [Step(id, m)], from, Gateway(others[id := r'], w'))
  {
    if |acts| >= from {
      AsksSo(t, others, id, r, w, m);
    }
    Extend(t, acts, from, Gateway(others[id := r], w), Step(id, m));
    Taken(t, others, id, r, w, m, r', w');
  }

  // ----- Up to the breaker

  function At(pc: Pc, route: Option<string>, target: Option<nat>): Request {
    Request(pc, "GET", "c", route, 0, target, None, None, None, None)
  }

  lemma OnTheWay(t: Table, w: Shared)
    requires Has(t)
    ensures var matching, authenticating := At(Matching, None, None), At(Authenticating, Some("r"), None);
            && Enabled(t, w, matching, Match(Some("r")))
            && Advance(t, w, matching, Match(Some("r"))) == (authenticating, w)
            && Enabled(t, w, authenticating, Authenticate(true))
            && Advance(t, w, authenticating, Authenticate(true)) == (At(Limiting, Some("r"), None), w)
  {}

  lemma FurtherOn(t: Table, w: Shared)
    requires Has(t)
    ensures var limiting, balancing := At(Limiting, Some("r"), None), At(Balancing, Some("r"), None);
            && Enabled(t, w, limiting, Limit(0, 0)) && Advance(t, w, limiting, Limit(0, 0)) == (balancing, w)
            && Enabled(t, w, balancing, Balance)
            && Advance(t, w, balancing, Balance)
               == (At(Looking, Some("r"), Some(Turn(w, "r") % 2)), w.(turns := w.turns["r" := RR.Bump(Turn(w, "r"))]))
  {}

  function Turned(w: Shared): Shared {
    w.(active := w.active + 1, turns := w.turns["r" := RR.Bump(Turn(w, "r"))])
  }

  lemma Arrives(t: Table, acts: seq<Act>, from: nat, g: Gateway, id: nat) returns (acts': seq<Act>)
    requires Has(t) && Reaches(t, acts, from, g) && id !in g.requests
    ensures acts <= acts' && |acts'| == |acts| + 3
    ensures Reaches(t, acts', from, Gateway(g.requests[id := At(Limiting, Some("r"), None)],
                                            g.shared.(active := g.shared.active + 1)))
  {
    var w := g.shared.(active := g.shared.active + 1);
    var matching, authenticating := At(Matching, None, None), At(Authenticating, Some("r"), None);
    OnTheWay(t, w);
    Extend(t, acts, from, g, Arrive(id, "GET", "c"));
    acts' := acts + [Arrive(id, "GET", "c")];
    Walk(t, acts', from, g.requests, id, matching, w, Match(Some("r")), authenticating, w);
    acts' := acts' + [Step(id, Match(Some("r")))];
    Walk(t, acts', from, g.requests, id, authenticating, w, Authenticate(true), At(Limiting, Some("r"), None), w);
    acts' := acts' + [Step(id, Authenticate(true))];
  }

  /** A request comes in and is given the endpoint whose turn it is. */
  lemma Enter(t: Table, acts: seq<Act>, from: nat, g: Gateway, id: nat) returns (acts': seq<Act>)
    requires Has(t) && Reaches(t, acts, from, g) && id !in g.requests
    ensures acts <= acts' && |acts'| == |acts| + 5
    ensures Reaches(t, acts', from,
              Gateway(g.requests[id := At(Looking, Some("r"), Some(Turn(g.shared, "r") % 2))], Turned(g.shared)))
  {
    var w := g.shared.(active := g.shared.active + 1);
    var limiting, balancing := At(Limiting, Some("r"), None), At(Balancing, Some("r"), None);
    acts' := Arrives(t, acts, from, g, id);
    FurtherOn(t, w);
    Walk(t, acts', from, g.requests, id, limiting, w, Limit(0, 0), balancing, w);
    acts' := acts' + [Step(id, Limit(0, 0))];
    Walk(t, acts', from, g.requests, id, balancing, w, Balance,
         At(Looking, Some("r"), Some(Turn(w, "r") % 2)), Turned(g.shared));
    acts' := acts' + [Step(id, Balance)];
  }

  // ----- The first request trips the breaker of the first endpoint

  /** A request for the first endpoint, from its lookup on. */
  function AtFirst(pc: Pc, status: nat, found: Option<nat>, asked: Option<bool>, reported: Option<nat>): Request {
    var admitted := if asked == Some(true) then Some(0) else None;
    Request(pc, "GET", "c", Some("r"), status, Some(0), found, asked, admitted, reported)
  }

  const ASKING := AtFirst(Admitting, 0, Some(0), None, None)
  const SENT := AtFirst(Proxying, 0, Some(0), Some(true), None)
  const BACK := AtFirst(LookingAgain, 500, Some(0), Some(true), None)
  const FAILED := AtFirst(Recording, 500, Some(0), Some(true), None)
  const DONE := AtFirst(Leaving, 500, Some(0), Some(true), Some(0))
  const REFUSED := AtFirst(Leaving, 503, Some(0), Some(false), None)

  /** With the first endpoint's breaker in the store, and nothing else. */
  function Stored(w: Shared, b: CB.Breaker): Shared {
    w.(store := map[KEY := 0], created := [KEY], configs := [CFG], breakers := [b])
  }

  const TRIPPED := CB.Breaker(CB.Open, 1, 0, 0)

  lemma Inserted(t: Table, w: Shared)
    requires Has(t) && w.store == map[] && w.created == [] && w.configs == [] && w.breakers == []
    ensures var looking, inserting := At(Looking, Some("r"), Some(0)), At(Inserting, Some("r"), Some(0));
            && Enabled(t, w, looking, Look) && Advance(t, w, looking, Look) == (inserting, w)
            && Enabled(t, w, inserting, Insert) && Advance(t, w, inserting, Insert) == (ASKING, Stored(w, CB.INITIAL))
  {
    assert [] + [KEY] == [KEY] && [] + [CFG] == [CFG] && [] + [CB.INITIAL] == [CB.INITIAL];
    assert BreakerKey(t, At(Inserting, Some("r"), Some(0))) == KEY;
  }

  lemma LetThrough(t: Table, w: Shared)
    requires Has(t) && w == Stored(w, CB.INITIAL)
    ensures Enabled(t, w, ASKING, Admit(0)) && Advance(t, w, ASKING, Admit(0)) == (SENT, w)
    ensures Enabled(t, w, SENT, Proxy(500)) && Advance(t, w, SENT, Proxy(500)) == (BACK, w)
  {
    assert Tell(w, 0, CB.Ask(0)).breakers == w.breakers;
  }

  lemma Recorded(t: Table, w: Shared)
    requires Has(t) && w == Stored(w, CB.INITIAL)
    ensures Enabled(t, w, BACK, Look) && Advance(t, w, BACK, Look) == (FAILED, w)
    ensures Enabled(t, w, FAILED, Record(0, 0)) && Advance(t, w, FAILED, Record(0, 0)) == (DONE, Stored(w, TRIPPED))
  {
    assert [CB.INITIAL][0 := TRIPPED] == [TRIPPED];
    assert CB.Step(CFG, CB.INITIAL, CB.Failure(0, 0)) == TRIPPED;
    assert Tell(w, 0, CB.Failure(0, 0)) == Stored(w, TRIPPED);
  }

  lemma Trip(t: Table) returns (acts: seq<Act>)
    requires Has(t)
    ensures |acts| == 11
    ensures Reaches(t, acts, 11, Gateway(map[0 := DONE], Stored(Turned(IDLE.shared), TRIPPED)))
  {
    var w := Turned(IDLE.shared);
    var looking, inserting := At(Looking, Some("r"), Some(0)), At(Inserting, Some("r"), Some(0));
    acts := Enter(t, [], 11, IDLE, 0);
    Inserted(t, w);
    Walk(t, acts, 11, map[], 0, looking, w, Look, inserting, w);
    acts := acts + [Step(0, Look)];
    Walk(t, acts, 11, map[], 0, inserting, w, Insert, ASKING, Stored(w, CB.INITIAL));
    acts := acts + [Step(0, Insert)];
    acts := Fail(t, acts, Stored(w, CB.INITIAL));
  }

  lemma Fail(t: Table, acts: seq<Act>, w: Shared) returns (acts': seq<Act>)
    requires Has(t) && |acts| == 7 && w == Stored(w, CB.INITIAL)
    requires Reaches(t, acts, 11, Gateway(map[0 := ASKING], w))
    ensures |acts'| == 11 && Reaches(t, acts', 11, Gateway(map[0 := DONE], Stored(w, TRIPPED)))
  {
    LetThrough(t, w);
    Recorded(t, w);
    Walk(t, acts, 11, map[], 0, ASKING, w, Admit(0), SENT, w);
    acts' := acts + [Step(0, Admit(0))];
    Walk(t, acts', 11, map[], 0, SENT, w, Proxy(500), BACK, w);
    acts' := acts' + [Step(0, Proxy(500))];
    Walk(t, acts', 11, map[], 0, BACK, w, Look, FAILED, w);
    acts' := acts' + [Step(0, Look)];
    Walk(t, acts', 11, map[], 0, FAILED, w, Record(0, 0), DONE, Stored(w, TRIPPED));
    acts' := acts' + [Step(0, Record(0, 0))];
  }

  // ----- Of the next two, one goes to the second endpoint and one is rejected

  lemma Refused(t: Table, w: Shared)
    requires Has(t) && w == Stored(w, TRIPPED)
    ensures var looking := At(Looking, Some("r"), Some(0));
            Enabled(t, w, looking, Look) && Advance(t, w, looking, Look) == (ASKING, w)
    ensures Enabled(t, w, ASKING, Admit(0)) && MeetsAsExpected(w, ASKING, 0, {0})
    ensures Advance(t, w, ASKING, Admit(0)) == (REFUSED, w)
  {
    assert Tell(w, 0, CB.Ask(0)).breakers == w.breakers;
  }

  lemma AskInVain(t: Table, acts: seq<Act>, others: map<nat, Request>, w: Shared) returns (acts': seq<Act>)
    requires Has(t) && |acts| >= 11 && w == Stored(w, TRIPPED)
    requires Reaches(t, acts, 11, Gateway(others[2 := At(Looking, Some("r"), Some(0))], w))
    ensures acts <= acts' && Reaches(t, acts', 11, Gateway(others[2 := REFUSED], w))
  {
    Refused(t, w);
    Walk(t, acts, 11, others, 2, At(Looking, Some("r"), Some(0)), w, Look, ASKING, w);
    acts' := acts + [Step(2, Look)];
    Walk(t, acts', 11, others, 2, ASKING, w, Admit(0), REFUSED, w);
    acts' := acts' + [Step(2, Admit(0))];
  }

  lemma StillStored(w: Shared)
    requires w == Stored(w, TRIPPED)
    ensures Turned(w) == Stored(Turned(w), TRIPPED)
  {}

  lemma Meet(t: Table, acts: seq<Act>, others: map<nat, Request>, w: Shared) returns (acts': seq<Act>)
    requires Has(t) && |acts| >= 11 && Reaches(t, acts, 11, Gateway(others, w)) && 2 !in others
    requires w == Stored(w, TRIPPED) && Turn(w, "r") % 2 == 0
    ensures acts <= acts' && Reaches(t, acts', 11, Gateway(others[2 := REFUSED], Turned(w)))
  {
    StillStored(w);
    acts' := Enter(t, acts, 11, Gateway(others, w), 2);
    acts' := AskInVain(t, acts', others, Turned(w));
  }

  lemma OneOfTwo(before: map<nat, Request>, after: map<nat, Request>)
    requires before == map[0 := DONE]
    requires after == before[1 := At(Looking, Some("r"), Some(1))][2 := REFUSED]
    ensures Newly(before, after, "r", Balanced("r")) == {1, 2}
    ensures Newly(before, after, "r", Rejected("r")) == {2}
  {
    assert Where(before, Balanced("r")) == {0};
    assert Where(after, Balanced("r")) == {0, 1, 2};
    assert Where(after, Rejected("r")) == {2};
  }

  /** CircuitOpenShare is about something: in some run the first endpoint's breaker is open from some
      moment on, and since then one request of two has been answered CIRCUIT_OPEN. */
  lemma RejectionsHappen(t: Table)
    requires Has(t)
    ensures exists acts, from: nat | from <= |acts| && DeadSince(t, acts, from, "r", {0}) ::
              var before, after := After(t, acts[..from]), After(t, acts);
              && Turn(before.shared, "r") == 1
              && Newly(before.requests, after.requests, "r", Balanced("r")) == {1, 2}
              && Newly(before.requests, after.requests, "r", Rejected("r")) == {2}
  {
    var w := Stored(Turned(IDLE.shared), TRIPPED);
    var before := Trip(t);
    var acts := Enter(t, before, 11, Gateway(map[0 := DONE], w), 1);
    var others := map[0 := DONE][1 := At(Looking, Some("r"), Some(1))];
    acts := Meet(t, acts, others, Turned(w));
    OneOfTwo(map[0 := DONE], others[2 := REFUSED]);
    assert acts[..11] == before;
  }
}
