/**
 What every answer comes from and what it does: the act that caused a request's status, and what the
 breaker that let it through is told of it.
 */
module GatewayAnswers {
  import opened Prelude
  import opened Gateway
  import opened GatewayOrder
  import CB = CircuitBreaker

  /** A final status has been settled, by the gateway or by the upstream. */
  predicate Answered(pc: Pc) {
    OnItsWayBack(pc) || Returned(pc)
  }

  /** From the upstream to the breaker. */
  predicate OnItsWayBack(pc: Pc) {
    pc.LookingAgain? || pc.InsertingAgain? || pc.Recording?
  }

  // ----- Causes

  ghost predicate Arrived(acts: seq<Act>, i: nat, id: nat, r: Request) {
    i < |acts| && acts[i] == Arrive(id, r.verb, r.client)
  }

  /** The limiter refused the call of the request. */
  ghost predicate DeniedAt(t: Table, acts: seq<Act>, i: nat, id: nat) {
    exists m :: Took(t, acts, i, id, m) && Denies(t, After(t, acts[..i]), id, m)
  }

  ghost predicate Denies(t: Table, g: Gateway, id: nat, m: Move) {
    id in g.requests && Routed(t, g.requests[id]) &&
    var r := g.requests[id];
    match t[r.route.value].limit
    case Some(LimitCfg(true, limit, window)) =>
      Allows(g.shared, JoinKey(r.route.value, r.client), limit, window, m) == Some(false)
    case _ => false
  }

  /** The breaker the request asks is open and its timeout not over. */
  ghost predicate Refuses(g: Gateway, id: nat, now: int) {
    id in g.requests && g.requests[id].found.Some? &&
    var b := g.requests[id].found.value;
    && b < |g.shared.breakers| == |g.shared.configs|
    && g.shared.breakers[b].state == CB.Open
    && now < g.shared.breakers[b].openTime + g.shared.configs[b].timeout
  }

  ghost predicate WithoutEndpoints(t: Table, g: Gateway, id: nat) {
    id in g.requests && Routed(t, g.requests[id]) && t[g.requests[id].route.value].endpoints == []
  }

  /** What status this step of the request answers it with, if any, and under which circumstances. */
  ghost predicate Gives(t: Table, acts: seq<Act>, i: nat, id: nat, m: Move, status: nat)
    requires i <= |acts|
  {
    var g := After(t, acts[..i]);
    match m
    case Match(None) => status == 404
    case Authenticate(false) => status == 401
    case Reject => status == 429 && exists k: nat :: k < i && DeniedAt(t, acts, k, id)
    case Balance => status == 503 && WithoutEndpoints(t, g, id)
    case Admit(now) => status == 503 && Refuses(g, id, now)
    case Proxy(s) => status == s
    case Abort(s) => status == s
    case _ => false
  }

  ghost predicate CausedAt(t: Table, acts: seq<Act>, i: nat, id: nat, status: nat) {
    i <= |acts| && exists m :: Took(t, acts, i, id, m) && Gives(t, acts, i, id, m, status)
  }

  ghost predicate Explained(t: Table, acts: seq<Act>, id: nat, r: Request) {
    && (exists i: nat :: Arrived(acts, i, id, r))
    && (if Answered(r.pc) then exists i: nat :: CausedAt(t, acts, i, id, r.status) else r.status == 0)
    && (OnItsWayBack(r.pc) ==> exists i: nat :: Took(t, acts, i, id, Proxy(r.status)))
    && (r.pc.Rejecting? ==> exists i: nat :: DeniedAt(t, acts, i, id))
  }

  // ----- Later acts change nothing of it

  lemma DeniedLater(t: Table, acts: seq<Act>, a: Act, i: nat, id: nat)
    requires DeniedAt(t, acts, i, id)
    ensures DeniedAt(t, acts + [a], i, id)
  {
    var m :| Took(t, acts, i, id, m) && Denies(t, After(t, acts[..i]), id, m);
    TookBefore(t, acts, a, i, id, m);
    assert (acts + [a])[..i] == acts[..i];
  }

  lemma CausedLater(t: Table, acts: seq<Act>, a: Act, i: nat, id: nat, status: nat)
    requires CausedAt(t, acts, i, id, status)
    ensures CausedAt(t, acts + [a], i, id, status)
  {
    var m :| Took(t, acts, i, id, m) && Gives(t, acts, i, id, m, status);
    TookBefore(t, acts, a, i, id, m);
    assert (acts + [a])[..i] == acts[..i];
    if m.Reject? {
      var k: nat :| k < i && DeniedAt(t, acts, k, id);
      DeniedLater(t, acts, a, k, id);
    }
  }

  lemma ExplainedLater(t: Table, acts: seq<Act>, a: Act, id: nat, r: Request)
    requires Explained(t, acts, id, r)
    ensures Explained(t, acts + [a], id, r)
  {
    var i: nat :| Arrived(acts, i, id, r);
    assert Arrived(acts + [a], i, id, r);
    if Answered(r.pc) {
      var i: nat :| CausedAt(t, acts, i, id, r.status);
      CausedLater(t, acts, a, i, id, r.status);
    }
    if OnItsWayBack(r.pc) {
      var i: nat :| Took(t, acts, i, id, Proxy(r.status));
      TookBefore(t, acts, a, i, id, Proxy(r.status));
    }
    if r.pc.Rejecting? {
      var i: nat :| DeniedAt(t, acts, i, id);
      DeniedLater(t, acts, a, i, id);
    }
  }

  // ----- Every step explains itself

  /** Steps that settle nothing, or come after it is settled. */
  predicate Settles(m: Move) {
    m.Match? || m.Authenticate? || m.Reject? || m.Balance? || m.Admit? || m.Proxy? || m.Abort?
  }

  lemma UnsettledAdvance(t: Table, w: Shared, r: Request, m: Move)
    requires Enabled(t, w, r, m) && !Settles(m)
    ensures var r' := Advance(t, w, r, m).0;
            && r'.status == r.status && r'.verb == r.verb && r'.client == r.client
            && (Answered(r'.pc) <==> Answered(r.pc)) && (OnItsWayBack(r'.pc) ==> OnItsWayBack(r.pc))
            && (r'.pc.Rejecting? ==> m.CallRedis? || m.Limit?)
  {}

  lemma SettlingAdvance(t: Table, w: Shared, r: Request, m: Move)
    requires Enabled(t, w, r, m) && Settles(m)
    ensures var r' := Advance(t, w, r, m).0;
            && !Answered(r.pc) && !r'.pc.Rejecting? && r'.verb == r.verb && r'.client == r.client
            && (!Answered(r'.pc) ==> r'.status == r.status)
            && (OnItsWayBack(r'.pc) ==> m == Proxy(r'.status))
  {}

  lemma DeniedNow(t: Table, acts: seq<Act>, id: nat, m: Move)
    requires Possible(t, After(t, acts), Step(id, m)) && (m.CallRedis? || m.Limit?)
    requires Advance(t, After(t, acts).shared, After(t, acts).requests[id], m).0.pc == Rejecting
    ensures DeniedAt(t, acts + [Step(id, m)], |acts|, id)
  {
    assert (acts + [Step(id, m)])[..|acts|] == acts;
    assert Took(t, acts + [Step(id, m)], |acts|, id, m);
  }

  lemma RefusedNow(t: Table, acts: seq<Act>, id: nat, m: Move)
    requires Possible(t, After(t, acts), Step(id, m)) && (m.Match? || m.Authenticate? || m.Balance?)
    requires Answered(Advance(t, After(t, acts).shared, After(t, acts).requests[id], m).0.pc)
    ensures CausedAt(t, acts + [Step(id, m)], |acts|, id,
                     Advance(t, After(t, acts).shared, After(t, acts).requests[id], m).0.status)
  {
    assert (acts + [Step(id, m)])[..|acts|] == acts;
    assert Took(t, acts + [Step(id, m)], |acts|, id, m);
  }

  lemma ShutOutNow(t: Table, acts: seq<Act>, id: nat, now: int)
    requires Possible(t, After(t, acts), Step(id, Admit(now)))
    requires Answered(Advance(t, After(t, acts).shared, After(t, acts).requests[id], Admit(now)).0.pc)
    ensures CausedAt(t, acts + [Step(id, Admit(now))], |acts|, id,
                     Advance(t, After(t, acts).shared, After(t, acts).requests[id], Admit(now)).0.status)
  {
    assert (acts + [Step(id, Admit(now))])[..|acts|] == acts;
    assert Took(t, acts + [Step(id, Admit(now))], |acts|, id, Admit(now));
  }

  lemma SentNow(t: Table, acts: seq<Act>, id: nat, m: Move)
    requires Possible(t, After(t, acts), Step(id, m)) && (m.Proxy? || m.Abort?)
    ensures CausedAt(t, acts + [Step(id, m)], |acts|, id,
                     Advance(t, After(t, acts).shared, After(t, acts).requests[id], m).0.status)
    ensures Took(t, acts + [Step(id, m)], |acts|, id, m)
  {
    assert (acts + [Step(id, m)])[..|acts|] == acts;
    assert Took(t, acts + [Step(id, m)], |acts|, id, m);
  }

  lemma RejectedNow(t: Table, acts: seq<Act>, id: nat)
    requires Possible(t, After(t, acts), Step(id, Reject))
    requires exists k: nat :: DeniedAt(t, acts, k, id)
    ensures CausedAt(t, acts + [Step(id, Reject)], |acts|, id,
                     Advance(t, After(t, acts).shared, After(t, acts).requests[id], Reject).0.status)
  {
    assert (acts + [Step(id, Reject)])[..|acts|] == acts;
    assert Took(t, acts + [Step(id, Reject)], |acts|, id, Reject);
    var k: nat :| DeniedAt(t, acts, k, id);
    DeniedLater(t, acts, Step(id, Reject), k, id);
  }

  lemma ExplainedStep(t: Table, acts: seq<Act>, id: nat, m: Move)
    requires Possible(t, After(t, acts), Step(id, m))
    requires Explained(t, acts, id, After(t, acts).requests[id])
    ensures Explained(t, acts + [Step(id, m)], id, Advance(t, After(t, acts).shared, After(t, acts).requests[id], m).0)
  {
    var g := After(t, acts);
    var r := g.requests[id];
    var r' := Advance(t, g.shared, r, m).0;
    ExplainedLater(t, acts, Step(id, m), id, r);
    var i: nat :| Arrived(acts + [Step(id, m)], i, id, r);
    if Settles(m) {
      SettlingAdvance(t, g.shared, r, m);
      if Answered(r'.pc) {
        match m
        case Admit(now) => ShutOutNow(t, acts, id, now);
        case Proxy(_) => SentNow(t, acts, id, m);
        case Abort(_) => SentNow(t, acts, id, m);
        case Reject => RejectedNow(t, acts, id);
        case _ => RefusedNow(t, acts, id, m);
      }
    } else {
      UnsettledAdvance(t, g.shared, r, m);
      if r'.pc.Rejecting? {
        DeniedNow(t, acts, id, m);
      }
    }
    assert Arrived(acts + [Step(id, m)], i, id, r');
  }

  ghost predicate AllExplained(t: Table, acts: seq<Act>, requests: map<nat, Request>) {
    forall id :: id in requests ==> Explained(t, acts, id, requests[id])
  }

  lemma AllLater(t: Table, acts: seq<Act>, a: Act, requests: map<nat, Request>)
    requires AllExplained(t, acts, requests)
    ensures AllExplained(t, acts + [a], requests)
  {
    forall id | id in requests
      ensures Explained(t, acts + [a], id, requests[id])
    {
      ExplainedLater(t, acts, a, id, requests[id]);
    }
  }

  lemma AllUpdate(t: Table, acts: seq<Act>, requests: map<nat, Request>, id: nat, r: Request)
    requires AllExplained(t, acts, requests) && Explained(t, acts, id, r)
    ensures AllExplained(t, acts, requests[id := r])
  {}

  lemma AllExplainedStep(t: Table, acts: seq<Act>, a: Act)
    requires AllExplained(t, acts, After(t, acts).requests)
    ensures AllExplained(t, acts + [a], Do(t, After(t, acts), a).requests)
  {
    var g := After(t, acts);
    AllLater(t, acts, a, g.requests);
    if Possible(t, g, a) {
      match a
      case Step(id, m) =>
        ExplainedStep(t, acts, id, m);
        StepUpdates(t, g, id, m);
        AllUpdate(t, acts + [a], g.requests, id, Advance(t, g.shared, g.requests[id], m).0);
      case Arrive(id, _, _) =>
        assert Arrived(acts + [a], |acts|, id, Do(t, g, a).requests[id]);
      case _ =>
    }
  }

  /** Every request is one that arrived, with its own method and client; and once it is answered, one of
      its steps is the cause of exactly the status it has: 404 no match, 401 no credentials, 429 a call
      the limiter refused, 503 a route without endpoints or a breaker that was open, and otherwise what
      the upstream or its failure made it. */
  lemma {:induction false} EveryAnswerHasItsCause(t: Table, acts: seq<Act>)
    ensures AllExplained(t, acts, After(t, acts).requests)
  {
    if acts != [] {
      var init := acts[..|acts| - 1];
      assert acts == init + [acts[|acts| - 1]];
      EveryAnswerHasItsCause(t, init);
      AllExplainedStep(t, init, acts[|acts| - 1]);
    }
  }

  // ----- What the breaker is told

  /** Whatever the request was answered upstream is its status, and once it is through, its breaker has
      been told if and only if there was a status; after an abort it never is. */
  ghost predicate Reported(t: Table, r: Request, m: Move) {
    && (m.Proxy? ==>
          && Answered(r.pc) && r.status == m.status && Routed(t, r)
          && (t[r.route.value].breaker.Some? && Returned(r.pc) ==>
                r.admitted.Some? && r.reported == if m.status > 0 then r.admitted else None))
    && (m.Abort? ==> Returned(r.pc) && r.status == m.status && r.reported.None?)
  }

  ghost predicate AllReported(t: Table, acts: seq<Act>, id: nat, r: Request) {
    forall i: nat, m :: Took(t, acts, i, id, m) ==> Reported(t, r, m)
  }

  lemma ReportedAdvance(t: Table, w: Shared, r: Request, m: Move, sent: Move)
    requires Enabled(t, w, r, m) && Shaped(t, w.store, r) && Reported(t, r, sent)
    ensures Reported(t, Advance(t, w, r, m).0, sent)
  {}

  lemma ReportedNow(t: Table, w: Shared, r: Request, m: Move)
    requires Enabled(t, w, r, m) && Shaped(t, w.store, r)
    ensures Reported(t, Advance(t, w, r, m).0, m)
  {}

  lemma TookEarlier(t: Table, acts: seq<Act>, a: Act, i: nat, id: nat, m: Move)
    requires Took(t, acts + [a], i, id, m)
    ensures Took(t, acts, i, id, m) || (i == |acts| && a == Step(id, m) && Possible(t, After(t, acts), a))
  {
    if i < |acts| {
      assert (acts + [a])[..i] == acts[..i];
    } else {
      assert (acts + [a])[..i] == acts;
    }
  }

  lemma ReportedStep(t: Table, acts: seq<Act>, a: Act, id: nat)
    requires Inv(t, After(t, acts)) && id in Do(t, After(t, acts), a).requests
    requires id in After(t, acts).requests ==> AllReported(t, acts, id, After(t, acts).requests[id])
    requires id !in After(t, acts).requests ==> forall i: nat, m :: !Took(t, acts, i, id, m)
    ensures AllReported(t, acts + [a], id, Do(t, After(t, acts), a).requests[id])
  {
    var g := After(t, acts);
    forall i: nat, m | Took(t, acts + [a], i, id, m)
      ensures Reported(t, Do(t, g, a).requests[id], m)
    {
      TookEarlier(t, acts, a, i, id, m);
      if a.Step? && a.id == id && Possible(t, g, a) {
        assert Shaped(t, g.shared.store, g.requests[id]);
        if Took(t, acts, i, id, m) {
          ReportedAdvance(t, g.shared, g.requests[id], a.move, m);
        } else {
          ReportedNow(t, g.shared, g.requests[id], a.move);
        }
      }
    }
  }

  lemma StaysIn(t: Table, g: Gateway, a: Act, id: nat)
    requires id in g.requests
    ensures id in Do(t, g, a).requests
  {}

  lemma {:induction false} ReportedAlways(t: Table, acts: seq<Act>, id: nat)
    ensures if id in After(t, acts).requests then AllReported(t, acts, id, After(t, acts).requests[id])
            else forall i: nat, m :: !Took(t, acts, i, id, m)
  {
    if acts != [] {
      var init := acts[..|acts| - 1];
      var a := acts[|acts| - 1];
      assert acts == init + [a];
      ReportedAlways(t, init, id);
      InvAlways(t, init);
      if id in After(t, acts).requests {
        ReportedStep(t, init, a, id);
      } else {
        if id in After(t, init).requests {
          StaysIn(t, After(t, init), a, id);
        }
        forall i: nat, m
          ensures !Took(t, acts, i, id, m)
        {
          if Took(t, acts, i, id, m) {
            TookEarlier(t, init, a, i, id, m);
          }
        }
      }
    }
  }

  /** What the upstream answered a request becomes its status; its breaker hears of it before the
      request is over if and only if there was a status at all; and after an abort it never does. */
  lemma ResultsAreReported(t: Table, acts: seq<Act>, i: nat, id: nat, m: Move)
    requires Took(t, acts, i, id, m)
    ensures id in After(t, acts).requests && Reported(t, After(t, acts).requests[id], m)
  {
    ReportedAlways(t, acts, id);
  }

  /** What a breaker becomes when it is told of this status. */
  function Hearing(cfg: CB.Config, b: CB.Breaker, status: nat, seen: int, now: int): CB.Breaker {
    if status >= 500 then CB.Step(cfg, b, CB.Failure(seen, now))
    else if status >= 1 then CB.Step(cfg, b, CB.Success(now))
    else b
  }

  /** Breaker `b` is told of the status, no other hears anything, and it is decided if it is half-open. */
  ghost predicate IsTold(w: Shared, w': Shared, b: Option<nat>, status: nat, seen: int, now: int) {
    && b.Some? && b.value < |w.breakers| == |w.configs|
    && w'.breakers == w.breakers[b.value := Hearing(w.configs[b.value], w.breakers[b.value], status, seen, now)]
    && (w.breakers[b.value].state == CB.HalfOpen ==>
          w'.breakers[b.value].state ==
            if status >= 500 then CB.Open else if status >= 1 then CB.Closed else CB.HalfOpen)
  }

  lemma RecordAdvance(t: Table, w: Shared, r: Request, seen: int, now: int)
    requires Enabled(t, w, r, Record(seen, now)) && Shaped(t, w.store, r)
    ensures IsTold(w, Advance(t, w, r, Record(seen, now)).1, r.admitted, r.status, seen, now)
  {}

  lemma SentBefore(t: Table, acts: seq<Act>, id: nat)
    requires id in After(t, acts).requests && OnItsWayBack(After(t, acts).requests[id].pc)
    ensures exists i: nat :: Took(t, acts, i, id, Proxy(After(t, acts).requests[id].status))
  {
    EveryAnswerHasItsCause(t, acts);
    assert Explained(t, acts, id, After(t, acts).requests[id]);
  }

  /** ... and what it hears: a failure for 500 and above, a success for anything else. */
  lemma RecordTells(t: Table, acts: seq<Act>, id: nat, seen: int, now: int)
    requires Possible(t, After(t, acts), Step(id, Record(seen, now)))
    ensures exists i: nat, status: nat :: Took(t, acts, i, id, Proxy(status)) &&
              IsTold(After(t, acts).shared, After(t, acts + [Step(id, Record(seen, now))]).shared,
                     After(t, acts).requests[id].admitted, status, seen, now)
  {
    var g := After(t, acts);
    InvAlways(t, acts);
    assert Shaped(t, g.shared.store, g.requests[id]);
    SentBefore(t, acts, id);
    RecordAdvance(t, g.shared, g.requests[id], seen, now);
    assert (acts + [Step(id, Record(seen, now))])[..|acts|] == acts;
  }
}
