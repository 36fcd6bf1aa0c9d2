/**
 The breakers inside the gateway. Each goes through exactly the admissions and results of its own
 route and upstream, so everything proved of a breaker on its own holds of it here; and what it is
 told can be counted off against the requests it let through.
 */
module GatewayBreakers {
  import opened Prelude
  import opened Gateway
  import CB = CircuitBreaker

  // ----- Projection

  /** What a step means to breaker `b`. */
  function MoveEvent(r: Request, m: Move, b: nat): Option<CB.Event> {
    if r.found != Some(b) then None
    else
      match m
      case Admit(now) => Some(CB.Ask(now))
      case Record(seen, now) =>
        if r.status >= 500 then Some(CB.Failure(seen, now))
        else if r.status >= 1 then Some(CB.Success(now))
        else None
      case _ => None
  }

  function EventFor(t: Table, g: Gateway, a: Act, b: nat): Option<CB.Event> {
    if a.Step? && Possible(t, g, a) then MoveEvent(g.requests[a.id], a.move, b) else None
  }

  function OptSeq<T>(o: Option<T>): seq<T> {
    if o.Some? then [o.value] else []
  }

  /** Breaker `b`'s part of a run. */
  function Events(t: Table, acts: seq<Act>, b: nat): seq<CB.Event> {
    if acts == [] then []
    else
      var init := acts[..|acts| - 1];
      Events(t, init, b) + OptSeq(EventFor(t, After(t, init), acts[|acts| - 1], b))
  }

  /** A step tells breaker `b` its event, if it has one for it, and does nothing else to it. */
  lemma BreakerAdvance(t: Table, w: Shared, r: Request, m: Move, b: nat)
    requires Enabled(t, w, r, m) && Pooled(w)
    ensures var w' := Advance(t, w, r, m).1;
            && |w.breakers| <= |w'.breakers| == |w'.configs|
            && (b < |w.breakers| ==> w'.breakers[b] == Stepped(w.configs[b], w.breakers[b], MoveEvent(r, m, b)))
            && (|w.breakers| <= b < |w'.breakers| ==> w'.breakers[b] == CB.INITIAL)
            && (|w.breakers| <= b ==> MoveEvent(r, m, b).None?)
  {
    if m.Insert? {
      InsertLeavesBreakers(t, w, r);
    } else if ForTheBreaker(m) {
      TellsBreaker(t, w, r, m, b);
    } else {
      OthersLeaveBreakers(t, w, r, m);
    }
  }

  lemma InsertLeavesBreakers(t: Table, w: Shared, r: Request)
    requires Enabled(t, w, r, Insert) && Pooled(w)
    ensures var w' := Advance(t, w, r, Insert).1;
            && w.breakers <= w'.breakers && |w'.breakers| == |w'.configs|
            && (forall b :: |w.breakers| <= b < |w'.breakers| ==> w'.breakers[b] == CB.INITIAL)
  {}

  function Stepped(cfg: CB.Config, b: CB.Breaker, e: Option<CB.Event>): CB.Breaker {
    match e case None => b case Some(event) => CB.Step(cfg, b, event)
  }

  lemma TellsOne(w: Shared, b: nat, e: CB.Event, other: nat)
    requires b < |w.breakers| == |w.configs|
    ensures var w' := Tell(w, b, e);
            && w'.configs == w.configs && |w'.breakers| == |w.breakers|
            && (other < |w.breakers| ==>
                  w'.breakers[other]
                  == if other == b then CB.Step(w.configs[b], w.breakers[b], e) else w.breakers[other])
  {}

  lemma AdvanceTells(t: Table, w: Shared, r: Request, m: Move)
    requires Enabled(t, w, r, m) && ForTheBreaker(m)
    ensures m.Look? ==> Advance(t, w, r, m).1 == w
    ensures m.Admit? ==> Advance(t, w, r, m).1 == Tell(w, r.found.value, CB.Ask(m.now))
    ensures m.Record? ==>
              var e := Result(r.status, m.seen, m.now);
              Advance(t, w, r, m).1 == if e.Some? then Tell(w, r.found.value, e.value) else w
  {}

  lemma TellsBreaker(t: Table, w: Shared, r: Request, m: Move, b: nat)
    requires Enabled(t, w, r, m) && Pooled(w) && ForTheBreaker(m)
    ensures var w' := Advance(t, w, r, m).1;
            && w'.configs == w.configs && |w'.breakers| == |w.breakers|
            && (b < |w.breakers| ==> w'.breakers[b] == Stepped(w.configs[b], w.breakers[b], MoveEvent(r, m, b)))
            && (|w.breakers| <= b ==> MoveEvent(r, m, b).None?)
  {
    AdvanceTells(t, w, r, m);
    if m.Admit? {
      TellsOne(w, r.found.value, CB.Ask(m.now), b);
    } else if m.Record? && Result(r.status, m.seen, m.now).Some? {
      TellsOne(w, r.found.value, Result(r.status, m.seen, m.now).value, b);
    }
  }

  lemma AfterSnoc(cfg: CB.Config, run: seq<CB.Event>, e: CB.Event)
    ensures CB.After(cfg, run + [e]) == CB.Step(cfg, CB.After(cfg, run), e)
    ensures CB.Admitted(cfg, run + [e])
         == CB.Admitted(cfg, run) + One(e.Ask? && CB.Admits(cfg, CB.After(cfg, run), e.now))
    ensures CB.Completed(run + [e]) == CB.Completed(run) + One(!e.Ask?)
  {
    assert (run + [e])[..|run|] == run;
  }

  lemma EventsNext(t: Table, init: seq<Act>, a: Act, b: nat)
    ensures Events(t, init + [a], b) == Events(t, init, b) + OptSeq(EventFor(t, After(t, init), a, b))
    ensures After(t, init + [a]) == Do(t, After(t, init), a)
  {
    assert (init + [a])[..|init|] == init;
  }

  ghost predicate Projected(w: Shared, b: nat, events: seq<CB.Event>) {
    && |w.breakers| == |w.configs|
    && (b < |w.breakers| ==> w.breakers[b] == CB.After(w.configs[b], events))
    && (b >= |w.breakers| ==> events == [])
  }

  lemma ProjectedStep(t: Table, g: Gateway, a: Act, b: nat, events: seq<CB.Event>)
    requires Inv(t, g) && Grows(g.shared, Do(t, g, a).shared) && Projected(g.shared, b, events)
    ensures Projected(Do(t, g, a).shared, b, events + OptSeq(EventFor(t, g, a, b)))
  {
    assert events + [] == events;
    if a.Step? && Possible(t, g, a) {
      var r := g.requests[a.id];
      BreakerAdvance(t, g.shared, r, a.move, b);
      var e := MoveEvent(r, a.move, b);
      if e.Some? {
        AfterSnoc(g.shared.configs[b], events, e.value);
      }
    }
  }

  /** A breaker's state is that of a breaker that sees its own events and nothing else. */
  lemma {:induction false} BreakerProjection(t: Table, acts: seq<Act>, b: nat)
    ensures var w := After(t, acts).shared;
            && |w.breakers| == |w.configs|
            && (b < |w.breakers| ==> w.breakers[b] == CB.After(w.configs[b], Events(t, acts, b)))
            && (b >= |w.breakers| ==> Events(t, acts, b) == [])
  {
    if acts != [] {
      var init := acts[..|acts| - 1];
      var a := acts[|acts| - 1];
      assert acts == init + [a];
      InvAlways(t, init);
      InvStep(t, After(t, init), a);
      BreakerProjection(t, init, b);
      ProjectedStep(t, After(t, init), a, b, Events(t, init, b));
      EventsNext(t, init, a, b);
    }
  }

  // ----- Accounting

  function AdmittedBy(b: nat): Request -> bool {
    (r: Request) => r.admitted == Some(b)
  }

  function ReportedTo(b: nat): Request -> bool {
    (r: Request) => r.reported == Some(b)
  }

  /** Let through, and the breaker has not been told how it went: still in flight, or unwound, or
      without a status. */
  function PendingOn(b: nat): Request -> bool {
    (r: Request) => r.admitted == Some(b) && r.reported.None?
  }

  /** `cfg` is what breaker `b` is, or will be, configured with. */
  ghost predicate ConfigOf(w: Shared, b: nat, cfg: CB.Config) {
    b < |w.configs| ==> w.configs[b] == cfg
  }

  lemma AccountAdvance(t: Table, w: Shared, r: Request, m: Move, b: nat, cfg: CB.Config)
    requires Enabled(t, w, r, m) && Pooled(w) && Shaped(t, w.store, r) && ConfigOf(w, b, cfg)
    ensures var r' := Advance(t, w, r, m).0;
            var e := MoveEvent(r, m, b);
            && One(r'.admitted == Some(b)) == One(r.admitted == Some(b))
                 + One(e.Some? && e.value.Ask? && b < |w.breakers| && CB.Admits(cfg, w.breakers[b], e.value.now))
            && One(r'.reported == Some(b)) == One(r.reported == Some(b)) + One(e.Some? && !e.value.Ask?)
            && (e.Some? ==> b < |w.breakers|)
  {}

  ghost predicate Accounted(t: Table, acts: seq<Act>, b: nat, cfg: CB.Config) {
    var g := After(t, acts);
    && CB.Admitted(cfg, Events(t, acts, b)) == |Where(g.requests, AdmittedBy(b))|
    && CB.Completed(Events(t, acts, b)) == |Where(g.requests, ReportedTo(b))|
  }

  /** What an event adds to the admissions, and to the results. */
  function Admission(cfg: CB.Config, w: Shared, b: nat, e: Option<CB.Event>): nat {
    One(e.Some? && e.value.Ask? && b < |w.breakers| && CB.Admits(cfg, w.breakers[b], e.value.now))
  }

  function Report(e: Option<CB.Event>): nat {
    One(e.Some? && !e.value.Ask?)
  }

  lemma RequestsStep(t: Table, g: Gateway, a: Act, b: nat, cfg: CB.Config)
    requires Inv(t, g) && ConfigOf(g.shared, b, cfg)
    ensures var e := EventFor(t, g, a, b);
            var g' := Do(t, g, a);
            && |Where(g'.requests, AdmittedBy(b))|
               == |Where(g.requests, AdmittedBy(b))| + Admission(cfg, g.shared, b, e)
            && |Where(g'.requests, ReportedTo(b))| == |Where(g.requests, ReportedTo(b))| + Report(e)
            && (e.Some? ==> b < |g.shared.breakers|)
  {
    if Possible(t, g, a) && (a.Arrive? || a.Step?) {
      var r' := Do(t, g, a).requests[a.id];
      WhereUpdate(g.requests, a.id, r', AdmittedBy(b));
      WhereUpdate(g.requests, a.id, r', ReportedTo(b));
      if a.Step? {
        AccountAdvance(t, g.shared, g.requests[a.id], a.move, b, cfg);
      }
    }
  }

  lemma EventsStep(t: Table, init: seq<Act>, a: Act, b: nat, cfg: CB.Config)
    requires ConfigOf(After(t, init).shared, b, cfg)
    requires EventFor(t, After(t, init), a, b).Some? ==> b < |After(t, init).shared.breakers|
    ensures var e := EventFor(t, After(t, init), a, b);
            && Events(t, init + [a], b) == Events(t, init, b) + OptSeq(e)
            && CB.Admitted(cfg, Events(t, init + [a], b))
               == CB.Admitted(cfg, Events(t, init, b)) + Admission(cfg, After(t, init).shared, b, e)
            && CB.Completed(Events(t, init + [a], b)) == CB.Completed(Events(t, init, b)) + Report(e)
  {
    assert (init + [a])[..|init|] == init;
    BreakerProjection(t, init, b);
    var e := EventFor(t, After(t, init), a, b);
    if e.Some? {
      AfterSnoc(cfg, Events(t, init, b), e.value);
    } else {
      assert Events(t, init, b) + [] == Events(t, init, b);
    }
  }

  lemma AccountStep(t: Table, init: seq<Act>, a: Act, b: nat, cfg: CB.Config)
    requires Accounted(t, init, b, cfg) && ConfigOf(After(t, init).shared, b, cfg)
    ensures Accounted(t, init + [a], b, cfg)
  {
    InvAlways(t, init);
    RequestsStep(t, After(t, init), a, b, cfg);
    EventsStep(t, init, a, b, cfg);
    assert (init + [a])[..|init|] == init;
  }

  lemma {:induction false} AccountAlways(t: Table, acts: seq<Act>, b: nat, cfg: CB.Config)
    requires ConfigOf(After(t, acts).shared, b, cfg)
    ensures Accounted(t, acts, b, cfg)
  {
    if acts == [] {
      assert Where(map[], AdmittedBy(b)) == {} == Where(map[], ReportedTo(b));
    } else {
      var init := acts[..|acts| - 1];
      InvAlways(t, init);
      InvStep(t, After(t, init), acts[|acts| - 1]);
      AccountAlways(t, init, b, cfg);
      AccountStep(t, init, acts[|acts| - 1], b, cfg);
      assert init + [acts[|acts| - 1]] == acts;
    }
  }

  /** At every moment, what breaker `b` let through and what it was told differ by the requests it
      let through and has not heard of; so results never exceed admissions. */
  lemma AdmissionsAreAccountedFor(t: Table, acts: seq<Act>, b: nat, cfg: CB.Config)
    requires ConfigOf(After(t, acts).shared, b, cfg)
    ensures var g := After(t, acts);
            CB.Admitted(cfg, Events(t, acts, b))
              == CB.Completed(Events(t, acts, b)) + |Where(g.requests, PendingOn(b))|
  {
    var g := After(t, acts);
    AccountAlways(t, acts, b, cfg);
    InvAlways(t, acts);
    var admitted, reported, pending :=
      Where(g.requests, AdmittedBy(b)), Where(g.requests, ReportedTo(b)), Where(g.requests, PendingOn(b));
    forall id | id in g.requests
      ensures id in admitted <==> id in reported || id in pending
    {
      assert Shaped(t, g.shared.store, g.requests[id]);
    }
    assert admitted == reported + pending;
    assert reported !! pending;
  }

  // ----- Load on a dead upstream, through the gateway

  lemma EventTime(t: Table, g: Gateway, a: Act, b: nat)
    ensures var e := EventFor(t, g, a, b);
            e.Some? ==> TimeOf(a) == Some(e.value.now)
  {}

  lemma {:induction false} EventsClocked(t: Table, acts: seq<Act>, b: nat)
    requires Clocked(acts)
    ensures CB.Clocked(Events(t, acts, b))
    ensures forall k :: 0 <= k < |Events(t, acts, b)| ==> Timely(acts, Events(t, acts, b)[k].now)
  {
    if acts != [] {
      var init := acts[..|acts| - 1];
      var a := acts[|acts| - 1];
      EventsClocked(t, init, b);
      var before := Events(t, init, b);
      forall k | 0 <= k < |before|
        ensures Timely(acts, before[k].now)
        ensures TimeOf(a).Some? ==> before[k].now <= TimeOf(a).value
      {
        TimelyLater(acts, before[k].now);
      }
      EventTime(t, After(t, init), a, b);
    }
  }

  /** At no moment are more than `most` requests pending on the breaker. */
  ghost predicate AtMostPending(t: Table, acts: seq<Act>, b: nat, most: nat) {
    forall i :: 0 <= i <= |acts| ==> |Where(After(t, acts[..i]).requests, PendingOn(b))| <= most
  }

  /** All the breaker lets through that get a response get one with a status of 500 or more. */
  ghost predicate OnlyErrors(t: Table, acts: seq<Act>, b: nat) {
    forall i :: 0 <= i < |acts| && acts[i].Step? && acts[i].move.Proxy? ==>
      var g := After(t, acts[..i]);
      Possible(t, g, acts[i]) && g.requests[acts[i].id].admitted == Some(b) ==> acts[i].move.status >= 500
  }

  /** Back from the upstream with the result not recorded yet: it failed. */
  ghost predicate FailedIfBack(r: Request, b: nat) {
    (r.pc.LookingAgain? || r.pc.InsertingAgain? || r.pc.Recording?) && r.admitted == Some(b) ==> r.status >= 500
  }

  lemma FailedAdvance(t: Table, w: Shared, r: Request, m: Move, b: nat)
    requires Enabled(t, w, r, m) && Shaped(t, w.store, r) && FailedIfBack(r, b)
    requires m.Proxy? && r.admitted == Some(b) ==> m.status >= 500
    ensures FailedIfBack(Advance(t, w, r, m).0, b)
    ensures var e := MoveEvent(r, m, b); e.Some? ==> !e.value.Success?
  {}

  lemma OnlyErrorsInit(t: Table, acts: seq<Act>, b: nat)
    requires acts != [] && OnlyErrors(t, acts, b)
    ensures OnlyErrors(t, acts[..|acts| - 1], b)
  {
    var init := acts[..|acts| - 1];
    forall i | 0 <= i < |init| && init[i].Step? && init[i].move.Proxy?
      ensures var g := After(t, init[..i]);
              Possible(t, g, init[i]) && g.requests[init[i].id].admitted == Some(b) ==> init[i].move.status >= 500
    {
      assert init[i] == acts[i] && init[..i] == acts[..i];
    }
  }

  lemma ErrorAtEnd(t: Table, acts: seq<Act>, b: nat)
    requires acts != [] && OnlyErrors(t, acts, b)
    ensures var g, a := After(t, acts[..|acts| - 1]), acts[|acts| - 1];
            a.Step? && a.move.Proxy? && Possible(t, g, a) && g.requests[a.id].admitted == Some(b) ==>
              a.move.status >= 500
  {}

  /** So the breaker is only ever told of failures. */
  lemma {:induction false} OnlyFailures(t: Table, acts: seq<Act>, b: nat)
    requires OnlyErrors(t, acts, b)
    ensures forall id :: id in After(t, acts).requests ==> FailedIfBack(After(t, acts).requests[id], b)
    ensures forall e :: e in Events(t, acts, b) ==> !e.Success?
  {
    if acts != [] {
      var init := acts[..|acts| - 1];
      var a := acts[|acts| - 1];
      var g := After(t, init);
      OnlyErrorsInit(t, acts, b);
      ErrorAtEnd(t, acts, b);
      OnlyFailures(t, init, b);
      InvAlways(t, init);
      if a.Step? && Possible(t, g, a) {
        FailedAdvance(t, g.shared, g.requests[a.id], a.move, b);
      }
    }
  }

  lemma AtMostPendingInit(t: Table, acts: seq<Act>, b: nat, most: nat)
    requires acts != [] && AtMostPending(t, acts, b, most)
    ensures AtMostPending(t, acts[..|acts| - 1], b, most)
    ensures |Where(After(t, acts).requests, PendingOn(b))| <= most
  {
    var init := acts[..|acts| - 1];
    assert acts[..|acts|] == acts;
    assert forall i :: 0 <= i <= |init| ==> init[..i] == acts[..i];
  }

  /** Pending requests are the breaker's requests in flight. */
  lemma {:induction false} PendingAreInFlight(t: Table, acts: seq<Act>, b: nat, cfg: CB.Config, most: nat)
    requires ConfigOf(After(t, acts).shared, b, cfg) && AtMostPending(t, acts, b, most)
    ensures CB.InFlight(cfg, Events(t, acts, b), most)
  {
    if acts != [] {
      var init := acts[..|acts| - 1];
      var a := acts[|acts| - 1];
      InvAlways(t, init);
      InvStep(t, After(t, init), a);
      AtMostPendingInit(t, acts, b, most);
      PendingAreInFlight(t, init, b, cfg, most);
      AdmissionsAreAccountedFor(t, acts, b, cfg);
      var e := EventFor(t, After(t, init), a, b);
      if e.Some? {
        CB.InFlightSnoc(cfg, Events(t, init, b), e.value, most);
      } else {
        assert Events(t, acts, b) == Events(t, init, b);
      }
    }
  }

  /** The bound on the load of a dead upstream, for any breaker of the gateway under any interleaving
      of requests for any routes. */
  lemma DeadUpstreamLoad(t: Table, acts: seq<Act>, b: nat, most: nat, to: int)
    requires Clocked(acts) && OnlyErrors(t, acts, b) && AtMostPending(t, acts, b, most)
    requires forall a :: a in acts && TimeOf(a).Some? ==> TimeOf(a).value <= to
    requires b < |After(t, acts).shared.configs|
    requires var cfg := After(t, acts).shared.configs[b]; cfg.threshold > 0 && cfg.timeout > 0
    ensures var g := After(t, acts);
            var cfg := g.shared.configs[b];
            |Where(g.requests, AdmittedBy(b))| <= CB.LoadBound(cfg, CB.Trips(cfg, Events(t, acts, b)), most, to)
  {
    var cfg := After(t, acts).shared.configs[b];
    var events := Events(t, acts, b);
    AccountAlways(t, acts, b, cfg);
    EventsClocked(t, acts, b);
    OnlyFailures(t, acts, b);
    PendingAreInFlight(t, acts, b, cfg, most);
    assert events != [] ==> Timely(acts, events[|events| - 1].now);
    CB.DeadUpstreamLoad(cfg, events, most, to);
  }

  // ----- A healthy upstream

  /** All the breaker lets through that get a response get one with a status below 500. */
  ghost predicate NoErrors(t: Table, acts: seq<Act>, b: nat) {
    forall i :: 0 <= i < |acts| && acts[i].Step? && acts[i].move.Proxy? ==>
      var g := After(t, acts[..i]);
      Possible(t, g, acts[i]) && g.requests[acts[i].id].admitted == Some(b) ==> acts[i].move.status < 500
  }

  lemma NoErrorsInit(t: Table, acts: seq<Act>, b: nat)
    requires acts != [] && NoErrors(t, acts, b)
    ensures NoErrors(t, acts[..|acts| - 1], b)
  {
    var init := acts[..|acts| - 1];
    forall i | 0 <= i < |init| && init[i].Step? && init[i].move.Proxy?
      ensures var g := After(t, init[..i]);
              Possible(t, g, init[i]) && g.requests[init[i].id].admitted == Some(b) ==> init[i].move.status < 500
    {
      assert init[i] == acts[i] && init[..i] == acts[..i];
    }
  }

  lemma NoErrorAtEnd(t: Table, acts: seq<Act>, b: nat)
    requires acts != [] && NoErrors(t, acts, b)
    ensures var g, a := After(t, acts[..|acts| - 1]), acts[|acts| - 1];
            a.Step? && a.move.Proxy? && Possible(t, g, a) && g.requests[a.id].admitted == Some(b) ==>
              a.move.status < 500
  {}

  /** Back from the upstream with the result not recorded yet: it did not fail. */
  ghost predicate FineIfBack(r: Request, b: nat) {
    (r.pc.LookingAgain? || r.pc.InsertingAgain? || r.pc.Recording?) && r.admitted == Some(b) ==> r.status < 500
  }

  lemma FineAdvance(t: Table, w: Shared, r: Request, m: Move, b: nat)
    requires Enabled(t, w, r, m) && Shaped(t, w.store, r) && FineIfBack(r, b)
    requires m.Proxy? && r.admitted == Some(b) ==> m.status < 500
    ensures FineIfBack(Advance(t, w, r, m).0, b)
    ensures var e := MoveEvent(r, m, b); e.Some? ==> !e.value.Failure?
  {}

  lemma {:induction false} NoFailures(t: Table, acts: seq<Act>, b: nat)
    requires NoErrors(t, acts, b)
    ensures forall id :: id in After(t, acts).requests ==> FineIfBack(After(t, acts).requests[id], b)
    ensures forall i :: 0 <= i < |Events(t, acts, b)| ==> !Events(t, acts, b)[i].Failure?
  {
    if acts != [] {
      var init := acts[..|acts| - 1];
      var a := acts[|acts| - 1];
      var g := After(t, init);
      NoErrorsInit(t, acts, b);
      NoErrorAtEnd(t, acts, b);
      NoFailures(t, init, b);
      InvAlways(t, init);
      if a.Step? && Possible(t, g, a) {
        FineAdvance(t, g.shared, g.requests[a.id], a.move, b);
      }
    }
  }

  /** As long as nothing the breaker lets through is answered 500 or above, it is never told of a
      failure, never trips and stays closed. */
  lemma HealthyNeverTrips(t: Table, acts: seq<Act>, b: nat)
    requires b < |After(t, acts).shared.configs| && NoErrors(t, acts, b)
    ensures var w := After(t, acts).shared;
            && (forall i :: 0 <= i < |Events(t, acts, b)| ==> !Events(t, acts, b)[i].Failure?)
            && CB.Trips(w.configs[b], Events(t, acts, b)) == []
            && b < |w.breakers| && w.breakers[b].state == CB.Closed
  {
    var cfg := After(t, acts).shared.configs[b];
    var events := Events(t, acts, b);
    NoFailures(t, acts, b);
    BreakerProjection(t, acts, b);
    assert [] + events == events;
    CB.Recovers(cfg, [], events);
  }

  /** Whatever the upstream answers, a half-open phase of any breaker of the gateway lets through no
      more requests than may be pending on it. */
  lemma HalfOpenLoad(t: Table, acts: seq<Act>, b: nat, most: nat)
    requires b < |After(t, acts).shared.configs| && AtMostPending(t, acts, b, most)
    ensures CB.PhaseAdmitted(After(t, acts).shared.configs[b], Events(t, acts, b)) <= most
  {
    var cfg := After(t, acts).shared.configs[b];
    PendingAreInFlight(t, acts, b, cfg, most);
    CB.PhaseIsInFlight(cfg, Events(t, acts, b), most);
  }

  // ----- Isolation of routes

  ghost predicate ByARoute(t: Table, key: string, cfg: CB.Config) {
    exists route, url :: route in t && t[route].breaker == Some(cfg) && key == JoinKey(route, url)
  }

  /** Every breaker is named and configured by a route of the table. */
  ghost predicate Configured(t: Table, w: Shared) {
    && |w.configs| == |w.created|
    && (forall b :: 0 <= b < |w.created| ==> ByARoute(t, w.created[b], w.configs[b]))
  }

  lemma {:induction false} ConfiguredAlways(t: Table, acts: seq<Act>)
    ensures Configured(t, After(t, acts).shared)
  {
    if acts != [] {
      var init := acts[..|acts| - 1];
      var a := acts[|acts| - 1];
      var g := After(t, init);
      ConfiguredAlways(t, init);
      ConfiguredStep(t, g, a);
    }
  }

  lemma ConfiguredStep(t: Table, g: Gateway, a: Act)
    requires Configured(t, g.shared)
    ensures Configured(t, Do(t, g, a).shared)
  {
    if a.Step? && Possible(t, g, a) {
      ConfiguredAdvance(t, g.shared, g.requests[a.id], a.move);
    }
  }

  lemma ConfiguredAdvance(t: Table, w: Shared, r: Request, m: Move)
    requires Enabled(t, w, r, m) && Configured(t, w)
    ensures Configured(t, Advance(t, w, r, m).1)
  {
    if m.Insert? {
      assert ByARoute(t, BreakerKey(t, r), t[r.route.value].breaker.value);
    } else {
      OnlyInsertGrows(t, w, r, m);
    }
  }

  /** With route IDs apart, a request only ever meets the breaker of its own route and
      endpoint, configured as its route says; two requests share a breaker only if they share both. */
  lemma BreakersAreNotShared(t: Table, acts: seq<Act>, id: nat, id': nat)
    requires Apart(t)
    requires var requests := After(t, acts).requests;
             id in requests && id' in requests && requests[id].found.Some? && requests[id].found == requests[id'].found
    ensures var g := After(t, acts);
            var r, r' := g.requests[id], g.requests[id'];
            && Targeted(t, r) && Targeted(t, r')
            && r.route == r'.route
            && t[r.route.value].endpoints[r.target.value] == t[r'.route.value].endpoints[r'.target.value]
            && r.found.value < |g.shared.configs|
            && t[r.route.value].breaker == Some(g.shared.configs[r.found.value])
  {
    var g := After(t, acts);
    var r, r' := g.requests[id], g.requests[id'];
    InvAlways(t, acts);
    ConfiguredAlways(t, acts);
    assert Shaped(t, g.shared.store, r) && Shaped(t, g.shared.store, r');
    var b := r.found.value;
    var url, url' := t[r.route.value].endpoints[r.target.value], t[r'.route.value].endpoints[r'.target.value];
    JoinKeyInjective(r.route.value, url, r'.route.value, url');
    assert ByARoute(t, g.shared.created[b], g.shared.configs[b]);
    var route, u :|
      route in t && t[route].breaker == Some(g.shared.configs[b]) && g.shared.created[b] == JoinKey(route, u);
    JoinKeyInjective(r.route.value, url, route, u);
  }
}
