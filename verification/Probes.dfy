/**
 Which result decides a half-open breaker. The breaker is documented as closing when a probe
 succeeds and reopening when one fails, but results carry no admission: a request admitted before
 the trip may report while the breaker is half-open. Here requests have identities.
 */
module Probes {
  import opened Prelude
  import opened CircuitBreaker

  datatype Act = Request(id: nat, now: int) | Result(id: nat, ok: bool, now: int)

  /** The breaker, the requests it admitted that have not reported, and those among all it ever
      admitted that it let through in the current half-open phase. */
  datatype Flight = Flight(b: Breaker, flying: set<nat>, probes: set<nat>)

  function EventOf(a: Act): Event {
    match a
    case Request(_, now) => Ask(now)
    case Result(_, ok, now) => if ok then Success(now) else Failure(now, now)
  }

  function Fly(cfg: Config, f: Flight, a: Act): Flight {
    var b := Step(cfg, f.b, EventOf(a));
    if a.Result? then Flight(b, f.flying - {a.id}, f.probes)
    else if !Admits(cfg, f.b, a.now) then f.(b := b)
    else Flight(b, f.flying + {a.id},
                match f.b.state case Closed => {} case Open => {a.id} case HalfOpen => f.probes + {a.id})
  }

  function FlyAll(cfg: Config, f: Flight, acts: seq<Act>): Flight {
    if acts == [] then f else Fly(cfg, FlyAll(cfg, f, acts[..|acts| - 1]), acts[|acts| - 1])
  }

  /** A request is not already in flight when it asks, and is when it reports. */
  predicate Proper(f: Flight, a: Act) {
    a.Result? <==> a.id in f.flying
  }

  predicate Decides(cfg: Config, f: Flight, a: Act) {
    f.b.state == HalfOpen && Fly(cfg, f, a).b.state != HalfOpen
  }

  /** A continuation, in time order, in which no result has decided a half-open phase yet. */
  ghost predicate Undecided(cfg: Config, f: Flight, acts: seq<Act>) {
    && (forall i, j :: 0 <= i < j < |acts| ==> acts[i].now <= acts[j].now)
    && (forall i :: 0 <= i < |acts| ==> f.b.openTime <= acts[i].now)
    && (forall i :: 0 <= i < |acts| ==>
          var g := FlyAll(cfg, f, acts[..i]);
          Proper(g, acts[i]) && !Decides(cfg, g, acts[i]))
  }

  /** However the run goes on, the next half-open phase is decided by one of its own probes. */
  ghost predicate ProbesDecide(cfg: Config, f: Flight) {
    forall acts, a ::
      Undecided(cfg, f, acts) && Proper(FlyAll(cfg, f, acts), a) && Decides(cfg, FlyAll(cfg, f, acts), a)
      ==> a.id in FlyAll(cfg, f, acts).probes
  }

  lemma {:induction false} InFlightAreProbes(cfg: Config, f: Flight, acts: seq<Act>)
    requires f.b.state == Open && f.flying == {} && Undecided(cfg, f, acts)
    ensures var g := FlyAll(cfg, f, acts);
            && (g.b.state == Open ==> g.flying == {})
            && (g.b.state != Open ==> g.b.state == HalfOpen && g.flying <= g.probes)
  {
    if acts != [] {
      var n := |acts| - 1;
      assert forall i :: 0 <= i <= n ==> acts[..n][..i] == acts[..i];
      InFlightAreProbes(cfg, f, acts[..n]);
    }
  }

  lemma {:induction false} SomeOtherId(ids: set<nat>) returns (id: nat)
    ensures forall i :: i in ids ==> i < id
  {
    if ids == {} {
      id := 0;
    } else {
      var i :| i in ids;
      var m := SomeOtherId(ids - {i});
      id := Max(m, i + 1);
      assert forall j :: j in ids ==> j == i || j in ids - {i};
    }
  }

  /** Right after a trip, the next half-open phase is certain to be decided by one of its probes
      if and only if nothing admitted earlier is still in flight. */
  lemma ProbesDecideExactlyWhenDrained(cfg: Config, f: Flight)
    requires f.b.state == Open
    ensures ProbesDecide(cfg, f) <==> f.flying == {}
  {
    if f.flying == {} {
      forall acts, a |
        Undecided(cfg, f, acts) && Proper(FlyAll(cfg, f, acts), a) && Decides(cfg, FlyAll(cfg, f, acts), a)
        ensures a.id in FlyAll(cfg, f, acts).probes
      {
        InFlightAreProbes(cfg, f, acts);
      }
    } else {
      var stale :| stale in f.flying;
      var probe := SomeOtherId(f.flying);
      var now := f.b.openTime + Max(0, cfg.timeout);
      var ask := Request(probe, now);
      var late := Result(stale, true, now);
      var g := FlyAll(cfg, f, [ask]);
      assert FlyAll(cfg, f, []) == f && [ask][..0] == [];
      assert g == Fly(cfg, f, ask);
      assert Undecided(cfg, f, [ask]);
      assert Proper(g, late) && Decides(cfg, g, late) && late.id !in g.probes;
    }
  }

  // ----- It happens

  const START: Flight := Flight(INITIAL, {}, {})

  /** The act sequence is one that requests can go through, in time order, from the beginning. */
  ghost predicate Happens(cfg: Config, acts: seq<Act>) {
    && (forall i, j :: 0 <= i < j < |acts| ==> acts[i].now <= acts[j].now)
    && (forall i :: 0 <= i < |acts| ==> Proper(FlyAll(cfg, START, acts[..i]), acts[i]))
  }

  /** Request 0 stays in flight while `n` others come and fail. */
  function Overtaken(n: nat): seq<Act> {
    if n == 0 then [Request(0, 0)] else Overtaken(n - 1) + [Request(1, 0)] + [Result(1, false, 0)]
  }

  predicate AtZero(acts: seq<Act>) {
    forall i :: 0 <= i < |acts| ==> acts[i].now == 0
  }

  lemma HappensSnoc(cfg: Config, acts: seq<Act>, a: Act)
    requires Happens(cfg, acts) && AtZero(acts)
    requires Proper(FlyAll(cfg, START, acts), a) && a.now == 0
    ensures Happens(cfg, acts + [a]) && AtZero(acts + [a])
    ensures FlyAll(cfg, START, acts + [a]) == Fly(cfg, FlyAll(cfg, START, acts), a)
  {
    var whole := acts + [a];
    assert whole[..|acts|] == acts;
    assert forall i :: 0 <= i < |acts| ==> whole[..i] == acts[..i];
  }

  predicate Stuck(cfg: Config, f: Flight, n: nat) {
    && f.flying == {0}
    && f.b.state == (if n < Max(1, cfg.threshold) then Closed else Open) && f.b.failureCount == n
  }

  lemma OneMoreFails(cfg: Config, f: Flight, n: nat)
    requires n < Max(1, cfg.threshold) && Stuck(cfg, f, n)
    ensures Proper(f, Request(1, 0)) && Proper(Fly(cfg, f, Request(1, 0)), Result(1, false, 0))
    ensures Stuck(cfg, Fly(cfg, Fly(cfg, f, Request(1, 0)), Result(1, false, 0)), n + 1)
  {}

  lemma OvertakenOnceMore(cfg: Config, acts: seq<Act>, n: nat)
    requires n < Max(1, cfg.threshold)
    requires Happens(cfg, acts) && AtZero(acts) && Stuck(cfg, FlyAll(cfg, START, acts), n)
    ensures var more := acts + [Request(1, 0)] + [Result(1, false, 0)];
            Happens(cfg, more) && AtZero(more) && Stuck(cfg, FlyAll(cfg, START, more), n + 1)
  {
    OneMoreFails(cfg, FlyAll(cfg, START, acts), n);
    HappensSnoc(cfg, acts, Request(1, 0));
    HappensSnoc(cfg, acts + [Request(1, 0)], Result(1, false, 0));
  }

  lemma FirstFlies(cfg: Config)
    ensures Happens(cfg, [Request(0, 0)]) && Stuck(cfg, FlyAll(cfg, START, [Request(0, 0)]), 0)
  {
    assert [Request(0, 0)] == [] + [Request(0, 0)];
    HappensSnoc(cfg, [], Request(0, 0));
  }

  lemma {:induction false} OvertakenSo(cfg: Config, n: nat)
    requires n <= Max(1, cfg.threshold)
    ensures Happens(cfg, Overtaken(n)) && AtZero(Overtaken(n)) && Stuck(cfg, FlyAll(cfg, START, Overtaken(n)), n)
  {
    if n == 0 {
      FirstFlies(cfg);
    } else {
      OvertakenSo(cfg, n - 1);
      OvertakenOnceMore(cfg, Overtaken(n - 1), n - 1);
    }
  }

  /** Under every configuration a breaker can trip while an earlier request is still in flight, and
      then it is not certain that one of its probes decides the next half-open phase. */
  lemma StaleResultsHappen(cfg: Config)
    ensures exists acts :: Happens(cfg, acts) &&
              FlyAll(cfg, START, acts).b.state == Open && !ProbesDecide(cfg, FlyAll(cfg, START, acts))
  {
    var acts := Overtaken(Max(1, cfg.threshold));
    OvertakenSo(cfg, Max(1, cfg.threshold));
    ProbesDecideExactlyWhenDrained(cfg, FlyAll(cfg, START, acts));
    assert Happens(cfg, acts);
  }
}
