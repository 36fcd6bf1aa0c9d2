/**
 The circuit breaker: the object updated in place under its lock, the step function it refines,
 and what holds of every run of admissions and (possibly late) results.
 */
module CircuitBreaker {
  import opened Prelude

  datatype State = Closed | Open | HalfOpen

  datatype Config = Config(threshold: int, timeout: int)

  datatype Breaker = Breaker(state: State, failureCount: nat, lastFailure: int, openTime: int)

  /** Go's zero time. */
  const ZERO_TIME: int := 0

  const INITIAL: Breaker := Breaker(Closed, 0, ZERO_TIME, ZERO_TIME)

  /** Atomic steps. A failure reads the clock twice, for LastFailure and for OpenTime; a success
      does not read it, `now` only says when it happens. */
  datatype Event = Ask(now: int) | Failure(seen: int, now: int) | Success(now: int)

  /** Whether a request asking now is let through. */
  predicate Admits(cfg: Config, b: Breaker, now: int) {
    b.state != Open || now - b.openTime >= cfg.timeout
  }

  function Step(cfg: Config, b: Breaker, e: Event): Breaker {
    match e
    case Ask(now) =>
      if b.state == Open && now - b.openTime >= cfg.timeout
      then Breaker(HalfOpen, 0, ZERO_TIME, b.openTime) else b
    case Failure(seen, now) =>
      var counted := Breaker(b.state, b.failureCount + 1, seen, b.openTime);
      if b.state == HalfOpen || (b.state == Closed && counted.failureCount >= cfg.threshold)
      then counted.(state := Open, openTime := now) else counted
    case Success(_) =>
      match b.state
      case HalfOpen => INITIAL
      case Closed => b.(failureCount := 0)
      case Open => b
  }

  class CircuitBreaker {
    var state: State
    var failureCount: nat
    var lastFailure: int
    var openTime: int
    const config: Config

    ghost function View(): Breaker
      reads this
    {
      Breaker(state, failureCount, lastFailure, openTime)
    }

    constructor (cfg: Config)
      ensures View() == INITIAL && config == cfg
    {
      state := Closed;
      failureCount := 0;
      lastFailure := ZERO_TIME;
      openTime := ZERO_TIME;
      config := cfg;
    }

    method Allow(now: int) returns (ok: bool)
      modifies this
      ensures ok == Admits(config, old(View()), now)
      ensures View() == Step(config, old(View()), Ask(now))
    {
      match state {
        case Closed => ok := true;
        case Open =>
          if now - openTime >= config.timeout {
            state := HalfOpen;
            failureCount := 0;
            lastFailure := ZERO_TIME;
            ok := true;
          } else {
            ok := false;
          }
        case HalfOpen => ok := true;
      }
    }

    method RecordFailure(seen: int, now: int)
      modifies this
      ensures View() == Step(config, old(View()), Failure(seen, now))
    {
      failureCount := failureCount + 1;
      lastFailure := seen;
      match state {
        case Closed =>
          if failureCount >= config.threshold {
            state := Open;
            openTime := now;
          }
        case HalfOpen =>
          state := Open;
          openTime := now;
        case Open =>
      }
    }

    method RecordSuccess(now: int)
      modifies this
      ensures View() == Step(config, old(View()), Success(now))
    {
      match state {
        case HalfOpen =>
          state := Closed;
          failureCount := 0;
          openTime := ZERO_TIME;
          lastFailure := ZERO_TIME;
        case Closed => failureCount := 0;
        case Open =>
      }
    }
  }

  // ----- Runs

  function After(cfg: Config, run: seq<Event>): Breaker {
    if run == [] then INITIAL else Step(cfg, After(cfg, run[..|run| - 1]), run[|run| - 1])
  }

  /** Steps are ordered by the lock, and the clock does not run backwards. */
  ghost predicate Clocked(run: seq<Event>) {
    forall i, j :: 0 <= i < j < |run| ==> run[i].now <= run[j].now
  }

  // ----- The breaker refines its history

  /** How many of the latest results are failures, without a success in between. */
  function TrailingFailures(run: seq<Event>): nat {
    if run == [] then 0
    else
      var init := run[..|run| - 1];
      match run[|run| - 1]
      case Ask(_) => TrailingFailures(init)
      case Failure(_, _) => TrailingFailures(init) + 1
      case Success(_) => 0
  }

  /** When the latest failure was seen. */
  function LatestFailure(run: seq<Event>): Option<int> {
    if run == [] then None
    else if run[|run| - 1].Failure? then Some(run[|run| - 1].seen)
    else LatestFailure(run[..|run| - 1])
  }

  /** The moments at which the breaker went to Open. */
  function Trips(cfg: Config, run: seq<Event>): seq<int> {
    if run == [] then []
    else
      var init := run[..|run| - 1];
      Trips(cfg, init) +
      (if After(cfg, init).state != Open && After(cfg, run).state == Open then [run[|run| - 1].now] else [])
  }

  /** What the fields mean after any run: when closed, FailureCount is the length of the trailing
      run of failures and is short of the threshold; when half-open it is zero; when open it is
      positive and OpenTime is the latest trip. */
  lemma {:induction false} RefinesHistory(cfg: Config, run: seq<Event>)
    ensures var b := After(cfg, run);
            var trips := Trips(cfg, run);
            && (b.state == Closed ==> b.failureCount == TrailingFailures(run) < Max(1, cfg.threshold))
            && (b.state == HalfOpen ==> b.failureCount == 0)
            && (b.state == Open ==> b.failureCount > 0)
            && (b.state != Closed ==> trips != [] && b.openTime == trips[|trips| - 1])
            && (b.failureCount > 0 ==> LatestFailure(run) == Some(b.lastFailure))
  {
    if run != [] {
      RefinesHistory(cfg, run[..|run| - 1]);
    }
  }

  /** The latest event began a half-open phase, or ended one with a success. */
  predicate Renews(cfg: Config, run: seq<Event>)
    requires run != []
  {
    var before, after := After(cfg, run[..|run| - 1]).state, After(cfg, run).state;
    (before == Open && after == HalfOpen) || (before == HalfOpen && after == Closed)
  }

  /** Failures since the record was last cleared: at either end of a half-open phase, or by a success
      while closed. */
  function FailuresOnRecord(cfg: Config, run: seq<Event>): nat {
    if run == [] then 0
    else
      var init := run[..|run| - 1];
      var e := run[|run| - 1];
      if Renews(cfg, run) || (e.Success? && After(cfg, init).state == Closed) then 0
      else FailuresOnRecord(cfg, init) + One(e.Failure?)
  }

  /** When the latest failure was seen since a half-open phase last began or was survived. */
  function FailureOnRecord(cfg: Config, run: seq<Event>): Option<int> {
    if run == [] then None
    else if run[|run| - 1].Failure? then Some(run[|run| - 1].seen)
    else if Renews(cfg, run) then None
    else FailureOnRecord(cfg, run[..|run| - 1])
  }

  /** What a snapshot of the breaker shows, whatever its state: zero times stand for none. */
  lemma {:induction false} SnapshotTells(cfg: Config, run: seq<Event>)
    ensures var b := After(cfg, run);
            var trips := Trips(cfg, run);
            && b.failureCount == FailuresOnRecord(cfg, run)
            && b.lastFailure == (match FailureOnRecord(cfg, run) case None => ZERO_TIME case Some(seen) => seen)
            && (b.state == Closed ==> b.openTime == ZERO_TIME)
            && (b.state != Closed ==> trips != [] && b.openTime == trips[|trips| - 1])
  {
    if run != [] {
      SnapshotTells(cfg, run[..|run| - 1]);
    }
  }

  // ----- How a breaker changes state

  lemma AfterSnoc(cfg: Config, run: seq<Event>, e: Event)
    ensures After(cfg, run + [e]) == Step(cfg, After(cfg, run), e)
    ensures Trips(cfg, run + [e]) == Trips(cfg, run) +
              if After(cfg, run).state != Open && After(cfg, run + [e]).state == Open then [e.now] else []
  {
    assert (run + [e])[..|run|] == run;
  }

  /** A closed breaker trips on the failure that completes the threshold, and on nothing else; an open
      one goes half-open on the first request a timeout after its trip, and on nothing else; a
      half-open one is closed by a success, tripped by a failure and unmoved by requests. */
  lemma Transitions(cfg: Config, run: seq<Event>, e: Event)
    ensures var before, after := After(cfg, run).state, After(cfg, run + [e]).state;
            var trips := Trips(cfg, run);
            && (before == Closed ==>
                  after == if e.Failure? && TrailingFailures(run) + 1 >= cfg.threshold then Open else Closed)
            && (before == Open ==>
                  trips != [] &&
                  after == if e.Ask? && e.now >= trips[|trips| - 1] + cfg.timeout then HalfOpen else Open)
            && (before == HalfOpen ==>
                  after == match e case Ask(_) => HalfOpen case Failure(_, _) => Open case Success(_) => Closed)
            && (forall now :: Admits(cfg, After(cfg, run), now) <==>
                  before != Open || now >= trips[|trips| - 1] + cfg.timeout)
  {
    RefinesHistory(cfg, run);
    AfterSnoc(cfg, run, e);
  }

  /** Recovery: from any run that leaves the breaker closed or half-open, requests and successes never
      trip it, and one success closes it. */
  lemma {:induction false} Recovers(cfg: Config, run: seq<Event>, later: seq<Event>)
    requires After(cfg, run).state != Open
    requires forall i :: 0 <= i < |later| ==> !later[i].Failure?
    ensures Trips(cfg, run + later) == Trips(cfg, run)
    ensures var b := After(cfg, run + later);
            && b.state != Open
            && (After(cfg, run).state == Closed || (exists i :: 0 <= i < |later| && later[i].Success?) ==>
                  b.state == Closed)
  {
    if later == [] {
      assert run + later == run;
    } else {
      var init := later[..|later| - 1];
      var e := later[|later| - 1];
      Recovers(cfg, run, init);
      assert run + later == run + init + [e];
      AfterSnoc(cfg, run + init, e);
      if i :| 0 <= i < |later| && later[i].Success? && i < |init| {
        assert init[i].Success?;
      }
    }
  }

  /** Results that arrive while the breaker is open leave State and OpenTime alone. */
  lemma {:induction false} LateResultsWhileOpen(cfg: Config, b: Breaker, results: seq<Event>)
    requires b.state == Open && forall e :: e in results ==> !e.Ask?
    ensures var b' := Continue(cfg, b, results);
            b'.state == Open && b'.openTime == b.openTime && b'.failureCount >= b.failureCount
    decreases |results|
  {
    if results != [] {
      LateResultsWhileOpen(cfg, b, results[..|results| - 1]);
    }
  }

  function Continue(cfg: Config, b: Breaker, run: seq<Event>): Breaker {
    if run == [] then b else Step(cfg, Continue(cfg, b, run[..|run| - 1]), run[|run| - 1])
  }

  // ----- Trip spacing

  ghost predicate Spaced(times: seq<int>, gap: int) {
    forall i :: 0 < i < |times| ==> times[i] >= times[i - 1] + gap
  }

  /** Once tripped, the breaker is open, or at least a timeout has passed since the last trip. */
  lemma {:induction false} TimedOutSinceTrip(cfg: Config, run: seq<Event>)
    requires Clocked(run)
    ensures var trips := Trips(cfg, run);
            && Spaced(trips, cfg.timeout)
            && (forall i :: 0 <= i < |trips| ==> run != [] && trips[i] <= run[|run| - 1].now)
            && (trips != [] && After(cfg, run).state != Open ==>
                  run[|run| - 1].now >= trips[|trips| - 1] + cfg.timeout)
  {
    if run != [] {
      var init := run[..|run| - 1];
      TimedOutSinceTrip(cfg, init);
      RefinesHistory(cfg, init);
      if init != [] {
        assert init[|init| - 1] == run[|run| - 2];
      }
    }
  }

  lemma {:induction false} EarlierTrips(times: seq<int>, gap: nat, i: nat, j: nat)
    requires Spaced(times, gap) && i <= j < |times|
    ensures times[i] + (j - i) * gap <= times[j]
    decreases j - i
  {
    if i < j {
      EarlierTrips(times, gap, i, j - 1);
      assert (j - i) * gap == (j - 1 - i) * gap + gap;
    }
  }

  lemma {:induction false} LastIsLatest(times: seq<int>, gap: nat)
    requires Spaced(times, gap) && times != []
    ensures forall i :: 0 <= i < |times| ==> times[i] <= times[|times| - 1]
  {
    if |times| > 1 {
      LastIsLatest(times[..|times| - 1], gap);
    }
  }

  lemma ClockedBefore(run: seq<Event>, e: Event)
    requires Clocked(run + [e])
    ensures Clocked(run) && (run != [] ==> run[|run| - 1].now <= e.now)
  {
    var whole := run + [e];
    assert forall i :: 0 <= i < |run| ==> run[i] == whole[i];
    assert whole[|run|] == e;
  }

  /** Successive trips are at least a timeout apart, and for a timeout after any trip nobody is
      admitted. */
  lemma TripSpacing(cfg: Config, run: seq<Event>, now: int)
    requires cfg.timeout >= 0 && Clocked(run + [Ask(now)])
    ensures Spaced(Trips(cfg, run), cfg.timeout)
    ensures Admits(cfg, After(cfg, run), now) ==>
              forall i :: 0 <= i < |Trips(cfg, run)| ==> now >= Trips(cfg, run)[i] + cfg.timeout
  {
    ClockedBefore(run, Ask(now));
    TimedOutSinceTrip(cfg, run);
    RefinesHistory(cfg, run);
    if Trips(cfg, run) != [] {
      LastIsLatest(Trips(cfg, run), cfg.timeout);
    }
  }

  function CountWithin(times: seq<int>, from: int, to: int): nat {
    if times == [] then 0
    else (if from <= times[|times| - 1] <= to then 1 else 0) + CountWithin(times[..|times| - 1], from, to)
  }

  lemma {:induction false} CountUpTo(times: seq<int>, from: int, to: int, to': int)
    requires to' <= to && forall i :: 0 <= i < |times| ==> times[i] <= to'
    ensures CountWithin(times, from, to) == CountWithin(times, from, to')
  {
    if times != [] {
      CountUpTo(times[..|times| - 1], from, to, to');
    }
  }

  lemma {:induction false} SpacedCount(times: seq<int>, gap: nat, from: int, to: int)
    requires Spaced(times, gap)
    ensures CountWithin(times, from, to) > 0 ==> (CountWithin(times, from, to) - 1) * gap <= to - from
    decreases |times|
  {
    if times != [] {
      var last := times[|times| - 1];
      var init := times[..|times| - 1];
      if from <= last <= to {
        var n := CountWithin(init, from, to);
        BeforeLast(times, gap, from, to);
        SpacedCount(init, gap, from, last - gap);
        assert n > 0 ==> n * gap == (n - 1) * gap + gap;
      } else {
        SpacedCount(init, gap, from, to);
      }
    }
  }

  lemma BeforeLast(times: seq<int>, gap: nat, from: int, to: int)
    requires times != [] && Spaced(times, gap) && times[|times| - 1] <= to
    ensures var init := times[..|times| - 1];
            CountWithin(init, from, to) == CountWithin(init, from, times[|times| - 1] - gap)
  {
    var last := times[|times| - 1];
    var init := times[..|times| - 1];
    if init != [] {
      LastIsLatest(init, gap);
      assert times[|times| - 1] >= times[|times| - 2] + gap;
    }
    CountUpTo(init, from, to, last - gap);
  }

  /** At most 1 + (to - from) / timeout trips in any stretch of time. */
  lemma TripsWithin(cfg: Config, run: seq<Event>, from: int, to: int)
    requires cfg.timeout > 0 && Clocked(run) && from <= to
    ensures CountWithin(Trips(cfg, run), from, to) <= 1 + (to - from) / cfg.timeout
  {
    TimedOutSinceTrip(cfg, run);
    SpacedCount(Trips(cfg, run), cfg.timeout, from, to);
    var n := CountWithin(Trips(cfg, run), from, to);
    if n > 0 {
      FloorAtLeast(n - 1, to - from, cfg.timeout);
    }
  }

  // ----- Load on a dead upstream

  /** Requests let through over a run. */
  function Admitted(cfg: Config, run: seq<Event>): nat {
    if run == [] then 0
    else
      var init := run[..|run| - 1];
      var e := run[|run| - 1];
      Admitted(cfg, init) + (if e.Ask? && Admits(cfg, After(cfg, init), e.now) then 1 else 0)
  }

  function Completed(run: seq<Event>): nat {
    if run == [] then 0
    else Completed(run[..|run| - 1]) + (if run[|run| - 1].Ask? then 0 else 1)
  }

  /** At every moment between 0 and `most` admitted requests have not completed. */
  ghost predicate InFlight(cfg: Config, run: seq<Event>, most: nat) {
    forall i :: 0 <= i <= |run| ==> 0 <= Admitted(cfg, run[..i]) - Completed(run[..i]) <= most
  }

  /** ... and every one that completes fails. */
  ghost predicate DeadUpstream(cfg: Config, run: seq<Event>, most: nat) {
    (forall e :: e in run ==> !e.Success?) && InFlight(cfg, run, most)
  }

  /** What `phases` half-open phases can have cost in admissions. */
  function Budget(cfg: Config, most: nat, phases: nat): int {
    if phases == 0 then cfg.threshold + most - 1 else Budget(cfg, most, phases - 1) + most
  }

  lemma {:induction false} BudgetIs(cfg: Config, most: nat, phases: nat)
    ensures Budget(cfg, most, phases) == cfg.threshold + most - 1 + most * phases
  {
    if phases > 0 {
      BudgetIs(cfg, most, phases - 1);
      assert most * phases == most * (phases - 1) + most;
    }
  }

  lemma {:induction false} BudgetMonotone(cfg: Config, most: nat, x: nat, y: nat)
    requires x <= y
    ensures Budget(cfg, most, x) <= Budget(cfg, most, y)
    decreases y
  {
    if x < y {
      BudgetMonotone(cfg, most, x, y - 1);
    }
  }

  lemma FlyingNow(cfg: Config, run: seq<Event>, most: nat)
    requires InFlight(cfg, run, most)
    ensures 0 <= Admitted(cfg, run) - Completed(run) <= most
  {
    assert run[..|run|] == run;
  }

  lemma InFlightBefore(cfg: Config, run: seq<Event>, most: nat)
    requires run != [] && InFlight(cfg, run, most)
    ensures InFlight(cfg, run[..|run| - 1], most)
  {
    var init := run[..|run| - 1];
    assert forall i :: 0 <= i <= |init| ==> init[..i] == run[..i];
  }

  /** The invariant behind the bound. */
  lemma {:induction false} DeadUpstreamInvariant(cfg: Config, run: seq<Event>, most: nat)
    requires cfg.threshold > 0 && DeadUpstream(cfg, run, most)
    ensures var b := After(cfg, run);
            var n := |Trips(cfg, run)|;
            var flying := Admitted(cfg, run) - Completed(run);
            && 0 <= flying <= most
            && (b.state == Closed ==> n == 0 && Completed(run) == b.failureCount < cfg.threshold)
            && (b.state != Closed ==> n > 0)
            && (b.state == Open ==> Admitted(cfg, run) <= Budget(cfg, most, n - 1))
            && (b.state == HalfOpen ==> Admitted(cfg, run) <= Budget(cfg, most, n - 1) + flying)
  {
    FlyingNow(cfg, run, most);
    if run != [] {
      var init := run[..|run| - 1];
      InFlightBefore(cfg, run, most);
      DeadUpstreamInvariant(cfg, init, most);
      RefinesHistory(cfg, init);
      assert run[|run| - 1] in run;
    }
  }

  /** Timeouts that have led to a half-open phase so far. */
  function PhasesOf(cfg: Config, run: seq<Event>): int {
    |Trips(cfg, run)| - (if After(cfg, run).state == Open then 1 else 0)
  }

  lemma LoadWithinBudget(cfg: Config, run: seq<Event>, most: nat)
    requires cfg.threshold > 0 && DeadUpstream(cfg, run, most)
    ensures 0 <= PhasesOf(cfg, run)
    ensures Admitted(cfg, run) <= Budget(cfg, most, PhasesOf(cfg, run))
  {
    DeadUpstreamInvariant(cfg, run, most);
  }

  lemma LastTripBy(cfg: Config, run: seq<Event>, to: int)
    requires Clocked(run) && Trips(cfg, run) != [] && run[|run| - 1].now <= to
    ensures var last := Trips(cfg, run)[|Trips(cfg, run)| - 1];
            last <= to && (After(cfg, run).state != Open ==> last + cfg.timeout <= to)
  {
    TimedOutSinceTrip(cfg, run);
  }

  lemma TimeoutsFit(first: int, last: int, n: nat, timeout: int, to: int)
    requires timeout > 0 && first + n * timeout <= last
    ensures last <= to ==> n <= (to - first) / timeout
    ensures last + timeout <= to ==> n + 1 <= (to - first) / timeout
  {
    if last <= to {
      FloorAtLeast(n, to - first, timeout);
    }
    if last + timeout <= to {
      assert (n + 1) * timeout == n * timeout + timeout;
      FloorAtLeast(n + 1, to - first, timeout);
    }
  }

  /** No more phases than full timeouts since the first trip. */
  lemma PhasesTakeTime(cfg: Config, run: seq<Event>, to: int)
    requires cfg.timeout > 0 && Clocked(run) && Trips(cfg, run) != [] && run[|run| - 1].now <= to
    ensures PhasesOf(cfg, run) <= (to - Trips(cfg, run)[0]) / cfg.timeout
  {
    var trips := Trips(cfg, run);
    LastTripBy(cfg, run, to);
    assert Spaced(trips, cfg.timeout) by {
      TimedOutSinceTrip(cfg, run);
    }
    EarlierTrips(trips, cfg.timeout, 0, |trips| - 1);
    TimeoutsFit(trips[0], trips[|trips| - 1], |trips| - 1, cfg.timeout, to);
  }

  function LoadBound(cfg: Config, trips: seq<int>, most: nat, to: int): int
    requires cfg.timeout > 0
  {
    cfg.threshold + most - 1 + (if trips == [] then 0 else most * ((to - trips[0]) / cfg.timeout))
  }

  lemma BudgetWithinBound(cfg: Config, trips: seq<int>, most: nat, to: int, phases: nat)
    requires cfg.timeout > 0
    requires if trips == [] then phases == 0 else phases <= (to - trips[0]) / cfg.timeout
    ensures Budget(cfg, most, phases) <= LoadBound(cfg, trips, most, to)
  {
    if trips != [] {
      var timeouts := (to - trips[0]) / cfg.timeout;
      BudgetMonotone(cfg, most, phases, timeouts);
      BudgetIs(cfg, most, timeouts);
    }
  }

  lemma NoTripsNoPhases(cfg: Config, run: seq<Event>)
    requires Trips(cfg, run) == []
    ensures PhasesOf(cfg, run) == 0
  {
    RefinesHistory(cfg, run);
  }

  /** With at most `most` requests in flight and every completion a failure, no more than
      (threshold + most - 1) + most * ((to - t1) / timeout) requests reach the upstream by `to`,
      where t1 is the first trip; before it, no more than threshold + most - 1. */
  lemma DeadUpstreamLoad(cfg: Config, run: seq<Event>, most: nat, to: int)
    requires cfg.threshold > 0 && cfg.timeout > 0 && Clocked(run) && DeadUpstream(cfg, run, most)
    requires run != [] ==> run[|run| - 1].now <= to
    ensures Admitted(cfg, run) <= LoadBound(cfg, Trips(cfg, run), most, to)
  {
    LoadWithinBudget(cfg, run, most);
    if Trips(cfg, run) == [] {
      NoTripsNoPhases(cfg, run);
    } else {
      PhasesTakeTime(cfg, run, to);
    }
    BudgetWithinBound(cfg, Trips(cfg, run), most, to, PhasesOf(cfg, run));
  }

  lemma InFlightSnoc(cfg: Config, run: seq<Event>, e: Event, most: nat)
    requires InFlight(cfg, run, most)
    requires 0 <= Admitted(cfg, run + [e]) - Completed(run + [e]) <= most
    ensures InFlight(cfg, run + [e], most)
  {
    var whole := run + [e];
    assert whole[..|whole|] == whole;
    assert forall i :: 0 <= i <= |run| ==> whole[..i] == run[..i];
  }

  // ----- Admissions of a half-open phase

  /** Requests let through since the breaker last went from Open to HalfOpen, until that phase was
      decided. */
  function PhaseAdmitted(cfg: Config, run: seq<Event>): nat {
    if run == [] then 0
    else
      var init := run[..|run| - 1];
      var e := run[|run| - 1];
      if !e.Ask? || !Admits(cfg, After(cfg, init), e.now) then PhaseAdmitted(cfg, init)
      else
        match After(cfg, init).state
        case Open => 1
        case HalfOpen => PhaseAdmitted(cfg, init) + 1
        case Closed => PhaseAdmitted(cfg, init)
  }

  /** All that a half-open phase has let through are still in flight, since any result decides it. */
  lemma {:induction false} PhaseIsInFlight(cfg: Config, run: seq<Event>, most: nat)
    requires InFlight(cfg, run, most)
    ensures PhaseAdmitted(cfg, run) <= most
    ensures After(cfg, run).state == HalfOpen ==> PhaseAdmitted(cfg, run) <= Admitted(cfg, run) - Completed(run)
  {
    FlyingNow(cfg, run, most);
    if run != [] {
      InFlightBefore(cfg, run, most);
      PhaseIsInFlight(cfg, run[..|run| - 1], most);
    }
  }
}
