/**
 The load bound on a dead upstream is the best possible. Half-open limits nothing: each time the
 timeout is over, as many requests as may be in flight reach the upstream before the first fails.
 */
module WorstCase {
  import opened Prelude
  import opened CircuitBreaker

  /** What the bound speaks about, at the end of a run. */
  datatype Tally = Tally(admitted: nat, completed: nat, b: Breaker, first: Option<int>)

  function TallyOf(cfg: Config, run: seq<Event>): Tally {
    var trips := Trips(cfg, run);
    Tally(Admitted(cfg, run), Completed(run), After(cfg, run), if trips == [] then None else Some(trips[0]))
  }

  function Next(cfg: Config, s: Tally, e: Event): Tally {
    var b := Step(cfg, s.b, e);
    Tally(s.admitted + (if e.Ask? && Admits(cfg, s.b, e.now) then 1 else 0),
          s.completed + (if e.Ask? then 0 else 1),
          b,
          if s.first.None? && s.b.state != Open && b.state == Open then Some(e.now) else s.first)
  }

  lemma TallySnoc(cfg: Config, run: seq<Event>, e: Event)
    ensures TallyOf(cfg, run + [e]) == Next(cfg, TallyOf(cfg, run), e)
  {
    assert (run + [e])[..|run|] == run;
  }

  /** A run of a failing upstream, in time order up to `now`, as it grows. */
  ghost predicate Failing(cfg: Config, run: seq<Event>, most: nat, now: int) {
    run == [] ||
    var init := run[..|run| - 1];
    var e := run[|run| - 1];
    && e.now <= now && !e.Success? && Failing(cfg, init, most, e.now)
    && 0 <= Admitted(cfg, run) - Completed(run) <= most
  }

  lemma {:induction false} FailingMeans(cfg: Config, run: seq<Event>, most: nat, now: int)
    requires Failing(cfg, run, most, now)
    ensures Clocked(run) && DeadUpstream(cfg, run, most)
    ensures forall i :: 0 <= i < |run| ==> run[i].now <= now
  {
    if run != [] {
      var init := run[..|run| - 1];
      var e := run[|run| - 1];
      FailingMeans(cfg, init, most, e.now);
      assert run == init + [e];
      LaterEvent(init, e);
      InFlightSnoc(cfg, init, e, most);
    }
  }

  lemma LaterEvent(run: seq<Event>, e: Event)
    requires Clocked(run) && forall i :: 0 <= i < |run| ==> run[i].now <= e.now
    ensures Clocked(run + [e])
  {}

  /** Whether one more event keeps the run one of a failing upstream. */
  predicate Fits(cfg: Config, s: Tally, e: Event, most: nat) {
    match e
    case Ask(now) => Admits(cfg, s.b, now) && 0 <= s.admitted - s.completed < most
    case Failure(_, _) => 0 < s.admitted - s.completed <= most
    case Success(_) => false
  }

  lemma Extend(cfg: Config, run: seq<Event>, e: Event, most: nat, now: int)
    requires Failing(cfg, run, most, now) && now <= e.now && Fits(cfg, TallyOf(cfg, run), e, most)
    ensures Failing(cfg, run + [e], most, e.now)
    ensures TallyOf(cfg, run + [e]) == Next(cfg, TallyOf(cfg, run), e)
  {
    TallySnoc(cfg, run, e);
    assert (run + [e])[..|run|] == run;
    Later(cfg, run, most, now, e.now);
  }

  lemma Later(cfg: Config, run: seq<Event>, most: nat, now: int, later: int)
    requires Failing(cfg, run, most, now) && now <= later
    ensures Failing(cfg, run, most, later)
  {}

  /** The run with `n` requests asking at `now`, or `n` failing. */
  function Asking(run: seq<Event>, now: int, n: nat): seq<Event> {
    if n == 0 then run else Asking(run, now, n - 1) + [Ask(now)]
  }

  function FailingAll(run: seq<Event>, now: int, n: nat): seq<Event> {
    if n == 0 then run else FailingAll(run, now, n - 1) + [Failure(now, now)]
  }

  /** `n` more requests get in, while the breaker is closed or half-open or its timeout is over. */
  lemma {:induction false} LetIn(cfg: Config, run: seq<Event>, most: nat, now: int, n: nat)
    requires Failing(cfg, run, most, now) && Admits(cfg, After(cfg, run), now)
    requires var s := TallyOf(cfg, run); s.completed <= s.admitted && s.admitted - s.completed + n <= most
    ensures var s := TallyOf(cfg, run);
            && Failing(cfg, Asking(run, now, n), most, now)
            && TallyOf(cfg, Asking(run, now, n)) == Tally(s.admitted + n, s.completed,
                 if n > 0 then Step(cfg, s.b, Ask(now)) else s.b, s.first)
  {
    if n > 0 {
      LetIn(cfg, run, most, now, n - 1);
      Extend(cfg, Asking(run, now, n - 1), Ask(now), most, now);
    }
  }

  /** `n` requests fail while the breaker is open: it stays open, and open since as long. */
  lemma {:induction false} Drain(cfg: Config, run: seq<Event>, most: nat, now: int, n: nat)
    requires Failing(cfg, run, most, now) && After(cfg, run).state == Open
    requires var s := TallyOf(cfg, run); s.completed + n <= s.admitted <= s.completed + most
    ensures var s, s' := TallyOf(cfg, run), TallyOf(cfg, FailingAll(run, now, n));
            && Failing(cfg, FailingAll(run, now, n), most, now)
            && s'.admitted == s.admitted && s'.completed == s.completed + n && s'.first == s.first
            && s'.b.state == Open && s'.b.openTime == s.b.openTime
  {
    if n > 0 {
      Drain(cfg, run, most, now, n - 1);
      Extend(cfg, FailingAll(run, now, n - 1), Failure(now, now), most, now);
    }
  }

  /** One request at a time, each failing. */
  function OneByOne(n: nat): seq<Event> {
    if n == 0 then [] else OneByOne(n - 1) + [Ask(0)] + [Failure(0, 0)]
  }

  /** After `n` failures, one at a time. */
  predicate Failed(cfg: Config, s: Tally, n: nat) {
    && s.admitted == s.completed == s.b.failureCount == n
    && (n < Max(1, cfg.threshold) ==> s.b.state == Closed && s.first.None?)
    && (n == Max(1, cfg.threshold) ==> s.b.state == Open && s.b.openTime == 0)
  }

  lemma OneMoreFails(cfg: Config, s: Tally, n: nat)
    requires n < Max(1, cfg.threshold) && Failed(cfg, s, n)
    ensures Failed(cfg, Next(cfg, Next(cfg, s, Ask(0)), Failure(0, 0)), n + 1)
  {}

  lemma FailOnce(cfg: Config, run: seq<Event>, most: nat, n: nat)
    requires most > 0 && n < Max(1, cfg.threshold) && Failing(cfg, run, most, 0) && Failed(cfg, TallyOf(cfg, run), n)
    ensures var more := run + [Ask(0)] + [Failure(0, 0)];
            Failing(cfg, more, most, 0) && Failed(cfg, TallyOf(cfg, more), n + 1)
  {
    Extend(cfg, run, Ask(0), most, 0);
    Extend(cfg, run + [Ask(0)], Failure(0, 0), most, 0);
    OneMoreFails(cfg, TallyOf(cfg, run), n);
  }

  lemma {:induction false} OneByOneTally(cfg: Config, most: nat, n: nat)
    requires most > 0 && n <= Max(1, cfg.threshold)
    ensures Failing(cfg, OneByOne(n), most, 0) && Failed(cfg, TallyOf(cfg, OneByOne(n)), n)
  {
    if n > 0 {
      OneByOneTally(cfg, most, n - 1);
      FailOnce(cfg, OneByOne(n - 1), most, n - 1);
    }
  }

  /** All that may be in flight get in, one fails and trips the breaker, and then the others fail. */
  function Salvo(run: seq<Event>, most: nat, now: int): seq<Event>
    requires most > 0
  {
    FailingAll(Asking(run, now, most) + [Failure(now, now)], now, most - 1)
  }

  lemma SalvoTrips(cfg: Config, run: seq<Event>, most: nat, now: int)
    requires most > 0 && Failing(cfg, run, most, now)
    requires TallyOf(cfg, run).admitted == TallyOf(cfg, run).completed
    requires Admits(cfg, After(cfg, run), now)
    requires After(cfg, run).state == Closed ==> After(cfg, run).failureCount + 1 >= cfg.threshold
    ensures var s, s' := TallyOf(cfg, run), TallyOf(cfg, Salvo(run, most, now));
            && Failing(cfg, Salvo(run, most, now), most, now)
            && s'.admitted == s'.completed == s.admitted + most
            && s'.b.state == Open && s'.b.openTime == now
            && s'.first == (if s.first.None? then Some(now) else s.first)
  {
    var full := Asking(run, now, most);
    LetIn(cfg, run, most, now, most);
    Extend(cfg, full, Failure(now, now), most, now);
    Drain(cfg, full + [Failure(now, now)], most, now, most - 1);
  }

  /** The threshold reached with a salvo at time 0, then a salvo each time the timeout is over. */
  function Worst(cfg: Config, most: nat, phases: nat): seq<Event>
    requires cfg.threshold > 0 && most > 0
  {
    if phases == 0 then Salvo(OneByOne(cfg.threshold - 1), most, 0)
    else Salvo(Worst(cfg, most, phases - 1), most, phases * cfg.timeout)
  }

  lemma NextTimeout(phases: nat, timeout: int)
    requires phases > 0 && timeout > 0
    ensures phases * timeout == (phases - 1) * timeout + timeout
  {}

  lemma {:induction false} WorstTally(cfg: Config, most: nat, phases: nat)
    requires cfg.threshold > 0 && cfg.timeout > 0 && most > 0
    ensures var run := Worst(cfg, most, phases);
            var s := TallyOf(cfg, run);
            && Failing(cfg, run, most, phases * cfg.timeout)
            && s.admitted == s.completed == Budget(cfg, most, phases)
            && s.b.state == Open && s.b.openTime == phases * cfg.timeout && s.first == Some(0)
  {
    if phases == 0 {
      OneByOneTally(cfg, most, cfg.threshold - 1);
      SalvoTrips(cfg, OneByOne(cfg.threshold - 1), most, 0);
    } else {
      var before := Worst(cfg, most, phases - 1);
      WorstTally(cfg, most, phases - 1);
      NextTimeout(phases, cfg.timeout);
      Later(cfg, before, most, (phases - 1) * cfg.timeout, phases * cfg.timeout);
      SalvoTrips(cfg, before, most, phases * cfg.timeout);
    }
  }

  /** Whatever the threshold, the timeout and the number in flight, and however many timeouts have
      passed, some run puts exactly the bound on the upstream. */
  lemma LoadBoundIsReached(cfg: Config, most: nat, phases: nat)
    requires cfg.threshold > 0 && cfg.timeout > 0 && most > 0
    ensures var run := Worst(cfg, most, phases);
            var to := phases * cfg.timeout;
            && Clocked(run) && DeadUpstream(cfg, run, most)
            && (forall i :: 0 <= i < |run| ==> run[i].now <= to)
            && Admitted(cfg, run) == LoadBound(cfg, Trips(cfg, run), most, to)
  {
    WorstTally(cfg, most, phases);
    FailingMeans(cfg, Worst(cfg, most, phases), most, phases * cfg.timeout);
    BudgetIs(cfg, most, phases);
    Quotient(phases * cfg.timeout, cfg.timeout, phases, 0);
  }

  // ----- A limit on half-open admissions

  /** The breaker is tripped by one request at a time; once the timeout is over, as many ask as may
      be in flight. */
  function Flood(cfg: Config, most: nat): seq<Event> {
    Asking(OneByOne(Max(1, cfg.threshold)), Max(0, cfg.timeout), most)
  }

  lemma {:induction false} AllInOnePhase(cfg: Config, run: seq<Event>, now: int, n: nat)
    requires After(cfg, run).state == Open && Admits(cfg, After(cfg, run), now)
    ensures n > 0 ==>
              After(cfg, Asking(run, now, n)).state == HalfOpen && PhaseAdmitted(cfg, Asking(run, now, n)) == n
  {
    if n > 0 {
      AllInOnePhase(cfg, run, now, n - 1);
      var before := Asking(run, now, n - 1);
      assert (before + [Ask(now)])[..|before|] == before;
    }
  }

  lemma FloodIs(cfg: Config, most: nat)
    requires most > 0
    ensures Clocked(Flood(cfg, most)) && InFlight(cfg, Flood(cfg, most), most)
    ensures PhaseAdmitted(cfg, Flood(cfg, most)) == most
  {
    var tripped := OneByOne(Max(1, cfg.threshold));
    var now := Max(0, cfg.timeout);
    OneByOneTally(cfg, most, Max(1, cfg.threshold));
    Later(cfg, tripped, most, 0, now);
    LetIn(cfg, tripped, most, now, most);
    FailingMeans(cfg, Flood(cfg, most), most, now);
    AllInOnePhase(cfg, tripped, now, most);
  }

  /** Whatever the configuration: a half-open phase lets through no more than `limit` requests in
      every run with at most `most` in flight, successes among them, if and only if no more than
      `limit` may be in flight at all. */
  lemma HalfOpenLimitExactly(cfg: Config, most: nat, limit: int)
    ensures (forall run :: Clocked(run) && InFlight(cfg, run, most) ==> PhaseAdmitted(cfg, run) <= limit)
       <==> most <= limit
  {
    if most <= limit {
      forall run | Clocked(run) && InFlight(cfg, run, most)
        ensures PhaseAdmitted(cfg, run) <= limit
      {
        PhaseIsInFlight(cfg, run, most);
      }
    } else if most > 0 {
      FloodIs(cfg, most);
      assert PhaseAdmitted(cfg, Flood(cfg, most)) > limit;
    } else {
      assert Clocked([]) && InFlight(cfg, [], most) && PhaseAdmitted(cfg, []) > limit;
    }
  }
}
