/** What the metrics say about the requests in flight, at every moment of every interleaving. */
module GatewayMetrics {
  import opened Prelude
  import opened Gateway
  import M = Metrics
  import L = Labels

  // ----- The gauge

  /** Between the gauge's increment on arrival and its deferred decrement. */
  predicate IsActive(r: Request) {
    !r.pc.Counting? && !r.pc.Observing? && !r.pc.Finished?
  }

  function Active(): Request -> bool {
    (r: Request) => IsActive(r)
  }

  lemma ActiveAdvance(t: Table, w: Shared, r: Request, m: Move)
    requires Enabled(t, w, r, m)
    ensures var (r', w') := Advance(t, w, r, m);
            w'.active == w.active - One(IsActive(r)) + One(IsActive(r'))
  {}

  lemma ActiveStep(t: Table, g: Gateway, a: Act)
    requires g.shared.active == |Where(g.requests, Active())|
    ensures var g' := Do(t, g, a);
            g'.shared.active == |Where(g'.requests, Active())|
  {
    if Possible(t, g, a) {
      match a
      case Arrive(id, _, _) =>
        WhereUpdate(g.requests, id, Do(t, g, a).requests[id], Active());
      case Step(id, m) =>
        ActiveAdvance(t, g.shared, g.requests[id], m);
        WhereUpdate(g.requests, id, Advance(t, g.shared, g.requests[id], m).0, Active());
      case _ =>
    }
  }

  /** The active gauge is the number of requests between their increment and their decrement. */
  lemma {:induction false} ActiveGauge(t: Table, acts: seq<Act>)
    ensures var g := After(t, acts);
            g.shared.active == |Where(g.requests, Active())|
  {
    if acts == [] {
      assert Where(map[], Active()) == {};
    } else {
      ActiveGauge(t, acts[..|acts| - 1]);
      ActiveStep(t, After(t, acts[..|acts| - 1]), acts[|acts| - 1]);
    }
  }

  // ----- Totals and durations

  /** The request carries these labels and has counted itself in the totals. */
  function Counted(route: string, verb: string): Request -> bool {
    (r: Request) => RouteLabel(r) == route && r.verb == verb && (r.pc.Observing? || r.pc.Finished?)
  }

  /** ... and has been observed in the histogram as well. */
  function Timed(route: string, verb: string): Request -> bool {
    (r: Request) => RouteLabel(r) == route && r.verb == verb && r.pc.Finished?
  }

  function BetweenTheTwo(route: string, verb: string): Request -> bool {
    (r: Request) => RouteLabel(r) == route && r.verb == verb && r.pc.Observing?
  }

  /** A totals key whose first two labels are this route and this method, whatever its status. */
  predicate Concerns(key: string, route: string, verb: string) {
    var labels := L.Split(key, L.NUL);
    |labels| == 3 && labels[0] == route && labels[1] == verb
  }

  ghost function SumOver(values: map<string, nat>, keys: set<string>): nat
    requires keys <= values.Keys
  {
    if keys == {} then 0
    else
      var k :| k in keys;
      values[k] + SumOver(values, keys - {k})
  }

  lemma {:induction false} SumOverWithout(values: map<string, nat>, keys: set<string>, k: string)
    requires k in keys && keys <= values.Keys
    ensures SumOver(values, keys) == values[k] + SumOver(values, keys - {k})
  {
    var k' :| k' in keys && SumOver(values, keys) == values[k'] + SumOver(values, keys - {k'});
    if k' != k {
      SumOverWithout(values, keys - {k'}, k);
      SumOverWithout(values, keys - {k}, k');
      assert keys - {k'} - {k} == keys - {k} - {k'};
    }
  }

  lemma {:induction false} SumOverSame(values: map<string, nat>, values': map<string, nat>, keys: set<string>)
    requires keys <= values.Keys && keys <= values'.Keys
    requires forall k :: k in keys ==> values[k] == values'[k]
    ensures SumOver(values, keys) == SumOver(values', keys)
  {
    if keys != {} {
      var k :| k in keys;
      SumOverWithout(values, keys, k);
      SumOverWithout(values', keys, k);
      SumOverSame(values, values', keys - {k});
    }
  }

  function KeysOf(values: map<string, nat>, route: string, verb: string): set<string> {
    set k | k in values && Concerns(k, route, verb)
  }

  /** The totals of a route and method, summed over the status codes. */
  ghost function TotalOf(values: map<string, nat>, route: string, verb: string): nat {
    SumOver(values, KeysOf(values, route, verb))
  }

  lemma TotalInc(values: map<string, nat>, key: string, route: string, verb: string)
    ensures TotalOf(M.Inc(values, key), route, verb) == TotalOf(values, route, verb) + One(Concerns(key, route, verb))
  {
    var values' := M.Inc(values, key);
    var keys, keys' := KeysOf(values, route, verb), KeysOf(values', route, verb);
    assert keys - {key} == keys' - {key};
    SumOverSame(values, values', keys - {key});
    if Concerns(key, route, verb) {
      SumOverWithout(values', keys', key);
      if key in values {
        SumOverWithout(values, keys, key);
      } else {
        assert keys - {key} == keys;
      }
    } else {
      assert keys - {key} == keys && keys' - {key} == keys';
    }
  }

  // ----- Clean labels

  lemma {:induction false} DigitsClean(n: nat)
    ensures L.NUL !in Digits(n)
  {
    if n >= 10 {
      DigitsClean(n / 10);
      DigitsClean(n % 10);
    }
  }

  /** No route ID and no method contains the byte that joins labels. */
  ghost predicate Clean(t: Table, acts: seq<Act>) {
    && (forall route :: route in t ==> L.NUL !in route)
    && (forall a :: a in acts && a.Arrive? ==> L.NUL !in a.verb)
  }

  predicate CleanRequest(r: Request) {
    L.NUL !in RouteLabel(r) && L.NUL !in r.verb
  }

  lemma KeepsLabelsClean(t: Table, w: Shared, r: Request, m: Move)
    requires Enabled(t, w, r, m) && CleanRequest(r)
    requires forall route :: route in t ==> L.NUL !in route
    ensures CleanRequest(Advance(t, w, r, m).0)
  {}

  lemma {:induction false} LabelsStayClean(t: Table, acts: seq<Act>)
    requires Clean(t, acts)
    ensures forall id :: id in After(t, acts).requests ==> CleanRequest(After(t, acts).requests[id])
  {
    if acts != [] {
      var init := acts[..|acts| - 1];
      var a := acts[|acts| - 1];
      LabelsStayClean(t, init);
      var g := After(t, init);
      if a.Step? && Possible(t, g, a) {
        KeepsLabelsClean(t, g.shared, g.requests[a.id], a.move);
      }
    }
  }

  lemma TotalsKeyConcerns(r: Request, route: string, verb: string)
    requires CleanRequest(r)
    ensures Concerns(TotalsKey(r), route, verb) <==> RouteLabel(r) == route && r.verb == verb
  {
    DigitsClean(r.status);
    L.SplitJoin([RouteLabel(r), r.verb, Digits(r.status)], L.NUL);
  }

  lemma DurationKeyIs(r: Request, route: string, verb: string)
    requires CleanRequest(r) && L.NUL !in route && L.NUL !in verb
    ensures DurationKey(r) == M.Key([route, verb]) <==> RouteLabel(r) == route && r.verb == verb
  {
    L.SplitJoin([RouteLabel(r), r.verb], L.NUL);
    L.SplitJoin([route, verb], L.NUL);
  }

  // ----- Conservation

  ghost predicate Conserved(g: Gateway, route: string, verb: string) {
    && TotalOf(g.shared.totals, route, verb) == |Where(g.requests, Counted(route, verb))|
    && M.HistAt(g.shared.durations, M.Key([route, verb])).count == |Where(g.requests, Timed(route, verb))|
  }

  lemma OnlyCountCounts(t: Table, w: Shared, r: Request, m: Move, route: string, verb: string)
    requires Enabled(t, w, r, m) && !m.Count?
    ensures var (r', w') := Advance(t, w, r, m);
            w'.totals == w.totals && Counted(route, verb)(r') == Counted(route, verb)(r)
  {}

  lemma TotalsAdvance(t: Table, w: Shared, r: Request, m: Move, route: string, verb: string)
    requires Enabled(t, w, r, m) && CleanRequest(r)
    ensures var (r', w') := Advance(t, w, r, m);
            TotalOf(w'.totals, route, verb)
              == TotalOf(w.totals, route, verb) - One(Counted(route, verb)(r)) + One(Counted(route, verb)(r'))
  {
    if m.Count? {
      TotalInc(w.totals, TotalsKey(r), route, verb);
      TotalsKeyConcerns(r, route, verb);
    } else {
      OnlyCountCounts(t, w, r, m, route, verb);
    }
  }

  lemma DurationsAdvance(t: Table, w: Shared, r: Request, m: Move, route: string, verb: string)
    requires Enabled(t, w, r, m) && CleanRequest(r) && L.NUL !in route && L.NUL !in verb
    ensures var (r', w') := Advance(t, w, r, m);
            var key := M.Key([route, verb]);
            M.HistAt(w'.durations, key).count
              == M.HistAt(w.durations, key).count - One(Timed(route, verb)(r)) + One(Timed(route, verb)(r'))
  {
    DurationKeyIs(r, route, verb);
  }

  lemma ConservedStep(t: Table, g: Gateway, a: Act, route: string, verb: string)
    requires Conserved(g, route, verb) && L.NUL !in route && L.NUL !in verb
    requires forall id :: id in g.requests ==> CleanRequest(g.requests[id])
    ensures Conserved(Do(t, g, a), route, verb)
  {
    if Possible(t, g, a) && (a.Arrive? || a.Step?) {
      var r' := Do(t, g, a).requests[a.id];
      WhereUpdate(g.requests, a.id, r', Counted(route, verb));
      WhereUpdate(g.requests, a.id, r', Timed(route, verb));
      if a.Step? {
        TotalsAdvance(t, g.shared, g.requests[a.id], a.move, route, verb);
        DurationsAdvance(t, g.shared, g.requests[a.id], a.move, route, verb);
      }
    }
  }

  lemma {:induction false} ConservedAlways(t: Table, acts: seq<Act>, route: string, verb: string)
    requires Clean(t, acts) && L.NUL !in route && L.NUL !in verb
    ensures Conserved(After(t, acts), route, verb)
  {
    if acts == [] {
      assert Where(map[], Counted(route, verb)) == {} == Where(map[], Timed(route, verb));
    } else {
      var init := acts[..|acts| - 1];
      ConservedAlways(t, init, route, verb);
      LabelsStayClean(t, init);
      ConservedStep(t, After(t, init), acts[|acts| - 1], route, verb);
    }
  }

  /** For every route and method, the request totals summed over status codes exceed the histogram's
      count by exactly the requests between those two recording steps; so at quiescence the two
      agree. */
  lemma TotalsMatchDurations(t: Table, acts: seq<Act>, route: string, verb: string)
    requires Clean(t, acts) && L.NUL !in route && L.NUL !in verb
    ensures var g := After(t, acts);
            var total := TotalOf(g.shared.totals, route, verb);
            var timed := M.HistAt(g.shared.durations, M.Key([route, verb])).count;
            && total == timed + |Where(g.requests, BetweenTheTwo(route, verb))|
            && ((forall id :: id in g.requests ==> g.requests[id].pc.Finished?) ==> total == timed)
  {
    ConservedAlways(t, acts, route, verb);
    CountedSplits(After(t, acts).requests, route, verb);
  }

  lemma CountedSplits(requests: map<nat, Request>, route: string, verb: string)
    ensures |Where(requests, Counted(route, verb))|
         == |Where(requests, Timed(route, verb))| + |Where(requests, BetweenTheTwo(route, verb))|
    ensures (forall id :: id in requests ==> requests[id].pc.Finished?) ==>
              Where(requests, BetweenTheTwo(route, verb)) == {}
  {
    var timed, between := Where(requests, Timed(route, verb)), Where(requests, BetweenTheTwo(route, verb));
    assert Where(requests, Counted(route, verb)) == timed + between;
    assert timed !! between;
  }

  // ----- Totals for each status

  /** What a string of digits says in decimal. */
  function Decimal(s: string): int {
    if s == "" then 0 else 10 * Decimal(s[..|s| - 1]) + (s[|s| - 1] as int - '0' as int)
  }

  /** The status label is the status in decimal, without leading zeros. */
  lemma {:induction false} DigitsAreDecimal(n: nat)
    ensures var s := Digits(n);
            && s != "" && Decimal(s) == n
            && (forall i :: 0 <= i < |s| ==> '0' <= s[i] <= '9')
            && (|s| > 1 ==> s[0] != '0')
  {
    if n < 10 {
      assert Digits(n)[..0] == "";
    } else {
      DigitsAreDecimal(n / 10);
      assert Digits(n) == Digits(n / 10) + [('0' as int + n % 10) as char];
      assert Digits(n)[..|Digits(n)| - 1] == Digits(n / 10);
      if |Digits(n / 10)| == 1 {
        assert Digits(n / 10)[..0] == "";
      }
    }
  }

  /** The request goes under this tag: its route's ID, or "unknown" without a route. */
  predicate Labelled(r: Request, tag: string) {
    match r.route case None => tag == "unknown" case Some(route) => tag == route
  }

  /** The request has been counted under this tag, method and status. */
  function CountedAs(tag: string, verb: string, status: nat): Request -> bool {
    (r: Request) => Labelled(r, tag) && r.verb == verb && r.status == status && (r.pc.Observing? || r.pc.Finished?)
  }

  lemma StatusKeyIs(r: Request, tag: string, verb: string, status: nat)
    requires CleanRequest(r) && L.NUL !in tag && L.NUL !in verb
    ensures TotalsKey(r) == M.Key([tag, verb, Digits(status)]) <==>
            Labelled(r, tag) && r.verb == verb && r.status == status
  {
    DigitsClean(r.status);
    DigitsClean(status);
    DigitsAreDecimal(r.status);
    DigitsAreDecimal(status);
    L.SplitJoin([RouteLabel(r), r.verb, Digits(r.status)], L.NUL);
    L.SplitJoin([tag, verb, Digits(status)], L.NUL);
  }

  lemma OnlyCountCountsStatus(t: Table, w: Shared, r: Request, m: Move, tag: string, verb: string, status: nat)
    requires Enabled(t, w, r, m) && !m.Count?
    ensures var (r', w') := Advance(t, w, r, m);
            w'.totals == w.totals && CountedAs(tag, verb, status)(r') == CountedAs(tag, verb, status)(r)
  {}

  lemma StatusAdvance(t: Table, w: Shared, r: Request, m: Move, tag: string, verb: string, status: nat)
    requires Enabled(t, w, r, m) && CleanRequest(r) && L.NUL !in tag && L.NUL !in verb
    ensures var (r', w') := Advance(t, w, r, m);
            var key := M.Key([tag, verb, Digits(status)]);
            M.CountAt(w'.totals, key)
              == M.CountAt(w.totals, key) - One(CountedAs(tag, verb, status)(r)) + One(CountedAs(tag, verb, status)(r'))
  {
    if m.Count? {
      StatusKeyIs(r, tag, verb, status);
    } else {
      OnlyCountCountsStatus(t, w, r, m, tag, verb, status);
    }
  }

  ghost predicate StatusCounted(g: Gateway, tag: string, verb: string, status: nat) {
    M.CountAt(g.shared.totals, M.Key([tag, verb, Digits(status)]))
      == |Where(g.requests, CountedAs(tag, verb, status))|
  }

  lemma StatusStep(t: Table, g: Gateway, a: Act, tag: string, verb: string, status: nat)
    requires StatusCounted(g, tag, verb, status) && L.NUL !in tag && L.NUL !in verb
    requires forall id :: id in g.requests ==> CleanRequest(g.requests[id])
    ensures StatusCounted(Do(t, g, a), tag, verb, status)
  {
    if Possible(t, g, a) && (a.Arrive? || a.Step?) {
      WhereUpdate(g.requests, a.id, Do(t, g, a).requests[a.id], CountedAs(tag, verb, status));
      if a.Step? {
        StatusAdvance(t, g.shared, g.requests[a.id], a.move, tag, verb, status);
      }
    }
  }

  /** For every tag, method and status, the total is the number of requests counted with them. */
  lemma {:induction false} TotalsPerStatus(t: Table, acts: seq<Act>, tag: string, verb: string, status: nat)
    requires Clean(t, acts) && L.NUL !in tag && L.NUL !in verb
    ensures StatusCounted(After(t, acts), tag, verb, status)
  {
    if acts == [] {
      assert Where(map[], CountedAs(tag, verb, status)) == {};
    } else {
      var init := acts[..|acts| - 1];
      TotalsPerStatus(t, init, tag, verb, status);
      LabelsStayClean(t, init);
      StatusStep(t, After(t, init), acts[|acts| - 1], tag, verb, status);
    }
  }

  // ----- Durations

  /** What a request that observes its duration puts into the histogram. */
  function ObservationFor(t: Table, g: Gateway, a: Act): seq<M.Observation> {
    match a
    case Step(id, Observe(seconds)) =>
      if !Possible(t, g, a) then []
      else
        var tag := match g.requests[id].route case None => "unknown" case Some(route) => route;
        [M.Observation(M.Key([tag, g.requests[id].verb]), seconds)]
    case _ => []
  }

  function Observations(t: Table, acts: seq<Act>): seq<M.Observation> {
    if acts == [] then []
    else
      var init := acts[..|acts| - 1];
      Observations(t, init) + ObservationFor(t, After(t, init), acts[|acts| - 1])
  }

  lemma OthersLeaveDurations(t: Table, w: Shared, r: Request, m: Move)
    requires Enabled(t, w, r, m) && !m.Observe?
    ensures Advance(t, w, r, m).1.durations == w.durations
  {}

  /** The histograms after these observations. */
  function Gathered(values: map<string, M.Hist>, bounds: seq<real>, more: seq<M.Observation>): map<string, M.Hist>
    requires |more| <= 1
  {
    if more == [] then values
    else values[more[0].key := M.Observed(M.HistAt(values, more[0].key), bounds, more[0].val)]
  }

  lemma ObservedSnoc(bounds: seq<real>, run: seq<M.Observation>, more: seq<M.Observation>)
    requires |more| <= 1
    ensures M.After(bounds, run + more) == Gathered(M.After(bounds, run), bounds, more)
  {
    if more == [] {
      assert run + more == run;
    } else {
      assert (run + more)[..|run|] == run;
    }
  }

  lemma DurationsStep(t: Table, g: Gateway, a: Act)
    ensures |ObservationFor(t, g, a)| <= 1
    ensures Do(t, g, a).shared.durations
         == Gathered(g.shared.durations, M.DEFAULT_BUCKETS, ObservationFor(t, g, a))
  {
    if a.Step? && Possible(t, g, a) && !a.move.Observe? {
      OthersLeaveDurations(t, g.shared, g.requests[a.id], a.move);
    }
  }

  /** The histograms are those of the durations the requests observed, in order, under their labels. */
  lemma {:induction false} DurationsProjection(t: Table, acts: seq<Act>)
    ensures After(t, acts).shared.durations == M.After(M.DEFAULT_BUCKETS, Observations(t, acts))
  {
    if acts != [] {
      var init := acts[..|acts| - 1];
      var a := acts[|acts| - 1];
      DurationsProjection(t, init);
      DurationsStep(t, After(t, init), a);
      ObservedSnoc(M.DEFAULT_BUCKETS, Observations(t, init), ObservationFor(t, After(t, init), a));
    }
  }

  /** So a label and method's histogram says how many durations were observed, what they add up to and,
      for each bound, how many were no longer. */
  lemma DurationsTell(t: Table, acts: seq<Act>, tag: string, verb: string, i: nat)
    requires i < |M.DEFAULT_BUCKETS|
    ensures var key := M.Key([tag, verb]);
            var h := M.HistAt(After(t, acts).shared.durations, key);
            var observed := Observations(t, acts);
            && h.count == M.CountOf(observed, key) && h.sum == M.SumOf(observed, key)
            && M.Bucket(h.buckets, M.DEFAULT_BUCKETS[i]) == M.AtOrBelow(observed, key, M.DEFAULT_BUCKETS[i])
  {
    DurationsProjection(t, acts);
    M.DefaultsAscend();
    M.HistogramTells(M.DEFAULT_BUCKETS, Observations(t, acts), M.Key([tag, verb]), i);
  }

  // ----- Rate-limit rejections

  /** Answered 429 by the gateway itself, not by an upstream. */
  function Limited(route: string): Request -> bool {
    (r: Request) => r.route == Some(route) && r.target.None? && r.status == 429
  }

  /** Nothing has been written to a request that is still before the balancer. */
  predicate SilentAtFirst(r: Request) {
    BeforeBalancer(r.pc) ==> r.status == 0
  }

  lemma LimitedAdvance(t: Table, w: Shared, r: Request, m: Move, route: string)
    requires Enabled(t, w, r, m) && Shaped(t, w.store, r) && SilentAtFirst(r)
    ensures var (r', w') := Advance(t, w, r, m);
            && M.CountAt(w'.rejections, M.Key([route]))
               == M.CountAt(w.rejections, M.Key([route])) - One(Limited(route)(r)) + One(Limited(route)(r'))
            && SilentAtFirst(r')
  {}

  ghost predicate Rejections(g: Gateway, route: string) {
    && M.CountAt(g.shared.rejections, M.Key([route])) == |Where(g.requests, Limited(route))|
    && forall id :: id in g.requests ==> SilentAtFirst(g.requests[id])
  }

  lemma LimitedStep(t: Table, g: Gateway, a: Act, route: string)
    requires Inv(t, g) && Rejections(g, route)
    ensures Rejections(Do(t, g, a), route)
  {
    if Possible(t, g, a) && (a.Arrive? || a.Step?) {
      WhereUpdate(g.requests, a.id, Do(t, g, a).requests[a.id], Limited(route));
      if a.Step? {
        LimitedAdvance(t, g.shared, g.requests[a.id], a.move, route);
      }
    }
  }

  /** The rejection counter of a route is the number of its requests the gateway answered 429. */
  lemma {:induction false} RejectionsCounted(t: Table, acts: seq<Act>, route: string)
    ensures var g := After(t, acts);
            M.CountAt(g.shared.rejections, M.Key([route])) == |Where(g.requests, Limited(route))|
    ensures Rejections(After(t, acts), route)
  {
    if acts == [] {
      assert Where(map[], Limited(route)) == {};
    } else {
      RejectionsCounted(t, acts[..|acts| - 1], route);
      InvAlways(t, acts[..|acts| - 1]);
      LimitedStep(t, After(t, acts[..|acts| - 1]), acts[|acts| - 1], route);
    }
  }
}
