/** The least-connections balancer, which nothing in the gateway is wired to yet. */
module LeastConn {
  import opened Prelude

  const MAX_INT64: int := 0x7fff_ffff_ffff_ffff

  type Conns = map<string, int>

  /** A missing key counts zero. */
  function Load(conns: Conns, endpoint: string): int {
    if endpoint in conns then conns[endpoint] else 0
  }

  /** The position of the least loaded endpoint, the first of them on a tie. */
  function Least(conns: Conns, endpoints: seq<string>): (i: nat)
    requires endpoints != []
    ensures i < |endpoints|
    ensures forall j :: 0 <= j < |endpoints| ==> Load(conns, endpoints[i]) <= Load(conns, endpoints[j])
    ensures forall j :: 0 <= j < i ==> Load(conns, endpoints[i]) < Load(conns, endpoints[j])
  {
    var n := |endpoints| - 1;
    if n == 0 then 0
    else
      var i := Least(conns, endpoints[..n]);
      assert forall j :: 0 <= j < n ==> endpoints[..n][j] == endpoints[j];
      if Load(conns, endpoints[n]) < Load(conns, endpoints[i]) then n else i
  }

  function AfterPick(conns: Conns, best: string): Conns {
    conns[best := Load(conns, best) + 1]
  }

  function AfterDone(conns: Conns, endpoint: string): Conns {
    conns[endpoint := Max(0, Load(conns, endpoint) - 1)]
  }

  class LeastConnections {
    var conns: Conns

    constructor ()
      ensures conns == map[]
    {
      conns := map[];
    }

    /** Some endpoint must be below the largest int64, or there is nothing to pick. */
    method Next(endpoints: seq<string>) returns (best: string)
      requires exists j :: 0 <= j < |endpoints| && Load(conns, endpoints[j]) < MAX_INT64
      modifies this
      ensures best == endpoints[Least(old(conns), endpoints)]
      ensures conns == AfterPick(old(conns), best)
    {
      best := "";
      var bestCount := MAX_INT64;
      for i := 0 to |endpoints|
        invariant bestCount == MAX_INT64 || exists k :: 0 <= k < i && IsBest(endpoints, i, k, best, bestCount)
        invariant bestCount == MAX_INT64 ==> forall j :: 0 <= j < i ==> Load(conns, endpoints[j]) >= MAX_INT64
        invariant conns == old(conns)
      {
        var count := Load(conns, endpoints[i]);
        if count < bestCount {
          bestCount := count;
          best := endpoints[i];
          assert IsBest(endpoints, i + 1, i, best, bestCount);
        } else if bestCount != MAX_INT64 {
          ghost var k :| 0 <= k < i && IsBest(endpoints, i, k, best, bestCount);
          assert IsBest(endpoints, i + 1, k, best, bestCount);
        }
      }
      ghost var k :| 0 <= k < |endpoints| && IsBest(endpoints, |endpoints|, k, best, bestCount);
      assert k == Least(conns, endpoints);
      conns := conns[best := Load(conns, best) + 1];
    }

    /** `best` is the first least loaded of the first `n` endpoints, at position `k`. */
    ghost predicate IsBest(endpoints: seq<string>, n: nat, k: nat, best: string, count: int)
      requires k < n <= |endpoints|
      reads this
    {
      && best == endpoints[k] && count == Load(conns, best) < MAX_INT64
      && (forall j :: 0 <= j < n ==> count <= Load(conns, endpoints[j]))
      && (forall j :: 0 <= j < k ==> count < Load(conns, endpoints[j]))
    }

    method Done(endpoint: string)
      modifies this
      ensures conns == AfterDone(old(conns), endpoint)
    {
      conns := conns[endpoint := Load(conns, endpoint) - 1];
      if conns[endpoint] < 0 {
        conns := conns[endpoint := 0];
      }
    }
  }

  // ----- Runs over a fixed list of endpoints

  datatype Event = Pick | Done(endpoint: string)

  function Step(endpoints: seq<string>, conns: Conns, e: Event): Conns
    requires endpoints != []
  {
    match e
    case Pick =>
      AfterPick(conns, endpoints[Least(conns, endpoints)])
    case Done(endpoint) => AfterDone(conns, endpoint)
  }

  function After(endpoints: seq<string>, run: seq<Event>): Conns
    requires endpoints != []
  {
    if run == [] then map[] else Step(endpoints, After(endpoints, run[..|run| - 1]), run[|run| - 1])
  }

  /** Picks of the endpoint that have not been reported done. */
  function Outstanding(endpoints: seq<string>, run: seq<Event>, endpoint: string): int
    requires endpoints != []
  {
    if run == [] then 0
    else
      var init := run[..|run| - 1];
      Outstanding(endpoints, init, endpoint) +
      match run[|run| - 1]
      case Pick => if endpoints[Least(After(endpoints, init), endpoints)] == endpoint then 1 else 0
      case Done(ep) => if ep == endpoint then -1 else 0
  }

  /** Requests in flight on all endpoints together. */
  function Total(run: seq<Event>): int {
    if run == [] then 0 else Total(run[..|run| - 1]) + (if run[|run| - 1].Pick? then 1 else -1)
  }

  /** The most there have been so far. */
  function Peak(run: seq<Event>): int {
    if run == [] then 0 else Max(Peak(run[..|run| - 1]), Total(run))
  }

  /** Every Done reports an earlier pick of its endpoint. */
  ghost predicate Matched(endpoints: seq<string>, run: seq<Event>)
    requires endpoints != []
  {
    forall i :: 0 <= i < |run| && run[i].Done? ==> Outstanding(endpoints, run[..i], run[i].endpoint) > 0
  }

  ghost predicate Distinct(endpoints: seq<string>) {
    forall i, j :: 0 <= i < j < |endpoints| ==> endpoints[i] != endpoints[j]
  }

  function Loads(conns: Conns, endpoints: seq<string>): (s: seq<int>)
    ensures |s| == |endpoints| && forall i :: 0 <= i < |s| ==> s[i] == Load(conns, endpoints[i])
  {
    seq(|endpoints|, i requires 0 <= i < |endpoints| => Load(conns, endpoints[i]))
  }

  lemma {:induction false} CountsAreOutstanding(endpoints: seq<string>, run: seq<Event>)
    requires endpoints != [] && Matched(endpoints, run)
    ensures forall ep :: Load(After(endpoints, run), ep) == Outstanding(endpoints, run, ep) >= 0
    ensures forall ep :: Outstanding(endpoints, run, ep) > 0 ==> ep in endpoints
  {
    if run != [] {
      var n := |run| - 1;
      assert forall i :: 0 <= i <= n ==> run[..n][..i] == run[..i];
      CountsAreOutstanding(endpoints, run[..n]);
    }
  }

  /** Whatever Dones there are, matched or not, no count goes below zero, and one too many changes no
      count. */
  lemma {:induction false} NeverBelowZero(endpoints: seq<string>, run: seq<Event>, ep: string, other: string)
    requires endpoints != []
    ensures Load(After(endpoints, run), other) >= 0
    ensures Load(After(endpoints, run), ep) == 0 ==>
              Load(After(endpoints, run + [Done(ep)]), other) == Load(After(endpoints, run), other)
  {
    assert (run + [Done(ep)])[..|run|] == run;
    if run != [] {
      NeverBelowZero(endpoints, run[..|run| - 1], ep, other);
    }
  }

  /** The clamp in Done never acts. */
  lemma ClampNeverFires(endpoints: seq<string>, run: seq<Event>, endpoint: string)
    requires endpoints != [] && Matched(endpoints, run + [Done(endpoint)])
    ensures Load(After(endpoints, run), endpoint) - 1 >= 0
  {
    var whole := run + [Done(endpoint)];
    assert whole[..|run|] == run && whole[|run|] == Done(endpoint);
    assert forall i :: 0 <= i <= |run| ==> whole[..i] == run[..i];
    CountsAreOutstanding(endpoints, run);
  }

  lemma LoadsChange(endpoints: seq<string>, conns: Conns, i: nat, v: int)
    requires Distinct(endpoints) && i < |endpoints|
    ensures Sum(Loads(conns[endpoints[i] := v], endpoints))
         == Sum(Loads(conns, endpoints)) - Load(conns, endpoints[i]) + v
  {
    var loads := Loads(conns, endpoints);
    assert Loads(conns[endpoints[i] := v], endpoints) == loads[i := v];
    SumUpdate(loads, i, v);
  }

  lemma PickAddsOne(endpoints: seq<string>, conns: Conns)
    requires endpoints != [] && Distinct(endpoints)
    ensures Sum(Loads(Step(endpoints, conns, Pick), endpoints)) == Sum(Loads(conns, endpoints)) + 1
  {
    var i := Least(conns, endpoints);
    LoadsChange(endpoints, conns, i, Load(conns, endpoints[i]) + 1);
  }

  lemma DoneTakesOne(endpoints: seq<string>, conns: Conns, ep: string)
    requires endpoints != [] && Distinct(endpoints) && ep in endpoints && Load(conns, ep) > 0
    ensures Sum(Loads(Step(endpoints, conns, Done(ep)), endpoints)) == Sum(Loads(conns, endpoints)) - 1
  {
    var i :| 0 <= i < |endpoints| && endpoints[i] == ep;
    LoadsChange(endpoints, conns, i, Load(conns, ep) - 1);
  }

  lemma {:induction false} LoadsAddUp(endpoints: seq<string>, run: seq<Event>)
    requires endpoints != [] && Distinct(endpoints) && Matched(endpoints, run)
    ensures Sum(Loads(After(endpoints, run), endpoints)) == Total(run)
  {
    if run == [] {
      SumAtLeast(Loads(map[], endpoints), 0);
      SumAtMost(Loads(map[], endpoints), 0);
    } else {
      var init := run[..|run| - 1];
      assert forall i :: 0 <= i <= |init| ==> init[..i] == run[..i];
      LoadsAddUp(endpoints, init);
      CountsAreOutstanding(endpoints, init);
      match run[|run| - 1]
      case Pick => PickAddsOne(endpoints, After(endpoints, init));
      case Done(ep) => DoneTakesOne(endpoints, After(endpoints, init), ep);
    }
  }

  /** A pick adds to the smallest count, and n times that is no more than there was in all. */
  lemma LeastTimesAll(endpoints: seq<string>, conns: Conns)
    requires endpoints != []
    ensures |endpoints| * Load(conns, endpoints[Least(conns, endpoints)]) <= Sum(Loads(conns, endpoints))
  {
    SumAtLeast(Loads(conns, endpoints), Load(conns, endpoints[Least(conns, endpoints)]));
  }

  /** The load is zero, or what was there before its last request came in is below n shares. */
  ghost predicate WithinShare(load: int, n: nat, peak: int) {
    load > 0 ==> n * (load - 1) < peak
  }

  lemma LessIsWithin(load: int, less: int, n: nat, peak: int, peak': int)
    requires WithinShare(load, n, peak) && less <= load && peak <= peak'
    ensures WithinShare(less, n, peak')
  {
    Scale(n, less - 1, load - 1);
  }

  lemma PickIsWithin(endpoints: seq<string>, run: seq<Event>)
    requires endpoints != [] && Distinct(endpoints) && Matched(endpoints, run)
    ensures var conns := After(endpoints, run);
            WithinShare(Load(conns, endpoints[Least(conns, endpoints)]) + 1, |endpoints|, Total(run) + 1)
  {
    LoadsAddUp(endpoints, run);
    LeastTimesAll(endpoints, After(endpoints, run));
  }

  lemma PickedShare(endpoints: seq<string>, init: seq<Event>, run: seq<Event>, ep: string)
    requires endpoints != [] && Distinct(endpoints) && Matched(endpoints, init) && run == init + [Pick]
    requires ep == endpoints[Least(After(endpoints, init), endpoints)]
    ensures WithinShare(Load(After(endpoints, run), ep), |endpoints|, Peak(run))
  {
    assert run[..|run| - 1] == init;
    var load := Load(After(endpoints, init), ep) + 1;
    PickIsWithin(endpoints, init);
    LessIsWithin(load, load, |endpoints|, Total(run), Peak(run));
  }

  lemma OtherShare(endpoints: seq<string>, init: seq<Event>, e: Event, ep: string)
    requires endpoints != [] && Matched(endpoints, init)
    requires WithinShare(Load(After(endpoints, init), ep), |endpoints|, Peak(init))
    requires e.Pick? ==> ep != endpoints[Least(After(endpoints, init), endpoints)]
    ensures WithinShare(Load(After(endpoints, init + [e]), ep), |endpoints|, Peak(init + [e]))
  {
    assert (init + [e])[..|init|] == init;
    CountsAreOutstanding(endpoints, init);
    var load, load' := Load(After(endpoints, init), ep), Load(After(endpoints, init + [e]), ep);
    LessIsWithin(load, load', |endpoints|, Peak(init), Peak(init + [e]));
  }

  lemma {:induction false} BelowPeakShare(endpoints: seq<string>, run: seq<Event>, ep: string)
    requires endpoints != [] && Distinct(endpoints) && Matched(endpoints, run)
    ensures WithinShare(Load(After(endpoints, run), ep), |endpoints|, Peak(run))
  {
    if run != [] {
      var init := run[..|run| - 1];
      var e := run[|run| - 1];
      assert run == init + [e];
      assert forall i :: 0 <= i <= |init| ==> init[..i] == run[..i];
      BelowPeakShare(endpoints, init, ep);
      if e.Pick? && ep == endpoints[Least(After(endpoints, init), endpoints)] {
        PickedShare(endpoints, init, run, ep);
      } else {
        OtherShare(endpoints, init, e, ep);
      }
    }
  }

  lemma Ceiling(x: nat, d: nat, load: int)
    requires d > 0 && WithinShare(load, d, x)
    ensures load <= (x + d - 1) / d
  {
    if load > 0 {
      assert load * d == d * (load - 1) + d;
      FloorAtLeast(load, x + d - 1, d);
    }
  }

  lemma {:induction false} PeakIsNat(run: seq<Event>)
    ensures Peak(run) >= 0
  {
    if run != [] {
      PeakIsNat(run[..|run| - 1]);
    }
  }

  /** With distinct endpoints and matched Dones, no endpoint ever carries more than its share,
      rounded up, of the highest total concurrency so far. */
  lemma PeakLoad(endpoints: seq<string>, run: seq<Event>, endpoint: string)
    requires endpoints != [] && Distinct(endpoints) && Matched(endpoints, run)
    ensures 0 <= Load(After(endpoints, run), endpoint) <= (Peak(run) + |endpoints| - 1) / |endpoints|
  {
    PeakIsNat(run);
    BelowPeakShare(endpoints, run, endpoint);
    CountsAreOutstanding(endpoints, run);
    Ceiling(Peak(run), |endpoints|, Load(After(endpoints, run), endpoint));
  }

  lemma BelowCeiling(x: nat, d: nat)
    requires d > 0
    ensures d * ((x + d - 1) / d - 1) < x || x == 0
  {
    var q := (x + d - 1) / d;
    assert d * (q - 1) == q * d - d;
  }

  /** No way of spreading the same total over as many endpoints has a smaller maximum. */
  lemma NoSpreadDoesBetter(loads: seq<int>, total: nat)
    requires loads != [] && Sum(loads) == total
    ensures exists i :: 0 <= i < |loads| && loads[i] >= (total + |loads| - 1) / |loads|
  {
    var n := |loads|;
    var share := (total + n - 1) / n;
    BelowCeiling(total, n);
    if total == 0 {
      Quotient(n - 1, n, 0, n - 1);
      if forall i :: 0 <= i < n ==> loads[i] <= -1 {
        SumAtMost(loads, -1);
      }
    } else if forall i :: 0 <= i < n ==> loads[i] <= share - 1 {
      SumAtMost(loads, share - 1);
    }
  }

  /** So the peak bound is no worse than any balancer's: whenever the total is at its peak, some
      endpoint carries exactly its share of it, rounded up. */
  lemma PeakLoadIsReached(endpoints: seq<string>, run: seq<Event>)
    requires endpoints != [] && Distinct(endpoints) && Matched(endpoints, run)
    requires Total(run) == Peak(run)
    ensures exists i :: 0 <= i < |endpoints| &&
              Load(After(endpoints, run), endpoints[i]) == (Peak(run) + |endpoints| - 1) / |endpoints|
  {
    var i := ShareIsReached(endpoints, run);
    PeakLoad(endpoints, run, endpoints[i]);
  }

  lemma ShareIsReached(endpoints: seq<string>, run: seq<Event>) returns (i: nat)
    requires endpoints != [] && Distinct(endpoints) && Matched(endpoints, run)
    requires Total(run) == Peak(run)
    ensures i < |endpoints| &&
            Load(After(endpoints, run), endpoints[i]) >= (Peak(run) + |endpoints| - 1) / |endpoints|
  {
    var loads := Loads(After(endpoints, run), endpoints);
    PeakIsNat(run);
    LoadsAddUp(endpoints, run);
    i := SomeAtLeastShare(loads, Peak(run));
  }

  lemma SomeAtLeastShare(loads: seq<int>, total: nat) returns (i: nat)
    requires loads != [] && Sum(loads) == total
    ensures i < |loads| && loads[i] >= (total + |loads| - 1) / |loads|
  {
    NoSpreadDoesBetter(loads, total);
    i :| i < |loads| && loads[i] >= (total + |loads| - 1) / |loads|;
  }
}
