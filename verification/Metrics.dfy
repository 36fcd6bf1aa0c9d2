/** The metric collectors, and what the buckets of a histogram mean. Counts are exact. */
module Metrics {
  import opened Prelude
  import opened Labels
  import SK = SortedKeys

  // ----- Counters

  function Key(labels: seq<string>): string {
    Join(labels, NUL)
  }

  function CountAt(values: map<string, nat>, key: string): nat {
    if key in values then values[key] else 0
  }

  function Inc(values: map<string, nat>, key: string): map<string, nat> {
    values[key := CountAt(values, key) + 1]
  }

  datatype Value = Whole(count: nat) | Measured(sum: real)

  /** A line of the exposition. */
  datatype Line = Line(name: string, labels: string, value: Value)

  /** The key has a label for every name, as the keys that Increment and Observe make have. */
  predicate Fits(names: seq<string>, key: string) {
    |names| <= |Split(key, NUL)|
  }

  /** The key's labels, each with its name. */
  function Pairs(names: seq<string>, key: string): seq<Pair>
    requires Fits(names, key)
  {
    Zip(names, Split(key, NUL))
  }

  class CounterVec {
    const names: seq<string>
    var values: map<string, nat>

    constructor (names: seq<string>)
      ensures values == map[] && this.names == names
    {
      this.names := names;
      values := map[];
    }

    method Increment(labels: seq<string>)
      modifies this
      ensures values == Inc(old(values), Key(labels))
    {
      var key := Join(labels, NUL);
      if key in values {
        values := values[key := values[key] + 1];
      } else {
        values := values[key := 1];
      }
    }

    /** One line for each key, the keys in ascending order. */
    method Render(name: string) returns (lines: seq<Line>)
      requires forall k :: k in values ==> Fits(names, k)
      ensures lines == CounterLines(name, names, values, SK.InOrder(values.Keys))
    {
      lines := [];
      var keys := SK.SortedKeys(values.Keys);
      for i := 0 to |keys|
        invariant lines == CounterLines(name, names, values, keys[..i])
      {
        CounterLinesNext(name, names, values, keys, i);
        var labels := Split(keys[i], NUL);
        var text := FormatLabels(names, labels);
        lines := lines + [Line(name, text, Whole(values[keys[i]]))];
      }
      assert keys[..|keys|] == keys;
    }
  }

  function CounterLines(name: string, names: seq<string>, values: map<string, nat>, keys: seq<string>):
    (lines: seq<Line>)
    requires forall i :: 0 <= i < |keys| ==> keys[i] in values && Fits(names, keys[i])
    ensures |lines| == |keys|
    ensures forall i :: 0 <= i < |lines| ==>
              lines[i] == Line(name, Block(Pairs(names, keys[i])), Whole(values[keys[i]]))
  {
    seq(|keys|, i requires 0 <= i < |keys| =>
      Line(name, Block(Pairs(names, keys[i])), Whole(values[keys[i]])))
  }

  lemma CounterLinesNext(name: string, names: seq<string>, values: map<string, nat>, keys: seq<string>, i: nat)
    requires i < |keys| && forall k :: 0 <= k < |keys| ==> keys[k] in values && Fits(names, keys[k])
    ensures CounterLines(name, names, values, keys[..i + 1])
         == CounterLines(name, names, values, keys[..i])
            + [Line(name, Block(Pairs(names, keys[i])), Whole(values[keys[i]]))]
  {}

  function Incremented(run: seq<seq<string>>): map<string, nat> {
    if run == [] then map[] else Inc(Incremented(run[..|run| - 1]), Key(run[|run| - 1]))
  }

  /** How often these labels were counted. */
  function TimesCounted(run: seq<seq<string>>, labels: seq<string>): nat {
    if run == [] then 0
    else TimesCounted(run[..|run| - 1], labels) + (if run[|run| - 1] == labels then 1 else 0)
  }

  /** Labels that a key can carry. */
  predicate Keyed(names: seq<string>, labels: seq<string>) {
    |labels| == |names| > 0 && forall i :: 0 <= i < |labels| ==> NUL !in labels[i]
  }

  predicate AllKeyed(names: seq<string>, run: seq<seq<string>>) {
    forall i :: 0 <= i < |run| ==> Keyed(names, run[i])
  }

  /** ... and that the text can carry as well. */
  predicate Carried(names: seq<string>, labels: seq<string>) {
    Keyed(names, labels) && forall i :: 0 <= i < |labels| ==> '"' !in labels[i]
  }

  lemma {:induction false} IncrementedCounts(names: seq<string>, run: seq<seq<string>>, labels: seq<string>)
    requires Keyed(names, labels) && AllKeyed(names, run)
    ensures CountAt(Incremented(run), Key(labels)) == TimesCounted(run, labels)
    ensures forall k :: k in Incremented(run) ==> exists i :: 0 <= i < |run| && k == Key(run[i])
  {
    if run != [] {
      var init := run[..|run| - 1];
      var last := run[|run| - 1];
      IncrementedCounts(names, init, labels);
      SplitJoin(labels, NUL);
      SplitJoin(last, NUL);
      forall k | k in Incremented(run)
        ensures exists i :: 0 <= i < |run| && k == Key(run[i])
      {
        if k in Incremented(init) {
          var i :| 0 <= i < |init| && k == Key(init[i]);
          assert k == Key(run[i]);
        } else {
          assert k == Key(run[|run| - 1]);
        }
      }
    }
  }

  /** The text of a line determines its key, if only first labels may have quotes in them. */
  lemma RowsAreDistinct(names: seq<string>, key: string, key': string)
    requires |Split(key, NUL)| == |Split(key', NUL)| == |names|
    requires QuotesFirstOnly(Split(key, NUL)) && QuotesFirstOnly(Split(key', NUL))
    requires Block(Zip(names, Split(key, NUL))) == Block(Zip(names, Split(key', NUL)))
    ensures key == key'
  {
    FirstMayQuote(names, Split(key, NUL), Split(key', NUL));
    JoinSplit(key, NUL);
    JoinSplit(key', NUL);
  }

  lemma KeysFit(names: seq<string>, run: seq<seq<string>>, key: string)
    requires AllKeyed(names, run) && key in Incremented(run)
    ensures Keyed(names, Split(key, NUL)) && Fits(names, key)
    ensures Split(key, NUL) in run && Key(Split(key, NUL)) == key
  {
    if run != [] {
      IncrementedCounts(names, run, run[0]);
      var i :| 0 <= i < |run| && key == Key(run[i]);
      SplitJoin(run[i], NUL);
    }
  }

  lemma AllKeysFit(names: seq<string>, run: seq<seq<string>>)
    requires AllKeyed(names, run)
    ensures forall k :: k in Incremented(run) ==> Fits(names, k)
  {
    forall k | k in Incremented(run)
      ensures Fits(names, k)
    {
      KeysFit(names, run, k);
    }
  }

  /** The lines rendered after some increments. */
  ghost function Exposition(name: string, names: seq<string>, run: seq<seq<string>>): seq<Line>
    requires AllKeyed(names, run)
  {
    AllKeysFit(names, run);
    CounterLines(name, names, Incremented(run), SK.InOrder(Incremented(run).Keys))
  }

  /** No two lines have the same label text, if only first labels may have quotes in them; and the
      gateway's other labels are methods and statuses. */
  lemma LinesAreDistinct(name: string, names: seq<string>, run: seq<seq<string>>)
    requires AllKeyed(names, run) && forall i :: 0 <= i < |run| ==> QuotesFirstOnly(run[i])
    ensures var lines := Exposition(name, names, run);
            forall i, j :: 0 <= i < j < |lines| ==> lines[i].labels != lines[j].labels
  {
    AllKeysFit(names, run);
    var keys := SK.InOrder(Incremented(run).Keys);
    var lines := Exposition(name, names, run);
    forall i, j | 0 <= i < j < |lines|
      ensures lines[i].labels != lines[j].labels
    {
      KeysFit(names, run, keys[i]);
      KeysFit(names, run, keys[j]);
      SK.Irreflexive(keys[i]);
      if lines[i].labels == lines[j].labels {
        RowsAreDistinct(names, keys[i], keys[j]);
      }
    }
  }

  /** After any increments, every line reads back as labels that were counted, with how often they
      were. */
  lemma RenderedCountersReadBack(name: string, names: seq<string>, run: seq<seq<string>>)
    requires forall i :: 0 <= i < |names| ==> '=' !in names[i]
    requires AllKeyed(names, run) && forall i :: 0 <= i < |run| ==> Carried(names, run[i])
    ensures var lines := Exposition(name, names, run);
            forall i :: 0 <= i < |lines| ==> SaysOf(names, run, lines[i])
  {
    AllKeysFit(names, run);
    var keys := SK.InOrder(Incremented(run).Keys);
    var lines := Exposition(name, names, run);
    forall i | 0 <= i < |lines|
      ensures SaysOf(names, run, lines[i])
    {
      assert keys[i] in Incremented(run);
      LineSays(name, names, run, keys[i]);
    }
  }

  /** The line reads back as labels of the run, with how often they were counted. */
  ghost predicate SaysOf(names: seq<string>, run: seq<seq<string>>, line: Line) {
    exists labels :: labels in run && |labels| == |names| &&
      ParseBlock(line.labels) == Some(Zip(names, labels)) && line.value == Whole(TimesCounted(run, labels))
  }

  lemma LineSays(name: string, names: seq<string>, run: seq<seq<string>>, key: string)
    requires forall i :: 0 <= i < |names| ==> '=' !in names[i]
    requires AllKeyed(names, run) && forall i :: 0 <= i < |run| ==> Carried(names, run[i])
    requires key in Incremented(run) && Fits(names, key)
    ensures SaysOf(names, run, Line(name, Block(Pairs(names, key)), Whole(Incremented(run)[key])))
  {
    KeysFit(names, run, key);
    var labels := Split(key, NUL);
    IncrementedCounts(names, run, labels);
    LabelsSurvive(names, labels);
    assert labels in run;
  }

  /** And all that was counted is there, whatever it was. */
  lemma AllCountedAreRendered(name: string, names: seq<string>, run: seq<seq<string>>, labels: seq<string>)
    requires AllKeyed(names, run) && labels in run && Keyed(names, labels)
    ensures Line(name, Block(Zip(names, labels)), Whole(TimesCounted(run, labels))) in Exposition(name, names, run)
  {
    AllKeysFit(names, run);
    var keys := SK.InOrder(Incremented(run).Keys);
    CountedIsStored(run, labels);
    IncrementedCounts(names, run, labels);
    SplitJoin(labels, NUL);
    assert Key(labels) in keys;
    var i :| 0 <= i < |keys| && keys[i] == Key(labels);
    assert Exposition(name, names, run)[i]
        == Line(name, Block(Pairs(names, keys[i])), Whole(Incremented(run)[keys[i]]));
  }

  lemma {:induction false} CountedIsStored(run: seq<seq<string>>, labels: seq<string>)
    requires labels in run
    ensures Key(labels) in Incremented(run)
  {
    if run[|run| - 1] != labels {
      CountedIsStored(run[..|run| - 1], labels);
    }
  }

  class Gauge {
    var value: int

    constructor ()
      ensures value == 0
    {
      value := 0;
    }

    method Inc()
      modifies this
      ensures value == old(value) + 1
    {
      value := value + 1;
    }

    method Dec()
      modifies this
      ensures value == old(value) - 1
    {
      value := value - 1;
    }
  }

  // ----- Histograms

  datatype Hist = Hist(count: nat, sum: real, buckets: map<real, nat>)

  const NO_OBSERVATIONS: Hist := Hist(0, 0.0, map[])

  function Bucket(buckets: map<real, nat>, bound: real): nat {
    if bound in buckets then buckets[bound] else 0
  }

  /** The buckets after an observation has been compared with every bound. */
  function Filled(buckets: map<real, nat>, bounds: seq<real>, val: real): map<real, nat> {
    if bounds == [] then buckets
    else
      var b := bounds[|bounds| - 1];
      var before := Filled(buckets, bounds[..|bounds| - 1], val);
      if val <= b then before[b := Bucket(before, b) + 1] else before
  }

  function Observed(h: Hist, bounds: seq<real>, val: real): Hist {
    Hist(h.count + 1, h.sum + val, Filled(h.buckets, bounds, val))
  }

  function HistAt(values: map<string, Hist>, key: string): Hist {
    if key in values then values[key] else NO_OBSERVATIONS
  }

  class Histogram {
    var count: nat
    var sum: real
    var buckets: map<real, nat>

    constructor ()
      ensures View() == NO_OBSERVATIONS
    {
      count := 0;
      sum := 0.0;
      buckets := map[];
    }

    ghost function View(): Hist
      reads this
    {
      Hist(count, sum, buckets)
    }

    /** The part of Observe that updates the histogram it found. */
    method Add(val: real, bounds: seq<real>)
      modifies this
      ensures View() == Observed(old(View()), bounds, val)
    {
      count := count + 1;
      sum := sum + val;
      for i := 0 to |bounds|
        invariant count == old(count) + 1 && sum == old(sum) + val
        invariant buckets == Filled(old(buckets), bounds[..i], val)
      {
        assert bounds[..i + 1][..i] == bounds[..i];
        if val <= bounds[i] {
          buckets := buckets[bounds[i] := Bucket(buckets, bounds[i]) + 1];
        }
      }
      assert bounds[..|bounds|] == bounds;
    }
  }

  class HistogramVec {
    const names: seq<string>
    const bounds: seq<real>
    var values: map<string, Histogram>

    ghost predicate Valid()
      reads this
    {
      forall k, k' :: k in values && k' in values && k != k' ==> values[k] != values[k']
    }

    ghost function View(): map<string, Hist>
      reads this, values.Values
    {
      map k | k in values :: values[k].View()
    }

    constructor (bounds: seq<real>, names: seq<string>)
      ensures Valid() && View() == map[] && this.bounds == bounds && this.names == names
    {
      this.names := names;
      this.bounds := bounds;
      values := map[];
    }

    method Observe(val: real, labels: seq<string>)
      requires Valid()
      modifies this, values.Values
      ensures Valid() && fresh(values.Values - old(values.Values))
      ensures var key := Key(labels);
              View() == old(View())[key := Observed(HistAt(old(View()), key), bounds, val)]
    {
      var key := Join(labels, NUL);
      if key !in values {
        var anew := new Histogram();
        values := values[key := anew];
      }
      values[key].Add(val, bounds);
    }

    /** The lines of one histogram: its buckets, +Inf among them, its sum and its count. */
    method RenderOne(name: string, key: string, h: Histogram, show: real -> string) returns (lines: seq<Line>)
      requires Fits(names, key)
      ensures lines == HistLines(name, names, bounds, key, h.View(), show)
    {
      var labels := Split(key, NUL);
      lines := [];
      for i := 0 to |bounds|
        invariant lines == BucketLines(name, names, bounds[..i], key, h.View(), show)
      {
        var text := MergeLabels(names, labels, "le", show(bounds[i]));
        lines := lines + [Line(name + "_bucket", text, Whole(Bucket(h.buckets, bounds[i])))];
      }
      assert bounds[..|bounds|] == bounds;
      var inf := MergeLabels(names, labels, "le", "+Inf");
      var text := FormatLabels(names, labels);
      lines := lines + [Line(name + "_bucket", inf, Whole(h.count))];
      lines := lines + [Line(name + "_sum", text, Measured(h.sum))];
      lines := lines + [Line(name + "_count", text, Whole(h.count))];
    }

    /** The lines of every key's histogram, the keys in ascending order. `show` prints a bound. */
    method Render(name: string, show: real -> string) returns (lines: seq<Line>)
      requires Valid() && forall k :: k in values ==> Fits(names, k)
      ensures var view := View();
              var keys := SK.InOrder(view.Keys);
              Listable(names, view, keys) && lines == AllHistLines(name, names, bounds, view, keys, |keys|, show)
    {
      lines := [];
      ghost var view := View();
      var keys := SK.SortedKeys(values.Keys);
      assert view.Keys == values.Keys;
      assert Listable(names, view, keys);
      for i := 0 to |keys|
        invariant View() == view
        invariant lines == AllHistLines(name, names, bounds, view, keys, i, show)
      {
        var some := RenderOne(name, keys[i], values[keys[i]], show);
        NextKey(name, names, bounds, view, keys, i, show);
        lines := lines + some;
      }
    }
  }

  ghost predicate Listable(names: seq<string>, values: map<string, Hist>, keys: seq<string>) {
    forall i :: 0 <= i < |keys| ==> keys[i] in values && Fits(names, keys[i])
  }

  lemma NextKey(
      name: string, names: seq<string>, bounds: seq<real>, values: map<string, Hist>, keys: seq<string>, i: nat,
      show: real -> string)
    requires Listable(names, values, keys) && i < |keys|
    ensures AllHistLines(name, names, bounds, values, keys, i + 1, show)
         == AllHistLines(name, names, bounds, values, keys, i, show)
            + HistLines(name, names, bounds, keys[i], values[keys[i]], show)
  {}

  function BucketLines(
      name: string, names: seq<string>, bounds: seq<real>, key: string, h: Hist, show: real -> string):
    (lines: seq<Line>)
    requires Fits(names, key)
    ensures |lines| == |bounds|
    ensures forall i :: 0 <= i < |bounds| ==>
              lines[i] == Line(name + "_bucket", Block(Pairs(names, key) + [("le", show(bounds[i]))]),
                               Whole(Bucket(h.buckets, bounds[i])))
  {
    seq(|bounds|, i requires 0 <= i < |bounds| =>
      Line(name + "_bucket", Block(Pairs(names, key) + [("le", show(bounds[i]))]),
           Whole(Bucket(h.buckets, bounds[i]))))
  }

  function HistLines(
      name: string, names: seq<string>, bounds: seq<real>, key: string, h: Hist, show: real -> string): seq<Line>
    requires Fits(names, key)
  {
    var pairs := Pairs(names, key);
    BucketLines(name, names, bounds, key, h, show) +
    [Line(name + "_bucket", Block(pairs + [("le", "+Inf")]), Whole(h.count)),
     Line(name + "_sum", Block(pairs), Measured(h.sum)),
     Line(name + "_count", Block(pairs), Whole(h.count))]
  }

  /** The lines of the first `n` keys. */
  ghost function AllHistLines(
      name: string, names: seq<string>, bounds: seq<real>, values: map<string, Hist>, keys: seq<string>, n: nat,
      show: real -> string): seq<Line>
    requires n <= |keys| && Listable(names, values, keys)
  {
    if n == 0 then []
    else
      AllHistLines(name, names, bounds, values, keys, n - 1, show) +
      HistLines(name, names, bounds, keys[n - 1], values[keys[n - 1]], show)
  }

  /** The collectors serveRoute updates, each under its own lock. */
  class Registry {
    const requestsTotal: CounterVec
    const requestDuration: HistogramVec
    const activeConnections: Gauge
    const rateLimitRejections: CounterVec

    constructor ()
      ensures fresh(requestsTotal) && fresh(requestDuration) && requestDuration.Valid()
      ensures fresh(activeConnections) && fresh(rateLimitRejections) && rateLimitRejections != requestsTotal
      ensures requestsTotal.values == map[] && requestDuration.View() == map[]
      ensures activeConnections.value == 0 && rateLimitRejections.values == map[]
      ensures requestDuration.bounds == DEFAULT_BUCKETS
    {
      activeConnections := new Gauge();
      rateLimitRejections := new CounterVec(["route"]);
      requestsTotal := new CounterVec(["route", "method", "status_code"]);
      requestDuration := new HistogramVec(DEFAULT_BUCKETS, ["route", "method"]);
    }

    method RecordRequest(route: string, verb: string, statusCode: string, seconds: real)
      requires requestDuration.Valid()
      modifies requestsTotal, requestDuration, requestDuration.values.Values
      ensures requestDuration.Valid()
      ensures requestsTotal.values == Inc(old(requestsTotal.values), Key([route, verb, statusCode]))
      ensures var key := Key([route, verb]);
              requestDuration.View() == old(requestDuration.View())[
                key := Observed(HistAt(old(requestDuration.View()), key), requestDuration.bounds, seconds)]
    {
      requestsTotal.Increment([route, verb, statusCode]);
      requestDuration.Observe(seconds, [route, verb]);
    }

    method RecordRateLimitRejection(route: string)
      modifies rateLimitRejections
      ensures rateLimitRejections.values == Inc(old(rateLimitRejections.values), Key([route]))
    {
      rateLimitRejections.Increment([route]);
    }
  }

  const DEFAULT_BUCKETS: seq<real> := [0.005, 0.01, 0.025, 0.05, 0.1, 0.25, 0.5, 1.0, 2.5, 5.0, 10.0]

  // ----- Runs of observations

  datatype Observation = Observation(key: string, val: real)

  function After(bounds: seq<real>, run: seq<Observation>): map<string, Hist> {
    if run == [] then map[]
    else
      var values := After(bounds, run[..|run| - 1]);
      var o := run[|run| - 1];
      values[o.key := Observed(HistAt(values, o.key), bounds, o.val)]
  }

  /** Observations of the key no greater than the bound. */
  function AtOrBelow(run: seq<Observation>, key: string, bound: real): nat {
    if run == [] then 0
    else
      var o := run[|run| - 1];
      AtOrBelow(run[..|run| - 1], key, bound) + (if o.key == key && o.val <= bound then 1 else 0)
  }

  function CountOf(run: seq<Observation>, key: string): nat {
    if run == [] then 0
    else CountOf(run[..|run| - 1], key) + (if run[|run| - 1].key == key then 1 else 0)
  }

  /** The sum of what was observed under the key. */
  function SumOf(run: seq<Observation>, key: string): real {
    if run == [] then 0.0
    else SumOf(run[..|run| - 1], key) + (if run[|run| - 1].key == key then run[|run| - 1].val else 0.0)
  }

  function Occurrences(bounds: seq<real>, b: real): nat {
    if bounds == [] then 0
    else Occurrences(bounds[..|bounds| - 1], b) + (if bounds[|bounds| - 1] == b then 1 else 0)
  }

  lemma {:induction false} FilledAt(buckets: map<real, nat>, bounds: seq<real>, val: real, b: real)
    ensures Bucket(Filled(buckets, bounds, val), b)
         == Bucket(buckets, b) + (if val <= b then Occurrences(bounds, b) else 0)
  {
    if bounds != [] {
      FilledAt(buckets, bounds[..|bounds| - 1], val, b);
    }
  }

  /** For any bounds and any observations of any keys: a bucket holds the number of observations of
      its key at or below its bound, times how often the bound is listed; the count and the sum are
      those of its key's observations. */
  lemma {:induction false} BucketsCount(bounds: seq<real>, run: seq<Observation>, key: string, b: real)
    ensures var h := HistAt(After(bounds, run), key);
            && Bucket(h.buckets, b) == Occurrences(bounds, b) * AtOrBelow(run, key, b)
            && h.count == CountOf(run, key)
            && h.sum == SumOf(run, key)
  {
    if run != [] {
      var init := run[..|run| - 1];
      var o := run[|run| - 1];
      BucketsCount(bounds, init, key, b);
      FilledAt(HistAt(After(bounds, init), key).buckets, bounds, o.val, b);
      assert Occurrences(bounds, b) * (AtOrBelow(init, key, b) + 1)
          == Occurrences(bounds, b) * AtOrBelow(init, key, b) + Occurrences(bounds, b);
    }
  }

  ghost predicate Ascending(bounds: seq<real>) {
    forall i, j :: 0 <= i < j < |bounds| ==> bounds[i] < bounds[j]
  }

  lemma {:induction false} ListedOnce(bounds: seq<real>, i: nat)
    requires Ascending(bounds) && i < |bounds|
    ensures Occurrences(bounds, bounds[i]) == 1
  {
    var n := |bounds| - 1;
    if i == n {
      NotListed(bounds[..n], bounds[n]);
    } else {
      ListedOnce(bounds[..n], i);
    }
  }

  lemma {:induction false} NotListed(bounds: seq<real>, b: real)
    requires forall i :: 0 <= i < |bounds| ==> bounds[i] != b
    ensures Occurrences(bounds, b) == 0
  {
    if bounds != [] {
      NotListed(bounds[..|bounds| - 1], b);
    }
  }

  lemma {:induction false} AtOrBelowMonotone(run: seq<Observation>, key: string, b: real, b': real)
    requires b <= b'
    ensures AtOrBelow(run, key, b) <= AtOrBelow(run, key, b') <= CountOf(run, key)
  {
    if run != [] {
      AtOrBelowMonotone(run[..|run| - 1], key, b, b');
    }
  }

  lemma DefaultsAscend()
    ensures Ascending(DEFAULT_BUCKETS)
  {}

  /** What one key's histogram says, with strictly ascending bounds. */
  lemma HistogramTells(bounds: seq<real>, run: seq<Observation>, key: string, i: nat)
    requires Ascending(bounds) && i < |bounds|
    ensures var h := HistAt(After(bounds, run), key);
            && h.count == CountOf(run, key) && h.sum == SumOf(run, key)
            && Bucket(h.buckets, bounds[i]) == AtOrBelow(run, key, bounds[i])
  {
    BucketsCount(bounds, run, key, bounds[i]);
    ListedOnce(bounds, i);
  }

  /** With strictly ascending bounds, what is rendered for a key is cumulative: each bucket line says
      how many observations are at or below its bound, the bucket lines do not decrease, and the last
      of them, +Inf, and the count line say how many observations there are; the sum line says their
      sum. Every line has its own name and the key's labels. */
  lemma RenderedCumulative(
      name: string, names: seq<string>, bounds: seq<real>, run: seq<Observation>, key: string, show: real -> string)
    requires Ascending(bounds) && Fits(names, key)
    ensures var lines := HistLines(name, names, bounds, key, HistAt(After(bounds, run), key), show);
            var pairs := Zip(names, Split(key, NUL));
            var n := |bounds|;
            && |lines| == n + 3
            && (forall i :: 0 <= i < n ==>
                  lines[i] == Line(name + "_bucket", Block(pairs + [("le", show(bounds[i]))]),
                                   Whole(AtOrBelow(run, key, bounds[i]))))
            && (forall i, j :: 0 <= i < j < n ==> AtOrBelow(run, key, bounds[i]) <= AtOrBelow(run, key, bounds[j]))
            && (forall i :: 0 <= i < n ==> AtOrBelow(run, key, bounds[i]) <= CountOf(run, key))
            && lines[n] == Line(name + "_bucket", Block(pairs + [("le", "+Inf")]), Whole(CountOf(run, key)))
            && lines[n + 1] == Line(name + "_sum", Block(pairs), Measured(SumOf(run, key)))
            && lines[n + 2] == Line(name + "_count", Block(pairs), Whole(CountOf(run, key)))
  {
    var h := HistAt(After(bounds, run), key);
    forall i | 0 <= i < |bounds|
      ensures Bucket(h.buckets, bounds[i]) == AtOrBelow(run, key, bounds[i]) <= CountOf(run, key)
    {
      BucketsCount(bounds, run, key, bounds[i]);
      ListedOnce(bounds, i);
      AtOrBelowMonotone(run, key, bounds[i], bounds[i]);
    }
    BucketsCount(bounds, run, key, 0.0);
    forall i, j | 0 <= i < j < |bounds|
      ensures AtOrBelow(run, key, bounds[i]) <= AtOrBelow(run, key, bounds[j])
    {
      AtOrBelowMonotone(run, key, bounds[i], bounds[j]);
    }
  }

  /** `part` is the i-th of the pieces of `lines`, each so long. */
  predicate InPlace(lines: seq<Line>, i: nat, each: nat, part: seq<Line>) {
    i * each + each <= |lines| && lines[i * each..i * each + each] == part
  }

  lemma StillInPlace(lines: seq<Line>, more: seq<Line>, i: nat, each: nat, part: seq<Line>)
    requires InPlace(lines, i, each, part)
    ensures InPlace(lines + more, i, each, part)
  {}

  lemma LastInPlace(lines: seq<Line>, last: seq<Line>, n: nat, each: nat)
    requires |lines| == n * each && |last| == each
    ensures InPlace(lines + last, n, each, last) && |lines + last| == (n + 1) * each
  {
    OneMore(n, each);
    assert (lines + last)[|lines|..] == last;
  }

  /** Each of the first `n` keys has its lines, in the place its order gives it, and there are no
      others. */
  ghost predicate KeyByKey(
      lines: seq<Line>, name: string, names: seq<string>, bounds: seq<real>, values: map<string, Hist>,
      keys: seq<string>, n: nat, show: real -> string)
    requires n <= |keys| && Listable(names, values, keys)
  {
    && |lines| == n * (|bounds| + 3)
    && forall i :: 0 <= i < n ==>
         InPlace(lines, i, |bounds| + 3, HistLines(name, names, bounds, keys[i], values[keys[i]], show))
  }

  lemma NextKeyInPlace(
      init: seq<Line>, name: string, names: seq<string>, bounds: seq<real>, values: map<string, Hist>,
      keys: seq<string>, n: nat, show: real -> string)
    requires n < |keys| && Listable(names, values, keys)
    requires KeyByKey(init, name, names, bounds, values, keys, n, show)
    ensures KeyByKey(init + HistLines(name, names, bounds, keys[n], values[keys[n]], show),
                     name, names, bounds, values, keys, n + 1, show)
  {
    var last := HistLines(name, names, bounds, keys[n], values[keys[n]], show);
    LastInPlace(init, last, n, |bounds| + 3);
    forall i | 0 <= i < n
      ensures InPlace(init + last, i, |bounds| + 3, HistLines(name, names, bounds, keys[i], values[keys[i]], show))
    {
      StillInPlace(init, last, i, |bounds| + 3, HistLines(name, names, bounds, keys[i], values[keys[i]], show));
    }
  }

  lemma {:induction false} EveryKeyHasItsLines(
      name: string, names: seq<string>, bounds: seq<real>, values: map<string, Hist>, keys: seq<string>, n: nat,
      show: real -> string)
    requires n <= |keys| && Listable(names, values, keys)
    ensures KeyByKey(AllHistLines(name, names, bounds, values, keys, n, show),
                     name, names, bounds, values, keys, n, show)
  {
    if n > 0 {
      EveryKeyHasItsLines(name, names, bounds, values, keys, n - 1, show);
      NextKeyInPlace(AllHistLines(name, names, bounds, values, keys, n - 1, show),
                     name, names, bounds, values, keys, n - 1, show);
    }
  }
}
