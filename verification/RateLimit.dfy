/**
 The in-memory fixed-window limiter: the object the gateway updates in place, the function it
 refines, and what holds of every run of calls and background cleanups.
 */
module RateLimit {
  import opened Prelude
  import opened Windows

  datatype Entry = Entry(count: nat, resetAt: int)
  type Entries = map<string, Entry>

  /** A route's rate-limit configuration. */
  datatype LimitCfg = LimitCfg(enabled: bool, requests: int, window: int)

  datatype Verdict = Verdict(allowed: bool, remaining: nat, reset: nat)

  /** The entry a call at `now` still sees: an entry counts until the clock is past its reset. */
  function Live(m: Entries, key: string, now: int): Option<Entry> {
    if key in m && now <= m[key].resetAt then Some(m[key]) else None
  }

  /** The entry a call leaves behind. */
  function Touch(live: Option<Entry>, window: int, now: int): Entry {
    match live
    case None => Entry(1, now + window)
    case Some(e) => Entry(e.count + 1, e.resetAt)
  }

  /** The answer given from that entry; the clock is read again, at `later`, for the reset. */
  function Judge(e: Entry, limit: int, later: int): Verdict {
    Verdict(e.count <= limit, Max(0, limit - e.count), Max(0, e.resetAt - later))
  }

  function Unexpired(m: Entries, now: int): Entries {
    map k | k in m && now <= m[k].resetAt :: m[k]
  }

  class MemoryEntry {
    var count: nat
    var resetAt: int

    constructor (resetAt: int)
      ensures this.count == 0 && this.resetAt == resetAt
    {
      this.count := 0;
      this.resetAt := resetAt;
    }
  }

  class MemoryLimiter {
    var entries: map<string, MemoryEntry>

    /** Every key has an entry of its own. */
    ghost predicate Valid()
      reads this
    {
      forall k, k' :: k in entries && k' in entries && k != k' ==> entries[k] != entries[k']
    }

    ghost function View(): Entries
      reads this, entries.Values
    {
      map k | k in entries :: Entry(entries[k].count, entries[k].resetAt)
    }

    constructor ()
      ensures Valid() && View() == map[]
    {
      entries := map[];
    }

    method Allow(routeID: string, clientID: string, limit: int, window: int, now: int, later: int)
      returns (allowed: bool, remaining: nat, reset: nat)
      requires Valid()
      modifies this, entries.Values
      ensures Valid() && fresh(entries.Values - old(entries.Values))
      ensures var key := JoinKey(routeID, clientID);
              var e := Touch(Live(old(View()), key, now), window, now);
              && View() == old(View())[key := e]
              && Verdict(allowed, remaining, reset) == Judge(e, limit, later)
    {
      var key := routeID + ":" + clientID;
      if key !in entries || now > entries[key].resetAt {
        var anew := new MemoryEntry(now + window);
        entries := entries[key := anew];
      }
      var entry := entries[key];
      entry.count := entry.count + 1;
      var left := limit - entry.count;
      if left < 0 {
        left := 0;
      }
      var until := entry.resetAt - later;
      if until < 0 {
        until := 0;
      }
      if entry.count <= limit {
        return true, left, until;
      }
      return false, 0, until;
    }

    method CleanExpired(now: int)
      requires Valid()
      modifies this
      ensures Valid() && entries.Values <= old(entries.Values)
      ensures View() == Unexpired(old(View()), now)
    {
      var todo := entries.Keys;
      while todo != {}
        invariant todo <= entries.Keys <= old(entries).Keys
        invariant forall k :: k in entries ==> entries[k] == old(entries)[k]
        invariant forall k :: k in old(entries) && k !in todo ==>
                    (k in entries <==> now <= old(entries)[k].resetAt)
      {
        var k :| k in todo;
        if now > entries[k].resetAt {
          entries := entries - {k};
        }
        todo := todo - {k};
      }
    }
  }

  // ----- Runs

  datatype Event =
    | Call(key: string, limit: int, window: int, now: int, later: int)
    | Clean(now: int)

  function Step(m: Entries, e: Event): Entries {
    match e
    case Call(key, _, window, now, _) => m[key := Touch(Live(m, key, now), window, now)]
    case Clean(now) => Unexpired(m, now)
  }

  function Answer(m: Entries, e: Event): Verdict
    requires e.Call?
  {
    Judge(Touch(Live(m, e.key, e.now), e.window, e.now), e.limit, e.later)
  }

  /** What the callers see over a run. */
  function Answers(m: Entries, run: seq<Event>): seq<Verdict>
    decreases |run|
  {
    if run == [] then []
    else (if run[0].Call? then [Answer(m, run[0])] else []) + Answers(Step(m, run[0]), run[1..])
  }

  /** The state at the end of a run. */
  function Final(m: Entries, run: seq<Event>): Entries
    decreases |run|
  {
    if run == [] then m else Final(Step(m, run[0]), run[1..])
  }

  /** The clock is read under the lock, so it never runs backwards along a run. */
  ghost predicate Clocked(run: seq<Event>) {
    && (forall i :: 0 <= i < |run| && run[i].Call? ==> run[i].now <= run[i].later)
    && (forall i, j :: 0 <= i < j < |run| ==> run[i].now <= run[j].now)
  }

  // ----- Cleanup is invisible

  function WithoutCleans(run: seq<Event>): seq<Event> {
    if run == [] then []
    else (if run[0].Call? then [run[0]] else []) + WithoutCleans(run[1..])
  }

  /** From `now` on, nobody can tell the two maps apart. */
  ghost predicate Alike(m: Entries, m': Entries, now: int) {
    forall key :: Live(m, key, now) == Live(m', key, now)
  }

  lemma AlikeLater(m: Entries, m': Entries, now: int, later: int)
    requires Alike(m, m', now) && now <= later
    ensures Alike(m, m', later)
  {
    forall key
      ensures Live(m, key, later) == Live(m', key, later)
    {
      assert Live(m, key, now) == Live(m', key, now);
    }
  }

  /** One step of the bisimulation. */
  lemma AlikeStep(m: Entries, m': Entries, e: Event)
    requires Alike(m, m', e.now)
    ensures e.Clean? ==> Alike(Step(m, e), m', e.now)
    ensures e.Call? ==> Alike(Step(m, e), Step(m', e), e.now) && Answer(m, e) == Answer(m', e)
  {
    if e.Call? {
      assert Live(m, e.key, e.now) == Live(m', e.key, e.now);
      forall key
        ensures Live(Step(m, e), key, e.now) == Live(Step(m', e), key, e.now)
      {
        assert Live(m, key, e.now) == Live(m', key, e.now);
      }
    } else {
      forall key
        ensures Live(Step(m, e), key, e.now) == Live(m', key, e.now)
      {
        assert Live(m, key, e.now) == Live(m', key, e.now);
      }
    }
  }

  lemma {:induction false} CleanupInvisibleFrom(m: Entries, m': Entries, run: seq<Event>)
    requires Clocked(run) && (run != [] ==> Alike(m, m', run[0].now))
    ensures Answers(m, run) == Answers(m', WithoutCleans(run))
    decreases |run|
  {
    if run != [] {
      var e := run[0];
      var tail := run[1..];
      var after := if e.Call? then Step(m', e) else m';
      AlikeStep(m, m', e);
      if tail != [] {
        AlikeLater(Step(m, e), after, e.now, tail[0].now);
      }
      CleanupInvisibleFrom(Step(m, e), after, tail);
      if e.Call? {
        var calls := WithoutCleans(run);
        assert calls == [e] + WithoutCleans(tail);
        assert calls[0] == e && calls[1..] == WithoutCleans(tail);
      } else {
        assert WithoutCleans(run) == WithoutCleans(tail);
        assert Answers(m, run) == Answers(Step(m, e), tail);
      }
    }
  }

  /** Whatever cleanups are inserted, and wherever, callers get the same answers. */
  lemma CleanupIsInvisible(m: Entries, run: seq<Event>, run': seq<Event>)
    requires Clocked(run) && Clocked(run')
    requires WithoutCleans(run) == WithoutCleans(run')
    ensures Answers(m, run) == Answers(m, run')
  {
    CleanupInvisibleFrom(m, m, run);
    CleanupInvisibleFrom(m, m, run');
  }

  // ----- Cleanup bounds the map

  lemma {:induction false} EntriesComeFromCalls(run: seq<Event>, key: string)
    requires key in Final(map[], run)
    ensures exists i :: 0 <= i < |run| && run[i].Call? && run[i].key == key
                     && Final(map[], run)[key].resetAt == run[i].now + run[i].window
    decreases |run|
  {
    var n := |run| - 1;
    if run == [] {
      assert false;
    }
    FinalSnoc(map[], run[..n], run[n]);
    assert run == run[..n] + [run[n]];
    var before := Final(map[], run[..n]);
    if !(run[n].Call? && run[n].key == key && Live(before, key, run[n].now).None?) {
      EntriesComeFromCalls(run[..n], key);
      var i :| 0 <= i < n && run[..n][i].Call? && run[..n][i].key == key
            && before[key].resetAt == run[..n][i].now + run[..n][i].window;
      assert run[i] == run[..n][i];
    }
  }

  lemma {:induction false} FinalSnoc(m: Entries, run: seq<Event>, e: Event)
    ensures Final(m, run + [e]) == Step(Final(m, run), e)
    decreases |run|
  {
    if run == [] {
      assert [e][1..] == [];
      assert run + [e] == [e];
      assert Final(m, [e]) == Final(Step(m, e), []);
    } else {
      FinalSnoc(Step(m, run[0]), run[1..], e);
      assert (run + [e])[1..] == run[1..] + [e];
    }
  }

  /** Keys called no longer than `longest` before `now`. */
  function RecentKeys(run: seq<Event>, longest: int, now: int): set<string> {
    set i | 0 <= i < |run| && run[i].Call? && now - longest <= run[i].now :: run[i].key
  }

  /** After a cleanup the map holds at most one entry per recently called key. */
  lemma CleanupBoundsMap(run: seq<Event>, longest: int, now: int)
    requires forall i :: 0 <= i < |run| && run[i].Call? ==> run[i].window <= longest
    ensures var m := Final(map[], run + [Clean(now)]);
            m.Keys <= RecentKeys(run, longest, now) && |m| <= |RecentKeys(run, longest, now)|
  {
    FinalSnoc(map[], run, Clean(now));
    var m := Final(map[], run + [Clean(now)]);
    forall key | key in m
      ensures key in RecentKeys(run, longest, now)
    {
      EntriesComeFromCalls(run, key);
    }
    SubsetSize(m.Keys, RecentKeys(run, longest, now));
    assert |m| == |m.Keys|;
  }

  lemma {:induction false} SubsetSize<T>(a: set<T>, b: set<T>)
    requires a <= b
    ensures |a| <= |b|
  {
    assert b == a + (b - a);
  }

  // ----- Interval bound

  /** The decisions about one key within a run on many keys. */
  function Decisions(m: Entries, run: seq<Event>, key: string): seq<Decision>
    decreases |run|
  {
    if run == [] then []
    else
      var e := run[0];
      (if e.Call? && e.key == key
       then [Decision(e.now, Live(m, key, e.now).None?, Answer(m, e).allowed)] else [])
      + Decisions(Step(m, e), run[1..], key)
  }

  /** Every call on the key is made under the same limit and window. */
  ghost predicate Configured(run: seq<Event>, key: string, limit: int, width: int) {
    forall i :: 0 <= i < |run| && run[i].Call? && run[i].key == key ==>
      run[i].limit == limit && run[i].window == width
  }

  /** The abstract window a map entry stands for; an entry cleaned away has expired. */
  ghost predicate Represents(m: Entries, key: string, w: Window, width: int, now: int) {
    if key in m then w == Running(m[key].resetAt - width, m[key].count)
    else w.Running? ==> now > w.start + width
  }

  lemma {:induction false} DecisionsOrdered(m: Entries, run: seq<Event>, key: string)
    requires Clocked(run)
    ensures var ds := Decisions(m, run, key);
            Ordered(ds) && forall i :: 0 <= i < |ds| ==> run != [] && run[0].now <= ds[i].now
    decreases |run|
  {
    if run != [] {
      var e := run[0];
      DecisionsOrdered(Step(m, e), run[1..], key);
      assert run[1..] != [] ==> e.now <= run[1..][0].now;
    }
  }

  lemma {:induction false} DecisionsWindowed(
      m: Entries, w: Window, run: seq<Event>, key: string, limit: int, width: int)
    requires Clocked(run) && Configured(run, key, limit, width)
    requires run != [] ==> Represents(m, key, w, width, run[0].now)
    ensures Windowed(w, Decisions(m, run, key), limit, width)
    decreases |run|
  {
    if run != [] {
      var e := run[0];
      var tail := run[1..];
      var rest := Decisions(Step(m, e), tail, key);
      assert Configured(tail, key, limit, width) by {
        assert forall i :: 0 <= i < |tail| ==> tail[i] == run[i + 1];
      }
      if e.Call? && e.key == key {
        var d := Decision(e.now, Live(m, key, e.now).None?, Answer(m, e).allowed);
        DecisionsWindowed(Step(m, e), Advance(w, d), tail, key, limit, width);
        assert Decisions(m, run, key) == [d] + rest;
        assert ([d] + rest)[1..] == rest;
      } else {
        DecisionsWindowed(Step(m, e), w, tail, key, limit, width);
        assert Decisions(m, run, key) == rest;
      }
    }
  }

  lemma DecisionsCons(m: Entries, e: Event, rest: seq<Event>, key: string)
    ensures Decisions(m, [e] + rest, key) == Decisions(m, [e], key) + Decisions(Step(m, e), rest, key)
    ensures Final(m, [e] + rest) == Final(Step(m, e), rest)
  {
    assert ([e] + rest)[1..] == rest && [e][1..] == [];
    assert Decisions(Step(m, e), [], key) == [];
  }

  lemma {:induction false} DecisionsAppend(m: Entries, run: seq<Event>, run': seq<Event>, key: string)
    ensures Decisions(m, run + run', key) == Decisions(m, run, key) + Decisions(Final(m, run), run', key)
    ensures Final(m, run + run') == Final(Final(m, run), run')
    decreases |run|
  {
    if run == [] {
      assert run + run' == run';
    } else {
      assert run == [run[0]] + run[1..] && run + run' == [run[0]] + (run[1..] + run');
      DecisionsCons(m, run[0], run[1..], key);
      DecisionsCons(m, run[0], run[1..] + run', key);
      DecisionsAppend(Step(m, run[0]), run[1..], run', key);
    }
  }

  /** In any half-open interval of length m * width, at most (m + 1) * limit - 1 calls on a key
      are allowed (none when limit <= 0), whatever other keys and cleanups do. */
  lemma IntervalBound(run: seq<Event>, key: string, limit: int, width: int, from: int, m: nat)
    requires width > 0 && m > 0 && Clocked(run) && Configured(run, key, limit, width)
    ensures AllowedIn(Decisions(map[], run, key), from, from + m * width) <= MostIn(limit, m)
  {
    DecisionsWindowed(map[], Idle, run, key, limit, width);
    DecisionsOrdered(map[], run, key);
    AllowedInInterval(Idle, Decisions(map[], run, key), limit, width, from, m);
  }

  // ----- Isolation

  function OnlyKey(run: seq<Event>, key: string): seq<Event> {
    if run == [] then []
    else (if run[0].Call? && run[0].key == key then [run[0]] else []) + OnlyKey(run[1..], key)
  }

  function AnswersTo(m: Entries, run: seq<Event>, key: string): seq<Verdict>
    decreases |run|
  {
    if run == [] then []
    else
      var head := if run[0].Call? && run[0].key == key then [Answer(m, run[0])] else [];
      head + AnswersTo(Step(m, run[0]), run[1..], key)
  }

  lemma {:induction false} AnswersDependOnKey(m: Entries, m': Entries, run: seq<Event>, key: string)
    requires Clocked(run) && (run != [] ==> Live(m, key, run[0].now) == Live(m', key, run[0].now))
    ensures AnswersTo(m, run, key) == Answers(m', OnlyKey(run, key))
    decreases |run|
  {
    if run != [] {
      var e := run[0];
      var tail := run[1..];
      if e.Call? && e.key == key {
        AnswersDependOnKey(Step(m, e), Step(m', e), tail, key);
        var mine := OnlyKey(run, key);
        assert mine == [e] + OnlyKey(tail, key);
        assert mine[0] == e && mine[1..] == OnlyKey(tail, key);
      } else {
        AnswersDependOnKey(Step(m, e), m', tail, key);
        assert OnlyKey(run, key) == OnlyKey(tail, key);
        assert AnswersTo(m, run, key) == AnswersTo(Step(m, e), tail, key);
      }
    }
  }

  /** The answers to calls under one joined key are those of a limiter that sees no other key and
      no cleanup. Whose calls share a key is up to the joining: see GatewayLimiter. */
  lemma KeysAreIsolated(run: seq<Event>, key: string)
    requires Clocked(run)
    ensures AnswersTo(map[], run, key) == Answers(map[], OnlyKey(run, key))
  {
    AnswersDependOnKey(map[], map[], run, key);
  }

  lemma {:induction false} OnlyKeySnoc(run: seq<Event>, e: Event, key: string)
    ensures OnlyKey(run + [e], key) == OnlyKey(run, key) + if e.Call? && e.key == key then [e] else []
  {
    if run == [] {
      assert [e][1..] == [] && run + [e] == [e];
    } else {
      assert (run + [e])[1..] == run[1..] + [e];
      OnlyKeySnoc(run[1..], e, key);
    }
  }

  // ----- What the answers mean

  function CallsOn(run: seq<Event>, key: string): nat {
    if run == [] then 0 else One(run[0].Call? && run[0].key == key) + CallsOn(run[1..], key)
  }

  lemma {:induction false} WhileTheWindowLasts(m: Entries, run: seq<Event>, key: string)
    requires key in m && forall i :: 0 <= i < |run| ==> run[i].now <= m[key].resetAt
    ensures key in Final(m, run)
    ensures Final(m, run)[key] == Entry(m[key].count + CallsOn(run, key), m[key].resetAt)
    decreases |run|
  {
    if run != [] {
      WhileTheWindowLasts(Step(m, run[0]), run[1..], key);
    }
  }

  /** A call that finds no window. */
  lemma FirstOfItsWindow(e: Event)
    requires e.Call?
    ensures Answer(map[], e)
         == Verdict(1 <= e.limit, Max(0, e.limit - 1), Max(0, e.now + e.window - e.later))
  {}

  /** `remaining` is the number of further calls on the key that will be allowed until `reset` has
      passed, whatever calls under other keys and cleanups there are; and all of them are told the same
      end of the window. */
  lemma RemainingIsExact(m: Entries, e: Event, between: seq<Event>, next: Event)
    requires e.Call? && next.Call? && next.key == e.key && next.limit == e.limit
    requires Answer(m, e).reset > 0 && next.now <= e.later + Answer(m, e).reset
    requires forall i :: 0 <= i < |between| ==> between[i].now <= next.now
    ensures var told, again := Answer(m, e), Answer(Final(Step(m, e), between), next);
            && (again.allowed <==> CallsOn(between, e.key) < told.remaining)
            && again.remaining == Max(0, told.remaining - CallsOn(between, e.key) - 1)
            && again.reset == Max(0, e.later + told.reset - next.later)
  {
    WhileTheWindowLasts(Step(m, e), between, e.key);
  }

  /** `reset` is when the window ends: the next call after it is as the very first. */
  lemma ResetIsExact(m: Entries, e: Event, between: seq<Event>, next: Event)
    requires e.Call? && next.Call? && next.key == e.key && e.later + Answer(m, e).reset < next.now
    requires forall i :: 0 <= i < |between| ==>
               between[i].now <= next.now && (between[i].Call? ==> between[i].key != e.key)
    ensures Answer(Final(Step(m, e), between), next) == Answer(map[], next)
  {
    OthersLeaveLive(Step(m, e), between, e.key, next.now);
  }

  // ----- Retry-After

  const SECOND: int := 1_000_000_000

  /** The Retry-After header sent with a denial: whole seconds, at least one. */
  function RetryAfter(reset: nat): int {
    Max(1, TruncDiv(reset, SECOND))
  }

  /** Other clients' calls and cleanups leave what a key's next call sees as it was. */
  lemma {:induction false} OthersLeaveLive(m: Entries, between: seq<Event>, key: string, now: int)
    requires forall i :: 0 <= i < |between| ==>
               between[i].now <= now && (between[i].Call? ==> between[i].key != key)
    ensures Live(Final(m, between), key, now) == Live(m, key, now)
    decreases |between|
  {
    if between != [] {
      OthersLeaveLive(Step(m, between[0]), between[1..], key, now);
    }
  }

  /** A denied client that waits exactly as long as it was told, whatever other clients and cleanups
      do meanwhile, is served if and only if less than a second was left of the window: otherwise the
      window has not expired yet. */
  lemma RetryAfterSuffices(m: Entries, denied: Event, between: seq<Event>, retry: Event)
    requires denied.Call? && denied.limit > 0 && denied.now <= denied.later
    requires !Answer(m, denied).allowed
    requires retry.Call? && retry.key == denied.key && retry.limit == denied.limit
    requires retry.now == denied.later + RetryAfter(Answer(m, denied).reset) * SECOND
    requires forall i :: 0 <= i < |between| ==>
               between[i].now <= retry.now && (between[i].Call? ==> between[i].key != denied.key)
    ensures Answer(Final(Step(m, denied), between), retry).allowed <==> Answer(m, denied).reset < SECOND
  {
    OthersLeaveLive(Step(m, denied), between, denied.key, retry.now);
    assert Step(m, denied)[denied.key].count > denied.limit;
  }

  /** It never errs by as much as a second: a denied client that waits a second longer is served. */
  lemma RetryAfterIsClose(m: Entries, denied: Event, between: seq<Event>, retry: Event)
    requires denied.Call? && denied.limit > 0
    requires !Answer(m, denied).allowed
    requires retry.Call? && retry.key == denied.key && retry.limit == denied.limit
    requires retry.now >= denied.later + (RetryAfter(Answer(m, denied).reset) + 1) * SECOND
    requires forall i :: 0 <= i < |between| ==>
               between[i].now <= retry.now && (between[i].Call? ==> between[i].key != denied.key)
    ensures Answer(Final(Step(m, denied), between), retry).allowed
  {
    ResetIsExact(m, denied, between, retry);
    FirstOfItsWindow(retry);
  }

  /** A run in which waiting as told is not enough: one call a window of two seconds, the second call
      denied and told to wait two seconds, the third denied two seconds later. */
  lemma WaitingAsToldCanFail()
    ensures var c := Call("k", 1, 2 * SECOND, 0, 0);
            var retry := Call("k", 1, 2 * SECOND, 2 * SECOND, 2 * SECOND);
            var m := Step(map[], c);
            && Clocked([c, c, retry])
            && Answer(map[], c).allowed && !Answer(m, c).allowed
            && RetryAfter(Answer(m, c).reset) * SECOND == retry.now - c.later
            && !Answer(Step(m, c), retry).allowed
  {
    assert TruncDiv(2 * SECOND, SECOND) == 2;
  }
}
