/**
 The Redis back end: the commands the rate-limiting script issues over an abstract keyspace with
 millisecond expiry, the script as one atomic step, and when it agrees with the in-memory
 limiter. Times and windows are in nanoseconds unless a name says otherwise.
 */
module Redis {
  import opened Prelude
  import opened Windows
  import opened RateLimit

  const MILLISECOND: int := 1_000_000

  datatype Counter = Counter(value: nat, expireAt: Option<int>)
  type Keyspace = map<string, Counter>

  /** A key exists until the clock passes its expiry. */
  function Stored(ks: Keyspace, key: string, nowMs: int): Option<Counter> {
    if key in ks && (ks[key].expireAt.Some? ==> nowMs <= ks[key].expireAt.value)
    then Some(ks[key]) else None
  }

  function RedisKey(key: string): string {
    "rate:" + key
  }

  /** The number of calls counted, this one included. */
  function CountOf(ks: Keyspace, key: string, nowMs: int): nat {
    match Stored(ks, key, nowMs)
    case Some(c) => c.value + 1
    case None => 1
  }

  /** The keyspace the script leaves behind. An expiry that is not in the future removes the key
      at once. */
  function Scripted(ks: Keyspace, key: string, windowMs: int, nowMs: int): Keyspace {
    var count := CountOf(ks, key, nowMs);
    if count != 1 then ks[key := Counter(count, ks[key].expireAt)]
    else if windowMs <= 0 then ks - {key}
    else ks[key := Counter(1, Some(nowMs + windowMs))]
  }

  function TimeToLive(ks: Keyspace, key: string, nowMs: int): nat {
    match Stored(ks, key, nowMs)
    case Some(Counter(_, Some(at))) => at - nowMs
    case _ => 0
  }

  class Server {
    var keys: Keyspace

    constructor ()
      ensures keys == map[]
    {
      keys := map[];
    }

    method Incr(key: string, nowMs: int) returns (count: nat)
      modifies this
      ensures count == CountOf(old(keys), key, nowMs)
      ensures keys == old(keys)[key := Counter(count,
                match Stored(old(keys), key, nowMs) case Some(c) => c.expireAt case None => None)]
    {
      match Stored(keys, key, nowMs) {
        case Some(c) =>
          count := c.value + 1;
          keys := keys[key := Counter(count, c.expireAt)];
        case None =>
          count := 1;
          keys := keys[key := Counter(1, None)];
      }
    }

    method PExpire(key: string, windowMs: int, nowMs: int)
      requires Stored(keys, key, nowMs).Some?
      modifies this
      ensures keys == if windowMs <= 0 then old(keys) - {key}
                      else old(keys)[key := Counter(old(keys)[key].value, Some(nowMs + windowMs))]
    {
      if windowMs <= 0 {
        keys := keys - {key};
      } else {
        keys := keys[key := Counter(keys[key].value, Some(nowMs + windowMs))];
      }
    }

    method PTtl(key: string, nowMs: int) returns (ttl: int)
      ensures ttl == match Stored(keys, key, nowMs)
                     case None => -2
                     case Some(c) => if c.expireAt.None? then -1 else c.expireAt.value - nowMs
    {
      match Stored(keys, key, nowMs) {
        case None => ttl := -2;
        case Some(c) => ttl := if c.expireAt.None? then -1 else c.expireAt.value - nowMs;
      }
    }

    /** The Lua script: increment, set the expiry on the first call, read it back. */
    method Script(key: string, limit: int, windowMs: int, nowMs: int)
      returns (allowed: bool, remaining: nat, ttl: nat)
      modifies this
      ensures keys == Scripted(old(keys), key, windowMs, nowMs)
      ensures var count := CountOf(old(keys), key, nowMs);
              && (allowed <==> count <= limit)
              && remaining == Max(0, limit - count)
              && ttl == TimeToLive(keys, key, nowMs)
    {
      var count := Incr(key, nowMs);
      if count == 1 {
        PExpire(key, windowMs, nowMs);
      }
      var left := limit - count;
      if left < 0 {
        left := 0;
      }
      var t := PTtl(key, nowMs);
      if t < 0 {
        t := 0;
      }
      return count <= limit, left, t;
    }

    method CheckRateLimit(routeID: string, clientID: string, limit: int, window: int, now: int)
      returns (allowed: bool, remaining: nat, reset: nat)
      modifies this
      ensures (keys, Verdict(allowed, remaining, reset))
           == Check(old(keys), JoinKey(routeID, clientID), limit, window, now)
      ensures var key := "rate:" + routeID + ":" + clientID;
              forall k :: k != key ==> Stored(keys, k, now / MILLISECOND) == Stored(old(keys), k, now / MILLISECOND)
    {
      var key := "rate:" + routeID + ":" + clientID;
      assert key == RedisKey(JoinKey(routeID, clientID));
      var ttl;
      allowed, remaining, ttl := Script(key, limit, TruncDiv(window, MILLISECOND), now / MILLISECOND);
      reset := ttl * MILLISECOND;
    }
  }

  /** CheckRateLimit over the keyspace: the window is truncated to milliseconds, and the clock
      Redis works with counts milliseconds. */
  function Check(ks: Keyspace, key: string, limit: int, window: int, now: int): (Keyspace, Verdict)
  {
    var nowMs := now / MILLISECOND;
    var ks' := Scripted(ks, RedisKey(key), TruncDiv(window, MILLISECOND), nowMs);
    var count := CountOf(ks, RedisKey(key), nowMs);
    (ks', Verdict(count <= limit, Max(0, limit - count), TimeToLive(ks', RedisKey(key), nowMs) * MILLISECOND))
  }

  /** What callers see when every call of a run goes to Redis. */
  function RedisAnswers(ks: Keyspace, run: seq<Event>): seq<Verdict>
    requires forall e :: e in run ==> e.Call?
    decreases |run|
  {
    if run == [] then []
    else
      var (ks', v) := Check(ks, run[0].key, run[0].limit, run[0].window, run[0].now);
      [v] + RedisAnswers(ks', run[1..])
  }

  /** Calls timed on whole milliseconds. */
  ghost predicate OnMilliseconds(run: seq<Event>) {
    forall e :: e in run ==> e.Call? && e.now % MILLISECOND == 0 && e.later == e.now
  }

  /** Windows that Redis measures as the in-memory limiter does: whole milliseconds, not zero
      (or negative ones, which never count a second call). */
  predicate Representable(window: int) {
    window < 0 || (window > 0 && window % MILLISECOND == 0)
  }

  /** The counter and the entry for one key mean the same from `now` on. */
  ghost predicate SameCount(ks: Keyspace, m: Entries, key: string, now: int) {
    match (Stored(ks, RedisKey(key), now / MILLISECOND), Live(m, key, now))
    case (None, None) => true
    case (Some(c), Some(e)) =>
      c.value == e.count > 0 && c.expireAt.Some? && c.expireAt.value * MILLISECOND == e.resetAt
    case _ => false
  }

  lemma SameCountLater(ks: Keyspace, m: Entries, key: string, now: int, later: int)
    requires SameCount(ks, m, key, now) && now <= later
    requires now % MILLISECOND == 0 && later % MILLISECOND == 0
    ensures SameCount(ks, m, key, later)
  {
    assert now / MILLISECOND <= later / MILLISECOND;
  }

  lemma SameCountStep(ks: Keyspace, m: Entries, e: Event)
    requires e.Call? && e.now % MILLISECOND == 0 && e.later == e.now && Representable(e.window)
    requires SameCount(ks, m, e.key, e.now)
    ensures var (ks', v) := Check(ks, e.key, e.limit, e.window, e.now);
            v == Answer(m, e) && SameCount(ks', Step(m, e), e.key, e.now)
  {
  }

  lemma {:induction false} BackEndsAgreeFrom(ks: Keyspace, m: Entries, run: seq<Event>)
    requires OnMilliseconds(run) && Clocked(run)
    requires forall e :: e in run ==> Representable(e.window)
    requires run != [] ==> forall key :: SameCount(ks, m, key, run[0].now)
    ensures RedisAnswers(ks, run) == Answers(m, run)
    decreases |run|
  {
    if run != [] {
      var e := run[0];
      var tail := run[1..];
      var (ks', v) := Check(ks, e.key, e.limit, e.window, e.now);
      assert SameCount(ks, m, e.key, e.now);
      SameCountStep(ks, m, e);
      if tail != [] {
        assert tail[0] == run[1];
        forall key
          ensures SameCount(ks', Step(m, e), key, tail[0].now)
        {
          assert SameCount(ks, m, key, e.now);
          assert key != e.key ==> RedisKey(key)[5..] != RedisKey(e.key)[5..];
          SameCountLater(ks', Step(m, e), key, e.now, tail[0].now);
        }
      }
      BackEndsAgreeFrom(ks', Step(m, e), tail);
    }
  }

  /** On every run timed in whole milliseconds the two back ends give the same answers, whatever
      limits and representable windows the calls come with. */
  lemma BackEndsAgree(run: seq<Event>)
    requires OnMilliseconds(run) && Clocked(run)
    requires forall e :: e in run ==> Representable(e.window)
    ensures RedisAnswers(map[], run) == Answers(map[], run)
  {
    BackEndsAgreeFrom(map[], map[], run);
  }

  // ----- Exactly when they agree

  function CallsAt(limit: int, window: int, times: seq<int>): (run: seq<Event>)
    ensures |run| == |times|
    ensures forall i :: 0 <= i < |run| ==> run[i] == Call("k", limit, window, times[i], times[i])
  {
    seq(|times|, i requires 0 <= i < |times| => Call("k", limit, window, times[i], times[i]))
  }

  ghost predicate Timetable(times: seq<int>) {
    && (forall i :: 0 <= i < |times| ==> times[i] % MILLISECOND == 0)
    && (forall i, j :: 0 <= i < j < |times| ==> times[i] <= times[j])
  }

  /** One client under one limit and window cannot tell which back end answers it. */
  ghost predicate AlwaysAgree(limit: int, window: int) {
    forall times :: Timetable(times) ==>
      RedisAnswers(map[], CallsAt(limit, window, times)) == Answers(map[], CallsAt(limit, window, times))
  }

  /** With nothing to hand out and a zero window, both always answer (denied, 0, 0). */
  lemma {:induction false} NothingToDiffer(ks: Keyspace, m: Entries, run: seq<Event>)
    requires Clocked(run) && forall e :: e in run ==> e.Call? && e.window == 0 && e.limit <= 0
    requires run != [] ==> forall key :: key in m ==> m[key].resetAt <= run[0].now
    requires forall key :: key !in ks
    ensures RedisAnswers(ks, run) == Answers(m, run)
    decreases |run|
  {
    if run != [] {
      var e := run[0];
      if |run| > 1 {
        assert run[1..][0] == run[1];
      }
      NothingToDiffer(Check(ks, e.key, e.limit, e.window, e.now).0, Step(m, e), run[1..]);
    }
  }

  /** The back ends are interchangeable for a limit and a window if and only if the window is
      negative or a positive number of whole milliseconds, or is zero with no calls to allow. */
  lemma AgreeExactlyWhen(limit: int, window: int)
    ensures AlwaysAgree(limit, window) <==> Representable(window) || (window == 0 && limit <= 0)
  {
    if Representable(window) || (window == 0 && limit <= 0) {
      forall times | Timetable(times)
        ensures RedisAnswers(map[], CallsAt(limit, window, times)) == Answers(map[], CallsAt(limit, window, times))
      {
        if Representable(window) {
          BackEndsAgree(CallsAt(limit, window, times));
        } else {
          NothingToDiffer(map[], map[], CallsAt(limit, window, times));
        }
      }
    } else {
      var run := CallsAt(limit, window, [0, 0]);
      var e := run[0];
      assert Timetable([0, 0]);
      var (ks', v) := Check(map[], e.key, e.limit, e.window, e.now);
      assert run[1..] == [e];
      assert Answers(map[], run) == [Answer(map[], e)] + Answers(Step(map[], e), [e]);
      assert Answers(Step(map[], e), [e]) == [Answer(Step(map[], e), e)] + Answers(Step(Step(map[], e), e), [e][1..]);
      assert RedisAnswers(map[], run) == [v] + RedisAnswers(ks', [e]);
      assert RedisAnswers(ks', [e])[0] == Check(ks', e.key, e.limit, e.window, e.now).1;
      if window == 0 {
        assert Answers(map[], run)[1] != RedisAnswers(map[], run)[1];
      } else {
        assert Answers(map[], run)[0].reset == window;
        assert v.reset % MILLISECOND == 0;
      }
    }
  }

  /** Under a window below a millisecond Redis forgets every call at once, so the limit is never
      enforced: every call is answered as the first one of a window that is already over. */
  lemma {:induction false} TinyWindowsNeverLimit(ks: Keyspace, run: seq<Event>)
    requires forall key :: key !in ks
    requires forall i :: 0 <= i < |run| ==> run[i].Call? && 0 <= run[i].window < MILLISECOND && run[i].limit >= 1
    ensures |RedisAnswers(ks, run)| == |run|
    ensures forall i :: 0 <= i < |run| ==> RedisAnswers(ks, run)[i] == Verdict(true, run[i].limit - 1, 0)
    decreases |run|
  {
    if run != [] {
      var e := run[0];
      TinyWindowsNeverLimit(Check(ks, e.key, e.limit, e.window, e.now).0, run[1..]);
    }
  }
}
