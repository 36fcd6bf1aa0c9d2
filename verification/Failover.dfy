/**
 The limiter the gateway calls: Redis first, the replica's own memory when Redis fails. A failed
 Redis call may or may not have been counted, so a fleet of replicas that share one Redis can let
 through more than one limiter would; how much more is bounded here.
 */
module Failover {
  import opened Prelude
  import opened Windows
  import opened RateLimit
  import opened Redis

  /** How a call to Redis ends: answered, failed before it ran, or ran with the reply lost. */
  datatype Fate = Answered | NeverRan | ReplyLost

  class RateLimiter {
    const redis: Server?
    const memory: MemoryLimiter

    constructor (redis: Server?, memory: MemoryLimiter)
      ensures this.redis == redis && this.memory == memory
    {
      this.redis := redis;
      this.memory := memory;
    }

    /** This replica alone, as a fleet. */
    ghost function View(): Fleet
      reads this, redis, memory, memory.entries.Values
    {
      Fleet(if redis == null then map[] else redis.keys, [memory.View()])
    }

    /** `at` is when the script runs, `now` and `later` when the fallback reads the clock. */
    method Allow(routeID: string, cfg: Option<LimitCfg>, clientID: string, fate: Fate, at: int, now: int, later: int)
      returns (allowed: bool, remaining: nat, reset: nat)
      requires memory.Valid()
      modifies redis, memory, memory.entries.Values
      ensures memory.Valid()
      ensures cfg.None? || !cfg.value.enabled ==>
                (allowed, remaining, reset) == (true, 0, 0) && View() == old(View())
      ensures cfg.Some? && cfg.value.enabled ==>
                var call := Call(JoinKey(routeID, clientID), cfg.value.requests, cfg.value.window, now, later);
                var answered := redis != null && fate.Answered?;
                && View().redis == (if redis != null && !fate.NeverRan? then Counted(old(View()), call, at).0
                                    else old(View()).redis)
                && View().memories == (if answered then old(View()).memories
                                       else [Step(old(View()).memories[0], call)])
                && Verdict(allowed, remaining, reset) == (if answered then Counted(old(View()), call, at).1
                                                          else Answer(old(View()).memories[0], call))
    {
      if cfg.None? || !cfg.value.enabled {
        return true, 0, 0;
      }
      if redis != null && !fate.NeverRan? {
        allowed, remaining, reset := redis.CheckRateLimit(routeID, clientID, cfg.value.requests, cfg.value.window, at);
        if fate.Answered? {
          return;
        }
      }
      allowed, remaining, reset := memory.Allow(routeID, clientID, cfg.value.requests, cfg.value.window, now, later);
    }
  }

  // ----- A fleet of replicas

  datatype Fleet = Fleet(redis: Keyspace, memories: seq<Entries>)

  /** The atomic steps of any number of calls at any replicas: a call that Redis answers is one
      `Script(.., true)`; one that falls back is a `Fallback`, after a `Script(.., false)` if it
      was counted and its reply lost. */
  datatype FleetEvent =
    | Script(key: string, limit: int, window: int, now: int, replied: bool)
    | Fallback(replica: nat, key: string, limit: int, window: int, now: int, later: int)
    | Sweep(replica: nat, now: int)

  ghost predicate Possible(run: seq<FleetEvent>, replicas: nat) {
    && (forall i, j :: 0 <= i < j < |run| ==> run[i].now <= run[j].now)
    && (forall e :: e in run && !e.Script? ==> e.replica < replicas)
    && (forall e :: e in run && e.Fallback? ==> e.now <= e.later)
  }

  function MemoryEvent(e: FleetEvent): Event
    requires !e.Script?
  {
    match e
    case Fallback(_, key, limit, window, now, later) => Call(key, limit, window, now, later)
    case Sweep(_, now) => Clean(now)
  }

  function FleetStep(f: Fleet, e: FleetEvent): Fleet
    requires !e.Script? ==> e.replica < |f.memories|
  {
    match e
    case Script(key, limit, window, now, _) => f.(redis := Check(f.redis, key, limit, window, now).0)
    case _ => f.(memories := f.memories[e.replica := Step(f.memories[e.replica], MemoryEvent(e))])
  }

  function FleetAfter(f: Fleet, run: seq<FleetEvent>): Fleet
    requires forall i :: 0 <= i < |run| && !run[i].Script? ==> run[i].replica < |f.memories|
    decreases |run|
  {
    if run == [] then f else FleetAfter(FleetStep(f, run[0]), run[1..])
  }

  /** What the script makes of a call, and answers. */
  function Counted(f: Fleet, call: Event, at: int): (Keyspace, Verdict)
    requires call.Call?
  {
    Check(f.redis, call.key, call.limit, call.window, at)
  }

  /** The steps of one call at replica 0. */
  function StepsOfCall(call: Event, redis: bool, fate: Fate, at: int): (run: seq<FleetEvent>)
    requires call.Call?
    ensures run != [] && forall i :: 0 <= i < |run| && !run[i].Script? ==> run[i].replica == 0
  {
    var Call(key, limit, window, now, later) := call;
    (if redis && !fate.NeverRan? then [Script(key, limit, window, at, fate.Answered?)] else []) +
    (if redis && fate.Answered? then [] else [Fallback(0, key, limit, window, now, later)])
  }

  /** What the caller is told by a step. */
  function Told(f: Fleet, e: FleetEvent): Verdict
    requires !e.Sweep? && (!e.Script? ==> e.replica < |f.memories|)
  {
    match e
    case Script(key, limit, window, now, _) => Check(f.redis, key, limit, window, now).1
    case Fallback(r, _, _, _, _, _) => Answer(f.memories[r], MemoryEvent(e))
  }

  lemma OneStep(f: Fleet, e: FleetEvent)
    requires !e.Script? ==> e.replica < |f.memories|
    ensures FleetAfter(f, [e]) == FleetStep(f, e)
  {
    assert [e][1..] == [];
  }

  lemma TwoSteps(f: Fleet, e: FleetEvent, e': FleetEvent)
    requires (!e.Script? ==> e.replica < |f.memories|) && (!e'.Script? ==> e'.replica < |f.memories|)
    ensures FleetAfter(f, [e, e']) == FleetStep(FleetStep(f, e), e')
  {
    assert [e, e'][1..] == [e'];
    OneStep(FleetStep(f, e), e');
  }

  lemma FallbackStep(f: Fleet, call: Event)
    requires call.Call? && |f.memories| == 1
    ensures var e := Fallback(0, call.key, call.limit, call.window, call.now, call.later);
            && MemoryEvent(e) == call
            && FleetStep(f, e) == Fleet(f.redis, [Step(f.memories[0], call)])
  {
    assert f.memories[0 := Step(f.memories[0], call)] == [Step(f.memories[0], call)];
  }

  /** What a call leaves behind and answers is what its steps do: the answer is all of what the last of
      them tells. */
  lemma CallIsItsSteps(f: Fleet, call: Event, redis: bool, fate: Fate, at: int)
    requires call.Call? && |f.memories| == 1
    ensures var steps := StepsOfCall(call, redis, fate, at);
            var answered := redis && fate.Answered?;
            var n := |steps| - 1;
            && FleetAfter(f, steps)
               == Fleet(if redis && !fate.NeverRan? then Counted(f, call, at).0 else f.redis,
                        if answered then f.memories else [Step(f.memories[0], call)])
            && |FleetAfter(f, steps[..n]).memories| == 1 && !steps[n].Sweep?
            && Told(FleetAfter(f, steps[..n]), steps[n])
               == (if answered then Counted(f, call, at).1 else Answer(f.memories[0], call))
            && (LetsThrough(FleetAfter(f, steps[..n]), steps[n], call.key)
                <==> Told(FleetAfter(f, steps[..n]), steps[n]).allowed)
  {
    var Call(key, limit, window, now, later) := call;
    var fallback := Fallback(0, key, limit, window, now, later);
    var script := Script(key, limit, window, at, fate.Answered?);
    var steps := StepsOfCall(call, redis, fate, at);
    if redis && fate.Answered? {
      assert steps == [script] && steps[..0] == [];
      OneStep(f, script);
    } else if redis && !fate.NeverRan? {
      assert steps == [script, fallback] && steps[..1] == [script];
      OneStep(f, script);
      TwoSteps(f, script, fallback);
      FallbackStep(FleetStep(f, script), call);
    } else {
      assert steps == [fallback] && steps[..0] == [];
      OneStep(f, fallback);
      FallbackStep(f, call);
    }
  }

  /** Whether this step tells the caller of a request on the key to go ahead. */
  predicate LetsThrough(f: Fleet, e: FleetEvent, key: string)
    requires !e.Script? ==> e.replica < |f.memories|
  {
    match e
    case Script(k, limit, window, now, replied) =>
      k == key && replied && Check(f.redis, key, limit, window, now).1.allowed
    case Fallback(r, k, _, _, _, _) => k == key && Answer(f.memories[r], MemoryEvent(e)).allowed
    case Sweep(_, _) => false
  }

  /** How many requests on the key the whole fleet lets through in [from, to). */
  function LetThrough(f: Fleet, run: seq<FleetEvent>, key: string, from: int, to: int): nat
    requires forall e :: e in run && !e.Script? ==> e.replica < |f.memories|
    decreases |run|
  {
    if run == [] then 0
    else
      var head := if LetsThrough(f, run[0], key) && from <= run[0].now < to then 1 else 0;
      head + LetThrough(FleetStep(f, run[0]), run[1..], key, from, to)
  }

  // ----- Each limiter on its own

  /** What one replica's memory limiter goes through. */
  function AtReplica(run: seq<FleetEvent>, replica: nat): seq<Event> {
    if run == [] then []
    else
      var head := if !run[0].Script? && run[0].replica == replica then [MemoryEvent(run[0])] else [];
      head + AtReplica(run[1..], replica)
  }

  function AfterRedis(ks: Keyspace, e: FleetEvent): Keyspace {
    if e.Script? then Check(ks, e.key, e.limit, e.window, e.now).0 else ks
  }

  /** What Redis decides about one key in a step, whether or not anybody hears of it. */
  function RedisDecision(ks: Keyspace, e: FleetEvent, key: string): seq<Decision> {
    if e.Script? && e.key == key
    then [Decision(e.now, Stored(ks, RedisKey(key), e.now / MILLISECOND).None?,
                   Check(ks, key, e.limit, e.window, e.now).1.allowed)]
    else []
  }

  function AtRedis(ks: Keyspace, run: seq<FleetEvent>, key: string): seq<Decision>
    decreases |run|
  {
    if run == [] then []
    else RedisDecision(ks, run[0], key) + AtRedis(AfterRedis(ks, run[0]), run[1..], key)
  }

  function RedisAfter(ks: Keyspace, run: seq<FleetEvent>): Keyspace
    decreases |run|
  {
    if run == [] then ks else RedisAfter(AfterRedis(ks, run[0]), run[1..])
  }

  lemma AtRedisCons(ks: Keyspace, e: FleetEvent, rest: seq<FleetEvent>, key: string)
    ensures AtRedis(ks, [e] + rest, key) == RedisDecision(ks, e, key) + AtRedis(AfterRedis(ks, e), rest, key)
    ensures RedisAfter(ks, [e] + rest) == RedisAfter(AfterRedis(ks, e), rest)
  {
    assert ([e] + rest)[1..] == rest;
  }

  lemma {:induction false} AtRedisSnoc(ks: Keyspace, run: seq<FleetEvent>, e: FleetEvent, key: string)
    ensures AtRedis(ks, run + [e], key) == AtRedis(ks, run, key) + RedisDecision(RedisAfter(ks, run), e, key)
    ensures RedisAfter(ks, run + [e]) == AfterRedis(RedisAfter(ks, run), e)
    decreases |run|
  {
    if run == [] {
      assert run + [e] == [e];
      AtRedisCons(ks, e, [], key);
    } else {
      assert run + [e] == [run[0]] + (run[1..] + [e]) && run == [run[0]] + run[1..];
      AtRedisCons(ks, run[0], run[1..] + [e], key);
      AtRedisCons(ks, run[0], run[1..], key);
      AtRedisSnoc(AfterRedis(ks, run[0]), run[1..], e, key);
    }
  }

  // ----- Redis keeps keys apart

  /** What Redis answers to a call on the key, whether or not anybody hears of it. */
  function Reply(ks: Keyspace, e: FleetEvent, key: string): seq<Verdict> {
    if e.Script? && e.key == key then [Check(ks, key, e.limit, e.window, e.now).1] else []
  }

  function Replies(ks: Keyspace, run: seq<FleetEvent>, key: string): seq<Verdict>
    decreases |run|
  {
    if run == [] then [] else Reply(ks, run[0], key) + Replies(AfterRedis(ks, run[0]), run[1..], key)
  }

  lemma RepliesCons(ks: Keyspace, e: FleetEvent, rest: seq<FleetEvent>, key: string)
    ensures Replies(ks, [e] + rest, key) == Reply(ks, e, key) + Replies(AfterRedis(ks, e), rest, key)
  {
    assert ([e] + rest)[1..] == rest;
  }

  function OnlyScripts(run: seq<FleetEvent>, key: string): seq<FleetEvent> {
    if run == [] then []
    else (if run[0].Script? && run[0].key == key then [run[0]] else []) + OnlyScripts(run[1..], key)
  }

  /** The two keyspaces hold the same counter for the key. */
  predicate SameAt(ks: Keyspace, ks': Keyspace, key: string) {
    (RedisKey(key) in ks <==> RedisKey(key) in ks') && (RedisKey(key) in ks ==> ks[RedisKey(key)] == ks'[RedisKey(key)])
  }

  lemma SameDecision(ks: Keyspace, ks': Keyspace, e: FleetEvent)
    requires e.Script? && SameAt(ks, ks', e.key)
    ensures RedisDecision(ks, e, e.key) == RedisDecision(ks', e, e.key) && Reply(ks, e, e.key) == Reply(ks', e, e.key)
    ensures SameAt(AfterRedis(ks, e), AfterRedis(ks', e), e.key)
  {}

  lemma OtherScript(ks: Keyspace, ks': Keyspace, e: FleetEvent, key: string)
    requires SameAt(ks, ks', key) && !(e.Script? && e.key == key)
    ensures SameAt(AfterRedis(ks, e), ks', key) && RedisDecision(ks, e, key) == [] && Reply(ks, e, key) == []
  {
    if e.Script? {
      assert RedisKey(key)[5..] == key && RedisKey(e.key)[5..] == e.key;
    }
  }

  /** What Redis decides about a key and answers under it does not depend on the calls under other
      keys. */
  lemma {:induction false} RedisIsolatesKeys(ks: Keyspace, ks': Keyspace, run: seq<FleetEvent>, key: string)
    requires SameAt(ks, ks', key)
    ensures AtRedis(ks, run, key) == AtRedis(ks', OnlyScripts(run, key), key)
    ensures Replies(ks, run, key) == Replies(ks', OnlyScripts(run, key), key)
    decreases |run|
  {
    if run != [] {
      var e := run[0];
      if e.Script? && e.key == key {
        SameDecision(ks, ks', e);
        RedisIsolatesKeys(AfterRedis(ks, e), AfterRedis(ks', e), run[1..], key);
        AtRedisCons(ks', e, OnlyScripts(run[1..], key), key);
        RepliesCons(ks', e, OnlyScripts(run[1..], key), key);
      } else {
        OtherScript(ks, ks', e, key);
        RedisIsolatesKeys(AfterRedis(ks, e), ks', run[1..], key);
        assert OnlyScripts(run, key) == OnlyScripts(run[1..], key);
      }
    }
  }

  lemma {:induction false} OnlyScriptsSnoc(run: seq<FleetEvent>, e: FleetEvent, key: string)
    ensures OnlyScripts(run + [e], key) == OnlyScripts(run, key) + if e.Script? && e.key == key then [e] else []
  {
    if run == [] {
      assert [e][1..] == [] && run + [e] == [e];
    } else {
      assert (run + [e])[1..] == run[1..] + [e];
      OnlyScriptsSnoc(run[1..], e, key);
    }
  }

  // ----- Retry-After, when Redis answers

  /** Every counter has counted something, and expires. */
  ghost predicate Ticking(ks: Keyspace) {
    forall k :: k in ks ==> ks[k].value > 0 && ks[k].expireAt.Some?
  }

  lemma {:induction false} AlwaysTicking(ks: Keyspace, run: seq<FleetEvent>)
    requires Ticking(ks)
    ensures Ticking(RedisAfter(ks, run))
    decreases |run|
  {
    if run != [] {
      AlwaysTicking(AfterRedis(ks, run[0]), run[1..]);
    }
  }

  lemma {:induction false} OtherScripts(ks: Keyspace, run: seq<FleetEvent>, key: string)
    requires forall i :: 0 <= i < |run| ==> !(run[i].Script? && run[i].key == key)
    ensures SameAt(RedisAfter(ks, run), ks, key)
    decreases |run|
  {
    if run != [] {
      OtherScript(ks, ks, run[0], key);
      OtherScripts(AfterRedis(ks, run[0]), run[1..], key);
    }
  }

  /** Milliseconds after waiting whole seconds. */
  lemma SecondsLater(at: int, seconds: int)
    ensures (at + seconds * SECOND) / MILLISECOND == at / MILLISECOND + seconds * 1000
  {
    Quotient(at + seconds * SECOND, MILLISECOND, at / MILLISECOND + seconds * 1000, at % MILLISECOND);
  }

  /** The wait in seconds against the time to live in milliseconds. */
  lemma WaitAgainstLife(ttl: nat)
    ensures RetryAfter(ttl * MILLISECOND) * 1000 > ttl <==> ttl * MILLISECOND < SECOND
  {
    var reset := ttl * MILLISECOND;
    Quotient(reset, SECOND, ttl / 1000, (ttl % 1000) * MILLISECOND);
  }

  /** What is left of the counter that denied a call. */
  lemma DeniedCounter(ks: Keyspace, key: string, limit: int, window: int, at: int)
    requires Ticking(ks) && limit > 0 && !Check(ks, key, limit, window, at).1.allowed
    ensures var (ks', v) := Check(ks, key, limit, window, at);
            && RedisKey(key) in ks' && ks'[RedisKey(key)].value > limit && ks'[RedisKey(key)].expireAt.Some?
            && ks'[RedisKey(key)].expireAt.value >= at / MILLISECOND
            && v.reset == (ks'[RedisKey(key)].expireAt.value - at / MILLISECOND) * MILLISECOND
  {}

  /** The same question for a client told by Redis, at any times: after any earlier calls, one that is
      denied and waits exactly as long as it was told, whatever other calls there are meanwhile, is
      served if and only if less than a second was left of the counter. */
  lemma RedisRetryAfterSuffices(
      earlier: seq<FleetEvent>, key: string, limit: int, window: int, at: int,
      between: seq<FleetEvent>, window': int, retry: int)
    requires var ks := RedisAfter(map[], earlier);
             && limit > 0 && !Check(ks, key, limit, window, at).1.allowed
             && retry == at + RetryAfter(Check(ks, key, limit, window, at).1.reset) * SECOND
    requires forall i :: 0 <= i < |between| ==> !(between[i].Script? && between[i].key == key)
    ensures var (ks, told) := Check(RedisAfter(map[], earlier), key, limit, window, at);
            Check(RedisAfter(ks, between), key, limit, window', retry).1.allowed <==> told.reset < SECOND
  {
    AlwaysTicking(map[], earlier);
    var (ks, told) := Check(RedisAfter(map[], earlier), key, limit, window, at);
    DeniedCounter(RedisAfter(map[], earlier), key, limit, window, at);
    OtherScripts(ks, between, key);
    SecondsLater(at, RetryAfter(told.reset));
    WaitAgainstLife(ks[RedisKey(key)].expireAt.value - at / MILLISECOND);
  }

  /** At Redis too the wait never errs by as much as a second. */
  lemma RedisRetryAfterIsClose(
      earlier: seq<FleetEvent>, key: string, limit: int, window: int, at: int,
      between: seq<FleetEvent>, window': int, retry: int)
    requires var ks := RedisAfter(map[], earlier);
             && limit > 0 && !Check(ks, key, limit, window, at).1.allowed
             && retry >= at + (RetryAfter(Check(ks, key, limit, window, at).1.reset) + 1) * SECOND
    requires forall i :: 0 <= i < |between| ==> !(between[i].Script? && between[i].key == key)
    ensures var ks := Check(RedisAfter(map[], earlier), key, limit, window, at).0;
            Check(RedisAfter(ks, between), key, limit, window', retry).1.allowed
  {
    AlwaysTicking(map[], earlier);
    var (ks, told) := Check(RedisAfter(map[], earlier), key, limit, window, at);
    DeniedCounter(RedisAfter(map[], earlier), key, limit, window, at);
    OtherScripts(ks, between, key);
    LongEnough(ks[RedisKey(key)].expireAt.value - at / MILLISECOND, at, retry);
  }

  lemma LongEnough(ttl: nat, at: int, retry: int)
    requires retry >= at + (RetryAfter(ttl * MILLISECOND) + 1) * SECOND
    ensures retry / MILLISECOND > at / MILLISECOND + ttl
  {
    var seconds := RetryAfter(ttl * MILLISECOND) + 1;
    SecondsLater(at, seconds);
    Quotient(ttl * MILLISECOND, SECOND, ttl / 1000, (ttl % 1000) * MILLISECOND);
    assert seconds * 1000 > ttl;
  }

  // ----- What Redis answers

  function ScriptsOn(run: seq<FleetEvent>, key: string): nat {
    if run == [] then 0 else One(run[0].Script? && run[0].key == key) + ScriptsOn(run[1..], key)
  }

  lemma {:induction false} WhileTheCounterLasts(ks: Keyspace, run: seq<FleetEvent>, key: string)
    requires RedisKey(key) in ks && ks[RedisKey(key)].value > 0 && ks[RedisKey(key)].expireAt.Some?
    requires forall i :: 0 <= i < |run| ==> run[i].now / MILLISECOND <= ks[RedisKey(key)].expireAt.value
    ensures RedisKey(key) in RedisAfter(ks, run)
    ensures RedisAfter(ks, run)[RedisKey(key)]
         == Counter(ks[RedisKey(key)].value + ScriptsOn(run, key), ks[RedisKey(key)].expireAt)
    decreases |run|
  {
    if run != [] {
      var e := run[0];
      if !(e.Script? && e.key == key) {
        OtherScript(ks, ks, e, key);
      }
      WhileTheCounterLasts(AfterRedis(ks, e), run[1..], key);
    }
  }

  /** A call that finds no counter. */
  lemma FirstOfItsCounter(key: string, limit: int, window: int, at: int)
    ensures Check(map[], key, limit, window, at).1
         == Verdict(1 <= limit, Max(0, limit - 1), Max(0, TruncDiv(window, MILLISECOND)) * MILLISECOND)
  {}

  lemma CounterBehind(ks: Keyspace, key: string, limit: int, window: int, at: int)
    requires Ticking(ks)
    ensures var (ks', v) := Check(ks, key, limit, window, at);
            && v.reset % MILLISECOND == 0
            && (v.reset > 0 ==>
                  && RedisKey(key) in ks' && ks'[RedisKey(key)].value > 0
                  && v.remaining == Max(0, limit - ks'[RedisKey(key)].value)
                  && ks'[RedisKey(key)].expireAt == Some(at / MILLISECOND + v.reset / MILLISECOND))
            && (RedisKey(key) in ks' && ks'[RedisKey(key)].expireAt.Some? ==>
                  ks'[RedisKey(key)].expireAt.value <= at / MILLISECOND + v.reset / MILLISECOND)
            && Ticking(ks')
  {
    var (ks', v) := Check(ks, key, limit, window, at);
    var ttl := TimeToLive(ks', RedisKey(key), at / MILLISECOND);
    Quotient(ttl * MILLISECOND, MILLISECOND, ttl, 0);
  }

  /** The clock in milliseconds has not passed the end that was told. */
  predicate InTime(at: int, reset: nat, next: int) {
    next / MILLISECOND <= at / MILLISECOND + reset / MILLISECOND
  }

  /** What RateLimit.RemainingIsExact says, for Redis at any times. */
  lemma RedisRemainingIsExact(
      earlier: seq<FleetEvent>, key: string, limit: int, window: int, at: int,
      between: seq<FleetEvent>, window': int, next: int)
    requires var told := Check(RedisAfter(map[], earlier), key, limit, window, at).1;
             told.reset > 0 && InTime(at, told.reset, next)
    requires forall i :: 0 <= i < |between| ==> between[i].now <= next
    ensures var (ks, told) := Check(RedisAfter(map[], earlier), key, limit, window, at);
            var again := Check(RedisAfter(ks, between), key, limit, window', next).1;
            && (again.allowed <==> ScriptsOn(between, key) < told.remaining)
            && again.remaining == Max(0, told.remaining - ScriptsOn(between, key) - 1)
            && again.reset == told.reset - (next / MILLISECOND - at / MILLISECOND) * MILLISECOND
  {
    AlwaysTicking(map[], earlier);
    var (ks, told) := Check(RedisAfter(map[], earlier), key, limit, window, at);
    CounterBehind(RedisAfter(map[], earlier), key, limit, window, at);
    forall i | 0 <= i < |between|
      ensures between[i].now / MILLISECOND <= next / MILLISECOND
    {
      Floors(between[i].now, next);
    }
    WhileTheCounterLasts(ks, between, key);
  }

  lemma Floors(x: int, y: int)
    requires x <= y
    ensures x / MILLISECOND <= y / MILLISECOND
  {}

  /** ... and RateLimit.ResetIsExact. */
  lemma RedisResetIsExact(
      earlier: seq<FleetEvent>, key: string, limit: int, window: int, at: int,
      between: seq<FleetEvent>, window': int, next: int)
    requires !InTime(at, Check(RedisAfter(map[], earlier), key, limit, window, at).1.reset, next)
    requires forall i :: 0 <= i < |between| ==> !(between[i].Script? && between[i].key == key)
    ensures var ks := Check(RedisAfter(map[], earlier), key, limit, window, at).0;
            Check(RedisAfter(ks, between), key, limit, window', next).1 == Check(map[], key, limit, window', next).1
  {
    AlwaysTicking(map[], earlier);
    CounterBehind(RedisAfter(map[], earlier), key, limit, window, at);
    var ks := Check(RedisAfter(map[], earlier), key, limit, window, at).0;
    OtherScripts(ks, between, key);
  }

  /** It happens: one call a window of two seconds, the second denied and told to wait two seconds, and
      denied again two seconds later. */
  lemma WaitingAtRedisCanFail()
    ensures var first := Script("k", 1, 2 * SECOND, 0, true);
            var ks := RedisAfter(map[], [first]);
            var (ks', told) := Check(ks, "k", 1, 2 * SECOND, 0);
            && !told.allowed && RetryAfter(told.reset) == 2
            && !Check(ks', "k", 1, 2 * SECOND, 2 * SECOND).1.allowed
  {
    var first := Script("k", 1, 2 * SECOND, 0, true);
    assert RedisAfter(map[], [first]) == AfterRedis(map[], first) by {
      assert [first][1..] == [];
    }
    assert TruncDiv(2 * SECOND, SECOND) == 2 && TruncDiv(2 * SECOND, MILLISECOND) == 2000;
  }

  // ----- Shares of the limiters

  function MemoryShares(f: Fleet, run: seq<FleetEvent>, key: string, from: int, to: int): (s: seq<int>)
    ensures |s| == |f.memories|
    ensures forall r :: 0 <= r < |s| ==> s[r] == AllowedIn(Decisions(f.memories[r], AtReplica(run, r), key), from, to)
  {
    seq(|f.memories|, r requires 0 <= r < |f.memories| =>
      AllowedIn(Decisions(f.memories[r], AtReplica(run, r), key), from, to))
  }

  lemma OtherReplicas(run: seq<FleetEvent>, replica: nat)
    requires run != [] && (run[0].Script? || run[0].replica != replica)
    ensures AtReplica(run, replica) == AtReplica(run[1..], replica)
  {}

  lemma OtherShares(f: Fleet, run: seq<FleetEvent>, key: string, from: int, to: int)
    requires forall e :: e in run && !e.Script? ==> e.replica < |f.memories|
    requires run != [] && !run[0].Script?
    ensures var shares := MemoryShares(f, run, key, from, to);
            var shares' := MemoryShares(FleetStep(f, run[0]), run[1..], key, from, to);
            |shares| == |shares'| && shares' == shares[run[0].replica := shares'[run[0].replica]]
  {
    var shares := MemoryShares(f, run, key, from, to);
    var shares' := MemoryShares(FleetStep(f, run[0]), run[1..], key, from, to);
    forall q | 0 <= q < |shares| && q != run[0].replica
      ensures shares[q] == shares'[q]
    {
      OtherReplicas(run, q);
    }
  }

  /** One step of a replica's limiter changes that replica's share and nothing else. */
  lemma MemoryStepShares(f: Fleet, run: seq<FleetEvent>, key: string, from: int, to: int)
    requires forall e :: e in run && !e.Script? ==> e.replica < |f.memories|
    requires run != [] && !run[0].Script?
    ensures var shares := MemoryShares(f, run, key, from, to);
            var shares' := MemoryShares(FleetStep(f, run[0]), run[1..], key, from, to);
            var through := LetsThrough(f, run[0], key) && from <= run[0].now < to;
            Sum(shares) == Sum(shares') + (if through then 1 else 0)
  {
    var e := run[0];
    var r := e.replica;
    var f' := FleetStep(f, e);
    var shares := MemoryShares(f, run, key, from, to);
    var shares' := MemoryShares(f', run[1..], key, from, to);
    OtherShares(f, run, key, from, to);
    SumUpdate(shares, r, shares'[r]);
    assert AtReplica(run, r) == [MemoryEvent(e)] + AtReplica(run[1..], r);
    OwnShare(f.memories[r], MemoryEvent(e), AtReplica(run[1..], r), key, from, to);
  }

  lemma OwnShare(m: Entries, e: Event, rest: seq<Event>, key: string, from: int, to: int)
    ensures AllowedIn(Decisions(m, [e] + rest, key), from, to)
         == AllowedIn(Decisions(Step(m, e), rest, key), from, to)
            + (if e.Call? && e.key == key && Answer(m, e).allowed && from <= e.now < to then 1 else 0)
  {
    assert ([e] + rest)[1..] == rest;
    var ds := Decisions(m, [e] + rest, key);
    if e.Call? && e.key == key {
      assert ds[1..] == Decisions(Step(m, e), rest, key);
    } else {
      assert ds == Decisions(Step(m, e), rest, key);
    }
  }

  lemma {:induction false} FleetSplits(f: Fleet, run: seq<FleetEvent>, key: string, from: int, to: int)
    requires forall e :: e in run && !e.Script? ==> e.replica < |f.memories|
    ensures LetThrough(f, run, key, from, to)
         <= AllowedIn(AtRedis(f.redis, run, key), from, to) + Sum(MemoryShares(f, run, key, from, to))
    decreases |run|
  {
    if run == [] {
      SumAtLeast(MemoryShares(f, run, key, from, to), 0);
    } else {
      var e := run[0];
      var f' := FleetStep(f, e);
      FleetSplits(f', run[1..], key, from, to);
      if e.Script? {
        forall r: nat
          ensures AtReplica(run, r) == AtReplica(run[1..], r)
        {
          OtherReplicas(run, r);
        }
        assert MemoryShares(f, run, key, from, to) == MemoryShares(f', run[1..], key, from, to);
        var rest := AtRedis(f'.redis, run[1..], key);
        assert AtRedis(f.redis, run, key) == RedisDecision(f.redis, e, key) + rest;
        assert e.key != key ==> AtRedis(f.redis, run, key) == rest;
        assert e.key == key ==> AtRedis(f.redis, run, key)[1..] == rest;
      } else {
        MemoryStepShares(f, run, key, from, to);
        assert AtRedis(f.redis, run, key) == AtRedis(f'.redis, run[1..], key);
      }
    }
  }

  // ----- Every limiter is a fixed-window limiter

  /** All requests on the key carry the same limit and window. */
  ghost predicate SameConfig(run: seq<FleetEvent>, key: string, limit: int, width: int) {
    forall e :: e in run && !e.Sweep? && e.key == key ==> e.limit == limit && e.window == width
  }

  lemma {:induction false} AtReplicaClocked(run: seq<FleetEvent>, replica: nat, replicas: nat)
    requires Possible(run, replicas)
    ensures var mine := AtReplica(run, replica);
            && Clocked(mine)
            && (forall i :: 0 <= i < |mine| ==> run != [] && run[0].now <= mine[i].now)
  {
    if run != [] {
      AtReplicaClocked(run[1..], replica, replicas);
      assert run[0] in run;
      assert run[1..] != [] ==> run[0].now <= run[1..][0].now;
    }
  }

  lemma {:induction false} AtReplicaConfigured(run: seq<FleetEvent>, replica: nat, key: string, limit: int, width: int)
    requires SameConfig(run, key, limit, width)
    ensures Configured(AtReplica(run, replica), key, limit, width)
  {
    if run != [] {
      AtReplicaConfigured(run[1..], replica, key, limit, width);
      assert run[0] in run;
    }
  }

  /** The abstract window a Redis counter stands for. */
  ghost predicate Counts(ks: Keyspace, key: string, w: Window, width: int) {
    if RedisKey(key) in ks
    then w.Running? && w.used > 0
      && ks[RedisKey(key)] == Counter(w.used, Some(w.start / MILLISECOND + width / MILLISECOND))
    else w.Idle?
  }

  /** The abstract decision behind one run of the script on the key. */
  lemma ScriptDecides(ks: Keyspace, key: string, w: Window, limit: int, width: int, now: int)
    requires width > 0 && width % MILLISECOND == 0 && Counts(ks, key, w, width)
    ensures var (ks', v) := Check(ks, key, limit, width, now);
            var d := Decision(now, Stored(ks, RedisKey(key), now / MILLISECOND).None?, v.allowed);
            && (w.Idle? ==> d.opens)
            && (w.Running? && d.opens ==> d.now > w.start + width)
            && (d.allowed <==> Advance(w, d).used <= limit)
            && Counts(ks', key, Advance(w, d), width)
  {}

  lemma OtherKey(ks: Keyspace, key: string, other: string, w: Window, limit: int, window: int, width: int, now: int)
    requires Counts(ks, key, w, width) && other != key
    ensures Counts(Check(ks, other, limit, window, now).0, key, w, width)
  {
    assert RedisKey(key)[5..] == key && RedisKey(other)[5..] == other;
  }

  lemma {:induction false} AtRedisOrdered(ks: Keyspace, run: seq<FleetEvent>, key: string)
    requires forall i, j :: 0 <= i < j < |run| ==> run[i].now <= run[j].now
    ensures var ds := AtRedis(ks, run, key);
            Ordered(ds) && forall i :: 0 <= i < |ds| ==> run != [] && run[0].now <= ds[i].now
    decreases |run|
  {
    if run != [] {
      var e := run[0];
      AtRedisOrdered(AfterRedis(ks, e), run[1..], key);
      assert run[1..] != [] ==> e.now <= run[1..][0].now;
    }
  }

  lemma {:induction false} AtRedisWindowed(
      ks: Keyspace, w: Window, run: seq<FleetEvent>, key: string, limit: int, width: int)
    requires width > 0 && width % MILLISECOND == 0 && SameConfig(run, key, limit, width)
    requires Counts(ks, key, w, width)
    ensures Windowed(w, AtRedis(ks, run, key), limit, width)
    decreases |run|
  {
    if run != [] {
      var e := run[0];
      if e.Script? && e.key == key {
        var (ks', v) := Check(ks, key, limit, width, e.now);
        var d := Decision(e.now, Stored(ks, RedisKey(key), e.now / MILLISECOND).None?, v.allowed);
        ScriptDecides(ks, key, w, limit, width, e.now);
        AtRedisWindowed(ks', Advance(w, d), run[1..], key, limit, width);
        var rest := AtRedis(ks', run[1..], key);
        assert AtRedis(ks, run, key) == [d] + rest;
        assert ([d] + rest)[1..] == rest;
      } else if e.Script? {
        var ks' := Check(ks, e.key, e.limit, e.window, e.now).0;
        OtherKey(ks, key, e.key, w, e.limit, e.window, width, e.now);
        AtRedisWindowed(ks', w, run[1..], key, limit, width);
        assert AtRedis(ks, run, key) == AtRedis(ks', run[1..], key);
      } else {
        AtRedisWindowed(ks, w, run[1..], key, limit, width);
        assert AtRedis(ks, run, key) == AtRedis(ks, run[1..], key);
      }
    }
  }

  function Fresh(replicas: nat): Fleet {
    Fleet(map[], seq(replicas, _ => map[]))
  }

  lemma RedisShare(run: seq<FleetEvent>, replicas: nat, key: string, limit: int, width: int, from: int, m: nat)
    requires Possible(run, replicas) && SameConfig(run, key, limit, width)
    requires width > 0 && width % MILLISECOND == 0 && m > 0
    ensures AllowedIn(AtRedis(map[], run, key), from, from + m * width) <= MostIn(limit, m)
  {
    AtRedisWindowed(map[], Idle, run, key, limit, width);
    AtRedisOrdered(map[], run, key);
    AllowedInInterval(Idle, AtRedis(map[], run, key), limit, width, from, m);
  }

  lemma ReplicaShare(
      run: seq<FleetEvent>, replicas: nat, key: string, limit: int, width: int, from: int, m: nat, r: nat)
    requires Possible(run, replicas) && SameConfig(run, key, limit, width)
    requires width > 0 && m > 0
    ensures AllowedIn(Decisions(map[], AtReplica(run, r), key), from, from + m * width) <= MostIn(limit, m)
  {
    AtReplicaClocked(run, r, replicas);
    AtReplicaConfigured(run, r, key, limit, width);
    IntervalBound(AtReplica(run, r), key, limit, width, from, m);
  }

  lemma FleetWithin(f: Fleet, run: seq<FleetEvent>, key: string, from: int, to: int, most: int)
    requires forall e :: e in run && !e.Script? ==> e.replica < |f.memories|
    requires AllowedIn(AtRedis(f.redis, run, key), from, to) <= most
    requires forall r :: 0 <= r < |f.memories| ==>
               AllowedIn(Decisions(f.memories[r], AtReplica(run, r), key), from, to) <= most
    ensures LetThrough(f, run, key, from, to) <= (|f.memories| + 1) * most
  {
    FleetSplits(f, run, key, from, to);
    SumAtMost(MemoryShares(f, run, key, from, to), most);
    OneMore(|f.memories|, most);
  }

  /** With Redis failing in any way at any time, N replicas let through at most N + 1 times what
      one limiter would in any interval that is a whole number of windows long. */
  lemma FailoverBound(run: seq<FleetEvent>, replicas: nat, key: string, limit: int, width: int, from: int, m: nat)
    requires Possible(run, replicas) && SameConfig(run, key, limit, width)
    requires width > 0 && width % MILLISECOND == 0 && m > 0
    ensures LetThrough(Fresh(replicas), run, key, from, from + m * width) <= (replicas + 1) * MostIn(limit, m)
  {
    RedisShare(run, replicas, key, limit, width, from, m);
    forall r: nat
      ensures AllowedIn(Decisions(map[], AtReplica(run, r), key), from, from + m * width) <= MostIn(limit, m)
    {
      ReplicaShare(run, replicas, key, limit, width, from, m, r);
    }
    FleetWithin(Fresh(replicas), run, key, from, from + m * width, MostIn(limit, m));
  }

  /** In particular, over one window: at most twice the limit for every limiter there is. */
  lemma FailoverBoundOneWindow(run: seq<FleetEvent>, replicas: nat, key: string, limit: nat, width: int, from: int)
    requires Possible(run, replicas) && SameConfig(run, key, limit, width)
    requires width > 0 && width % MILLISECOND == 0
    ensures LetThrough(Fresh(replicas), run, key, from, from + width) <= 2 * (replicas + 1) * limit
  {
    FailoverBound(run, replicas, key, limit, width, from, 1);
    Scale(replicas + 1, Max(0, MostIn(limit, 1)), 2 * limit);
    Doubled(replicas + 1, limit);
  }

  lemma Doubled(n: nat, x: nat)
    ensures n * (2 * x) == 2 * n * x
  {}
}
