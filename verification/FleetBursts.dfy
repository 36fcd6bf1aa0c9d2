/**
 The bound on a fleet is the best possible: whatever run one limiter can be put through, Redis and
 every replica can be put through it at once, and all they allow adds up.
 */
module FleetBursts {
  import opened Prelude
  import opened Windows
  import opened RateLimit
  import opened Redis
  import opened Failover
  import B = Bursts

  /** The call made through Redis, with its reply, and falling back at each of the replicas. */
  function Everywhere(e: Event, replicas: nat): (run: seq<FleetEvent>)
    requires e.Call?
    ensures forall i :: 0 <= i < |run| ==> run[i].now == e.now && !run[i].Sweep?
    ensures forall i :: 0 <= i < |run| ==> run[i].key == e.key && run[i].limit == e.limit && run[i].window == e.window
    ensures forall i :: 0 <= i < |run| && run[i].Script? ==> run[i].replied
    ensures forall i :: 0 <= i < |run| && run[i].Fallback? ==> run[i].replica < replicas && run[i].later == e.later
  {
    if replicas == 0 then [Script(e.key, e.limit, e.window, e.now, true)]
    else Everywhere(e, replicas - 1) + [Fallback(replicas - 1, e.key, e.limit, e.window, e.now, e.later)]
  }

  ghost predicate Calls(run: seq<Event>, key: string) {
    forall i :: 0 <= i < |run| ==> run[i].Call? && run[i].key == key
  }

  function Fanned(run: seq<Event>, replicas: nat): seq<FleetEvent>
    requires forall i :: 0 <= i < |run| ==> run[i].Call?
  {
    if run == [] then [] else Everywhere(run[0], replicas) + Fanned(run[1..], replicas)
  }

  // ----- A possible run of the fleet

  lemma Joined(a: seq<FleetEvent>, b: seq<FleetEvent>, replicas: nat, now: int)
    requires Possible(a, replicas) && Possible(b, replicas)
    requires forall i :: 0 <= i < |a| ==> a[i].now == now
    requires forall i :: 0 <= i < |b| ==> now <= b[i].now
    ensures Possible(a + b, replicas)
  {}

  lemma {:induction false} FannedIsPossible(run: seq<Event>, replicas: nat, key: string, limit: int, width: int)
    requires Clocked(run) && Calls(run, key) && Configured(run, key, limit, width)
    ensures Possible(Fanned(run, replicas), replicas) && SameConfig(Fanned(run, replicas), key, limit, width)
    ensures forall e :: e in Fanned(run, replicas) ==> !e.Sweep? && e.key == key && (e.Script? ==> e.replied)
    ensures forall i :: 0 <= i < |Fanned(run, replicas)| ==> run != [] && run[0].now <= Fanned(run, replicas)[i].now
  {
    if run != [] {
      var tail := run[1..];
      assert forall i :: 0 <= i < |tail| ==> tail[i] == run[i + 1];
      FannedIsPossible(tail, replicas, key, limit, width);
      Joined(Everywhere(run[0], replicas), Fanned(tail, replicas), replicas, run[0].now);
    }
  }

  // ----- Every limiter goes through the same run

  lemma {:induction false} AtReplicaAppend(a: seq<FleetEvent>, b: seq<FleetEvent>, r: nat)
    ensures AtReplica(a + b, r) == AtReplica(a, r) + AtReplica(b, r)
  {
    if a == [] {
      assert a + b == b;
    } else {
      assert (a + b)[1..] == a[1..] + b;
      AtReplicaAppend(a[1..], b, r);
    }
  }

  lemma {:induction false} EverywhereAtReplica(e: Event, replicas: nat, r: nat)
    requires e.Call?
    ensures AtReplica(Everywhere(e, replicas), r) == if r < replicas then [e] else []
  {
    if replicas > 0 {
      EverywhereAtReplica(e, replicas - 1, r);
      var last := Fallback(replicas - 1, e.key, e.limit, e.window, e.now, e.later);
      AtReplicaAppend(Everywhere(e, replicas - 1), [last], r);
      assert AtReplica([last][1..], r) == [];
    } else {
      var script := Script(e.key, e.limit, e.window, e.now, true);
      assert AtReplica([script][1..], r) == [];
    }
  }

  lemma {:induction false} FannedAtReplica(run: seq<Event>, replicas: nat, r: nat)
    requires r < replicas && forall i :: 0 <= i < |run| ==> run[i].Call?
    ensures AtReplica(Fanned(run, replicas), r) == run
  {
    if run != [] {
      FannedAtReplica(run[1..], replicas, r);
      EverywhereAtReplica(run[0], replicas, r);
      AtReplicaAppend(Everywhere(run[0], replicas), Fanned(run[1..], replicas), r);
      assert run == [run[0]] + run[1..];
    }
  }

  function Scripted(run: seq<Event>): seq<FleetEvent>
    requires forall i :: 0 <= i < |run| ==> run[i].Call?
  {
    if run == [] then []
    else [Script(run[0].key, run[0].limit, run[0].window, run[0].now, true)] + Scripted(run[1..])
  }

  lemma {:induction false} OnlyScriptsAppend(a: seq<FleetEvent>, b: seq<FleetEvent>, key: string)
    ensures OnlyScripts(a + b, key) == OnlyScripts(a, key) + OnlyScripts(b, key)
  {
    if a == [] {
      assert a + b == b;
    } else {
      assert (a + b)[1..] == a[1..] + b;
      OnlyScriptsAppend(a[1..], b, key);
    }
  }

  lemma {:induction false} EverywhereAtRedis(e: Event, replicas: nat)
    requires e.Call?
    ensures OnlyScripts(Everywhere(e, replicas), e.key) == [Script(e.key, e.limit, e.window, e.now, true)]
  {
    if replicas > 0 {
      EverywhereAtRedis(e, replicas - 1);
      OnlyScriptsSnoc(Everywhere(e, replicas - 1),
                      Fallback(replicas - 1, e.key, e.limit, e.window, e.now, e.later), e.key);
    } else {
      OnlyScriptsSnoc([], Script(e.key, e.limit, e.window, e.now, true), e.key);
    }
  }

  lemma {:induction false} FannedAtRedis(run: seq<Event>, replicas: nat, key: string)
    requires Calls(run, key)
    ensures OnlyScripts(Fanned(run, replicas), key) == Scripted(run)
  {
    if run != [] {
      FannedAtRedis(run[1..], replicas, key);
      EverywhereAtRedis(run[0], replicas);
      OnlyScriptsAppend(Everywhere(run[0], replicas), Fanned(run[1..], replicas), key);
    }
  }

  /** On whole milliseconds Redis decides as the in-memory limiter does. */
  lemma {:induction false} RedisDecidesAlike(ks: Keyspace, m: Entries, run: seq<Event>, key: string)
    requires Calls(run, key) && OnMilliseconds(run) && Clocked(run)
    requires forall i :: 0 <= i < |run| ==> Representable(run[i].window)
    requires run != [] ==> SameCount(ks, m, key, run[0].now)
    ensures AtRedis(ks, Scripted(run), key) == Decisions(m, run, key)
    decreases |run|
  {
    if run != [] {
      var e := run[0];
      var tail := run[1..];
      var script := Script(e.key, e.limit, e.window, e.now, true);
      SameCountStep(ks, m, e);
      if tail != [] {
        assert tail[0] == run[1];
        SameCountLater(AfterRedis(ks, script), Step(m, e), key, e.now, tail[0].now);
      }
      RedisDecidesAlike(AfterRedis(ks, script), Step(m, e), tail, key);
      AtRedisCons(ks, script, Scripted(tail), key);
    }
  }

  // ----- Everything allowed is let through

  /** When every script's reply arrives, the split of the fleet's admissions is exact. */
  lemma {:induction false} FleetSplitsExactly(f: Fleet, run: seq<FleetEvent>, key: string, from: int, to: int)
    requires forall e :: e in run && !e.Script? ==> e.replica < |f.memories|
    requires forall e :: e in run && e.Script? ==> e.replied
    ensures LetThrough(f, run, key, from, to)
         == AllowedIn(AtRedis(f.redis, run, key), from, to) + Sum(MemoryShares(f, run, key, from, to))
    decreases |run|
  {
    if run == [] {
      SumAtLeast(MemoryShares(f, run, key, from, to), 0);
      SumAtMost(MemoryShares(f, run, key, from, to), 0);
    } else {
      var e := run[0];
      var f' := FleetStep(f, e);
      FleetSplitsExactly(f', run[1..], key, from, to);
      var rest := AtRedis(f'.redis, run[1..], key);
      AtRedisCons(f.redis, e, run[1..], key);
      assert run == [e] + run[1..];
      if e.Script? {
        ScriptLeavesShares(f, run, key, from, to);
        assert e.key == key ==> AtRedis(f.redis, run, key)[1..] == rest;
        assert e.key != key ==> AtRedis(f.redis, run, key) == rest;
      } else {
        MemoryStepShares(f, run, key, from, to);
        assert AtRedis(f.redis, run, key) == rest;
      }
    }
  }

  lemma ScriptLeavesShares(f: Fleet, run: seq<FleetEvent>, key: string, from: int, to: int)
    requires run != [] && run[0].Script?
    ensures MemoryShares(f, run, key, from, to) == MemoryShares(FleetStep(f, run[0]), run[1..], key, from, to)
  {
    forall r: nat
      ensures AtReplica(run, r) == AtReplica(run[1..], r)
    {
      OtherReplicas(run, r);
    }
  }

  /** Put through the same run at Redis and at every replica, the fleet lets through as many times as
      much as one limiter. */
  lemma AllAtOnce(run: seq<Event>, replicas: nat, key: string, limit: int, width: int, from: int, to: int)
    requires Clocked(run) && Calls(run, key) && Configured(run, key, limit, width)
    requires OnMilliseconds(run) && Representable(width)
    ensures forall e :: e in Fanned(run, replicas) && !e.Script? ==> e.replica < |Fresh(replicas).memories|
    ensures LetThrough(Fresh(replicas), Fanned(run, replicas), key, from, to)
         == (replicas + 1) * AllowedIn(Decisions(map[], run, key), from, to)
  {
    var fanned := Fanned(run, replicas);
    var one := AllowedIn(Decisions(map[], run, key), from, to);
    FannedIsPossible(run, replicas, key, limit, width);
    FleetSplitsExactly(Fresh(replicas), fanned, key, from, to);
    RedisIsolatesKeys(map[], map[], fanned, key);
    FannedAtRedis(run, replicas, key);
    RedisDecidesAlike(map[], map[], run, key);
    var shares := MemoryShares(Fresh(replicas), fanned, key, from, to);
    forall r | 0 <= r < |shares|
      ensures shares[r] == one
    {
      FannedAtReplica(run, replicas, r);
    }
    SumAtLeast(shares, one);
    SumAtMost(shares, one);
    OneMore(replicas, one);
  }

  // ----- The bound is reached

  lemma {:induction false} BurstOnMilliseconds(limit: int, width: int, windows: nat)
    requires limit > 0 && width % MILLISECOND == 0
    ensures var run := B.Burst(limit, width, MILLISECOND, windows);
            OnMilliseconds(run) && Calls(run, B.KEY)
  {
    if windows > 0 {
      BurstOnMilliseconds(limit, width, windows - 1);
      var ms := width / MILLISECOND;
      assert width + MILLISECOND == (ms + 1) * MILLISECOND;
      WholeMultiple(windows, ms + 1);
    }
  }

  lemma WholeMultiple(j: nat, k: int)
    ensures j * (k * MILLISECOND) % MILLISECOND == 0
  {
    assert j * (k * MILLISECOND) == (j * k) * MILLISECOND + 0;
    Quotient(j * (k * MILLISECOND), MILLISECOND, j * k, 0);
  }

  /** A possible run of the fleet under one limit and window, in which the interval of m windows that
      begins at `from` holds as many requests let through as the bound says. */
  ghost predicate Reaches(run: seq<FleetEvent>, replicas: nat, from: int, limit: int, width: int, m: nat) {
    && Possible(run, replicas) && SameConfig(run, B.KEY, limit, width)
    && LetThrough(Fresh(replicas), run, B.KEY, from, from + m * width) == (replicas + 1) * MostIn(limit, m)
  }

  /** For every number of replicas, every positive limit and every window of more milliseconds than
      there are windows, some run of the fleet reaches FailoverBound. */
  lemma FailoverBoundIsReached(replicas: nat, limit: int, width: int, m: nat)
    requires limit > 0 && width % MILLISECOND == 0 && 0 < m && m * MILLISECOND < width
    ensures exists run, from :: Reaches(run, replicas, from, limit, width, m)
  {
    var burst := B.Burst(limit, width, MILLISECOND, m);
    B.BurstProper(limit, width, MILLISECOND, m);
    B.BurstAllowed(limit, width, MILLISECOND, m, m);
    BurstOnMilliseconds(limit, width, m);
    assert limit - 1 + m * limit == MostIn(limit, m);
    FannedIsPossible(burst, replicas, B.KEY, limit, width);
    AllAtOnce(burst, replicas, B.KEY, limit, width, width, width + m * width);
    assert Reaches(Fanned(burst, replicas), replicas, width, limit, width, m);
  }
}
