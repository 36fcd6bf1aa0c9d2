/**
 The store of circuit breakers: the object, whose lookup takes the read lock and, on a miss, the
 write lock, and the protocol of any number of threads interleaving those two sections.
 */
module BreakerStore {
  import opened Prelude
  import CB = CircuitBreaker

  class BreakerStore {
    var breakers: map<string, CB.CircuitBreaker>

    constructor ()
      ensures breakers == map[]
    {
      breakers := map[];
    }

    /** The section under the read lock. */
    method Find(key: string) returns (found: Option<CB.CircuitBreaker>)
      ensures found == if key in breakers then Some(breakers[key]) else None
    {
      if key in breakers {
        return Some(breakers[key]);
      }
      return None;
    }

    /** The section under the write lock, which looks again before it inserts. */
    method FindOrInsert(key: string, cfg: CB.Config) returns (cb: CB.CircuitBreaker)
      modifies this
      ensures key in old(breakers) ==> cb == old(breakers)[key] && breakers == old(breakers)
      ensures key !in old(breakers) ==>
                && fresh(cb) && cb.View() == CB.INITIAL && cb.config == cfg
                && breakers == old(breakers)[key := cb]
    {
      if key in breakers {
        return breakers[key];
      }
      cb := new CB.CircuitBreaker(cfg);
      breakers := breakers[key := cb];
    }

    method GetOrCreate(routeID: string, upstreamURL: string, cfg: CB.Config) returns (cb: CB.CircuitBreaker)
      modifies this
      ensures var key := JoinKey(routeID, upstreamURL);
              && (key in old(breakers) ==> cb == old(breakers)[key] && breakers == old(breakers))
              && (key !in old(breakers) ==>
                    && fresh(cb) && cb.View() == CB.INITIAL && cb.config == cfg
                    && breakers == old(breakers)[key := cb])
    {
      var key := routeID + ":" + upstreamURL;
      var found := Find(key);
      if found.Some? {
        return found.value;
      }
      cb := FindOrInsert(key, cfg);
    }

    method Snapshot() returns (snap: map<string, CB.State>)
      ensures snap.Keys == breakers.Keys
      ensures forall k :: k in breakers ==> snap[k] == breakers[k].state
    {
      snap := map[];
      var todo := breakers.Keys;
      while todo != {}
        invariant todo <= breakers.Keys && snap.Keys == breakers.Keys - todo
        invariant forall k :: k in snap ==> snap[k] == breakers[k].state
      {
        var k :| k in todo;
        snap := snap[k := breakers[k].state];
        todo := todo - {k};
      }
    }
  }

  // ----- The protocol

  /** Where a thread is in GetOrCreate. */
  datatype Phase = Reading(key: string) | Missed(key: string)

  /** A breaker is named by the order of its creation. `answers` lists what GetOrCreate calls have
      returned so far. */
  datatype Shared = Shared(
    store: map<string, nat>,
    created: seq<string>,
    threads: map<nat, Phase>,
    answers: seq<(string, nat)>)

  datatype Act = Enter(thread: nat, key: string) | ReadSection(thread: nat) | WriteSection(thread: nat)

  predicate Enabled(s: Shared, a: Act) {
    match a
    case Enter(t, _) => t !in s.threads
    case ReadSection(t) => t in s.threads && s.threads[t].Reading?
    case WriteSection(t) => t in s.threads && s.threads[t].Missed?
  }

  function Next(s: Shared, a: Act): Shared
    requires Enabled(s, a)
  {
    match a
    case Enter(t, key) => s.(threads := s.threads[t := Reading(key)])
    case ReadSection(t) =>
      var key := s.threads[t].key;
      if key in s.store
      then s.(threads := s.threads - {t}, answers := s.answers + [(key, s.store[key])])
      else s.(threads := s.threads[t := Missed(key)])
    case WriteSection(t) =>
      var key := s.threads[t].key;
      if key in s.store
      then s.(threads := s.threads - {t}, answers := s.answers + [(key, s.store[key])])
      else s.(store := s.store[key := |s.created|], created := s.created + [key],
              threads := s.threads - {t}, answers := s.answers + [(key, |s.created|)])
  }

  // ----- The sections are those of the object

  /** The object's map, its breakers taken in the order of their creation. */
  ghost predicate Represents(breakers: map<string, CB.CircuitBreaker>, objects: seq<CB.CircuitBreaker>, s: Shared) {
    && breakers.Keys == s.store.Keys && |objects| == |s.created|
    && forall key :: key in s.store ==> s.store[key] < |objects| && breakers[key] == objects[s.store[key]]
  }

  /** `key` was answered with this breaker. */
  ghost predicate Answered(objects: seq<CB.CircuitBreaker>, s: Shared, key: string, cb: CB.CircuitBreaker) {
    var n := |s.answers| - 1;
    n >= 0 && s.answers[n].0 == key && s.answers[n].1 < |objects| && objects[s.answers[n].1] == cb
  }

  /** What Find promises is what the read-locked section does. */
  lemma FindIsReadSection(
      breakers: map<string, CB.CircuitBreaker>, objects: seq<CB.CircuitBreaker>, s: Shared, t: nat,
      found: Option<CB.CircuitBreaker>)
    requires Represents(breakers, objects, s) && Enabled(s, ReadSection(t))
    requires var key := s.threads[t].key;
             found == if key in breakers then Some(breakers[key]) else None
    ensures var key := s.threads[t].key;
            var s' := Next(s, ReadSection(t));
            && Represents(breakers, objects, s')
            && (found.Some? ==> Answered(objects, s', key, found.value))
            && (found.None? ==> s' == s.(threads := s.threads[t := Missed(key)]))
  {}

  /** What FindOrInsert promises is what the write-locked section does. */
  lemma FindOrInsertIsWriteSection(
      breakers: map<string, CB.CircuitBreaker>, objects: seq<CB.CircuitBreaker>, s: Shared, t: nat,
      breakers': map<string, CB.CircuitBreaker>, cb: CB.CircuitBreaker)
    requires Represents(breakers, objects, s) && Enabled(s, WriteSection(t))
    requires var key := s.threads[t].key;
             && (key in breakers ==> cb == breakers[key] && breakers' == breakers)
             && (key !in breakers ==> breakers' == breakers[key := cb])
    ensures var key := s.threads[t].key;
            var objects' := if key in breakers then objects else objects + [cb];
            var s' := Next(s, WriteSection(t));
            Represents(breakers', objects', s') && Answered(objects', s', key, cb)
  {}

  // ----- All interleavings

  ghost predicate Runs(s: Shared, acts: seq<Act>, s': Shared)
    decreases |acts|
  {
    if acts == [] then s == s'
    else Enabled(s, acts[0]) && Runs(Next(s, acts[0]), acts[1..], s')
  }

  const EMPTY: Shared := Shared(map[], [], map[], [])

  /** Keys and breakers correspond one to one, and every answer given still holds. */
  ghost predicate Inv(s: Shared) {
    && (forall key :: key in s.store ==> s.store[key] < |s.created| && s.created[s.store[key]] == key)
    && (forall i :: 0 <= i < |s.created| ==> s.created[i] in s.store && s.store[s.created[i]] == i)
    && (forall i :: 0 <= i < |s.answers| ==>
          s.answers[i].0 in s.store && s.store[s.answers[i].0] == s.answers[i].1)
  }

  lemma {:induction false} RunKeepsInv(s: Shared, acts: seq<Act>, s': Shared)
    requires Inv(s) && Runs(s, acts, s')
    ensures Inv(s')
    ensures s.created <= s'.created && s.answers <= s'.answers
    ensures forall key :: key in s.store ==> key in s'.store && s'.store[key] == s.store[key]
    decreases |acts|
  {
    if acts != [] {
      RunKeepsInv(Next(s, acts[0]), acts[1..], s');
    }
  }

  /** However the sections of any number of threads interleave: a breaker once created is never
      replaced, no key gets two, and all callers that ask for a key get the same one. */
  lemma OneBreakerPerKey(acts: seq<Act>, mid: Shared, acts': seq<Act>, end: Shared)
    requires Runs(EMPTY, acts, mid) && Runs(mid, acts', end)
    ensures forall key :: key in mid.store ==> key in end.store && end.store[key] == mid.store[key]
    ensures forall i, j :: 0 <= i < j < |end.created| ==> end.created[i] != end.created[j]
    ensures forall i, j :: 0 <= i < |mid.answers| && 0 <= j < |end.answers| && mid.answers[i].0 == end.answers[j].0
                           ==> mid.answers[i].1 == end.answers[j].1
  {
    RunKeepsInv(EMPTY, acts, mid);
    RunKeepsInv(mid, acts', end);
  }

  // ----- Linearizability

  /** GetOrCreate as one indivisible step. */
  function Atomic(store: map<string, nat>, created: seq<string>, key: string): (map<string, nat>, seq<string>, nat) {
    if key in store then (store, created, store[key])
    else (store[key := |created|], created + [key], |created|)
  }

  /** The indivisible calls, made in the order in which `acts` answers them. */
  function Serial(store: map<string, nat>, created: seq<string>, keys: seq<string>):
    (map<string, nat>, seq<string>, seq<(string, nat)>)
    decreases |keys|
  {
    if keys == [] then (store, created, [])
    else
      var (st, cr, id) := Atomic(store, created, keys[0]);
      var (st', cr', answers) := Serial(st, cr, keys[1..]);
      (st', cr', [(keys[0], id)] + answers)
  }

  function KeysOf(answers: seq<(string, nat)>): (keys: seq<string>)
    ensures |keys| == |answers| && forall i :: 0 <= i < |keys| ==> keys[i] == answers[i].0
  {
    seq(|answers|, i requires 0 <= i < |answers| => answers[i].0)
  }

  /** Every interleaved run answers as if each call took effect at once, at one of its own steps. */
  lemma {:induction false} Linearizable(s: Shared, acts: seq<Act>, s': Shared)
    requires Runs(s, acts, s') && s.answers <= s'.answers
    ensures var given := s'.answers[|s.answers|..];
            Serial(s.store, s.created, KeysOf(given)) == (s'.store, s'.created, given)
    decreases |acts|
  {
    if acts == [] {
      assert s'.answers[|s.answers|..] == [];
    } else {
      var n := Next(s, acts[0]);
      AnswersGrow(n, acts[1..], s');
      Linearizable(n, acts[1..], s');
      var given := s'.answers[|s.answers|..];
      var later := s'.answers[|n.answers|..];
      if n.answers == s.answers {
        assert given == later;
      } else {
        assert given == [n.answers[|s.answers|]] + later;
        assert KeysOf(given)[1..] == KeysOf(later);
      }
    }
  }

  lemma {:induction false} AnswersGrow(s: Shared, acts: seq<Act>, s': Shared)
    requires Runs(s, acts, s')
    ensures s.answers <= s'.answers
    decreases |acts|
  {
    if acts != [] {
      AnswersGrow(Next(s, acts[0]), acts[1..], s');
    }
  }
}
