/**
 The interval bound is the best possible: a client that opens a window with one call, spends the rest
 of it in its last instant, and then each following window at once, gets the whole bound.
 */
module Bursts {
  import opened Prelude
  import opened Windows
  import opened RateLimit

  const KEY: string := "k"

  function At(limit: int, width: int, now: int): Event {
    Call(KEY, limit, width, now, now)
  }

  function Repeat(e: Event, n: nat): (run: seq<Event>)
    ensures |run| == n && forall i :: 0 <= i < n ==> run[i] == e
  {
    if n == 0 then [] else [e] + Repeat(e, n - 1)
  }

  /** When the j-th window after the first is opened, `gap` after the one before it is over. */
  function Opening(width: int, gap: int, j: nat): int {
    j * (width + gap)
  }

  /** One call at 0, the rest of the limit at the last instant of that window, then `windows` full
      windows, each opened when the one before it is over. */
  function Burst(limit: int, width: int, gap: int, windows: nat): seq<Event>
    requires limit > 0
  {
    if windows == 0 then [At(limit, width, 0)] + Repeat(At(limit, width, width), limit - 1)
    else Burst(limit, width, gap, windows - 1) + Repeat(At(limit, width, Opening(width, gap, windows)), limit)
  }

  /** Calls within a window that still has room for them are all allowed. */
  lemma {:induction false} RoomForAll(m: Entries, e: Event, n: nat, from: int, to: int)
    requires e.Call? && e.key == KEY && KEY in m && e.now <= m[KEY].resetAt && m[KEY].count + n <= e.limit
    requires from <= e.now < to
    ensures AllowedIn(Decisions(m, Repeat(e, n), KEY), from, to) == n
    ensures KEY in Final(m, Repeat(e, n)) && Final(m, Repeat(e, n))[KEY] == Entry(m[KEY].count + n, m[KEY].resetAt)
    decreases n
  {
    if n > 0 {
      assert Repeat(e, n)[1..] == Repeat(e, n - 1);
      RoomForAll(Step(m, e), e, n - 1, from, to);
      assert Decisions(m, Repeat(e, n), KEY)[1..] == Decisions(Step(m, e), Repeat(e, n - 1), KEY);
    }
  }

  /** A window opened by the first of as many calls as the limit allows. */
  lemma FullWindow(m: Entries, limit: int, width: int, now: int, from: int, to: int)
    requires limit > 0 && width > 0 && KEY in m && m[KEY].resetAt < now && from <= now < to
    ensures var calls := Repeat(At(limit, width, now), limit);
            && AllowedIn(Decisions(m, calls, KEY), from, to) == limit
            && KEY in Final(m, calls) && Final(m, calls)[KEY] == Entry(limit, now + width)
  {
    var e := At(limit, width, now);
    var m' := Step(m, e);
    assert m'[KEY] == Entry(1, now + width);
    assert Repeat(e, limit)[0] == e && Repeat(e, limit)[1..] == Repeat(e, limit - 1);
    RoomForAll(m', e, limit - 1, from, to);
    assert Decisions(m, Repeat(e, limit), KEY)[1..] == Decisions(m', Repeat(e, limit - 1), KEY);
  }

  lemma OpeningInside(width: int, gap: nat, j: nat, windows: nat)
    requires 0 < j <= windows && windows * gap < width
    ensures Opening(width, gap, j) == Opening(width, gap, j - 1) + width + gap
    ensures width <= Opening(width, gap, j) < width + windows * width
  {
    NextOpening(width, gap, j);
    assert j * (width + gap) == j * width + j * gap;
    Scale(gap, j, windows);
    MulOrder(j, windows, width);
    MulOrder(1, j, width);
  }

  lemma FirstWindow(limit: int, width: int, gap: int, to: int)
    requires limit > 0 && 0 < width < to
    ensures var run := Burst(limit, width, gap, 0);
            && AllowedIn(Decisions(map[], run, KEY), width, to) == limit - 1
            && KEY in Final(map[], run) && Final(map[], run)[KEY] == Entry(limit, width)
  {
    var first := At(limit, width, 0);
    var m := Step(map[], first);
    var rest := Repeat(At(limit, width, width), limit - 1);
    assert m[KEY] == Entry(1, width);
    assert ([first] + rest)[1..] == rest;
    RoomForAll(m, At(limit, width, width), limit - 1, width, to);
    assert Decisions(map[], [first] + rest, KEY)[1..] == Decisions(m, rest, KEY);
  }

  lemma {:induction false} BurstAllowed(limit: int, width: int, gap: nat, j: nat, windows: nat)
    requires limit > 0 && j <= windows && 0 < windows && 0 < gap && windows * gap < width
    ensures var run := Burst(limit, width, gap, j);
            && AllowedIn(Decisions(map[], run, KEY), width, width + windows * width) == limit - 1 + j * limit
            && KEY in Final(map[], run) && Final(map[], run)[KEY] == Entry(limit, Opening(width, gap, j) + width)
    decreases j
  {
    var to := width + windows * width;
    if j == 0 {
      MulOrder(1, windows, width);
      FirstWindow(limit, width, gap, to);
    } else {
      var before := Burst(limit, width, gap, j - 1);
      var calls := Repeat(At(limit, width, Opening(width, gap, j)), limit);
      var m := Final(map[], before);
      BurstAllowed(limit, width, gap, j - 1, windows);
      OpeningInside(width, gap, j, windows);
      FullWindow(m, limit, width, Opening(width, gap, j), width, to);
      DecisionsAppend(map[], before, calls, KEY);
      AllowedInAppend(Decisions(map[], before, KEY), Decisions(m, calls, KEY), width, to);
      assert j * limit == (j - 1) * limit + limit;
    }
  }

  /** A run on the key in time order that ends by `last`. */
  ghost predicate ProperBy(run: seq<Event>, limit: int, width: int, last: int) {
    && Clocked(run)
    && (forall i :: 0 <= i < |run| ==>
          run[i].Call? && run[i].limit == limit && run[i].window == width && run[i].now <= last)
  }

  lemma ProperAppend(run: seq<Event>, limit: int, width: int, last: int, now: int, n: nat)
    requires ProperBy(run, limit, width, last) && last <= now
    ensures ProperBy(run + Repeat(At(limit, width, now), n), limit, width, now)
  {}

  lemma NextOpening(width: int, gap: int, j: nat)
    requires j > 0
    ensures Opening(width, gap, j) == Opening(width, gap, j - 1) + width + gap
  {
    assert j * (width + gap) == (j - 1) * (width + gap) + (width + gap);
  }

  lemma {:induction false} BurstProper(limit: int, width: int, gap: int, windows: nat)
    requires limit > 0 && width >= 0 && gap >= 0
    ensures ProperBy(Burst(limit, width, gap, windows), limit, width, Opening(width, gap, windows) + width)
    decreases windows
  {
    if windows == 0 {
      ProperAppend([At(limit, width, 0)], limit, width, 0, width, limit - 1);
    } else {
      var earlier, now := Opening(width, gap, windows - 1) + width, Opening(width, gap, windows);
      BurstProper(limit, width, gap, windows - 1);
      NextOpening(width, gap, windows);
      ProperAppend(Burst(limit, width, gap, windows - 1), limit, width, earlier, now, limit);
      ProperLater(Burst(limit, width, gap, windows), limit, width, now, now + width);
    }
  }

  lemma ProperLater(run: seq<Event>, limit: int, width: int, last: int, later: int)
    requires ProperBy(run, limit, width, last) && last <= later
    ensures ProperBy(run, limit, width, later)
  {}

  /** The run's calls on the key share one limit and window, and the interval of m windows that
      begins at `from` holds as many allowed calls as any can. */
  ghost predicate Reaches(run: seq<Event>, from: int, limit: int, width: int, m: nat) {
    && Clocked(run) && Configured(run, KEY, limit, width)
    && AllowedIn(Decisions(map[], run, KEY), from, from + m * width) == MostIn(limit, m)
  }

  /** For every positive limit and every number of windows below the ticks of a window, some run
      reaches the bound. */
  lemma BoundIsReached(limit: int, width: int, m: nat)
    requires limit > 0 && 0 < m < width
    ensures exists run, from :: Reaches(run, from, limit, width, m)
  {
    BurstProper(limit, width, 1, m);
    BurstAllowed(limit, width, 1, m, m);
    assert limit - 1 + m * limit == MostIn(limit, m);
    assert Reaches(Burst(limit, width, 1, m), width, limit, width, m);
  }

  // ----- The sliding-window reading

  lemma {:induction false} EmptyInterval(ds: seq<Decision>, from: int, to: int)
    requires to <= from
    ensures AllowedIn(ds, from, to) == 0
  {
    if ds != [] {
      EmptyInterval(ds[1..], from, to);
    }
  }

  lemma {:induction false} NothingYet(ds: seq<Decision>, from: int, to: int)
    requires forall i :: 0 <= i < |ds| ==> to <= ds[i].now
    ensures AllowedIn(ds, from, to) == 0
  {
    if ds != [] {
      NothingYet(ds[1..], from, to);
    }
  }

  /** What the entry leaves for calls at `now`. */
  function Left(m: Entries, key: string, limit: int, now: int): nat {
    Max(0, match Live(m, key, now) case None => limit case Some(e) => limit - e.count)
  }

  lemma LeftStep(m: Entries, e: Event, key: string, limit: int, width: int, now: int)
    requires width >= 0 && e.now <= now && (e.Call? && e.key == key ==> e.limit == limit && e.window == width)
    ensures Left(Step(m, e), key, limit, now) + One(e.Call? && e.key == key && Answer(m, e).allowed && e.now == now)
         <= Left(m, key, limit, now)
  {}

  /** At any one instant no more calls are allowed than the entry leaves. */
  lemma {:induction false} InOneInstant(m: Entries, run: seq<Event>, key: string, limit: int, width: int, now: int)
    requires width >= 0 && Clocked(run) && Configured(run, key, limit, width)
    ensures AllowedIn(Decisions(m, run, key), now, now + 1) <= Left(m, key, limit, now)
    decreases |run|
  {
    if run != [] {
      var e := run[0];
      if e.now > now {
        DecisionsOrdered(m, run, key);
        NothingYet(Decisions(m, run, key), now, now + 1);
      } else {
        assert forall i :: 0 <= i < |run[1..]| ==> run[1..][i] == run[i + 1];
        LeftStep(m, e, key, limit, width, now);
        InOneInstant(Step(m, e), run[1..], key, limit, width, now);
        var rest := Decisions(Step(m, e), run[1..], key);
        if e.Call? && e.key == key {
          assert Decisions(m, run, key)[1..] == rest;
        } else {
          assert Decisions(m, run, key) == rest;
        }
      }
    }
  }

  /** In every run, for every key called under this limit and window only, no interval as long as the
      window holds more allowed calls than the limit. */
  ghost predicate Sliding(limit: int, width: int) {
    forall run, key, from | Clocked(run) && Configured(run, key, limit, width) ::
      Within(run, key, from, width) <= Max(0, limit)
  }

  function Within(run: seq<Event>, key: string, from: int, width: int): nat {
    AllowedIn(Decisions(map[], run, key), from, from + width)
  }

  lemma WithinLimit(run: seq<Event>, key: string, limit: int, width: int, from: int)
    requires Clocked(run) && Configured(run, key, limit, width) && (limit <= 1 || width <= 1)
    ensures Within(run, key, from, width) <= Max(0, limit)
  {
    if width <= 0 {
      EmptyInterval(Decisions(map[], run, key), from, from + width);
    } else if width == 1 {
      InOneInstant(map[], run, key, limit, width, from);
    } else {
      IntervalBound(run, key, limit, width, from, 1);
    }
  }

  /** The limiter is a sliding window, with at most `limit` calls in any interval of the window's
      length, if and only if it allows one call at most or the window is no longer than a tick. */
  lemma SlidingExactly(limit: int, width: int)
    ensures Sliding(limit, width) <==> limit <= 1 || width <= 1
  {
    if limit <= 1 || width <= 1 {
      forall run, key, from | Clocked(run) && Configured(run, key, limit, width)
        ensures Within(run, key, from, width) <= Max(0, limit)
      {
        WithinLimit(run, key, limit, width, from);
      }
    } else {
      BoundIsReached(limit, width, 1);
      var run, from :| Reaches(run, from, limit, width, 1);
      assert Within(run, KEY, from, width) > limit;
    }
  }
}
