/**
 Fixed windows anchored at the first request, abstractly: what any limiter that counts per
 window can allow within an arbitrary interval. Both limiter back ends are shown elsewhere to
 produce such decision sequences.
 */
module Windows {
  import opened Prelude

  /** One decision about one key: when, whether it opened a new window, and the answer. */
  datatype Decision = Decision(now: int, opens: bool, allowed: bool)

  datatype Window = Idle | Running(start: int, used: nat)

  function Advance(w: Window, d: Decision): Window {
    if d.opens || w.Idle? then Running(d.now, 1) else Running(w.start, w.used + 1)
  }

  /** The decisions of a fixed-window limiter: a window is opened only when more than `width`
      has passed since the previous one was, and the first `limit` calls of each are allowed. */
  ghost predicate Windowed(w: Window, ds: seq<Decision>, limit: int, width: int)
    decreases |ds|
  {
    ds == [] ||
    var d := ds[0];
    && (w.Idle? ==> d.opens)
    && (w.Running? && d.opens ==> d.now > w.start + width)
    && (d.allowed <==> Advance(w, d).used <= limit)
    && Windowed(Advance(w, d), ds[1..], limit, width)
  }

  ghost predicate Ordered(ds: seq<Decision>) {
    forall i, j :: 0 <= i < j < |ds| ==> ds[i].now <= ds[j].now
  }

  /** How many decisions in the half-open interval [from, to) were "allowed". */
  function AllowedIn(ds: seq<Decision>, from: int, to: int): nat {
    if ds == [] then 0
    else (if ds[0].allowed && from <= ds[0].now < to then 1 else 0) + AllowedIn(ds[1..], from, to)
  }

  /** How many windows can start in a stretch of the given length: its ceiling in widths. */
  function Starts(length: int, width: int): nat
    requires width > 0
    decreases Max(length, 0)
  {
    if length <= 0 then 0 else 1 + Starts(length - width, width)
  }

  lemma {:induction false} StartsMonotone(x: int, y: int, width: int)
    requires width > 0 && x <= y
    ensures Starts(x, width) <= Starts(y, width)
    decreases Max(x, 0)
  {
    if x > 0 {
      StartsMonotone(x - width, y - width, width);
    }
  }

  lemma {:induction false} StartsOfMultiple(m: nat, width: int)
    requires width > 0
    ensures Starts(m * width, width) == m
  {
    if m > 0 {
      StartsOfMultiple(m - 1, width);
      assert m * width - width == (m - 1) * width;
    }
  }

  /** Calls the window in progress can still allow. */
  function Left(w: Window, limit: int): nat {
    if w.Idle? then 0 else Max(0, limit - w.used)
  }

  /** No window starts before this instant. */
  function Earliest(w: Window, width: int, from: int): int {
    if w.Idle? then from else Max(from, w.start + width)
  }

  lemma {:induction false} NoneFrom(ds: seq<Decision>, from: int, to: int)
    requires forall d :: d in ds ==> to <= d.now
    ensures AllowedIn(ds, from, to) == 0
  {
    if ds != [] {
      NoneFrom(ds[1..], from, to);
    }
  }

  /** The counting argument, once every decision is inside the interval's left end. */
  lemma {:induction false} AllowedFromHere(w: Window, ds: seq<Decision>, limit: int, width: int, from: int, to: int)
    requires width > 0 && Windowed(w, ds, limit, width) && Ordered(ds)
    requires ds != [] ==> from <= ds[0].now
    ensures AllowedIn(ds, from, to)
         <= Left(w, limit) + Max(0, limit) * Starts(to - Earliest(w, width, from), width)
    decreases |ds|
  {
    if ds != [] {
      var d := ds[0];
      var w' := Advance(w, d);
      if d.now >= to {
        NoneFrom(ds, from, to);
      } else {
        AllowedFromHere(w', ds[1..], limit, width, from, to);
        if d.opens {
          // A window opened here uses up one of the starts that were still possible.
          var n := Starts(to - d.now - width, width);
          StartsMonotone(to - Earliest(w', width, from), to - d.now - width, width);
          StartsMonotone(to - d.now, to - Earliest(w, width, from), width);
          Scale(Max(0, limit), Starts(to - Earliest(w', width, from), width), n);
          Scale(Max(0, limit), 1 + n, Starts(to - Earliest(w, width, from), width));
          assert Max(0, limit) * (1 + n) == Max(0, limit) + Max(0, limit) * n;
        }
      }
    }
  }

  /** The most that any half-open interval `m` widths long can contain. */
  function MostIn(limit: int, m: nat): int {
    if limit <= 0 then 0 else (m + 1) * limit - 1
  }

  /** Any interval of length m * width, wherever it starts, holds at most (m + 1) * limit - 1
      allowed decisions: the window that straddles its left end was opened outside it. */
  lemma {:induction false} AllowedInInterval(w: Window, ds: seq<Decision>, limit: int, width: int, from: int, m: nat)
    requires width > 0 && m > 0 && Windowed(w, ds, limit, width) && Ordered(ds)
    requires w.Running? ==> w.used > 0
    ensures AllowedIn(ds, from, from + m * width) <= MostIn(limit, m)
    decreases |ds|
  {
    if ds != [] {
      if ds[0].now < from {
        AllowedInInterval(Advance(w, ds[0]), ds[1..], limit, width, from, m);
      } else {
        var to := from + m * width;
        AllowedFromHere(w, ds, limit, width, from, to);
        StartsOfMultiple(m, width);
        StartsMonotone(to - Earliest(w, width, from), m * width, width);
        Scale(Max(0, limit), Starts(to - Earliest(w, width, from), width), m);
        if limit > 0 {
          assert limit * m + limit - 1 == MostIn(limit, m);
        }
      }
    } else if limit > 0 {
      Scale(limit, 1, m + 1);
    }
  }

  lemma {:induction false} AllowedInAppend(ds: seq<Decision>, ds': seq<Decision>, from: int, to: int)
    ensures AllowedIn(ds + ds', from, to) == AllowedIn(ds, from, to) + AllowedIn(ds', from, to)
  {
    if ds == [] {
      assert ds + ds' == ds';
    } else {
      assert (ds + ds')[1..] == ds[1..] + ds';
      AllowedInAppend(ds[1..], ds', from, to);
    }
  }
}
