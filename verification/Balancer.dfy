/** The round-robin balancer. An endpoint is its URL's text. */
module Balancer {
  import opened Prelude

  const WORD: nat := 0x1_0000_0000_0000_0000

  /** A uint64 counter after counter++. */
  function Bump(c: nat): nat {
    if c + 1 == WORD then 0 else c + 1
  }

  class RoundRobin {
    var counter: nat

    ghost predicate Valid()
      reads this
    {
      counter < WORD
    }

    constructor ()
      ensures Valid() && counter == 0
    {
      counter := 0;
    }

    method Next(endpoints: seq<string>) returns (endpoint: string)
      requires Valid() && endpoints != []
      modifies this
      ensures Valid() && counter == Bump(old(counter))
      ensures endpoint == endpoints[old(counter) % |endpoints|]
    {
      var i := counter % |endpoints|;
      counter := (counter + 1) % WORD;
      return endpoints[i];
    }
  }

  /** How many of `calls` consecutive calls, the first with counter `start`, pick position j. */
  function Picks(start: nat, calls: nat, n: nat, j: nat): nat
    requires n > 0
    decreases calls
  {
    if calls == 0 then 0
    else (if start % n == j then 1 else 0) + Picks(Bump(start), calls - 1, n, j)
  }

  /** How many counters below `bound` fall on position j. */
  function Below(bound: nat, n: nat, j: nat): nat
    requires n > 0
  {
    bound / n + (if j < bound % n then 1 else 0)
  }

  lemma BelowNext(bound: nat, n: nat, j: nat)
    requires j < n
    ensures Below(bound + 1, n, j) == Below(bound, n, j) + (if bound % n == j then 1 else 0)
  {
    var q, r := bound / n, bound % n;
    assert bound == q * n + r;
    if r + 1 < n {
      Quotient(bound + 1, n, q, r + 1);
    } else {
      assert bound + 1 == (q + 1) * n;
      Quotient(bound + 1, n, q + 1, 0);
    }
  }

  /** Until the counter wraps, the picks are those of the counters passed. */
  lemma {:induction false} PicksUnwrapped(start: nat, calls: nat, n: nat, j: nat)
    requires j < n && start + calls <= WORD && start < WORD
    ensures Picks(start, calls, n, j) == Below(start + calls, n, j) - Below(start, n, j)
    decreases calls
  {
    if calls > 0 {
      BelowNext(start, n, j);
      if start + 1 < WORD {
        PicksUnwrapped(start + 1, calls - 1, n, j);
      } else {
        assert calls == 1;
      }
    }
  }

  /** A run that goes past the wrap is the part before it and the part from zero. */
  lemma {:induction false} PicksSplit(start: nat, calls: nat, n: nat, j: nat)
    requires j < n && start < WORD <= start + calls
    ensures Picks(start, calls, n, j) == Picks(start, WORD - start, n, j) + Picks(0, start + calls - WORD, n, j)
    decreases calls
  {
    if start + 1 < WORD {
      PicksSplit(start + 1, calls - 1, n, j);
    }
  }

  /** An equal share of the calls, rounded down and up. */
  function ShareDown(calls: nat, n: nat): nat
    requires n > 0
  {
    calls / n
  }

  function ShareUp(calls: nat, n: nat): nat
    requires n > 0
  {
    (calls + n - 1) / n
  }

  lemma ShareUpIs(calls: nat, n: nat)
    requires n > 0
    ensures ShareUp(calls, n) == calls / n + (if calls % n == 0 then 0 else 1)
  {
    var q, r := calls / n, calls % n;
    if r == 0 {
      Quotient(calls + n - 1, n, q, n - 1);
    } else {
      Distribute(q, 1, n);
      Quotient(calls + n - 1, n, q + 1, r - 1);
    }
  }

  lemma SumQuotient(x: nat, y: nat, n: nat)
    requires n > 0
    ensures x % n + y % n < n ==> (x + y) / n == x / n + y / n && (x + y) % n == x % n + y % n
    ensures x % n + y % n >= n ==> (x + y) / n == x / n + y / n + 1 && (x + y) % n == x % n + y % n - n
  {
    var q := x / n + y / n;
    Distribute(x / n, y / n, n);
    if x % n + y % n < n {
      Quotient(x + y, n, q, x % n + y % n);
    } else {
      Distribute(q, 1, n);
      Quotient(x + y, n, q + 1, x % n + y % n - n);
    }
  }

  lemma Shares(calls: nat, start: nat, n: nat, j: nat)
    requires j < n
    ensures ShareDown(calls, n) <= Below(start + calls, n, j) - Below(start, n, j) <= ShareUp(calls, n)
  {
    SumQuotient(start, calls, n);
    ShareUpIs(calls, n);
  }

  lemma Distribute(x: int, y: int, n: int)
    ensures (x + y) * n == x * n + y * n
  {}

  /** Without a wrap every position gets its share of any run, rounded down or up; so n
      consecutive calls hit each position once, and any two counts differ by at most one. */
  lemma FairUnwrapped(start: nat, calls: nat, n: nat, j: nat)
    requires j < n && start < WORD && start + calls <= WORD
    ensures ShareDown(calls, n) <= Picks(start, calls, n, j) <= ShareUp(calls, n)
    ensures calls == n ==> Picks(start, calls, n, j) == 1
  {
    PicksUnwrapped(start, calls, n, j);
    Shares(calls, start, n, j);
    if calls == n {
      Quotient(n, n, 1, 0);
      Quotient(n + n - 1, n, 1, n - 1);
    }
  }

  function Distance(x: int, y: int): nat {
    if x < y then y - x else x - y
  }

  lemma WithinOne(start: nat, calls: nat, n: nat, i: nat, j: nat)
    requires i < n && j < n && start < WORD && start + calls <= WORD
    ensures Distance(Picks(start, calls, n, i), Picks(start, calls, n, j)) <= 1
  {
    PicksUnwrapped(start, calls, n, i);
    PicksUnwrapped(start, calls, n, j);
  }

  /** How many times the counter wraps. */
  function Wraps(start: nat, calls: nat): nat {
    (start + calls) / WORD
  }

  /** From any starting counter, over a run of any length: counts of two positions differ by at
      most one more than the wraps. */
  lemma {:induction false} FairWithWraps(start: nat, calls: nat, n: nat, i: nat, j: nat)
    requires i < n && j < n && start < WORD
    ensures Distance(Picks(start, calls, n, i), Picks(start, calls, n, j)) <= Wraps(start, calls) + 1
    decreases calls
  {
    if start + calls < WORD {
      WithinOne(start, calls, n, i, j);
    } else {
      PicksSplit(start, calls, n, i);
      PicksSplit(start, calls, n, j);
      WithinOne(start, WORD - start, n, i, j);
      FairWithWraps(0, start + calls - WORD, n, i, j);
    }
  }

  /** In particular, by at most two over up to 2^64 calls. */
  lemma FairOverOneCycle(start: nat, calls: nat, n: nat, i: nat, j: nat)
    requires i < n && j < n && start < WORD && calls <= WORD
    ensures Distance(Picks(start, calls, n, i), Picks(start, calls, n, j)) <= 2
  {
    FairWithWraps(start, calls, n, i, j);
  }

  ghost predicate AlwaysWithinOne(n: nat)
    requires n > 0
  {
    forall start: nat, calls: nat, i: nat, j: nat | i < n && j < n && start < WORD ::
      Distance(Picks(start, calls, n, i), Picks(start, calls, n, j)) <= 1
  }

  lemma BelowShift(x: nat, w: nat, n: nat, j: nat)
    requires j < n && w % n == 0
    ensures Below(x + w, n, j) == Below(x, n, j) + Below(w, n, j)
  {
    Distribute(x / n, w / n, n);
    Quotient(x + w, n, x / n + w / n, x % n);
  }

  /** If n divides 2^64 the wrap goes unnoticed. */
  lemma {:induction false} PicksDividing(start: nat, calls: nat, n: nat, j: nat)
    requires j < n && start < WORD && WORD % n == 0
    ensures Picks(start, calls, n, j) == Below(start + calls, n, j) - Below(start, n, j)
    decreases calls
  {
    if start + calls <= WORD {
      PicksUnwrapped(start, calls, n, j);
    } else {
      PicksSplit(start, calls, n, j);
      PicksUnwrapped(start, WORD - start, n, j);
      PicksDividing(0, start + calls - WORD, n, j);
      BelowShift(start + calls - WORD, WORD, n, j);
    }
  }

  /** Counts stay within one of each other over every run if and only if the number of endpoints
      divides 2^64. */
  lemma WrapUnnoticedExactly(n: nat)
    requires 0 < n < WORD
    ensures AlwaysWithinOne(n) <==> WORD % n == 0
  {
    var r := WORD % n;
    if r == 0 {
      forall start: nat, calls: nat, i: nat, j: nat | i < n && j < n && start < WORD
        ensures Distance(Picks(start, calls, n, i), Picks(start, calls, n, j)) <= 1
      {
        PicksDividing(start, calls, n, i);
        PicksDividing(start, calls, n, j);
      }
    } else {
      // The last r counters before the wrap and the first after it: position 0 twice, r never.
      var start := WORD - r;
      Quotient(start, n, WORD / n, 0);
      PicksSplit(start, r + 1, n, 0);
      PicksSplit(start, r + 1, n, r);
      PicksUnwrapped(start, r, n, 0);
      PicksUnwrapped(start, r, n, r);
      assert Picks(0, 1, n, 0) == 1 && Picks(0, 1, n, r) == 0;
      assert Distance(Picks(start, r + 1, n, 0), Picks(start, r + 1, n, r)) == 2;
    }
  }
}
