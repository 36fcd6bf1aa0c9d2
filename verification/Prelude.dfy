/** Small vocabulary shared by the models. */
module Prelude {
  datatype Option<+T> = None | Some(value: T)

  function Max(x: int, y: int): int {
    if x < y then y else x
  }

  function One(b: bool): nat {
    if b then 1 else 0
  }

  /** Go's Duration division and float-to-int conversion round toward zero. */
  function TruncDiv(x: int, y: int): (q: int)
    requires y > 0
    ensures x >= 0 ==> q * y <= x < q * y + y
    ensures x < 0 ==> q * y - y < x <= q * y
  {
    if x >= 0 then x / y else -(-x / y)
  }

  lemma Scale(k: nat, x: int, y: int)
    requires x <= y
    ensures k * x <= k * y
  {}

  lemma OneMore(n: nat, x: int)
    ensures (n + 1) * x == n * x + x
  {}

  lemma MulOrder(x: int, y: int, d: int)
    requires d > 0
    ensures x <= y <==> x * d <= y * d
  {}

  lemma Quotient(x: int, d: int, q: int, r: int)
    requires 0 <= r < d && x == q * d + r
    ensures x / d == q && x % d == r
  {
    MulOrder(q + 1, x / d, d);
    MulOrder(x / d + 1, q, d);
  }

  lemma FloorAtLeast(k: int, x: int, d: int)
    requires d > 0 && k * d <= x
    ensures k <= x / d
  {
    MulOrder(x / d + 1, k, d);
  }

  /** A key of the form "owner:rest", as the limiter and the breaker store build it. */
  function JoinKey(owner: string, rest: string): string {
    owner + ":" + rest
  }

  /** Neither owner, followed by the separator, is a prefix of the other followed by it. */
  predicate Separate(o1: string, o2: string) {
    !(o1 + ":" <= o2 + ":") && !(o2 + ":" <= o1 + ":")
  }

  lemma WithoutSeparator(o1: string, o2: string)
    requires ':' !in o1 && ':' !in o2 && o1 != o2
    ensures Separate(o1, o2)
  {
    if o1 + ":" <= o2 + ":" {
      PrefixOfOther(o1, o2);
    } else if o2 + ":" <= o1 + ":" {
      PrefixOfOther(o2, o1);
    }
  }

  lemma PrefixOfOther(o1: string, o2: string)
    requires ':' !in o2 && o1 + ":" <= o2 + ":"
    ensures o1 == o2
  {
    assert forall i :: 0 <= i < |o2| ==> (o2 + ":")[i] == o2[i] != ':';
    assert (o2 + ":")[|o1|] == (o1 + ":")[|o1|] == ':';
    assert o1 == (o1 + ":")[..|o1|] == (o2 + ":")[..|o1|];
  }

  /** Joined keys of separate owners identify their parts. */
  lemma JoinKeyInjective(o1: string, r1: string, o2: string, r2: string)
    requires o1 == o2 || Separate(o1, o2)
    requires JoinKey(o1, r1) == JoinKey(o2, r2)
    ensures o1 == o2 && r1 == r2
  {
    var k := JoinKey(o1, r1);
    assert o1 + ":" == k[..|o1| + 1] && o2 + ":" == k[..|o2| + 1];
    assert r1 == k[|o1| + 1..] && r2 == k[|o2| + 1..];
  }

  /** And separate is what they must be: any two other owners can be given colliding keys. */
  lemma JoinKeyCollides(o1: string, o2: string)
    ensures (exists r1, r2 :: JoinKey(o1, r1) == JoinKey(o2, r2)) <==> !Separate(o1, o2)
  {
    if o1 + ":" <= o2 + ":" {
      var r := (o2 + ":")[|o1| + 1..];
      assert JoinKey(o1, r) == JoinKey(o2, "");
    } else if o2 + ":" <= o1 + ":" {
      var r := (o1 + ":")[|o2| + 1..];
      assert JoinKey(o1, "") == JoinKey(o2, r);
    }
    if r1, r2 :| JoinKey(o1, r1) == JoinKey(o2, r2) {
      var k := JoinKey(o1, r1);
      assert o1 + ":" == k[..|o1| + 1] && o2 + ":" == k[..|o2| + 1];
    }
  }

  function Sum(s: seq<int>): int {
    if s == [] then 0 else s[0] + Sum(s[1..])
  }

  lemma {:induction false} SumUpdate(s: seq<int>, i: nat, v: int)
    requires i < |s|
    ensures Sum(s[i := v]) == Sum(s) - s[i] + v
  {
    if i == 0 {
      assert s[0 := v][1..] == s[1..];
    } else {
      SumUpdate(s[1..], i - 1, v);
      assert s[i := v][1..] == s[1..][i - 1 := v];
    }
  }

  lemma {:induction false} SumAtMost(s: seq<int>, bound: int)
    requires forall i :: 0 <= i < |s| ==> s[i] <= bound
    ensures Sum(s) <= |s| * bound
  {
    if s != [] {
      SumAtMost(s[1..], bound);
      assert |s| * bound == |s[1..]| * bound + bound;
    }
  }

  lemma {:induction false} SumAtLeast(s: seq<int>, bound: int)
    requires forall i :: 0 <= i < |s| ==> s[i] >= bound
    ensures Sum(s) >= |s| * bound
  {
    if s != [] {
      SumAtLeast(s[1..], bound);
      assert |s| * bound == |s[1..]| * bound + bound;
    }
  }
}
