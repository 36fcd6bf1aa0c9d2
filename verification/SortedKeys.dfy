/** Listing the keys of a map in order, whatever order the map gives them in. */
module SortedKeys {

  predicate Below(s: string, s': string) {
    s' != "" && (s == "" || s[0] < s'[0] || (s[0] == s'[0] && Below(s[1..], s'[1..])))
  }

  /** The listing holds exactly these keys, ascending. */
  ghost predicate Lists(listing: seq<string>, keys: set<string>) {
    && (forall k :: k in keys <==> k in listing)
    && Ascends(listing)
  }

  ghost predicate Ascends(listing: seq<string>) {
    forall i, j :: 0 <= i < j < |listing| ==> Below(listing[i], listing[j])
  }

  lemma {:induction false} Total(s: string, s': string)
    ensures s == s' || Below(s, s') || Below(s', s)
  {
    if s != "" && s' != "" && s[0] == s'[0] {
      Total(s[1..], s'[1..]);
      assert s == [s[0]] + s[1..] && s' == [s'[0]] + s'[1..];
    }
  }

  lemma {:induction false} Transitive(s: string, s': string, s'': string)
    requires Below(s, s') && Below(s', s'')
    ensures Below(s, s'')
  {
    if s != "" && s[0] == s'[0] == s''[0] {
      Transitive(s[1..], s'[1..], s''[1..]);
    }
  }

  lemma {:induction false} Irreflexive(s: string)
    ensures !Below(s, s)
  {
    if s != "" {
      Irreflexive(s[1..]);
    }
  }

  function Insert(k: string, listing: seq<string>): seq<string> {
    if listing == [] || Below(k, listing[0]) then [k] + listing else [listing[0]] + Insert(k, listing[1..])
  }

  lemma {:induction false} InsertHolds(k: string, listing: seq<string>)
    ensures forall x :: x in Insert(k, listing) <==> x == k || x in listing
  {
    if listing != [] && !Below(k, listing[0]) {
      InsertHolds(k, listing[1..]);
    }
  }

  lemma {:induction false} InsertAscends(k: string, listing: seq<string>)
    requires k !in listing && Ascends(listing)
    ensures Ascends(Insert(k, listing))
  {
    if listing != [] {
      if Below(k, listing[0]) {
        forall j | 0 <= j < |listing|
          ensures Below(k, listing[j])
        {
          if j > 0 {
            Transitive(k, listing[0], listing[j]);
          }
        }
        assert Insert(k, listing) == [k] + listing;
      } else {
        Total(k, listing[0]);
        InsertAscends(k, listing[1..]);
        InsertHolds(k, listing[1..]);
        var rest := Insert(k, listing[1..]);
        forall j | 0 <= j < |rest|
          ensures Below(listing[0], rest[j])
        {
          assert rest[j] in rest;
        }
        assert Insert(k, listing) == [listing[0]] + rest;
      }
    }
  }

  method SortedKeys(keys: set<string>) returns (sorted: seq<string>)
    ensures Lists(sorted, keys) && sorted == InOrder(keys)
  {
    sorted := [];
    var todo := keys;
    while todo != {}
      invariant todo <= keys && Lists(sorted, keys - todo)
    {
      var k :| k in todo;
      InsertHolds(k, sorted);
      InsertAscends(k, sorted);
      assert keys - (todo - {k}) == keys - todo + {k};
      sorted := Insert(k, sorted);
      todo := todo - {k};
    }
    assert keys - todo == keys;
    OneListing(sorted, InOrder(keys), keys);
  }

  lemma {:induction false} ListingExists(keys: set<string>)
    ensures exists listing :: Lists(listing, keys)
  {
    if keys == {} {
      assert Lists([], keys);
    } else {
      var k :| k in keys;
      ListingExists(keys - {k});
      var listing :| Lists(listing, keys - {k});
      InsertHolds(k, listing);
      InsertAscends(k, listing);
      assert Lists(Insert(k, listing), keys);
    }
  }

  ghost function InOrder(keys: set<string>): (listing: seq<string>)
    ensures Lists(listing, keys) && forall i :: 0 <= i < |listing| ==> listing[i] in keys
  {
    ListingExists(keys);
    var listing :| Lists(listing, keys);
    listing
  }

  lemma FirstIsLeast(listing: seq<string>, keys: set<string>, k: string)
    requires Lists(listing, keys) && k in keys
    ensures listing != [] && !Below(k, listing[0])
  {
    var i :| 0 <= i < |listing| && listing[i] == k;
    Irreflexive(k);
    if i > 0 && Below(k, listing[0]) {
      Transitive(listing[0], k, listing[0]);
      Irreflexive(listing[0]);
    }
  }

  lemma RestLists(listing: seq<string>, keys: set<string>)
    requires Lists(listing, keys) && listing != []
    ensures Lists(listing[1..], keys - {listing[0]})
  {
    forall i | 1 <= i < |listing|
      ensures listing[i] != listing[0]
    {
      Irreflexive(listing[0]);
    }
  }

  lemma FirstIsListed(listing: seq<string>, keys: set<string>)
    requires Lists(listing, keys) && listing != []
    ensures listing[0] in keys
  {}

  /** There is only one, so whatever order a map is walked in makes no difference. */
  lemma {:induction false} OneListing(listing: seq<string>, listing': seq<string>, keys: set<string>)
    requires Lists(listing, keys) && Lists(listing', keys)
    ensures listing == listing'
    decreases |keys|
  {
    if listing != [] || listing' != [] {
      var k := if listing != [] then listing[0] else listing'[0];
      FirstIsListed(if listing != [] then listing else listing', keys);
      FirstIsLeast(listing, keys, k);
      FirstIsLeast(listing', keys, k);
      FirstIsLeast(listing, keys, listing'[0]);
      FirstIsLeast(listing', keys, listing[0]);
      Total(listing[0], listing'[0]);
      RestLists(listing, keys);
      RestLists(listing', keys);
      OneListing(listing[1..], listing'[1..], keys - {listing[0]});
    }
  }
}
