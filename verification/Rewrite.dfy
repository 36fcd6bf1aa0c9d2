/** Rewriting the request for the upstream: the path join and the query merge. */
module Rewrite {
  import opened Prelude
  import opened Labels

  function TrimRight(s: string): string {
    if s != "" && s[|s| - 1] == '/' then TrimRight(s[..|s| - 1]) else s
  }

  function TrimLeft(s: string): string {
    if s != "" && s[0] == '/' then TrimLeft(s[1..]) else s
  }

  function SingleJoiningSlash(a: string, b: string): string {
    var a := TrimRight(a);
    var b := TrimLeft(b);
    if a == "" then "/" + b else a + "/" + b
  }

  predicate Slashes(s: string) {
    forall i :: 0 <= i < |s| ==> s[i] == '/'
  }

  /** Trimming on the right takes slashes, and all of them. */
  lemma {:induction false} TrimRightTakes(s: string, t: string)
    requires Slashes(t) && (s != "" ==> s[|s| - 1] != '/')
    ensures TrimRight(s + t) == s
  {
    var n := |t| - 1;
    if t == "" {
      assert s + t == s;
    } else {
      assert (s + t)[|s + t| - 1] == t[n];
      assert (s + t)[..|s + t| - 1] == s + t[..n];
      TrimRightTakes(s, t[..n]);
    }
  }

  lemma {:induction false} TrimLeftTakes(s: string, t: string)
    requires Slashes(s) && (t != "" ==> t[0] != '/')
    ensures TrimLeft(s + t) == t
  {
    if s == "" {
      assert s + t == t;
    } else {
      assert (s + t)[1..] == s[1..] + t;
      TrimLeftTakes(s[1..], t);
    }
  }

  /** Every string is a core without slashes at its ends, with slashes around it. */
  lemma {:induction false} Cores(s: string) returns (left: string, core: string, right: string)
    ensures s == left + core + right && Slashes(left) && Slashes(right)
    ensures core != "" ==> core[0] != '/' && core[|core| - 1] != '/'
  {
    if s == "" {
      left, core, right := "", "", "";
    } else if s[0] == '/' {
      left, core, right := Cores(s[1..]);
      left := "/" + left;
    } else if s[|s| - 1] == '/' {
      var n := |s| - 1;
      left, core, right := Cores(s[..n]);
      right := right + "/";
      assert s == s[..n] + "/";
    } else {
      left, core, right := "", s, "";
    }
  }

  /** What is around the seam is what remains of the two arguments without the slashes next to it,
      with exactly one slash between. */
  lemma OneSlashAtTheSeam(a: string, slashes: string, slashes': string, b: string)
    requires Slashes(slashes) && Slashes(slashes')
    requires a != "" ==> a[|a| - 1] != '/'
    requires b != "" ==> b[0] != '/'
    ensures SingleJoiningSlash(a + slashes, slashes' + b) == a + "/" + b
  {
    TrimRightTakes(a, slashes);
    TrimLeftTakes(slashes', b);
  }

  lemma AssociativeAroundSlashes(head: string, gone: string, b: string, lead: string, tail: string)
    requires Slashes(gone) && Slashes(b) && Slashes(lead)
    requires head != "" ==> head[|head| - 1] != '/'
    requires tail != "" ==> tail[0] != '/'
    ensures SingleJoiningSlash(SingleJoiningSlash(head + gone, b), lead + tail)
         == SingleJoiningSlash(head + gone, SingleJoiningSlash(b, lead + tail))
  {
    assert b == b + "" && b == "" + b;
    OneSlashAtTheSeam(head, gone, b, "");
    OneSlashAtTheSeam("", b, lead, tail);
    assert head + "/" + "" == head + "/" && "" + "/" + tail == "/" + tail;
    OneSlashAtTheSeam(head, "/", lead, tail);
    OneSlashAtTheSeam(head, gone, "/", tail);
  }

  lemma AssociativeAroundCore(
      head: string, gone: string, left: string, core: string, right: string, lead: string, tail: string)
    requires Slashes(gone) && Slashes(left) && Slashes(right) && Slashes(lead)
    requires head != "" ==> head[|head| - 1] != '/'
    requires tail != "" ==> tail[0] != '/'
    requires core != "" && core[0] != '/' && core[|core| - 1] != '/'
    ensures SingleJoiningSlash(SingleJoiningSlash(head + gone, left + core + right), lead + tail)
         == SingleJoiningSlash(head + gone, SingleJoiningSlash(left + core + right, lead + tail))
  {
    var b := left + core + right;
    assert b == left + (core + right) && b == (left + core) + right;
    OneSlashAtTheSeam(head, gone, left, core + right);
    OneSlashAtTheSeam(left + core, right, lead, tail);
    assert head + "/" + (core + right) == (head + "/" + core) + right;
    OneSlashAtTheSeam(head + "/" + core, right, lead, tail);
    assert (left + core) + "/" + tail == left + (core + "/" + tail);
    OneSlashAtTheSeam(head, gone, left, core + "/" + tail);
    assert (head + "/" + core) + "/" + tail == head + "/" + (core + "/" + tail);
  }

  /** Joining is associative over all strings, those made of slashes alone included. */
  lemma JoiningAssociative(a: string, b: string, c: string)
    ensures SingleJoiningSlash(SingleJoiningSlash(a, b), c) == SingleJoiningSlash(a, SingleJoiningSlash(b, c))
  {
    var la, ca, ra := Cores(a);
    var lb, cb, rb := Cores(b);
    var lc, cc, rc := Cores(c);
    var head := if ca == "" then "" else la + ca;
    var gone := if ca == "" then a else ra;
    var lead := if cc == "" then c else lc;
    var tail := if cc == "" then "" else cc + rc;
    assert a == head + gone && c == lead + tail;
    if cb == "" {
      AssociativeAroundSlashes(head, gone, b, lead, tail);
    } else {
      AssociativeAroundCore(head, gone, lb, cb, rb, lead, tail);
    }
  }

  // ----- Queries

  function MergeQuery(target: string, request: string): string {
    if target == "" || request == "" then target + request else target + "&" + request
  }

  /** The parameters of a raw query, in order. */
  function Params(query: string): seq<string> {
    if query == "" then [] else Split(query, '&')
  }

  lemma SplitAppendStep(head: string, rest: string, tail: string, parts: seq<string>, sep: char)
    requires sep !in head && Split(tail, sep) == Split(rest, sep) + parts
    ensures Split(head + [sep] + tail, sep) == Split(head + [sep] + rest, sep) + parts
  {
    SplitHead(head, rest, sep);
    SplitHead(head, tail, sep);
  }

  lemma {:induction false} SplitAppend(s: string, t: string, sep: char)
    ensures Split(s + [sep] + t, sep) == Split(s, sep) + Split(t, sep)
    decreases |s|
  {
    var i := Index(s, sep);
    if i == |s| {
      SplitHead(s, t, sep);
      assert Split(s, sep) == [s];
    } else {
      var head, rest := s[..i], s[i + 1..];
      SplitAppend(rest, t, sep);
      SplitAppendStep(head, rest, rest + [sep] + t, Split(t, sep), sep);
      RegroupPieces(head, rest, t, sep);
      assert s == head + [sep] + rest;
    }
  }

  lemma RegroupPieces(head: string, rest: string, t: string, sep: char)
    ensures head + [sep] + rest + [sep] + t == head + [sep] + (rest + [sep] + t)
  {}

  /** The upstream sees the target's parameters and then the request's. */
  lemma MergeKeepsParams(target: string, request: string)
    ensures Params(MergeQuery(target, request)) == Params(target) + Params(request)
  {
    if target == "" {
      assert target + request == request;
    } else if request == "" {
      assert target + request == target;
    } else {
      SplitAppend(target, request, '&');
    }
  }

  /** Merging is associative, and the empty query changes nothing. */
  lemma MergeMonoid(a: string, b: string, c: string)
    ensures MergeQuery(MergeQuery(a, b), c) == MergeQuery(a, MergeQuery(b, c))
    ensures MergeQuery("", a) == a == MergeQuery(a, "")
  {
    EmptyIsNeutral(a);
    EmptyIsNeutral(b);
    EmptyIsNeutral(c);
    EmptyIsNeutral(MergeQuery(a, b));
    if a != "" && b != "" && c != "" {
      assert (a + "&" + b) + "&" + c == a + "&" + (b + "&" + c);
    } else if b == "" {
    } else if a == "" {
      EmptyIsNeutral(MergeQuery(b, c));
    }
  }

  lemma EmptyIsNeutral(a: string)
    ensures MergeQuery("", a) == a == MergeQuery(a, "")
  {
    assert "" + a == a && a + "" == a;
  }

  // ----- The director

  datatype URL = URL(scheme: string, host: string, path: string, rawQuery: string)

  class Request {
    var url: URL
    var userAgent: Option<string>

    constructor (url: URL, userAgent: Option<string>)
      ensures this.url == url && this.userAgent == userAgent
    {
      this.url := url;
      this.userAgent := userAgent;
    }

    /** Points the request at the target found in its context; without one it is left alone. */
    method Direct(target: Option<URL>)
      modifies this
      ensures target.None? ==> url == old(url) && userAgent == old(userAgent)
      ensures target.Some? ==>
                && url.scheme == target.value.scheme && url.host == target.value.host
                && url.path == SingleJoiningSlash(target.value.path, old(url).path)
                && Params(url.rawQuery) == Params(target.value.rawQuery) + Params(old(url).rawQuery)
                && url.rawQuery == MergeQuery(target.value.rawQuery, old(url).rawQuery)
                && (target.value.rawQuery != "" && old(url).rawQuery != "" ==>
                      url.rawQuery == target.value.rawQuery + "&" + old(url).rawQuery)
                && userAgent == (if old(userAgent).Some? then old(userAgent) else Some("GoGateway/1.0"))
    {
      if target.None? {
        return;
      }
      var t := target.value;
      MergeKeepsParams(t.rawQuery, url.rawQuery);
      url := url.(scheme := t.scheme);
      url := url.(host := t.host);
      url := url.(path := SingleJoiningSlash(t.path, url.path));
      if t.rawQuery == "" || url.rawQuery == "" {
        url := url.(rawQuery := t.rawQuery + url.rawQuery);
      } else {
        url := url.(rawQuery := t.rawQuery + "&" + url.rawQuery);
      }
      if userAgent.None? {
        userAgent := Some("GoGateway/1.0");
      }
    }
  }
}
