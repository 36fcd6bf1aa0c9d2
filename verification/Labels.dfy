/** Label values as map keys and as exposition text. */
module Labels {
  import opened Prelude

  const NUL: char := 0 as char

  // ----- Joined keys

  function Join(parts: seq<string>, sep: char): string {
    if parts == [] then ""
    else if |parts| == 1 then parts[0]
    else parts[0] + [sep] + Join(parts[1..], sep)
  }

  /** The first position of a character, or the length. */
  function Index(s: string, c: char): (i: nat)
    ensures i <= |s| && (i < |s| ==> s[i] == c)
    ensures forall k :: 0 <= k < i ==> s[k] != c
  {
    if s == "" then 0 else if s[0] == c then 0 else 1 + Index(s[1..], c)
  }

  function Split(s: string, sep: char): seq<string>
    decreases |s|
  {
    var i := Index(s, sep);
    if i == |s| then [s] else [s[..i]] + Split(s[i + 1..], sep)
  }

  lemma IndexIs(s: string, c: char, i: nat)
    requires i < |s| && s[i] == c && forall k :: 0 <= k < i ==> s[k] != c
    ensures Index(s, c) == i
  {
    if Index(s, c) < i {
      assert s[Index(s, c)] == c;
    }
  }

  lemma SplitHead(head: string, rest: string, sep: char)
    requires sep !in head
    ensures Split(head + [sep] + rest, sep) == [head] + Split(rest, sep)
  {
    var whole := head + [sep] + rest;
    assert forall k :: 0 <= k < |head| ==> whole[k] == head[k] != sep;
    IndexIs(whole, sep, |head|);
    assert whole[..|head|] == head && whole[|head| + 1..] == rest;
  }

  lemma SplitWhole(s: string, sep: char)
    requires sep !in s
    ensures Split(s, sep) == [s]
  {
    assert forall k :: 0 <= k < |s| ==> s[k] != sep;
  }

  lemma {:induction false} SplitJoin(parts: seq<string>, sep: char)
    requires parts != [] && forall i :: 0 <= i < |parts| ==> sep !in parts[i]
    ensures Split(Join(parts, sep), sep) == parts
  {
    if |parts| == 1 {
      SplitWhole(parts[0], sep);
    } else {
      SplitJoin(parts[1..], sep);
      SplitHead(parts[0], Join(parts[1..], sep), sep);
    }
  }

  lemma {:induction false} SplitParts(s: string, sep: char)
    ensures Split(s, sep) != [] && forall p :: p in Split(s, sep) ==> sep !in p
    decreases |s|
  {
    var i := Index(s, sep);
    if i < |s| {
      SplitParts(s[i + 1..], sep);
    }
  }

  lemma {:induction false} JoinSplit(s: string, sep: char)
    ensures Join(Split(s, sep), sep) == s
    decreases |s|
  {
    var i := Index(s, sep);
    if i < |s| {
      JoinSplit(s[i + 1..], sep);
      SplitParts(s[i + 1..], sep);
      var rest := Split(s[i + 1..], sep);
      assert Split(s, sep)[1..] == rest;
      assert s == s[..i] + [sep] + s[i + 1..];
    }
  }

  /** A key is its labels in their order, with the separator between them. */
  lemma {:induction false} JoinSnoc(parts: seq<string>, part: string, sep: char)
    ensures Join(parts + [part], sep) == if parts == [] then part else Join(parts, sep) + [sep] + part
  {
    if parts != [] {
      assert (parts + [part])[1..] == parts[1..] + [part];
      JoinSnoc(parts[1..], part, sep);
    }
  }

  /** Splitting a joined key gives the labels back if and only if there is at least one and none
      contains the separator. */
  lemma KeyRoundTrip(parts: seq<string>, sep: char)
    ensures Split(Join(parts, sep), sep) == parts <==> parts != [] && forall p :: p in parts ==> sep !in p
  {
    if parts != [] && forall p :: p in parts ==> sep !in p {
      SplitJoin(parts, sep);
    } else {
      SplitParts(Join(parts, sep), sep);
    }
  }

  // ----- Label text

  type Pair = (string, string)

  function PairText(p: Pair): string {
    p.0 + "=\"" + p.1 + "\""
  }

  function Body(pairs: seq<Pair>): string {
    if pairs == [] then ""
    else if |pairs| == 1 then PairText(pairs[0])
    else PairText(pairs[0]) + "," + Body(pairs[1..])
  }

  function Block(pairs: seq<Pair>): string {
    if pairs == [] then "" else "{" + Body(pairs) + "}"
  }

  function Zip(names: seq<string>, vals: seq<string>): (pairs: seq<Pair>)
    requires |names| <= |vals|
    ensures |pairs| == |names| && forall i :: 0 <= i < |names| ==> pairs[i] == (names[i], vals[i])
  {
    seq(|names|, i requires 0 <= i < |names| => (names[i], vals[i]))
  }

  lemma {:induction false} BodySnoc(pairs: seq<Pair>, p: Pair)
    ensures Body(pairs + [p]) == if pairs == [] then PairText(p) else Body(pairs) + "," + PairText(p)
  {
    if pairs != [] {
      assert (pairs + [p])[1..] == pairs[1..] + [p];
      BodySnoc(pairs[1..], p);
    }
  }

  /** What one round of the printers' loops appends. */
  lemma BodyRound(pairs: seq<Pair>, i: nat, b: string)
    requires i < |pairs| && b == "{" + Body(pairs[..i])
    ensures (if i > 0 then b + "," else b) + pairs[i].0 + "=\"" + pairs[i].1 + "\"" == "{" + Body(pairs[..i + 1])
  {
    var p := pairs[i];
    BodySnoc(pairs[..i], p);
    assert pairs[..i + 1] == pairs[..i] + [p];
    assert forall c: string :: c + p.0 + "=\"" + p.1 + "\"" == c + PairText(p);
    if i > 0 {
      assert (b + ",") + PairText(p) == "{" + (Body(pairs[..i]) + "," + PairText(p));
    }
  }

  /** A value must be given for every name. */
  method FormatLabels(names: seq<string>, vals: seq<string>) returns (text: string)
    requires |names| <= |vals|
    ensures text == Block(Zip(names, vals))
  {
    if |names| == 0 {
      return "";
    }
    ghost var pairs := Zip(names, vals);
    var b := "{";
    for i := 0 to |names|
      invariant b == "{" + Body(pairs[..i])
    {
      BodyRound(pairs, i, b);
      if i > 0 {
        b := b + ",";
      }
      b := b + names[i];
      b := b + "=\"";
      b := b + vals[i];
      b := b + "\"";
    }
    assert pairs[..|names|] == pairs;
    b := b + "}";
    return b;
  }

  /** The same with one more pair at the end. */
  method MergeLabels(names: seq<string>, vals: seq<string>, extraKey: string, extraVal: string) returns (text: string)
    requires |names| <= |vals|
    ensures text == Block(Zip(names, vals) + [(extraKey, extraVal)])
    ensures text == Block(Zip(names + [extraKey], vals[..|names|] + [extraVal]))
  {
    ghost var pairs := Zip(names, vals);
    var b := "{";
    for i := 0 to |names|
      invariant b == "{" + Body(pairs[..i])
    {
      BodyRound(pairs, i, b);
      if i > 0 {
        b := b + ",";
      }
      b := b + names[i];
      b := b + "=\"";
      b := b + vals[i];
      b := b + "\"";
    }
    assert pairs[..|names|] == pairs;
    ghost var all := pairs + [(extraKey, extraVal)];
    assert all[..|names|] == pairs && all[..|names| + 1] == all;
    assert Zip(names + [extraKey], vals[..|names|] + [extraVal]) == all;
    BodyRound(all, |names|, b);
    if |names| > 0 {
      b := b + ",";
    }
    b := b + extraKey;
    b := b + "=\"";
    b := b + extraVal;
    b := b + "\"";
    b := b + "}";
    return b;
  }

  // ----- Reading the text back

  /** A pair off the front: the name ends at the first '=', the value at the first quote after the
      opening one. Also what follows it. */
  function ParsePair(s: string): (r: Option<(Pair, string)>)
    ensures r.Some? ==> |r.value.1| < |s|
  {
    var e := Index(s, '=');
    if e + 1 >= |s| || s[e + 1] != '"' then None
    else
      var rest := s[e + 2..];
      var q := Index(rest, '"');
      if q == |rest| then None else Some(((s[..e], rest[..q]), rest[q + 1..]))
  }

  function ParseBody(s: string): Option<seq<Pair>>
    decreases |s|
  {
    match ParsePair(s)
    case None => None
    case Some((pair, tail)) =>
      if tail == "}" then Some([pair])
      else if tail == "" || tail[0] != ',' then None
      else
        match ParseBody(tail[1..])
        case None => None
        case Some(pairs) => Some([pair] + pairs)
  }

  function ParseBlock(s: string): Option<seq<Pair>> {
    if s == "" then Some([])
    else if s[0] == '{' then ParseBody(s[1..])
    else None
  }

  /** The name, up to the first '='. */
  lemma NameFirst(p: Pair, tail: string)
    requires '=' !in p.0
    ensures var s := PairText(p) + tail;
            var e := Index(s, '=');
            && e + 1 < |s| && s[e + 1] == '"' && s[..e] == p.0 && s[e + 2..] == p.1 + ("\"" + tail)
  {
    var s := PairText(p) + tail;
    assert s == p.0 + ("=\"" + (p.1 + ("\"" + tail)));
    IndexAfter(p.0, "=\"" + (p.1 + ("\"" + tail)), '=');
    assert s[|p.0| + 2..] == p.1 + ("\"" + tail);
  }

  lemma IndexAfter(s: string, t: string, c: char)
    requires c !in s && t != "" && t[0] == c
    ensures Index(s + t, c) == |s| && (s + t)[..|s|] == s
  {
    assert forall k :: 0 <= k < |s| ==> (s + t)[k] == s[k] != c;
    IndexIs(s + t, c, |s|);
  }

  lemma ParseFirst(p: Pair, tail: string)
    requires '=' !in p.0 && '"' !in p.1
    ensures ParsePair(PairText(p) + tail) == Some((p, tail))
  {
    NameFirst(p, tail);
    IndexAfter(p.1, "\"" + tail, '"');
    assert (p.1 + ("\"" + tail))[|p.1| + 1..] == tail;
  }

  lemma ParseCons(p: Pair, rest: string, pairs: seq<Pair>)
    requires '=' !in p.0 && '"' !in p.1 && ParseBody(rest) == Some(pairs)
    ensures ParseBody(PairText(p) + ("," + rest)) == Some([p] + pairs)
  {
    assert ("," + rest)[1..] == rest;
    ParseFirst(p, "," + rest);
  }

  lemma BodyCons(pairs: seq<Pair>)
    requires |pairs| > 1
    ensures Body(pairs) + "}" == PairText(pairs[0]) + ("," + (Body(pairs[1..]) + "}"))
  {
    Regroup(PairText(pairs[0]), Body(pairs[1..]));
  }

  lemma Regroup(first: string, rest: string)
    ensures first + "," + rest + "}" == first + ("," + (rest + "}"))
  {}

  lemma {:induction false} ParseBodyOf(pairs: seq<Pair>)
    requires pairs != [] && forall i :: 0 <= i < |pairs| ==> '=' !in pairs[i].0 && '"' !in pairs[i].1
    ensures ParseBody(Body(pairs) + "}") == Some(pairs)
  {
    if |pairs| == 1 {
      ParseFirst(pairs[0], "}");
      assert pairs == [pairs[0]];
    } else {
      ParseBodyOf(pairs[1..]);
      ParseCons(pairs[0], Body(pairs[1..]) + "}", pairs[1..]);
      BodyCons(pairs);
      assert pairs == [pairs[0]] + pairs[1..];
    }
  }

  lemma Braces(body: string)
    ensures ("{" + body + "}")[0] == '{' && ("{" + body + "}")[1..] == body + "}"
  {}

  /** The reader only ever returns names without '=' and values without a quote. */
  lemma {:induction false} ParsedAreClean(s: string)
    ensures ParseBody(s).Some? ==>
              forall i :: 0 <= i < |ParseBody(s).value| ==>
                '=' !in ParseBody(s).value[i].0 && '"' !in ParseBody(s).value[i].1
    decreases |s|
  {
    var first := ParsePair(s);
    if first.Some? && first.value.1 != "" {
      ParsedAreClean(first.value.1[1..]);
    }
  }

  /** Printed labels can be read back if and only if no name contains '=' and no value a quote. */
  lemma TextRoundTrip(pairs: seq<Pair>)
    ensures ParseBlock(Block(pairs)) == Some(pairs)
       <==> forall i :: 0 <= i < |pairs| ==> '=' !in pairs[i].0 && '"' !in pairs[i].1
  {
    if pairs != [] {
      Braces(Body(pairs));
      ParsedAreClean(Body(pairs) + "}");
      if forall i :: 0 <= i < |pairs| ==> '=' !in pairs[i].0 && '"' !in pairs[i].1 {
        ParseBodyOf(pairs);
      }
    }
  }

  /** Closes a value and opens that of the next name. */
  function Seam(name: string): string {
    "\"" + "," + (name + "=\"")
  }

  /** Values are not escaped: under any two names, values that contain a quote can print the same as
      others. */
  lemma QuotesConfuse(name: string, next: string, x: string, y: string, z: string)
    ensures var names := [name, next];
            var vals, vals' := [x + (Seam(next) + y), z], [x, y + (Seam(next) + z)];
            vals != vals' && Block(Zip(names, vals)) == Block(Zip(names, vals'))
  {
    var names := [name, next];
    var vals, vals' := [x + (Seam(next) + y), z], [x, y + (Seam(next) + z)];
    TwoPairs(Zip(names, vals));
    TwoPairs(Zip(names, vals'));
    Shift(name + "=\"", x, y, z, "\"", ",", next + "=\"");
    assert vals[0] != vals'[0];
  }

  lemma Shift(a: string, x: string, y: string, z: string, quote: string, comma: string, b: string)
    ensures var seam := quote + comma + b;
            a + (x + (seam + y)) + quote + comma + (b + z + quote)
            == a + x + quote + comma + (b + (y + (seam + z)) + quote)
  {
    var seam := quote + comma + b;
    Reopened(a + (x + (seam + y)), z, quote, comma, b);
    Reopened(a + x, y + (seam + z), quote, comma, b);
    assert y + (seam + z) + quote == y + (seam + (z + quote));
    Nested(a, x, seam + y, seam + (z + quote));
    assert seam + y + (seam + (z + quote)) == seam + (y + (seam + (z + quote)));
  }

  lemma Reopened(before: string, v: string, quote: string, comma: string, b: string)
    ensures before + quote + comma + (b + v + quote) == before + (quote + comma + b + (v + quote))
  {}

  lemma Nested(a: string, x: string, s: string, t: string)
    ensures a + (x + s) + t == a + x + (s + t)
  {}

  // ----- Quotes in the first value only

  /** No value but the first has a quote in it. */
  predicate QuotesFirstOnly(vals: seq<string>) {
    forall i :: 0 < i < |vals| ==> '"' !in vals[i]
  }

  lemma ValueAtEnd(before: string, v: string)
    requires '"' !in v
    ensures var s := before + ("\"" + v + "\"");
            && |s| == |before| + |v| + 2 && s[|before|] == '"'
            && (forall k :: |before| < k < |s| - 1 ==> s[k] != '"')
            && before == s[..|before|] && v == s[|before| + 1..|s| - 1]
  {
    var s := before + ("\"" + v + "\"");
    assert forall k :: |before| < k < |s| - 1 ==> s[k] == v[k - |before| - 1];
  }

  /** A text that ends in a quoted value determines the value and what is before it. */
  lemma LastValue(before: string, before': string, v: string, v': string)
    requires before + ("\"" + v + "\"") == before' + ("\"" + v' + "\"")
    requires '"' !in v && '"' !in v'
    ensures before == before' && v == v'
  {
    ValueAtEnd(before, v);
    ValueAtEnd(before', v');
    assert |before| == |before'|;
  }

  lemma PairTextEnds(p: Pair)
    ensures PairText(p) == (p.0 + "=") + ("\"" + p.1 + "\"")
  {}

  lemma BodyEnds(pairs: seq<Pair>, p: Pair)
    requires pairs != []
    ensures Body(pairs + [p]) == (Body(pairs) + ("," + (p.0 + "="))) + ("\"" + p.1 + "\"")
  {
    BodySnoc(pairs, p);
    PairTextEnds(p);
  }

  lemma SameEnd(a: string, b: string, end: string)
    requires a + end == b + end
    ensures a == b
  {
    assert |a + end| == |b + end|;
    assert a == (a + end)[..|a|] && b == (b + end)[..|b|];
  }

  lemma ZipInit(names: seq<string>, vals: seq<string>)
    requires names != [] && |names| == |vals|
    ensures var n := |names| - 1;
            Zip(names, vals) == Zip(names[..n], vals[..n]) + [(names[n], vals[n])]
  {}

  lemma {:induction false} BodiesDiffer(names: seq<string>, vals: seq<string>, vals': seq<string>)
    requires names != [] && |names| == |vals| == |vals'|
    requires QuotesFirstOnly(vals) && QuotesFirstOnly(vals')
    requires Body(Zip(names, vals)) == Body(Zip(names, vals'))
    ensures vals == vals'
  {
    var n := |names| - 1;
    ZipInit(names, vals);
    ZipInit(names, vals');
    if n == 0 {
      OnlyValue(names[0], vals[0], vals'[0]);
      assert vals == [vals[0]] && vals' == [vals'[0]];
    } else {
      var init, init' := Zip(names[..n], vals[..n]), Zip(names[..n], vals'[..n]);
      BodyEnds(init, (names[n], vals[n]));
      BodyEnds(init', (names[n], vals'[n]));
      var end := "," + (names[n] + "=");
      LastValue(Body(init) + end, Body(init') + end, vals[n], vals'[n]);
      SameEnd(Body(init), Body(init'), end);
      BodiesDiffer(names[..n], vals[..n], vals'[..n]);
      assert vals == vals[..n] + [vals[n]] && vals' == vals'[..n] + [vals'[n]];
    }
  }

  lemma OnlyValue(name: string, v: string, v': string)
    requires Body([(name, v)]) == Body([(name, v')])
    ensures v == v'
  {
    var text, text' := PairText((name, v)), PairText((name, v'));
    assert |text| == |name| + 2 + |v| + 1 && |text'| == |name| + 2 + |v'| + 1;
    assert v == text[|name| + 2..|text| - 1] && v' == text'[|name| + 2..|text'| - 1];
  }

  /** If none but the first value may have quotes in it, different values print differently under the
      same names. */
  lemma FirstMayQuote(names: seq<string>, vals: seq<string>, vals': seq<string>)
    requires |names| == |vals| == |vals'|
    requires QuotesFirstOnly(vals) && QuotesFirstOnly(vals')
    requires Block(Zip(names, vals)) == Block(Zip(names, vals'))
    ensures vals == vals'
  {
    if names != [] {
      Braces(Body(Zip(names, vals)));
      Braces(Body(Zip(names, vals')));
      SameEnd(Body(Zip(names, vals)), Body(Zip(names, vals')), "}");
      BodiesDiffer(names, vals, vals');
    }
  }

  lemma TwoPairs(pairs: seq<Pair>)
    requires |pairs| == 2
    ensures Block(pairs) == "{" + (PairText(pairs[0]) + "," + PairText(pairs[1])) + "}"
  {
    assert Body(pairs[1..]) == PairText(pairs[1]);
  }

  /** The exposition format, written out for two labels. */
  lemma Looks(name: string, x: string, next: string, y: string)
    ensures Block([(name, x), (next, y)]) == "{" + ((name + "=\"" + x + "\"") + "," + (next + "=\"" + y + "\"")) + "}"
    ensures Block([]) == ""
  {
    TwoPairs([(name, x), (next, y)]);
  }

  /** From the labels counted, through the joined key, to the text and back. */
  lemma LabelsSurvive(names: seq<string>, vals: seq<string>)
    requires names != [] && |names| == |vals|
    requires forall i :: 0 <= i < |names| ==> '=' !in names[i]
    requires forall i :: 0 <= i < |vals| ==> NUL !in vals[i] && '"' !in vals[i]
    ensures Split(Join(vals, NUL), NUL) == vals
    ensures ParseBlock(Block(Zip(names, Split(Join(vals, NUL), NUL)))) == Some(Zip(names, vals))
  {
    SplitJoin(vals, NUL);
    TextRoundTrip(Zip(names, vals));
  }
}
