/** The canonical form under which a URL is claimed (internal/engine/dedup.go), on URLs already
    taken apart: scheme, host, path and query. What does not take part is kept in `rest`. */
module Urls {
  import opened Utf8
  import opened Wrappers
  import opened Wildcards
  import opened Tokens
  import opened Folding

  // ---- Order ----

  predicate LexLe(a: Bytes, b: Bytes) {
    a == [] || (b != [] && (a[0] < b[0] || (a[0] == b[0] && LexLe(a[1..], b[1..]))))
  }

  lemma {:induction false} LexTotal(a: Bytes, b: Bytes)
    ensures LexLe(a, b) || LexLe(b, a)
    decreases |a|
  {
    if a != [] && b != [] && a[0] == b[0] {
      LexTotal(a[1..], b[1..]);
    }
  }

  lemma {:induction false} LexTransitive(a: Bytes, b: Bytes, c: Bytes)
    requires LexLe(a, b) && LexLe(b, c)
    ensures LexLe(a, c)
    decreases |a|
  {
    if a != [] && b != [] && c != [] && a[0] == b[0] == c[0] {
      LexTransitive(a[1..], b[1..], c[1..]);
    }
  }

  ghost predicate IsLeast(m: Bytes, all: multiset<Bytes>) {
    m in all && forall x | x in all :: LexLe(m, x)
  }

  lemma {:induction false} LeastExists(all: multiset<Bytes>) returns (m: Bytes)
    requires all != multiset{}
    ensures IsLeast(m, all)
    decreases |all|
  {
    var x :| x in all;
    var rest := all - multiset{x};
    assert forall y | y in all :: y == x || y in rest;
    LexTotal(x, x);
    if rest == multiset{} {
      m := x;
    } else {
      m := LeastExists(rest);
      LexTotal(x, m);
      if LexLe(x, m) {
        forall y | y in rest
          ensures LexLe(x, y)
        {
          LexTransitive(x, m, y);
        }
        m := x;
      }
    }
  }

  /** `sort.Strings`: the least first. */
  ghost function Sorted(all: multiset<Bytes>): (s: seq<Bytes>)
    ensures multiset(s) == all
    decreases |all|
  {
    if all == multiset{} then []
    else
      assert exists m :: IsLeast(m, all) by { var m := LeastExists(all); }
      var m :| IsLeast(m, all);
      [m] + Sorted(all - multiset{m})
  }

  /** It is in order. */
  lemma {:induction false} SortedAscends(all: multiset<Bytes>)
    ensures forall i, j | 0 <= i < j < |Sorted(all)| :: LexLe(Sorted(all)[i], Sorted(all)[j])
    decreases |all|
  {
    if all != multiset{} {
      var s := Sorted(all);
      var rest := all - multiset{s[0]};
      assert s[1..] == Sorted(rest);
      SortedAscends(rest);
      assert s[0] in multiset(s);
      LeastExistsHere(all);
      forall i, j | 0 <= i < j < |s|
        ensures LexLe(s[i], s[j])
      {
        if i == 0 {
          assert s[j] in multiset(s);
        } else {
          assert s[i] == s[1..][i - 1] && s[j] == s[1..][j - 1];
        }
      }
    }
  }

  lemma LeastExistsHere(all: multiset<Bytes>)
    requires all != multiset{}
    ensures IsLeast(Sorted(all)[0], all)
  {
    var m := LeastExists(all);
  }

  // ---- Escaping ----

  const EQUALS: byte := 0x3D
  const PLUS: byte := 0x2B
  const PERCENT: byte := 0x25

  predicate Unreserved(c: byte) {
    || 0x30 <= c <= 0x39 || 0x41 <= c <= 0x5A || 0x61 <= c <= 0x7A
    || c == 0x2D || c == 0x5F || c == 0x2E || c == 0x7E
  }

  function HexDigit(n: int): byte
    requires 0 <= n < 16
  {
    if n < 10 then 0x30 + n else 0x37 + n
  }

  function HexValue(c: byte): Option<int> {
    if 0x30 <= c <= 0x39 then Some(c - 0x30)
    else if 0x41 <= c <= 0x46 then Some(c - 0x37)
    else if 0x61 <= c <= 0x66 then Some(c - 0x57)
    else None
  }

  function EscapeByte(c: byte): Bytes {
    if Unreserved(c) then [c] else if c == SPACE then [PLUS] else [PERCENT, HexDigit(c / 16), HexDigit(c % 16)]
  }

  /** `url.QueryEscape`. */
  function Escape(s: Bytes): Bytes {
    if s == [] then [] else EscapeByte(s[0]) + Escape(s[1..])
  }

  function Prepend(c: byte, rest: Option<Bytes>): Option<Bytes> {
    match rest
    case Some(r) => Some([c] + r)
    case None => None
  }

  /** `url.QueryUnescape`: nothing for a percent sign that no two hexadecimal digits follow. */
  function Unescape(s: Bytes): Option<Bytes> {
    if s == [] then Some([])
    else if s[0] == PERCENT then
      if |s| < 3 || HexValue(s[1]) == None || HexValue(s[2]) == None then None
      else Prepend(16 * HexValue(s[1]).value + HexValue(s[2]).value, Unescape(s[3..]))
    else Prepend(if s[0] == PLUS then SPACE else s[0], Unescape(s[1..]))
  }

  lemma HexRoundTrip(n: int)
    requires 0 <= n < 16
    ensures HexValue(HexDigit(n)) == Some(n)
  {
  }

  lemma UnescapeByte(c: byte, rest: Bytes)
    ensures Unescape(EscapeByte(c) + rest) == Prepend(c, Unescape(rest))
  {
    var e := EscapeByte(c);
    HexRoundTrip(c / 16);
    HexRoundTrip(c % 16);
    assert (e + rest)[|e|..] == rest;
  }

  lemma {:induction false} UnescapeEscape(s: Bytes)
    ensures Unescape(Escape(s)) == Some(s)
  {
    if s != [] {
      UnescapeEscape(s[1..]);
      UnescapeByte(s[0], Escape(s[1..]));
      assert [s[0]] + s[1..] == s;
    }
  }

  /** What is escaped holds none of the separators. */
  lemma {:induction false} EscapeIsPlain(s: Bytes)
    ensures AMP !in Escape(s) && EQUALS !in Escape(s) && SEMICOLON !in Escape(s)
  {
    if s != [] {
      EscapeIsPlain(s[1..]);
    }
  }

  // ---- The query ----

  datatype Pair = Pair(key: Bytes, value: Bytes)

  function Cut(s: Bytes, c: byte): (Bytes, Bytes) {
    FindIs(s, c);
    var n := Find(s, c);
    (s[..n], if n < |s| then s[n + 1..] else [])
  }

  function ParseSegment(s: Bytes): Option<Pair> {
    if s == [] || SEMICOLON in s then None
    else
      var cut := Cut(s, EQUALS);
      match (Unescape(cut.0), Unescape(cut.1))
      case (Some(k), Some(v)) => Some(Pair(k, v))
      case _ => None
  }

  function ParseSegments(ss: seq<Bytes>): seq<Pair> {
    if ss == [] then []
    else (match ParseSegment(ss[0]) case Some(p) => [p] case None => []) + ParseSegments(ss[1..])
  }

  /** `url.ParseQuery`, the pairs in order of appearance. */
  function ParseQuery(q: Bytes): seq<Pair> {
    ParseSegments(Split(q, AMP))
  }

  function PrintPair(p: Pair): Bytes {
    Escape(p.key) + [EQUALS] + Escape(p.value)
  }

  function PrintPairs(ps: seq<Pair>): Bytes {
    if ps == [] then []
    else PrintPair(ps[0]) + if |ps| == 1 then [] else [AMP] + PrintPairs(ps[1..])
  }

  lemma CutPrinted(a: Bytes, b: Bytes)
    requires EQUALS !in a
    ensures Cut(a + [EQUALS] + b, EQUALS) == (a, b)
  {
    var s := a + [EQUALS] + b;
    assert s == a + ([EQUALS] + b);
    FindAfter(a, [EQUALS] + b, EQUALS);
    assert s[..|a|] == a && s[|a| + 1..] == b;
  }

  lemma PrintedPairParses(p: Pair)
    ensures ParseSegment(PrintPair(p)) == Some(p) && AMP !in PrintPair(p)
  {
    hide Escape, Unescape, Cut;
    EscapeIsPlain(p.key);
    EscapeIsPlain(p.value);
    UnescapeEscape(p.key);
    UnescapeEscape(p.value);
    CutPrinted(Escape(p.key), Escape(p.value));
  }

  lemma SplitCons(a: Bytes, rest: Bytes)
    requires AMP !in a
    ensures Split(a, AMP) == [a]
    ensures Split(a + [AMP] + rest, AMP) == [a] + Split(rest, AMP)
  {
    FindAfter(a, [], AMP);
    assert a + [] == a;
    var s := a + [AMP] + rest;
    assert s == a + ([AMP] + rest);
    FindAfter(a, [AMP] + rest, AMP);
    assert s[..|a|] == a && s[|a| + 1..] == rest;
  }

  /** Pairs printed and parsed again are the same pairs in the same order. */
  lemma {:induction false} PrintedPairsParse(ps: seq<Pair>)
    ensures ParseQuery(PrintPairs(ps)) == ps
  {
    hide PrintPair, ParseSegment, Split;
    if ps == [] {
      SplitCons([], []);
      EmptySegment();
      assert ParseSegments([[]]) == [] + ParseSegments([[]][1..]);
    } else {
      var p := ps[0];
      PrintedPairParses(p);
      if |ps| == 1 {
        SplitCons(PrintPair(p), []);
        assert PrintPair(p) + [] == PrintPair(p);
        assert ParseSegments([PrintPair(p)][1..]) == [];
        assert ps == [p];
      } else {
        PrintedPairsParse(ps[1..]);
        SplitCons(PrintPair(p), PrintPairs(ps[1..]));
        assert PrintPair(p) + [AMP] + PrintPairs(ps[1..]) == PrintPair(p) + ([AMP] + PrintPairs(ps[1..]));
        var segments := Split(PrintPairs(ps[1..]), AMP);
        assert ([PrintPair(p)] + segments)[1..] == segments;
      }
    }
  }

  lemma EmptySegment()
    ensures ParseSegment([]) == None
  {
  }

  // ---- Sorting the pairs ----

  function KeysOf(ps: seq<Pair>): set<Bytes> {
    set p | p in ps :: p.key
  }

  function ValuesOf(ps: seq<Pair>, k: Bytes): seq<Bytes> {
    if ps == [] then [] else (if ps[0].key == k then [ps[0].value] else []) + ValuesOf(ps[1..], k)
  }

  function Under(k: Bytes, vs: seq<Bytes>): seq<Pair> {
    if vs == [] then [] else [Pair(k, vs[0])] + Under(k, vs[1..])
  }

  ghost function ByKeys(ps: seq<Pair>, keys: seq<Bytes>): seq<Pair> {
    if keys == [] then [] else Under(keys[0], Sorted(multiset(ValuesOf(ps, keys[0])))) + ByKeys(ps, keys[1..])
  }

  /** The pairs by key, and for each key by value. */
  ghost function Arranged(ps: seq<Pair>): seq<Pair> {
    ByKeys(ps, Sorted(multiset(KeysOf(ps))))
  }

  lemma {:induction false} ValuesCount(ps: seq<Pair>, k: Bytes, v: Bytes)
    ensures multiset(ValuesOf(ps, k))[v] == multiset(ps)[Pair(k, v)]
  {
    if ps != [] {
      assert ps == [ps[0]] + ps[1..];
      ValuesCount(ps[1..], k, v);
    }
  }

  lemma {:induction false} UnderCount(k: Bytes, vs: seq<Bytes>, p: Pair)
    ensures multiset(Under(k, vs))[p] == if p.key == k then multiset(vs)[p.value] else 0
  {
    if vs != [] {
      assert vs == [vs[0]] + vs[1..];
      UnderCount(k, vs[1..], p);
    }
  }

  lemma {:induction false} ByKeysCount(ps: seq<Pair>, keys: seq<Bytes>, p: Pair)
    requires multiset(keys)[p.key] <= 1
    ensures multiset(ByKeys(ps, keys))[p] == if p.key in keys then multiset(ps)[p] else 0
  {
    if keys != [] {
      assert keys == [keys[0]] + keys[1..];
      ByKeysCount(ps, keys[1..], p);
      UnderCount(keys[0], Sorted(multiset(ValuesOf(ps, keys[0]))), p);
      ValuesCount(ps, keys[0], p.value);
      assert p.key in keys[1..] <==> multiset(keys[1..])[p.key] > 0;
    }
  }

  /** Arranging loses no pair and makes none. */
  lemma ArrangedIsPermutation(ps: seq<Pair>)
    ensures multiset(Arranged(ps)) == multiset(ps)
  {
    var keys := Sorted(multiset(KeysOf(ps)));
    forall p: Pair
      ensures multiset(Arranged(ps))[p] == multiset(ps)[p]
    {
      assert multiset(keys)[p.key] <= 1;
      ByKeysCount(ps, keys, p);
      assert p.key in keys <==> p.key in multiset(keys);
      assert p in ps ==> p.key in KeysOf(ps);
      assert multiset(ps)[p] > 0 <==> p in ps;
    }
  }

  /** What is arranged depends on which pairs there are, not on their order. */
  lemma ArrangedUnordered(ps: seq<Pair>, qs: seq<Pair>)
    requires multiset(ps) == multiset(qs)
    ensures Arranged(ps) == Arranged(qs)
  {
    assert KeysOf(ps) == KeysOf(qs) by {
      assert forall p :: p in ps <==> p in multiset(ps);
      assert forall p :: p in qs <==> p in multiset(qs);
    }
    ByKeysUnordered(ps, qs, Sorted(multiset(KeysOf(ps))));
  }

  lemma {:induction false} ByKeysUnordered(ps: seq<Pair>, qs: seq<Pair>, keys: seq<Bytes>)
    requires multiset(ps) == multiset(qs)
    ensures ByKeys(ps, keys) == ByKeys(qs, keys)
  {
    if keys != [] {
      ByKeysUnordered(ps, qs, keys[1..]);
      forall v
        ensures multiset(ValuesOf(ps, keys[0]))[v] == multiset(ValuesOf(qs, keys[0]))[v]
      {
        ValuesCount(ps, keys[0], v);
        ValuesCount(qs, keys[0], v);
      }
      assert multiset(ValuesOf(ps, keys[0])) == multiset(ValuesOf(qs, keys[0]));
    }
  }

  ghost function CanonicalQuery(q: Bytes): Bytes {
    if q == [] then [] else PrintPairs(Arranged(ParseQuery(q)))
  }

  /** The canonical query holds the same pairs. */
  lemma QueryKeepsPairs(q: Bytes)
    ensures multiset(ParseQuery(CanonicalQuery(q))) == multiset(ParseQuery(q))
  {
    if q != [] {
      PrintedPairsParse(Arranged(ParseQuery(q)));
      ArrangedIsPermutation(ParseQuery(q));
    }
  }

  /** Two queries with the same pairs, in whatever order and however escaped, are one. */
  lemma QueryUnordered(q: Bytes, r: Bytes)
    requires multiset(ParseQuery(q)) == multiset(ParseQuery(r))
    ensures CanonicalQuery(q) == CanonicalQuery(r)
  {
    hide Arranged, ParseQuery;
    ArrangedUnordered(ParseQuery(q), ParseQuery(r));
    ParseNothing();
    ArrangedNothing(ParseQuery(q));
    ArrangedNothing(ParseQuery(r));
  }

  lemma ParseNothing()
    ensures ParseQuery([]) == []
  {
    PrintedPairsParse([]);
  }

  lemma ArrangedNothing(ps: seq<Pair>)
    ensures multiset(ps) == multiset{} ==> Arranged(ps) == []
  {
    if multiset(ps) == multiset{} {
      ArrangedIsPermutation(ps);
      assert |multiset(Arranged(ps))| == 0;
    }
  }

  lemma QueryTwice(q: Bytes)
    ensures CanonicalQuery(CanonicalQuery(q)) == CanonicalQuery(q)
  {
    QueryKeepsPairs(q);
    QueryUnordered(CanonicalQuery(q), q);
  }

  // ---- The loops over the query ----

  lemma {:induction false} LexAntisymmetric(a: Bytes, b: Bytes)
    requires LexLe(a, b) && LexLe(b, a)
    ensures a == b
  {
    if a != [] && b != [] {
      LexAntisymmetric(a[1..], b[1..]);
      assert a == [a[0]] + a[1..] && b == [b[0]] + b[1..];
    }
  }

  lemma SortedStartsWith(all: multiset<Bytes>, m: Bytes)
    requires IsLeast(m, all)
    ensures Sorted(all) == [m] + Sorted(all - multiset{m})
  {
    var s := Sorted(all);
    LeastExistsHere(all);
    LexAntisymmetric(m, s[0]);
  }

  lemma Removed(xs: seq<Bytes>, i: nat)
    requires i < |xs|
    ensures multiset(xs[..i] + xs[i + 1..]) == multiset(xs) - multiset{xs[i]}
  {
    assert xs == xs[..i] + [xs[i]] + xs[i + 1..];
  }

  lemma SortedStep(out: seq<Bytes>, rest: seq<Bytes>, i: nat)
    requires i < |rest| && IsLeast(rest[i], multiset(rest))
    ensures out + Sorted(multiset(rest)) == out + [rest[i]] + Sorted(multiset(rest[..i] + rest[i + 1..]))
  {
    hide Sorted;
    SortedStartsWith(multiset(rest), rest[i]);
    Removed(rest, i);
  }

  lemma SortedNothing()
    ensures Sorted(multiset{}) == []
  {
  }

  method SortStrings(xs: seq<Bytes>) returns (out: seq<Bytes>)
    ensures out == Sorted(multiset(xs))
  {
    hide Sorted, IsLeast;
    out := [];
    var rest := xs;
    while rest != []
      invariant Sorted(multiset(xs)) == out + Sorted(multiset(rest))
      decreases |rest|
    {
      var best := LeastIndex(rest);
      SortedStep(out, rest, best);
      out := out + [rest[best]];
      rest := rest[..best] + rest[best + 1..];
    }
    SortedNothing();
  }

  method LeastIndex(xs: seq<Bytes>) returns (best: nat)
    requires xs != []
    ensures best < |xs| && IsLeast(xs[best], multiset(xs))
  {
    best := 0;
    LexTotal(xs[0], xs[0]);
    for n := 1 to |xs|
      invariant best < |xs| && forall i | 0 <= i < n :: LexLe(xs[best], xs[i])
    {
      LexTotal(xs[best], xs[n]);
      if !LexLe(xs[best], xs[n]) {
        forall i | 0 <= i < n
          ensures LexLe(xs[n], xs[i])
        {
          LexTransitive(xs[n], xs[best], xs[i]);
        }
        LexTotal(xs[n], xs[n]);
        best := n;
      }
    }
  }

  lemma {:induction false} ValuesSnoc(ps: seq<Pair>, p: Pair, k: Bytes)
    ensures ValuesOf(ps + [p], k) == ValuesOf(ps, k) + if p.key == k then [p.value] else []
  {
    if ps == [] {
      assert ps + [p] == [p];
      assert ValuesOf([p][1..], k) == [];
    } else {
      assert (ps + [p])[1..] == ps[1..] + [p];
      ValuesSnoc(ps[1..], p, k);
    }
  }

  /** The pairs as `url.Values` holds them. */
  ghost predicate Grouped(params: map<Bytes, seq<Bytes>>, ps: seq<Pair>) {
    params.Keys == KeysOf(ps) && forall k | k in params :: params[k] == ValuesOf(ps, k)
  }

  lemma {:induction false} NoValues(ps: seq<Pair>, k: Bytes)
    requires k !in KeysOf(ps)
    ensures ValuesOf(ps, k) == []
  {
    if ps != [] {
      assert ps[0] in ps;
      NoValues(ps[1..], k);
    }
  }

  method Group(ps: seq<Pair>) returns (params: map<Bytes, seq<Bytes>>)
    ensures Grouped(params, ps)
  {
    params := map[];
    for i := 0 to |ps|
      invariant Grouped(params, ps[..i])
    {
      var p := ps[i];
      assert ps[..i + 1] == ps[..i] + [p];
      forall k
        ensures ValuesOf(ps[..i + 1], k) == ValuesOf(ps[..i], k) + if p.key == k then [p.value] else []
      {
        ValuesSnoc(ps[..i], p, k);
      }
      assert KeysOf(ps[..i + 1]) == KeysOf(ps[..i]) + {p.key};
      if p.key !in params {
        NoValues(ps[..i], p.key);
      }
      params := params[p.key := (if p.key in params then params[p.key] else []) + [p.value]];
    }
    assert ps[..|ps|] == ps;
  }

  method KeyList(params: map<Bytes, seq<Bytes>>) returns (keys: seq<Bytes>)
    ensures multiset(keys) == multiset(params.Keys)
  {
    keys := [];
    var rest := params.Keys;
    while rest != {}
      invariant multiset(keys) + multiset(rest) == multiset(params.Keys)
      decreases rest
    {
      var k :| k in rest;
      keys := keys + [k];
      rest := rest - {k};
    }
  }

  lemma {:induction false} UnderSnoc(k: Bytes, vs: seq<Bytes>, i: nat)
    requires i < |vs|
    ensures Under(k, vs[..i + 1]) == Under(k, vs[..i]) + [Pair(k, vs[i])]
  {
    if i > 0 {
      UnderSnoc(k, vs[1..], i - 1);
      assert vs[..i + 1][1..] == vs[1..][..i] && vs[..i][1..] == vs[1..][..i - 1];
    } else {
      assert vs[..1][1..] == [];
    }
  }

  lemma {:induction false} ByKeysSnoc(ps: seq<Pair>, keys: seq<Bytes>, i: nat)
    requires i < |keys|
    ensures ByKeys(ps, keys[..i + 1]) == ByKeys(ps, keys[..i]) + Under(keys[i], Sorted(multiset(ValuesOf(ps, keys[i]))))
  {
    hide Sorted, ValuesOf, Under;
    if i > 0 {
      ByKeysSnoc(ps, keys[1..], i - 1);
      assert keys[..i + 1][1..] == keys[1..][..i] && keys[..i][1..] == keys[1..][..i - 1];
    } else {
      assert keys[..1][1..] == [];
    }
  }

  method CanonicalizeQuery(q: Bytes) returns (r: Bytes)
    ensures r == CanonicalQuery(q)
  {
    hide Sorted, ParseQuery, ValuesOf, Under, ByKeys, PrintPairs;
    if q == [] {
      return [];
    }
    var pairs := ParseQuery(q);
    var params := Group(pairs);
    var keys := KeyList(params);
    keys := SortStrings(keys);
    var sorted: seq<Pair> := [];
    NothingByKeys(pairs, keys);
    for i := 0 to |keys|
      invariant sorted == ByKeys(pairs, keys[..i])
    {
      ByKeysSnoc(pairs, keys, i);
      assert keys[i] in multiset(keys);
      var vals := SortStrings(params[keys[i]]);
      ghost var before := sorted;
      NothingUnder(keys[i], vals);
      for j := 0 to |vals|
        invariant sorted == before + Under(keys[i], vals[..j])
      {
        UnderSnoc(keys[i], vals, j);
        sorted := sorted + [Pair(keys[i], vals[j])];
      }
      assert vals[..|vals|] == vals;
    }
    assert keys[..|keys|] == keys;
    return PrintPairs(sorted);
  }

  lemma NothingByKeys(ps: seq<Pair>, keys: seq<Bytes>)
    ensures ByKeys(ps, keys[..0]) == []
  {
  }

  lemma NothingUnder(k: Bytes, vs: seq<Bytes>)
    ensures Under(k, vs[..0]) == []
  {
  }

  // ---- Host, port and path ----

  const OPEN_BRACKET: byte := 0x5B
  const CLOSE_BRACKET: byte := 0x5D
  const HTTP: Bytes := Ascii("http")
  const HTTPS: Bytes := Ascii("https")

  function LastColon(s: Bytes): int
    ensures -1 <= LastColon(s) < |s|
    ensures LastColon(s) >= 0 ==> s[LastColon(s)] == COLON
  {
    if s == [] then -1 else if s[|s| - 1] == COLON then |s| - 1 else LastColon(s[..|s| - 1])
  }

  predicate Digits(s: Bytes) {
    forall i | 0 <= i < |s| :: 0x30 <= s[i] <= 0x39
  }

  function Unbracketed(h: Bytes): Bytes {
    if |h| >= 2 && h[0] == OPEN_BRACKET && h[|h| - 1] == CLOSE_BRACKET then h[1..|h| - 1] else h
  }

  /** `Hostname` and `Port`. */
  function SplitHost(h: Bytes): (Bytes, Bytes) {
    var colon := LastColon(h);
    if colon != -1 && Digits(h[colon + 1..]) then (Unbracketed(h[..colon]), h[colon + 1..])
    else (Unbracketed(h), [])
  }

  predicate DefaultPort(scheme: Bytes, port: Bytes) {
    (scheme == HTTP && port == Ascii("80")) || (scheme == HTTPS && port == Ascii("443"))
  }

  /** hostWithoutPort: whether an address with a colon is an IPv6 literal is left open. */
  function HostWithoutPort(host: Bytes, isIP: Bytes -> bool): Option<Bytes> {
    if COLON !in host then Some(host)
    else if isIP(host) then Some([OPEN_BRACKET] + host + [CLOSE_BRACKET])
    else None
  }

  function CanonicalHost(scheme: Bytes, host: Bytes, isIP: Bytes -> bool): Bytes {
    var h := Lower(host);
    var (name, port) := SplitHost(h);
    if DefaultPort(scheme, port) then
      match HostWithoutPort(name, isIP)
      case Some(bare) => bare
      case None => h
    else h
  }

  lemma {:induction false} NoColon(s: Bytes)
    ensures LastColon(s) == -1 <==> COLON !in s
  {
    if s != [] && s[|s| - 1] != COLON {
      NoColon(s[..|s| - 1]);
      assert s == s[..|s| - 1] + [s[|s| - 1]];
    }
  }

  lemma LowerTwice(s: Bytes)
    ensures Lower(Lower(s)) == Lower(s)
  {
  }

  /** Nothing bracketed has a port. */
  lemma BracketedHasNoPort(name: Bytes)
    ensures SplitHost([OPEN_BRACKET] + name + [CLOSE_BRACKET]) == (name, [])
  {
    var h := [OPEN_BRACKET] + name + [CLOSE_BRACKET];
    var colon := LastColon(h);
    if colon != -1 {
      assert h[colon + 1..][|h| - colon - 2] == CLOSE_BRACKET;
    }
    assert h[1..|h| - 1] == name;
  }

  ghost predicate AllLow(s: Bytes) {
    forall i | 0 <= i < |s| :: LowerByte(s[i]) == s[i]
  }

  lemma AllLowLower(s: Bytes)
    requires AllLow(s)
    ensures Lower(s) == s
  {
  }

  lemma AllLowName(h: Bytes)
    requires AllLow(h)
    ensures AllLow(SplitHost(h).0)
  {
    hide LowerByte;
    var colon := LastColon(h);
    var x := if colon != -1 && Digits(h[colon + 1..]) then h[..colon] else h;
    assert SplitHost(h).0 == Unbracketed(x);
    assert AllLow(x);
  }

  /** Every letter of an address is small already when it comes from a lowered host. */
  lemma LowerPart(h: Bytes)
    ensures Lower(SplitHost(Lower(h)).0) == SplitHost(Lower(h)).0
  {
    hide SplitHost;
    assert AllLow(Lower(h));
    AllLowName(Lower(h));
    AllLowLower(SplitHost(Lower(h)).0);
  }

  /** A port that is dropped once is not looked for again, whatever the host is: IPv6 literals,
      authorities with several colons, and brackets where none belong. */
  lemma HostTwice(scheme: Bytes, host: Bytes, isIP: Bytes -> bool)
    ensures CanonicalHost(scheme, CanonicalHost(scheme, host, isIP), isIP) == CanonicalHost(scheme, host, isIP)
  {
    hide SplitHost, DefaultPort, Lower;
    var h := Lower(host);
    LowerTwice(host);
    var name, port := SplitHost(h).0, SplitHost(h).1;
    LowerPart(host);
    if DefaultPort(scheme, port) {
      NoDefault(scheme);
      if COLON !in name {
        PlainHasNoPort(name);
      } else if isIP(name) {
        BracketedHasNoPort(name);
        LowerBracketed(name);
      }
    }
  }

  lemma NoDefault(scheme: Bytes)
    ensures !DefaultPort(scheme, [])
  {
  }

  lemma PlainHasNoPort(name: Bytes)
    requires COLON !in name
    ensures SplitHost(name).1 == []
  {
    NoColon(name);
  }

  lemma LowerBracketed(name: Bytes)
    requires Lower(name) == name
    ensures Lower([OPEN_BRACKET] + name + [CLOSE_BRACKET]) == [OPEN_BRACKET] + name + [CLOSE_BRACKET]
  {
  }

  lemma SplitPort(b: Bytes, port: Bytes)
    requires Digits(port)
    ensures SplitHost(b + [COLON] + port) == (Unbracketed(b), port)
  {
    var h := b + [COLON] + port;
    LastColonBefore(b, port);
    assert h[..|b|] == b && h[|b| + 1..] == port;
  }

  lemma {:induction false} LastColonBefore(b: Bytes, port: Bytes)
    requires Digits(port)
    ensures LastColon(b + [COLON] + port) == |b|
    decreases |port|
  {
    if port != [] {
      var n := |port| - 1;
      LastColonBefore(b, port[..n]);
      assert (b + [COLON] + port)[..|b| + 1 + n] == b + [COLON] + port[..n];
    }
  }

  /** An IPv6 literal on a default port keeps its brackets. */
  lemma BracketsStay(scheme: Bytes, name: Bytes, port: Bytes, isIP: Bytes -> bool)
    requires DefaultPort(scheme, port) && COLON in name && isIP(Lower(name))
    ensures CanonicalHost(scheme, [OPEN_BRACKET] + name + [CLOSE_BRACKET] + [COLON] + port, isIP)
         == [OPEN_BRACKET] + Lower(name) + [CLOSE_BRACKET]
  {
    hide SplitHost;
    var b := [OPEN_BRACKET] + Lower(name) + [CLOSE_BRACKET];
    assert Lower([OPEN_BRACKET] + name + [CLOSE_BRACKET] + [COLON] + port) == b + [COLON] + port;
    SplitPort(b, port);
    assert b[1..|b| - 1] == Lower(name);
    var i :| 0 <= i < |name| && name[i] == COLON;
    assert Lower(name)[i] == COLON;
  }

  function TrimSlashes(p: Bytes): Bytes {
    if p != [] && p[|p| - 1] == SLASH then TrimSlashes(p[..|p| - 1]) else p
  }

  lemma {:induction false} TrimSlashesEnds(p: Bytes)
    ensures var t := TrimSlashes(p); t == [] || t[|t| - 1] != SLASH
  {
    if p != [] && p[|p| - 1] == SLASH {
      TrimSlashesEnds(p[..|p| - 1]);
    }
  }

  function CanonicalPath(p: Bytes): Bytes {
    var q := if p != [SLASH] && p != [] && p[|p| - 1] == SLASH then TrimSlashes(p) else p;
    if q == [] then [SLASH] else q
  }

  /** A canonical path is the root or ends in no slash. */
  lemma PathEnds(p: Bytes)
    ensures CanonicalPath(p) == [SLASH] || (CanonicalPath(p) != [] && CanonicalPath(p)[|CanonicalPath(p)| - 1] != SLASH)
    ensures CanonicalPath(CanonicalPath(p)) == CanonicalPath(p)
  {
    TrimSlashesEnds(p);
  }

  // ---- The whole ----

  datatype Url = Url(scheme: Bytes, rest: Bytes, host: Bytes, path: Bytes, query: Bytes, fragment: Bytes)

  ghost function Canonical(u: Url, isIP: Bytes -> bool): Url {
    Url(Lower(u.scheme), u.rest, CanonicalHost(Lower(u.scheme), u.host, isIP), CanonicalPath(u.path), CanonicalQuery(u.query), [])
  }

  /** The canonical form of a canonical form is itself. */
  lemma CanonicalTwice(u: Url, isIP: Bytes -> bool)
    ensures Canonical(Canonical(u, isIP), isIP) == Canonical(u, isIP)
  {
    hide CanonicalHost, CanonicalPath, CanonicalQuery, Lower;
    LowerTwice(u.scheme);
    HostTwice(Lower(u.scheme), u.host, isIP);
    PathEnds(u.path);
    QueryTwice(u.query);
  }

  /** URLs that differ only in the order of their query pairs are claimed as one. */
  lemma CanonicalUnordered(u: Url, q: Bytes, isIP: Bytes -> bool)
    requires multiset(ParseQuery(q)) == multiset(ParseQuery(u.query))
    ensures Canonical(u.(query := q), isIP) == Canonical(u, isIP)
  {
    hide CanonicalHost, CanonicalPath, CanonicalQuery, Lower;
    QueryUnordered(u.query, q);
  }

  // ---- Reading a query ----

  predicate IsHex(c: byte) {
    0x30 <= c <= 0x39 || 0x41 <= c <= 0x46 || 0x61 <= c <= 0x66
  }

  function Nibble(c: byte): (n: byte)
    ensures n < 16
  {
    if !IsHex(c) then 0 else if c <= 0x39 then c - 0x30 else if c <= 0x46 then c - 0x41 + 10 else c - 0x61 + 10
  }

  /** What an escaped query part is made of: bytes that stand for themselves, a plus for a blank, and
      a percent sign with two digits. */
  datatype Unit = Itself(c: byte) | Plus | Coded(hi: byte, lo: byte)

  predicate WellSpelled(u: Unit) {
    match u
    case Itself(c) => c != 0x25 && c != 0x2B
    case Plus => true
    case Coded(hi, lo) => IsHex(hi) && IsHex(lo)
  }

  function SpellUnits(us: seq<Unit>): Bytes {
    if us == [] then []
    else (match us[0] case Itself(c) => [c] case Plus => [0x2B] case Coded(hi, lo) => [0x25, hi, lo]) + SpellUnits(us[1..])
  }

  function MeanUnits(us: seq<Unit>): Bytes {
    if us == [] then []
    else (match us[0] case Itself(c) => [c] case Plus => [0x20] case Coded(hi, lo) => [16 * Nibble(hi) + Nibble(lo)]) + MeanUnits(us[1..])
  }

  lemma HexIs(c: byte)
    ensures HexValue(c) == if IsHex(c) then Some(Nibble(c)) else None
  {
  }

  /** Whatever is spelled so is read so. */
  lemma {:induction false} UnescapeReads(us: seq<Unit>)
    requires forall i | 0 <= i < |us| :: WellSpelled(us[i])
    ensures Unescape(SpellUnits(us)) == Some(MeanUnits(us))
  {
    if us != [] {
      var rest := SpellUnits(us[1..]);
      assert forall i | 0 <= i < |us[1..]| :: us[1..][i] == us[i + 1];
      UnescapeReads(us[1..]);
      assert WellSpelled(us[0]);
      match us[0]
      case Itself(c) => assert ([c] + rest)[1..] == rest;
      case Plus => assert ([0x2B] + rest)[1..] == rest;
      case Coded(hi, lo) =>
        HexIs(hi);
        HexIs(lo);
        assert ([0x25, hi, lo] + rest)[3..] == rest;
    }
  }

  /** A percent sign without its two digits. */
  predicate BrokenAt(s: Bytes, p: int) {
    0 <= p < |s| && s[p] == 0x25 && !(p + 2 < |s| && IsHex(s[p + 1]) && IsHex(s[p + 2]))
  }

  lemma BrokenInTail(s: Bytes, k: nat, p: int)
    requires k <= |s| && p >= 0
    ensures BrokenAt(s[k..], p) <==> BrokenAt(s, k + p)
  {
  }

  /** Nothing else is refused, and that is. */
  lemma {:induction false} UnescapeFails(s: Bytes)
    ensures Unescape(s) == None <==> exists p :: BrokenAt(s, p)
  {
    if s != [] {
      var n := if s[0] == PERCENT && !BrokenAt(s, 0) then 3 else 1;
      if |s| > 1 {
        HexIs(s[1]);
      }
      if |s| > 2 {
        HexIs(s[2]);
      }
      UnescapeFails(s[n..]);
      if p :| BrokenAt(s, p) {
        if p >= n {
          BrokenInTail(s, n, p - n);
        }
      }
      if p :| BrokenAt(s[n..], p) {
        BrokenInTail(s, n, p);
      }
    }
  }

  /** A segment with an equals sign is cut at the first one, one without is a key without a value;
      an empty one, one with a semicolon and one that cannot be read are dropped. */
  lemma SegmentReads(k: Bytes, v: Bytes)
    requires 0x3D !in k
    ensures ParseSegment(k + ([0x3D] + v))
         == if 0x3B in k || 0x3B in v || Unescape(k) == None || Unescape(v) == None then None
            else Some(Pair(Unescape(k).value, Unescape(v).value))
    ensures ParseSegment(k)
         == if k == [] || 0x3B in k || Unescape(k) == None then None else Some(Pair(Unescape(k).value, []))
  {
    hide Unescape;
    var s := k + ([EQUALS] + v);
    CutPrinted(k, v);
    assert k + [EQUALS] + v == s;
    assert SEMICOLON in s <==> SEMICOLON in k || SEMICOLON in v;
    FindAfter(k, [], EQUALS);
    assert k + [] == k && k[..|k|] == k;
    UnescapeNothing();
  }

  lemma UnescapeNothing()
    ensures Unescape([]) == Some([])
  {
  }

  function Segments(ss: seq<Bytes>): Bytes
    requires ss != []
  {
    if |ss| == 1 then ss[0] else ss[0] + ([0x26] + Segments(ss[1..]))
  }

  /** A query is its segments between ampersands, read one by one and in order. */
  lemma {:induction false} QueryReads(ss: seq<Bytes>)
    requires ss != [] && forall i | 0 <= i < |ss| :: 0x26 !in ss[i]
    ensures ParseQuery(Segments(ss)) == ParseSegments(ss)
  {
    hide ParseSegments;
    SplitsIntoSegments(ss);
  }

  lemma {:induction false} SplitsIntoSegments(ss: seq<Bytes>)
    requires ss != [] && forall i | 0 <= i < |ss| :: 0x26 !in ss[i]
    ensures Split(Segments(ss), AMP) == ss
  {
    hide Split;
    if |ss| == 1 {
      SplitCons(ss[0], []);
    } else {
      var rest := Segments(ss[1..]);
      assert forall i | 0 <= i < |ss[1..]| :: ss[1..][i] == ss[i + 1];
      SplitsIntoSegments(ss[1..]);
      SplitCons(ss[0], rest);
      assert ss[0] + [AMP] + rest == ss[0] + ([AMP] + rest);
    }
  }

  // ---- Which URLs are claimed as one ----

  /** The same letters, small or capital. */
  predicate SameLetters(a: Bytes, b: Bytes) {
    |a| == |b| && forall k | 0 <= k < |a| ::
      a[k] == b[k] || (0x41 <= a[k] <= 0x5A && b[k] == a[k] + 0x20) || (0x41 <= b[k] <= 0x5A && a[k] == b[k] + 0x20)
  }

  lemma LowerAgrees(a: Bytes, b: Bytes)
    ensures Lower(a) == Lower(b) <==> SameLetters(a, b)
  {
    if Lower(a) == Lower(b) {
      forall k | 0 <= k < |a|
        ensures LowerByte(a[k]) == LowerByte(b[k])
      {
        assert Lower(a)[k] == Lower(b)[k];
      }
    }
    if SameLetters(a, b) {
      assert forall k | 0 <= k < |a| :: Lower(a)[k] == Lower(b)[k];
    }
  }

  /** `p` is `core`, which ends in no slash, and slashes. */
  predicate WithSlashes(core: Bytes, p: Bytes) {
    && core <= p && (core == [] || core[|core| - 1] != 0x2F)
    && forall k | |core| <= k < |p| :: p[k] == 0x2F
  }

  /** The paths differ by slashes at their ends, if at all. */
  ghost predicate SamePath(p: Bytes, q: Bytes) {
    exists core :: WithSlashes(core, p) && WithSlashes(core, q)
  }

  lemma EndsInSlash(core: Bytes, p: Bytes)
    requires WithSlashes(core, p)
    ensures |core| < |p| ==> p[|p| - 1] == SLASH
  {
  }

  lemma {:induction false} TrimmedIsCore(p: Bytes, core: Bytes)
    ensures WithSlashes(core, p) <==> TrimSlashes(p) == core
  {
    if p != [] && p[|p| - 1] == SLASH {
      var before := p[..|p| - 1];
      TrimmedIsCore(before, core);
      if WithSlashes(core, p) {
        assert |core| < |p|;
        assert forall k | 0 <= k < |before| :: before[k] == p[k];
        assert core <= before;
      }
      if WithSlashes(core, before) {
        assert p == before + [SLASH];
      }
    } else if WithSlashes(core, p) {
      EndsInSlash(core, p);
      assert core == p;
    }
  }

  lemma PathsAgree(p: Bytes, q: Bytes)
    ensures CanonicalPath(p) == CanonicalPath(q) <==> SamePath(p, q)
  {
    hide WithSlashes;
    TrimSlashesEnds(p);
    TrimSlashesEnds(q);
    PathIsCore(p);
    PathIsCore(q);
    TrimmedIsCore(p, TrimSlashes(p));
    TrimmedIsCore(q, TrimSlashes(p));
    if core :| WithSlashes(core, p) && WithSlashes(core, q) {
      TrimmedIsCore(p, core);
      TrimmedIsCore(q, core);
    }
  }

  lemma PathIsCore(p: Bytes)
    ensures CanonicalPath(p) == if TrimSlashes(p) == [] then [SLASH] else TrimSlashes(p)
  {
  }

  /** What a host says when it names its scheme's port. */
  function PortOf(scheme: Bytes): Bytes {
    if scheme == [0x68, 0x74, 0x74, 0x70] then [0x3A, 0x38, 0x30]                   // http, :80
    else if scheme == [0x68, 0x74, 0x74, 0x70, 0x73] then [0x3A, 0x34, 0x34, 0x33]  // https, :443
    else []
  }

  predicate InBrackets(p: Bytes) {
    |p| >= 2 && p[0] == 0x5B && p[|p| - 1] == 0x5D
  }

  /** `h` is `g` with the scheme's port written out: a name without a colon, in brackets or not, or
      an address, which has brackets once the port is gone. */
  ghost predicate WithPort(scheme: Bytes, h: Bytes, g: Bytes, isIP: Bytes -> bool) {
    PortOf(scheme) != [] && exists p, n :: h == p + PortOf(scheme) && Bare(p, n) && Shown(n, g, isIP)
  }

  predicate Bare(p: Bytes, n: Bytes) {
    if InBrackets(p) then p == [0x5B] + n + [0x5D] else p == n
  }

  predicate Shown(n: Bytes, g: Bytes, isIP: Bytes -> bool) {
    if 0x3A in n then isIP(n) && g == [0x5B] + n + [0x5D] else g == n
  }

  /** The hosts agree when the port of the scheme, where one writes it out, is left off. */
  ghost predicate SameHost(scheme: Bytes, h: Bytes, k: Bytes, isIP: Bytes -> bool) {
    exists g :: Names(scheme, h, g, isIP) && Names(scheme, k, g, isIP)
  }

  ghost predicate Names(scheme: Bytes, h: Bytes, g: Bytes, isIP: Bytes -> bool) {
    h == g || WithPort(scheme, h, g, isIP)
  }

  lemma PortIs(scheme: Bytes)
    ensures PortOf(scheme) == (if scheme == HTTP then [COLON] + Ascii("80") else if scheme == HTTPS then [COLON] + Ascii("443") else [])
    ensures PortOf(scheme) != [] ==> Digits(PortOf(scheme)[1..]) && PortOf(scheme) == [COLON] + PortOf(scheme)[1..]
    ensures forall port :: DefaultPort(scheme, port) <==> PortOf(scheme) != [] && port == PortOf(scheme)[1..]
  {
    assert HTTP == [0x68, 0x74, 0x74, 0x70] && HTTPS == [0x68, 0x74, 0x74, 0x70, 0x73];
    assert Ascii("80") == [0x38, 0x30] && Ascii("443") == [0x34, 0x34, 0x33];
  }

  lemma BareIs(p: Bytes, n: Bytes)
    ensures Bare(p, n) <==> Unbracketed(p) == n
  {
    if InBrackets(p) {
      assert p == [0x5B] + p[1..|p| - 1] + [0x5D];
      if Bare(p, n) {
        assert p[1..|p| - 1] == n;
      }
    }
  }

  /** What is written with its port is canonical without it. */
  lemma PortIsDropped(scheme: Bytes, host: Bytes, g: Bytes, isIP: Bytes -> bool)
    requires WithPort(scheme, Lower(host), g, isIP)
    ensures CanonicalHost(scheme, host, isIP) == g
  {
    hide SplitHost, DefaultPort, PortOf, Bare, Digits, Unbracketed;
    var h, port := Lower(host), PortOf(scheme);
    var p, n :| h == p + port && Bare(p, n) && Shown(n, g, isIP);
    PortIs(scheme);
    BareIs(p, n);
    SplitPort(p, port[1..]);
    assert h == p + [COLON] + port[1..];
  }

  /** Whatever is dropped was the port. */
  lemma OnlyPortIsDropped(scheme: Bytes, host: Bytes, isIP: Bytes -> bool)
    ensures var g := CanonicalHost(scheme, host, isIP); Lower(host) == g || WithPort(scheme, Lower(host), g, isIP)
  {
    hide SplitHost, DefaultPort, PortOf, Bare, Unbracketed;
    var h, g := Lower(host), CanonicalHost(scheme, host, isIP);
    if g != h {
      PortIs(scheme);
      NoDefault(scheme);
      var p := BeforePort(h);
      assert h == p + PortOf(scheme);
      BareIs(p, Unbracketed(p));
      assert Bare(p, Unbracketed(p)) && Shown(Unbracketed(p), g, isIP);
    }
  }

  lemma BeforePort(h: Bytes) returns (p: Bytes)
    requires SplitHost(h).1 != []
    ensures h == p + ([COLON] + SplitHost(h).1) && SplitHost(h).0 == Unbracketed(p)
  {
    hide Digits, Unbracketed;
    var colon := LastColon(h);
    p := h[..colon];
    assert h == h[..colon] + ([h[colon]] + h[colon + 1..]);
  }

  lemma HostsAgree(scheme: Bytes, host: Bytes, other: Bytes, isIP: Bytes -> bool)
    ensures CanonicalHost(scheme, host, isIP) == CanonicalHost(scheme, other, isIP)
            <==> SameHost(scheme, Lower(host), Lower(other), isIP)
  {
    hide CanonicalHost, WithPort;
    var f, k := CanonicalHost(scheme, host, isIP), CanonicalHost(scheme, other, isIP);
    OnlyPortIsDropped(scheme, host, isIP);
    OnlyPortIsDropped(scheme, other, isIP);
    if f == k {
      assert Names(scheme, Lower(host), f, isIP) && Names(scheme, Lower(other), f, isIP);
    }
    if SameHost(scheme, Lower(host), Lower(other), isIP) {
      var g :| Names(scheme, Lower(host), g, isIP) && Names(scheme, Lower(other), g, isIP);
      NamesIt(scheme, host, other, g, isIP);
      NamesIt(scheme, other, host, g, isIP);
      HostOfLower(scheme, host, isIP);
      HostOfLower(scheme, other, isIP);
    }
  }

  /** If one of two hosts drops its port to `g` and the other is `g`, both are canonically `g`. */
  lemma NamesIt(scheme: Bytes, host: Bytes, other: Bytes, g: Bytes, isIP: Bytes -> bool)
    requires Lower(other) == g || WithPort(scheme, Lower(other), g, isIP)
    ensures WithPort(scheme, Lower(host), g, isIP) ==>
              CanonicalHost(scheme, host, isIP) == g && CanonicalHost(scheme, other, isIP) == g
  {
    hide CanonicalHost, WithPort;
    if WithPort(scheme, Lower(host), g, isIP) {
      PortIsDropped(scheme, host, g, isIP);
      HostTwice(scheme, host, isIP);
      HostOfLower(scheme, other, isIP);
      if WithPort(scheme, Lower(other), g, isIP) {
        PortIsDropped(scheme, other, g, isIP);
      }
    }
  }

  lemma HostOfLower(scheme: Bytes, host: Bytes, isIP: Bytes -> bool)
    ensures CanonicalHost(scheme, host, isIP) == CanonicalHost(scheme, Lower(host), isIP)
  {
    hide SplitHost, DefaultPort, Lower;
    LowerTwice(host);
  }

  lemma QueriesAgree(q: Bytes, r: Bytes)
    ensures CanonicalQuery(q) == CanonicalQuery(r) <==> multiset(ParseQuery(q)) == multiset(ParseQuery(r))
  {
    hide CanonicalQuery, ParseQuery;
    QueryKeepsPairs(q);
    QueryKeepsPairs(r);
    if multiset(ParseQuery(q)) == multiset(ParseQuery(r)) {
      QueryUnordered(q, r);
    }
  }

  /** Two URLs are claimed as one if and only if they have one scheme in any letter case, the same
      user information, one host up to letter case and the port of the scheme, one path up to
      slashes at its end, and the same query pairs in any order. The fragment is no part of it. */
  lemma ClaimedAsOne(u: Url, v: Url, isIP: Bytes -> bool)
    ensures Canonical(u, isIP) == Canonical(v, isIP) <==>
            && SameLetters(u.scheme, v.scheme) && u.rest == v.rest
            && SameHost(Lower(u.scheme), Lower(u.host), Lower(v.host), isIP)
            && SamePath(u.path, v.path)
            && multiset(ParseQuery(u.query)) == multiset(ParseQuery(v.query))
  {
    hide CanonicalHost, CanonicalPath, CanonicalQuery, ParseQuery, Lower, SameLetters, SameHost, SamePath;
    LowerAgrees(u.scheme, v.scheme);
    HostsAgree(Lower(u.scheme), u.host, v.host, isIP);
    PathsAgree(u.path, v.path);
    QueriesAgree(u.query, v.query);
  }

  // ---- The exact set ----

  class Deduplicator {
    var seen: set<string>
    const key: string -> string          // canonical form, hashed
    ghost var offered: set<string>

    ghost predicate Valid()
      reads this
    {
      seen == set u | u in offered :: key(u)
    }

    constructor (key: string -> string)
      ensures Valid() && offered == {} && this.key == key
    {
      seen, offered := {}, {};
      this.key := key;
    }

    /** Claims a URL: new exactly when nothing with its key was offered before. */
    method MarkIfUnseen(rawUrl: string) returns (isNew: bool)
      requires Valid()
      modifies this
      ensures Valid() && offered == old(offered) + {rawUrl}
      ensures isNew <==> forall u | u in old(offered) :: key(u) != key(rawUrl)
    {
      var k := key(rawUrl);
      isNew := k !in seen;
      if isNew {
        seen := seen + {k};
      }
      offered := offered + {rawUrl};
    }
  }
}
