/** Path patterns of robots.txt: `*` stands for any bytes, a final `$` for the end of the path
    (internal/engine/robots.go; section 2.2.3 of RFC 9309). */
module Wildcards {
  import opened Wrappers
  import opened Utf8
  import opened Search

  type Bytes = seq<byte>

  const STAR: byte := 0x2A
  const DOLLAR: byte := 0x24
  const COLON: byte := 0x3A

  // ---- What a pattern means ----

  /** The path is spelled by the pattern, each `*` standing for some bytes. */
  ghost predicate Spells(pattern: Bytes, path: Bytes)
    decreases |pattern|
  {
    if pattern == [] then path == []
    else if pattern[0] == STAR then exists k :: 0 <= k <= |path| && Spells(pattern[1..], path[k..])
    else path != [] && path[0] == pattern[0] && Spells(pattern[1..], path[1..])
  }

  /** The pattern spells the path's beginning up to `end`. */
  ghost predicate SpellsTo(pattern: Bytes, path: Bytes, end: nat) {
    end <= |path| && Spells(pattern, path[..end])
  }

  // ---- What the code does ----

  function Find(s: Bytes, c: byte): nat {
    if s == [] || s[0] == c then 0 else 1 + Find(s[1..], c)
  }

  lemma {:induction false} FindIs(s: Bytes, c: byte)
    ensures Find(s, c) <= |s| && c !in s[..Find(s, c)] && (Find(s, c) < |s| ==> s[Find(s, c)] == c)
  {
    if s != [] && s[0] != c {
      FindIs(s[1..], c);
      assert s[..Find(s, c)] == [s[0]] + s[1..][..Find(s[1..], c)];
    }
  }

  lemma {:induction false} FindAfter(a: Bytes, b: Bytes, c: byte)
    requires c !in a
    ensures b == [] || b[0] == c ==> Find(a + b, c) == |a|
  {
    if a == [] {
      assert a + b == b;
    } else {
      assert (a + b)[1..] == a[1..] + b;
      FindAfter(a[1..], b, c);
    }
  }

  /** `strings.Split` on one byte. */
  function Split(s: Bytes, c: byte): seq<Bytes>
    ensures Split(s, c) != []
    decreases |s|
  {
    FindIs(s, c);
    var n := Find(s, c);
    if n == |s| then [s] else [s[..n]] + Split(s[n + 1..], c)
  }

  /** Where the loop over the parts arrives, each part being taken at its first occurrence. */
  function Greedy(parts: seq<Bytes>, i: nat, path: Bytes, pos: nat): Option<nat>
    requires i <= |parts| && pos <= |path|
    decreases |parts| - i
  {
    if i == |parts| then Some(pos)
    else if parts[i] == [] then Greedy(parts, i + 1, path, pos)
    else
      var idx := Index(path[pos..], parts[i]);
      if idx < 0 || (i == 0 && idx != 0) then None
      else Greedy(parts, i + 1, path, pos + idx + |parts[i]|)
  }

  // ---- The first occurrence is the best choice ----

  /** The parts from i on, each after some bytes, reach from `pos` to `end`. */
  ghost predicate Reaches(parts: seq<Bytes>, i: nat, path: Bytes, pos: nat, end: nat)
    requires i <= |parts| && pos <= |path|
    decreases |parts| - i
  {
    if i == |parts| then end == pos
    else exists k :: pos <= k && MatchAt(path, parts[i], k) && Reaches(parts, i + 1, path, k + |parts[i]|, end)
  }

  /** The least end among those reached, if any is. */
  ghost predicate LeastEnd(parts: seq<Bytes>, i: nat, path: Bytes, pos: nat, end: Option<nat>)
    requires i <= |parts| && pos <= |path|
  {
    match end
    case Some(e) => Reaches(parts, i, path, pos, e) && forall x: nat | Reaches(parts, i, path, pos, x) :: e <= x
    case None => forall x: nat :: !Reaches(parts, i, path, pos, x)
  }

  lemma FirstAfter(path: Bytes, part: Bytes, pos: nat, k: nat)
    requires pos <= k && MatchAt(path, part, k)
    ensures 0 <= Index(path[pos..], part) <= k - pos
  {
    MatchInSuffix(path, part, pos, k - pos);
    IndexLeast(path[pos..], part, k - pos);
  }

  lemma FirstIs(path: Bytes, part: Bytes, pos: nat)
    requires pos <= |path|
    ensures Index(path[pos..], part) >= 0 ==> MatchAt(path, part, pos + Index(path[pos..], part))
  {
    IndexMatches(path[pos..], part);
    if Index(path[pos..], part) >= 0 {
      MatchInSuffix(path, part, pos, Index(path[pos..], part));
    }
  }

  /** From further on one never gets further back. */
  lemma {:induction false} GreedyMonotone(parts: seq<Bytes>, i: nat, path: Bytes, pos: nat, later: nat)
    requires 0 < i <= |parts| && pos <= later <= |path|
    ensures Greedy(parts, i, path, later).Some? ==>
              Greedy(parts, i, path, pos).Some? && Greedy(parts, i, path, pos).value <= Greedy(parts, i, path, later).value
    decreases |parts| - i
  {
    hide Index;
    if i < |parts| {
      if parts[i] == [] {
        GreedyMonotone(parts, i + 1, path, pos, later);
      } else {
        var idx := Index(path[later..], parts[i]);
        if idx >= 0 {
          FirstIs(path, parts[i], later);
          FirstAfter(path, parts[i], pos, later + idx);
          GreedyMonotone(parts, i + 1, path, pos + Index(path[pos..], parts[i]) + |parts[i]|, later + idx + |parts[i]|);
        }
      }
    }
  }

  /** After the first part, taking each part at its first occurrence reaches the least end. */
  lemma {:induction false} GreedyIsLeast(parts: seq<Bytes>, i: nat, path: Bytes, pos: nat)
    requires 0 < i <= |parts| && pos <= |path|
    ensures LeastEnd(parts, i, path, pos, Greedy(parts, i, path, pos))
    decreases |parts| - i
  {
    hide Index;
    if i < |parts| {
      var part := parts[i];
      var idx := Index(path[pos..], part);
      FirstIs(path, part, pos);
      EmptyFirst(path, part, pos);
      var next := pos + idx + |part|;
      if idx >= 0 {
        GreedyIsLeast(parts, i + 1, path, next);
        assert Greedy(parts, i, path, pos) == Greedy(parts, i + 1, path, next);
        forall x: nat | Reaches(parts, i, path, pos, x)
          ensures Greedy(parts, i, path, pos).Some? && Greedy(parts, i, path, pos).value <= x
        {
          var k :| pos <= k && MatchAt(path, part, k) && Reaches(parts, i + 1, path, k + |part|, x);
          FirstAfter(path, part, pos, k);
          GreedyIsLeast(parts, i + 1, path, k + |part|);
          GreedyMonotone(parts, i + 1, path, next, k + |part|);
        }
      } else {
        forall x: nat
          ensures !Reaches(parts, i, path, pos, x)
        {
          forall k | pos <= k && MatchAt(path, part, k)
            ensures false
          {
            FirstAfter(path, part, pos, k);
          }
        }
      }
    }
  }

  lemma EmptyFirst(path: Bytes, part: Bytes, pos: nat)
    requires pos <= |path|
    ensures part == [] ==> Index(path[pos..], part) == 0
  {
    if part == [] {
      assert part <= path[pos..];
    }
  }

  // ---- Parts and patterns ----

  /** From its start, the pattern made of the parts reaches `end`. */
  ghost predicate StartsTo(parts: seq<Bytes>, path: Bytes, end: nat)
    requires parts != []
  {
    parts[0] <= path && Reaches(parts, 1, path, |parts[0]|, end)
  }

  function Join(parts: seq<Bytes>, i: nat): Bytes
    requires i <= |parts|
    decreases |parts| - i
  {
    if i == |parts| then [] else [STAR] + (parts[i] + Join(parts, i + 1))
  }

  ghost predicate StarFree(parts: seq<Bytes>) {
    forall i | 0 <= i < |parts| :: STAR !in parts[i]
  }

  /** A part without a star spells itself. */
  lemma {:induction false} SpellsPart(part: Bytes, rest: Bytes, path: Bytes)
    requires STAR !in part
    ensures Spells(part + rest, path) <==> part <= path && Spells(rest, path[|part|..])
    decreases |part|
  {
    if part == [] {
      assert part + rest == rest && path[0..] == path;
    } else {
      assert (part + rest)[1..] == part[1..] + rest;
      if path != [] && path[0] == part[0] {
        SpellsPart(part[1..], rest, path[1..]);
        assert |part| <= |path| ==> path[1..][|part| - 1..] == path[|part|..];
        assert part <= path <==> part[1..] <= path[1..] by {
          assert part == [part[0]] + part[1..] && path == [path[0]] + path[1..];
        }
      } else {
        assert !(part <= path);
      }
    }
  }

  /** The part lies at k, and the rest is spelled by what follows it. */
  ghost predicate SpelledAt(part: Bytes, rest: Bytes, path: Bytes, k: int) {
    0 <= k <= |path| && part <= path[k..] && Spells(rest, path[k..][|part|..])
  }

  lemma SpellsStarPart(part: Bytes, rest: Bytes, path: Bytes)
    requires STAR !in part
    ensures Spells([STAR] + (part + rest), path) <==> exists k :: SpelledAt(part, rest, path, k)
  {
    assert ([STAR] + (part + rest))[1..] == part + rest;
    forall k | 0 <= k <= |path|
      ensures Spells(part + rest, path[k..]) <==> SpelledAt(part, rest, path, k)
    {
      SpellsPart(part, rest, path[k..]);
    }
  }

  /** Where a part lies in a stretch of the path. */
  lemma PartIn(path: Bytes, part: Bytes, pos: nat, end: nat, k: nat)
    requires pos <= end <= |path| && k <= end - pos
    ensures part <= path[pos..end][k..] <==> pos + k + |part| <= end && MatchAt(path, part, pos + k)
    ensures part <= path[pos..end][k..] ==> path[pos..end][k..][|part|..] == path[pos + k + |part|..end]
  {
    var here := path[pos..end][k..];
    assert here == path[pos + k..end];
    if pos + k + |part| <= end {
      assert here[..|part|] == path[pos + k..pos + k + |part|];
    }
  }

  /** What the joined parts spell from `pos` is what the parts reach. */
  lemma {:induction false} SpellsIsReaches(parts: seq<Bytes>, i: nat, path: Bytes, pos: nat, end: nat)
    requires i <= |parts| && pos <= end <= |path| && StarFree(parts)
    ensures Spells(Join(parts, i), path[pos..end]) <==> Reaches(parts, i, path, pos, end)
    decreases |parts| - i
  {
    hide Spells;
    if i < |parts| {
      var part, rest, here := parts[i], Join(parts, i + 1), path[pos..end];
      SpellsStarPart(part, rest, here);
      if Spells(Join(parts, i), here) {
        var k :| SpelledAt(part, rest, here, k);
        PartIn(path, part, pos, end, k);
        SpellsIsReaches(parts, i + 1, path, pos + k + |part|, end);
      }
      if Reaches(parts, i, path, pos, end) {
        var k :| pos <= k && MatchAt(path, part, k) && Reaches(parts, i + 1, path, k + |part|, end);
        ReachesForward(parts, i + 1, path, k + |part|, end);
        PartIn(path, part, pos, end, k - pos);
        SpellsIsReaches(parts, i + 1, path, k + |part|, end);
        assert SpelledAt(part, rest, here, k - pos);
      }
    } else {
      SpellsNothing(path[pos..end]);
    }
  }

  lemma SpellsNothing(path: Bytes)
    ensures Spells([], path) <==> path == []
  {
  }

  lemma {:induction false} ReachesForward(parts: seq<Bytes>, i: nat, path: Bytes, pos: nat, end: nat)
    requires i <= |parts| && pos <= |path| && Reaches(parts, i, path, pos, end)
    ensures pos <= end <= |path|
    decreases |parts| - i
  {
    if i < |parts| {
      var k :| pos <= k && MatchAt(path, parts[i], k) && Reaches(parts, i + 1, path, k + |parts[i]|, end);
      ReachesForward(parts, i + 1, path, k + |parts[i]|, end);
    }
  }

  lemma {:induction false} SplitJoins(s: Bytes)
    ensures StarFree(Split(s, STAR)) && s == Split(s, STAR)[0] + Join(Split(s, STAR), 1)
    decreases |s|
  {
    hide Join;
    FindIs(s, STAR);
    var n := Find(s, STAR);
    if n < |s| {
      var rest := Split(s[n + 1..], STAR);
      SplitJoins(s[n + 1..]);
      JoinShift(s[..n], rest, 0);
      JoinNext(rest, 0);
      CutAt(s, n);
      assert ([s[..n]] + rest)[0] == s[..n];
    } else {
      assert s[..n] == s;
      JoinNothing([s]);
      assert s + [] == s;
    }
  }

  lemma CutAt(s: Bytes, n: nat)
    requires n < |s| && s[n] == STAR
    ensures s == s[..n] + ([STAR] + s[n + 1..])
  {
  }

  lemma JoinNext(parts: seq<Bytes>, i: nat)
    requires i < |parts|
    ensures Join(parts, i) == [STAR] + (parts[i] + Join(parts, i + 1))
  {
  }

  lemma JoinNothing(parts: seq<Bytes>)
    ensures Join(parts, |parts|) == []
  {
  }

  lemma {:induction false} JoinShift(first: Bytes, rest: seq<Bytes>, i: nat)
    requires i <= |rest|
    ensures Join([first] + rest, i + 1) == Join(rest, i)
    decreases |rest| - i
  {
    if i < |rest| {
      assert ([first] + rest)[i + 1] == rest[i];
      JoinShift(first, rest, i + 1);
    }
  }

  /** The loop over the parts of a pattern arrives at the least end the pattern spells, and fails
      when it spells none. */
  lemma WildcardIsLeast(pattern: Bytes, path: Bytes)
    ensures match Greedy(Split(pattern, STAR), 0, path, 0)
            case Some(e) => SpellsTo(pattern, path, e) && forall x: nat | SpellsTo(pattern, path, x) :: e <= x
            case None => forall x: nat :: !SpellsTo(pattern, path, x)
  {
    hide Index, Greedy, Spells;
    var parts := Split(pattern, STAR);
    GreedyFromStart(parts, path);
    forall x: nat
      ensures SpellsTo(pattern, path, x) <==> StartsTo(parts, path, x)
    {
      SpellsToIsStartsTo(pattern, path, x);
    }
  }

  lemma SpellsToIsStartsTo(pattern: Bytes, path: Bytes, end: nat)
    ensures SpellsTo(pattern, path, end) <==> StartsTo(Split(pattern, STAR), path, end)
  {
    hide Spells, Join, Reaches, Split;
    var parts := Split(pattern, STAR);
    SplitJoins(pattern);
    if end <= |path| {
      SpellsPart(parts[0], Join(parts, 1), path[..end]);
      PrefixOfPrefix(parts[0], path, end);
      if parts[0] <= path[..end] {
        SpellsIsReaches(parts, 1, path, |parts[0]|, end);
      }
    }
    if parts[0] <= path && Reaches(parts, 1, path, |parts[0]|, end) {
      ReachesForward(parts, 1, path, |parts[0]|, end);
    }
  }

  lemma PrefixOfPrefix(p: Bytes, path: Bytes, end: nat)
    requires end <= |path|
    ensures p <= path[..end] <==> |p| <= end && p <= path
    ensures p <= path[..end] ==> path[..end][|p|..] == path[|p|..end]
  {
    if |p| <= end {
      assert path[..end][..|p|] == path[..|p|];
    }
  }

  lemma GreedyFromStart(parts: seq<Bytes>, path: Bytes)
    requires parts != []
    ensures match Greedy(parts, 0, path, 0)
            case Some(e) => StartsTo(parts, path, e) && forall x: nat | StartsTo(parts, path, x) :: e <= x
            case None => forall x: nat :: !StartsTo(parts, path, x)
  {
    hide Reaches, Index;
    var p := parts[0];
    assert path[0..] == path;
    IndexAtStart(path, p);
    if p <= path {
      GreedyIsLeast(parts, 1, path, |p|);
      assert Greedy(parts, 0, path, 0) == Greedy(parts, 1, path, |p|);
    }
  }

  lemma IndexAtStart(path: Bytes, p: Bytes)
    ensures Index(path, p) == 0 <==> p <= path
    ensures p == [] ==> p <= path
  {
    IndexMatches(path, p);
    assert MatchAt(path, p, 0) ==> p == path[..|p|];
  }

  // ---- The whole match ----

  /** matchRobotsPattern. */
  function Accepts(pattern: Bytes, path: Bytes): bool {
    if pattern == [] then false
    else
      var anchored := pattern[|pattern| - 1] == DOLLAR;
      var body := if anchored then pattern[..|pattern| - 1] else pattern;
      if STAR in body then
        var end := Greedy(Split(body, STAR), 0, path, 0);
        end.Some? && (anchored ==> end.value == |path|)
      else if anchored then path == body
      else body <= path
  }

  /** Without a final `$`, a path is accepted exactly when the pattern spells some beginning of it; the
      empty pattern accepts nothing. */
  lemma AcceptsUnanchored(pattern: Bytes, path: Bytes)
    requires pattern != [] ==> pattern[|pattern| - 1] != DOLLAR
    ensures Accepts(pattern, path) <==> pattern != [] && exists end :: SpellsTo(pattern, path, end)
  {
    hide Greedy, Split, Spells;
    WildcardIsLeast(pattern, path);
    if STAR !in pattern {
      forall end
        ensures SpellsTo(pattern, path, end) <==> end == |pattern| && pattern <= path
      {
        Literal(pattern, path, end);
      }
      assert SpellsTo(pattern, path, |pattern|) <==> pattern <= path;
    }
  }

  /** With a final `$`, it is accepted exactly when the pattern spells the whole path and nothing
      shorter: a path whose beginning also matches is turned away. */
  lemma AcceptsAnchored(pattern: Bytes, path: Bytes)
    requires pattern != [] && pattern[|pattern| - 1] == DOLLAR
    ensures var body := pattern[..|pattern| - 1];
            Accepts(pattern, path) <==> Spells(body, path) && forall end | 0 <= end < |path| :: !SpellsTo(body, path, end)
  {
    hide Greedy, Split, Spells;
    var body := pattern[..|pattern| - 1];
    WildcardIsLeast(body, path);
    assert path[..|path|] == path;
    assert SpellsTo(body, path, |path|) <==> Spells(body, path);
    if STAR !in body {
      forall end
        ensures SpellsTo(body, path, end) <==> end == |body| && body <= path
      {
        Literal(body, path, end);
      }
    }
  }

  lemma Literal(body: Bytes, path: Bytes, end: nat)
    requires STAR !in body
    ensures SpellsTo(body, path, end) <==> end == |body| && body <= path
  {
    if end <= |path| {
      SpellsPart(body, [], path[..end]);
      assert body + [] == body;
      PrefixOfPrefix(body, path, end);
      SpellsNothing(path[..end][if |body| <= end then |body| else end..]);
    }
  }

  /** So `/a*b$` refuses `/abb`, which section 2.2.3 of RFC 9309 has it match. */
  lemma AnchoredMiss()
    ensures var a, b, s: byte := 0x61, 0x62, 0x2F;
            Spells([s, a, STAR, b], [s, a, b, b]) && !Accepts([s, a, STAR, b, DOLLAR], [s, a, b, b])
  {
    var a, b, s: byte := 0x61, 0x62, 0x2F;
    var body, path := [s, a, STAR, b], [s, a, b, b];
    assert Spells([b], [b, b][1..]);
    assert Spells([STAR, b], [b, b]);
    assert Spells(body[2..], path[2..]);
    assert Spells(body[1..], path[1..]);
    assert Spells([b], [b][0..]);
    assert Spells([STAR, b], [b]);
    assert path[..3] == [s, a, b];
    assert Spells(body[1..], path[..3][1..]);
    assert SpellsTo(body, path, 3);
    assert (body + [DOLLAR])[..4] == body;
    assert body + [DOLLAR] == [s, a, STAR, b, DOLLAR];
    AcceptsAnchored(body + [DOLLAR], path);
  }

  /** The loop itself. */
  method MatchWildcard(pattern: Bytes, path: Bytes, mustEnd: bool) returns (ok: bool)
    ensures var end := Greedy(Split(pattern, STAR), 0, path, 0); ok == (end.Some? && (mustEnd ==> end.value == |path|))
  {
    var parts := Split(pattern, STAR);
    var pos: nat := 0;
    for i := 0 to |parts|
      invariant pos <= |path|
      invariant Greedy(parts, 0, path, 0) == Greedy(parts, i, path, pos)
    {
      var part := parts[i];
      if part == [] {
        continue;
      }
      var idx := Index(path[pos..], part);
      if idx < 0 {
        return false;
      }
      if i == 0 && idx != 0 {
        return false;
      }
      pos := pos + idx + |part|;
    }
    return if mustEnd then pos == |path| else true;
  }
}
