/** Locating a claim in a page and checking the span found: every citation the index issues can
    be re-checked from the cited bytes alone (internal/provenance/assertion.go). */
module Citation {
  import opened Utf8
  import opened Search
  import opened Tokens
  import opened Projection
  import opened Normalising
  import opened Elements

  // ---- Locating ----

  /** Does `[i, i+n)` begin and end on a character boundary? */
  predicate RuneAligned(b: seq<byte>, i: nat, n: nat)
    requires i < |b|
  {
    RuneStart(b[i]) && (i + n >= |b| || RuneStart(b[i + n]))
  }

  predicate AlignedAt(h: seq<byte>, n: seq<byte>, k: int)
    requires n != []
  {
    MatchAt(h, n, k) && RuneAligned(h, k, |n|)
  }

  /** The least aligned match at or after `from`, or -1. */
  function FirstAligned(h: seq<byte>, n: seq<byte>, from: nat): (r: int)
    requires n != []
    decreases |h| - from
  {
    if from > |h| - |n| then -1
    else if AlignedAt(h, n, from) then from
    else FirstAligned(h, n, from + 1)
  }

  lemma {:induction false} FirstAlignedIs(h: seq<byte>, n: seq<byte>, from: nat)
    requires n != []
    ensures var r := FirstAligned(h, n, from);
            && (r != -1 ==> from <= r && AlignedAt(h, n, r))
            && (forall k | from <= k < (if r == -1 then |h| else r) :: !AlignedAt(h, n, k))
    decreases |h| - from
  {
    if from <= |h| - |n| && !AlignedAt(h, n, from) {
      FirstAlignedIs(h, n, from + 1);
    }
  }

  /** What a search answers: nothing, the claim's own bytes, or a stretch of a projection that
      begins at rendered byte `at`. */
  datatype Hit =
    | Miss
    | Verbatim(start: nat, end: nat)
    | Rendered(start: nat, end: nat, mode: TagMode, at: nat)

  function SearchProjection(body: seq<byte>, needle: seq<byte>, mode: TagMode, lib: Library): (h: Hit)
    requires needle != []
    ensures !h.Verbatim?
  {
    var cs := Project(body, mode, lib);
    var i := FirstAligned(Bytes(cs), needle, 0);
    if i < 0 then Miss
    else
      FirstAlignedIs(Bytes(cs), needle, 0);
      Rendered(cs[i].start, cs[i + |needle| - 1].end, mode, i)
  }

  function Locate(body: seq<byte>, claimed: seq<byte>, lib: Library): (h: Hit) {
    if body == [] || claimed == [] then Miss
    else
      var i := FirstAligned(body, claimed, 0);
      if i >= 0 then Verbatim(i, i + |claimed|)
      else
        var needle := NormaliseSpace(claimed);
        if needle == [] then Miss
        else
          var markup := SearchProjection(body, needle, KeepTags, lib);
          if markup != Miss then markup
          else SearchProjection(body, needle, StripTags, lib)
  }

  /** The public check: do these bytes render to the claim? */
  predicate SpanSupports(source: seq<byte>, claimed: seq<byte>, lib: Library) {
    var want := NormaliseSpace(claimed);
    && want != []
    && (Bytes(Project(source, KeepTags, lib)) == want || Bytes(Project(source, StripTags, lib)) == want)
  }

  /** Does locating the claim run into an element at which the code panics? It does not project
      the page without its markup when a search before that hits. */
  predicate LocatePanics(body: seq<byte>, claimed: seq<byte>, lib: Library) {
    && body != [] && claimed != [] && FirstAligned(body, claimed, 0) < 0
    && NormaliseSpace(claimed) != [] && SearchProjection(body, NormaliseSpace(claimed), KeepTags, lib) == Miss
    && Panics(body, lib)
  }

  predicate CheckPanics(source: seq<byte>, claimed: seq<byte>, lib: Library) {
    && NormaliseSpace(claimed) != [] && Bytes(Project(source, KeepTags, lib)) != NormaliseSpace(claimed)
    && Panics(source, lib)
  }

  // ---- A match in a projection against the projection of its source range ----

  /** No byte but a blank shares a token with the first or last byte of the match without being
      in it. Only a reference standing for several characters can break this. */
  ghost predicate Whole(cs: seq<Cell>, i: nat, n: nat)
    requires 0 < n && i + n <= |cs|
  {
    && (forall k | 0 <= k < i :: cs[k].start == cs[i].start ==> cs[k].c == SPACE)
    && (forall k | i + n <= k < |cs| :: cs[k].end == cs[i + n - 1].end ==> cs[k].c == SPACE)
  }

  function DropBlankByte(b: seq<byte>): seq<byte> {
    if b != [] && b[0] == SPACE then b[1..] else b
  }

  ghost predicate NoDoubleBlank(b: seq<byte>) {
    forall k | 0 < k < |b| :: !(b[k - 1] == SPACE && b[k] == SPACE)
  }

  /** Nothing but blanks around the stretch `[a, a+n)`. */
  ghost predicate BlankAround(m: seq<byte>, a: nat, n: nat) {
    forall k | 0 <= k < |m| && !(a <= k < a + n) :: m[k] == SPACE
  }

  /** `needle` stands in `m` from `a` on. */
  ghost predicate Reads(m: seq<byte>, a: nat, needle: seq<byte>) {
    a + |needle| <= |m| && forall k | 0 <= k < |needle| :: m[a + k] == needle[k]
  }

  ghost predicate SolidEnds(needle: seq<byte>) {
    needle != [] && needle[0] != SPACE && needle[|needle| - 1] != SPACE
  }

  /** Trimming leaves a stretch exactly when everything around it is blank. */
  lemma TrimLeaves(m: seq<byte>, a: nat, needle: seq<byte>)
    requires Reads(m, a, needle) && SolidEnds(needle) && NoDoubleBlank(m)
    ensures TrimRightBytes(DropBlankByte(m)) == needle <==> BlankAround(m, a, |needle|)
  {
    hide TrimRightBytes;
    var d := DropBlankByte(m);
    var p := if m[0] == SPACE then 1 else 0;
    assert m[a] == needle[0];
    assert d == m[p..] && p <= a;
    TrimKeeps(d, a - p + |needle| - 1);
    if BlankAround(m, a, |needle|) {
      FewBlanks(m, a);
      assert forall k | 0 <= k < |needle| :: d[k] == m[a + k];
      TrimStops(d, |needle|);
    }
    if TrimRightBytes(d) == needle {
      assert p == a;
      assert forall k | a + |needle| <= k < |m| :: m[k] == d[k - p];
    }
  }

  /** Trimming stops at the last byte that is not blank. */
  lemma TrimKeeps(d: seq<byte>, k: nat)
    requires k < |d| && d[k] != SPACE
    ensures k < |TrimRightBytes(d)|
  {
  }

  lemma TrimStops(d: seq<byte>, n: nat)
    requires 0 < n <= |d| && d[n - 1] != SPACE && forall k | n <= k < |d| :: d[k] == SPACE
    ensures TrimRightBytes(d) == d[..n]
  {
    var t := TrimRightBytes(d);
    TrimKeeps(d, n - 1);
    assert t[|t| - 1] == d[|t| - 1];
  }

  lemma FewBlanks(m: seq<byte>, a: nat)
    requires a <= |m| && NoDoubleBlank(m) && forall k | 0 <= k < a :: m[k] == SPACE
    ensures a <= 1
  {
    assert |m| > 1 ==> !(m[0] == SPACE && m[1] == SPACE);
  }

  /** What a page cut at token boundaries projects to: the cells of those tokens, less the
      blanks at their ends. */
  lemma ProjectionOfCut(body: seq<byte>, mode: TagMode, lib: Library, a: nat, z: nat, inSpace: bool)
    requires a <= z < |Tokenise(body, 0, mode, lib)|
    requires var ts := Tokenise(body, 0, mode, lib); SpanKept(body, mode, lib, ts[a].from, ts[z].to)
    ensures var ts := Tokenise(body, 0, mode, lib);
            && 0 <= ts[a].from < ts[z].to <= |body|
            && Bytes(Project(body[ts[a].from..ts[z].to], mode, lib))
               == TrimRightBytes(DropBlankByte(Bytes(Render(ts[a..z + 1], inSpace).cells)))
  {
    hide SpanKept, AllKept, Tokenise, Render, TrimRightBytes;
    var ts := Tokenise(body, 0, mode, lib);
    TokensOrdered(body, 0, mode, lib);
    SpanOfTokens(body, mode, lib, a, z);
    TokensOfCut(body, mode, lib, a, z);
    var s, e := ts[a].from, ts[z].to;
    var cut, m := body[s..e], ts[a..z + 1];
    SliceOrdered(ts, |body|, a, z);
    TokensShift(cut, 0, s, mode, lib);
    RenderShift(Tokenise(cut, 0, mode, lib), m, true);
    RenderFresh(m, s, e, inSpace);
    BytesOfTrim(Render(Tokenise(cut, 0, mode, lib), true).cells);
    BytesOfDrop(Render(m, inSpace).cells);
  }

  lemma BytesOfDrop(cs: seq<Cell>)
    ensures Bytes(DropBlank(cs)) == DropBlankByte(Bytes(cs))
  {
  }

  lemma SliceOrdered(ts: seq<Placed>, end: nat, a: nat, z: nat)
    requires Ordered(ts, 0, end) && a <= z < |ts|
    ensures Ordered(ts[a..z + 1], ts[a].from, ts[z].to)
  {
    var m := ts[a..z + 1];
    assert forall k | 0 <= k < |m| :: m[k] == ts[a + k];
    assert forall k | a < k <= z :: ts[a].to <= ts[k].from;
    assert forall k | a <= k < z :: ts[k].to <= ts[z].from;
  }

  /** The cells before, of and after the tokens `a` to `z`. */
  lemma CellsOfTokens(ts: seq<Placed>, end: nat, a: nat, z: nat) returns (p: nat, q: nat, sp: bool)
    requires Ordered(ts, 0, end) && a <= z < |ts|
    ensures var full := Render(ts, true).cells;
            && p == |Render(ts[..a], true).cells| && q == |Render(ts[..z + 1], true).cells|
            && p <= q <= |full| && Render(ts[a..z + 1], sp).cells == full[p..q]
            && (forall k | 0 <= k < p :: full[k].start < ts[a].from)
            && (forall k | p <= k < q :: ts[a].from <= full[k].start && full[k].end <= ts[z].to)
            && (forall k | q <= k < |full| :: full[k].end > ts[z].to)
  {
    hide EmitText, Render, Within, SingleBlanks, EndsInSpace;
    var x, m, y := ts[..a], ts[a..z + 1], ts[z + 1..];
    var s, e := ts[a].from, ts[z].to;
    PrefixOrdered(ts, end, a);
    SliceOrdered(ts, end, a, z);
    SuffixOrdered(ts, end, z);
    SplitInThree(ts, a, z);
    RenderThree(x, m, y);
    sp := Render(x, true).inSpace;
    var after := Render(m, sp).inSpace;
    p, q := |Render(x, true).cells|, |Render(x, true).cells| + |Render(m, sp).cells|;
    RenderShape(x, 0, s, true);
    RenderShape(m, s, e, sp);
    RenderShape(y, e, end, after);
    ThreeParts(Render(x, true).cells, Render(m, sp).cells, Render(y, after).cells, s, e, end);
  }

  lemma SplitInThree<T>(ts: seq<T>, a: nat, z: nat)
    requires a <= z < |ts|
    ensures ts[..z + 1] == ts[..a] + ts[a..z + 1]
    ensures ts == (ts[..a] + ts[a..z + 1]) + ts[z + 1..]
  {
  }

  lemma RenderThree(x: seq<Placed>, m: seq<Placed>, y: seq<Placed>)
    ensures var rx := Render(x, true);
            var rm := Render(m, rx.inSpace);
            && Render(x + m, true).cells == rx.cells + rm.cells
            && Render((x + m) + y, true).cells == (rx.cells + rm.cells) + Render(y, rm.inSpace).cells
  {
    hide Render;
    RenderOfSum(x, m, true);
    RenderOfSum(x + m, y, true);
  }

  lemma ThreeParts(x: seq<Cell>, m: seq<Cell>, y: seq<Cell>, s: nat, e: nat, end: nat)
    requires Within(x, 0, s) && Within(m, s, e) && Within(y, e, end)
    ensures var full, p, q := (x + m) + y, |x|, |x| + |m|;
            && full[p..q] == m
            && (forall k | 0 <= k < p :: full[k].start < s)
            && (forall k | p <= k < q :: s <= full[k].start && full[k].end <= e)
            && (forall k | q <= k < |full| :: full[k].end > e)
  {
    var full, p, q := (x + m) + y, |x|, |x| + |m|;
    assert forall k | 0 <= k < p :: full[k] == x[k];
    assert forall k | p <= k < q :: full[k] == m[k - p];
    assert forall k | q <= k < |full| :: full[k] == y[k - q];
  }

  lemma PrefixOrdered(ts: seq<Placed>, end: nat, a: nat)
    requires Ordered(ts, 0, end) && a < |ts|
    ensures Ordered(ts[..a], 0, ts[a].from)
  {
    assert forall k | 0 <= k < a :: ts[k].to <= ts[a].from;
  }

  lemma SuffixOrdered(ts: seq<Placed>, end: nat, z: nat)
    requires Ordered(ts, 0, end) && z < |ts|
    ensures Ordered(ts[z + 1..], ts[z].to, end)
  {
    var y := ts[z + 1..];
    assert forall k | 0 <= k < |y| :: y[k] == ts[z + 1 + k];
    assert forall k | z < k < |ts| :: ts[z].to <= ts[k].from;
  }

  /** The cells from `p` to `q` are those that share a token with an end of the match. */
  ghost predicate Around(full: seq<Cell>, i: nat, n: nat, p: nat, q: nat) {
    && 0 < n && p <= i && i + n <= q <= |full|
    && (forall k | 0 <= k < i :: full[k].start == full[i].start <==> p <= k)
    && (forall k | i + n <= k < |full| :: full[k].end == full[i + n - 1].end <==> k < q)
  }

  lemma SharedTokens(full: seq<Cell>, lo: nat, hi: nat, i: nat, n: nat, p: nat, q: nat)
    requires Within(full, lo, hi) && 0 < n && p <= i && i + n <= q <= |full|
    requires forall k | 0 <= k < p :: full[k].start < full[i].start
    requires forall k | p <= k < q :: full[i].start <= full[k].start && full[k].end <= full[i + n - 1].end
    requires forall k | q <= k < |full| :: full[k].end > full[i + n - 1].end
    ensures Around(full, i, n, p, q)
  {
    assert forall k | 0 <= k < i :: full[k].start <= full[i].start;
    assert forall k | i + n <= k < |full| :: full[i + n - 1].end <= full[k].end;
  }

  /** `Whole` speaks of the cells that share a source range with an end of the match. */
  lemma WholeIsBlank(full: seq<Cell>, i: nat, n: nat, p: nat, q: nat)
    requires Around(full, i, n, p, q) && i + n <= |TrimRight(full)|
    ensures Whole(TrimRight(full), i, n) <==> BlankAround(Bytes(full[p..q]), i - p, n)
  {
    var cs, m := TrimRight(full), Bytes(full[p..q]);
    assert forall k | 0 <= k < |m| :: m[k] == full[p + k].c;
    if BlankAround(m, i - p, n) {
      forall k | 0 <= k < i && cs[k].start == cs[i].start
        ensures cs[k].c == SPACE
      {
        assert m[k - p] == full[k].c;
      }
      forall k | i + n <= k < |cs| && cs[k].end == cs[i + n - 1].end
        ensures cs[k].c == SPACE
      {
        assert m[k - p] == full[k].c;
      }
    }
    if Whole(cs, i, n) {
      forall k | 0 <= k < |m| && !(i - p <= k < i - p + n)
        ensures m[k] == SPACE
      {
        if k < i - p || p + k < |cs| {
          assert cs[p + k] == full[p + k];
        }
      }
    }
  }

  /** Trimming the cells of the tokens under a match gives the match back exactly when it is whole. */
  lemma TrimmedCells(full: seq<Cell>, i: nat, needle: seq<byte>, p: nat, q: nat)
    requires Around(full, i, |needle|, p, q) && i + |needle| <= |TrimRight(full)|
    requires Reads(Bytes(full), i, needle) && SolidEnds(needle) && SingleBlanks(full, true)
    ensures TrimRightBytes(DropBlankByte(Bytes(full[p..q]))) == needle <==> Whole(TrimRight(full), i, |needle|)
  {
    hide TrimRight, TrimRightBytes, DropBlankByte, Whole, BlankAround, NoDoubleBlank, SingleBlanks;
    WholeIsBlank(full, i, |needle|, p, q);
    NoDoubleInSlice(full, p, q);
    assert forall k | 0 <= k < |needle| :: full[i + k].c == needle[k];
    TrimLeaves(Bytes(full[p..q]), i - p, needle);
  }

  lemma NoDoubleInSlice(full: seq<Cell>, p: nat, q: nat)
    requires SingleBlanks(full, true) && p <= q <= |full|
    ensures NoDoubleBlank(Bytes(full[p..q]))
  {
    var m := Bytes(full[p..q]);
    forall k | 0 < k < |m|
      ensures !(m[k - 1] == SPACE && m[k] == SPACE)
    {
      assert m[k - 1] == full[p + k - 1].c && m[k] == full[p + k].c;
    }
  }

  /** The tokens a match touches, and the cells around it. */
  lemma MatchTokens(ts: seq<Placed>, end: nat, i: nat, n: nat)
    returns (a: nat, z: nat, p: nat, q: nat, sp: bool)
    requires Ordered(ts, 0, end) && 0 < n && i + n <= |Render(ts, true).cells|
    ensures var full := Render(ts, true).cells;
            && a <= z < |ts| && full[i].start == ts[a].from && full[i + n - 1].end == ts[z].to
            && Around(full, i, n, p, q) && Render(ts[a..z + 1], sp).cells == full[p..q]
  {
    hide Render, EmitText, Around;
    RenderShape(ts, 0, end, true);
    a := Owner(ts, true, i);
    z := Owner(ts, true, i + n - 1);
    assert ts[a].from <= ts[z].from;
    assert a <= z;
    p, q, sp := CellsOfTokens(ts, end, a, z);
    SharedTokens(Render(ts, true).cells, 0, end, i, n, p, q);
  }

  /** The cut a match names, projected: the cells of the tokens it touches, trimmed. */
  lemma CutOfMatch(body: seq<byte>, mode: TagMode, lib: Library, i: nat, n: nat) returns (p: nat, q: nat)
    requires 0 < n && i + n <= |Rendering(body, mode, lib)|
    requires var full := Rendering(body, mode, lib); SpanKept(body, mode, lib, full[i].start, full[i + n - 1].end)
    ensures var full := Rendering(body, mode, lib);
            var s, e := full[i].start, full[i + n - 1].end;
            && s < e <= |body| && Around(full, i, n, p, q)
            && Bytes(Project(body[s..e], mode, lib)) == TrimRightBytes(DropBlankByte(Bytes(full[p..q])))
  {
    hide SpanKept, Tokenise, Render, TrimRightBytes, DropBlankByte, Around, Project, Ordered;
    var ts := Tokenise(body, 0, mode, lib);
    TokensOrdered(body, 0, mode, lib);
    var a, z, sp;
    a, z, p, q, sp := MatchTokens(ts, |body|, i, n);
    ProjectionOfCut(body, mode, lib, a, z, sp);
  }

  /** All the cells of a page, before the trailing blank is trimmed. */
  function Rendering(body: seq<byte>, mode: TagMode, lib: Library): seq<Cell> {
    Render(Tokenise(body, 0, mode, lib), true).cells
  }

  lemma RenderingShape(body: seq<byte>, mode: TagMode, lib: Library)
    ensures var full := Rendering(body, mode, lib);
            && SingleBlanks(full, true) && Within(full, 0, |body|)
            && Project(body, mode, lib) == TrimRight(full)
  {
    hide Tokenise, Render, SingleBlanks, Within, TrimRight;
    TokensOrdered(body, 0, mode, lib);
    RenderShape(Tokenise(body, 0, mode, lib), 0, |body|, true);
  }

  /** The heart of it: cut the page by the source map of a match that keeps its tokens, project the
      cut in the same mode, and the match comes back exactly when it was whole. */
  lemma CutRenders(body: seq<byte>, mode: TagMode, lib: Library, i: nat, needle: seq<byte>)
    requires Reads(Bytes(Project(body, mode, lib)), i, needle) && SolidEnds(needle)
    requires var cs := Project(body, mode, lib); SpanKept(body, mode, lib, cs[i].start, cs[i + |needle| - 1].end)
    ensures var cs := Project(body, mode, lib);
            var s, e := cs[i].start, cs[i + |needle| - 1].end;
            && s < e <= |body|
            && (Bytes(Project(body[s..e], mode, lib)) == needle <==> Whole(cs, i, |needle|))
  {
    hide SpanKept, Rendering, Project, Whole, TrimRightBytes, DropBlankByte, SingleBlanks, Within, Around, TrimRight;
    var full := Rendering(body, mode, lib);
    RenderingShape(body, mode, lib);
    ReadsInPrefix(TrimRight(full), full, i, needle);
    var p, q := CutOfMatch(body, mode, lib, i, |needle|);
    TrimmedCells(full, i, needle, p, q);
  }

  lemma ReadsInPrefix(t: seq<Cell>, full: seq<Cell>, i: nat, needle: seq<byte>)
    requires t <= full && Reads(Bytes(t), i, needle)
    ensures Reads(Bytes(full), i, needle)
  {
    assert forall k | 0 <= k < |t| :: Bytes(t)[k] == Bytes(full)[k];
  }

  // ---- Aligned matches ----

  /** Every reference in the page stands for at most one character. */
  ghost predicate SingleCharReferences(body: seq<byte>, lib: Library) {
    forall p | ReferenceAt(body, lib, p) :: |Runes(lib.unescape(ReferenceText(body, lib, p)))| <= 1
  }

  ghost predicate SingleChars(ts: seq<Placed>) {
    forall k | 0 <= k < |ts| :: ts[k].text.Chars? ==> |ts[k].text.rs| <= 1
  }

  lemma {:induction false} TokensSingle(b: seq<byte>, off: nat, mode: TagMode, lib: Library)
    requires SingleCharReferences(b, lib)
    ensures SingleChars(Tokenise(b, off, mode, lib))
    decreases |b|
  {
    hide Step, SingleCharReferences;
    if b != [] {
      var size := Step(b, mode, lib).size;
      FirstSingle(b, mode, lib);
      SingleInTail(b, lib, size);
      TokensSingle(b[size..], off + size, mode, lib);
    }
  }

  lemma FirstSingle(b: seq<byte>, mode: TagMode, lib: Library)
    requires b != [] && SingleCharReferences(b, lib)
    ensures var t := Step(b, mode, lib).text; t.Chars? ==> |t.rs| <= 1
  {
    hide DecodeEntity, Markup, SpaceRun;
    assert b[0..] == b;
    assert ReferenceAt(b, lib, 0) ==> ReferenceText(b, lib, 0) == b[..DecodeEntity(b, lib).value];
  }

  lemma SingleInTail(b: seq<byte>, lib: Library, k: nat)
    requires k <= |b| && SingleCharReferences(b, lib)
    ensures SingleCharReferences(b[k..], lib)
  {
    forall p | ReferenceAt(b[k..], lib, p)
      ensures |Runes(lib.unescape(ReferenceText(b[k..], lib, p)))| <= 1
    {
      ReferenceInTail(b, lib, k, p);
      assert b[k..][p..] == b[k + p..];
      assert ReferenceText(b[k..], lib, p) == ReferenceText(b, lib, k + p);
    }
  }

  /** Cells of one token are the bytes of one character: only the first starts it. */
  ghost predicate OneCharPerRange(cs: seq<Cell>) {
    forall k | 0 < k < |cs| ::
      (cs[k - 1].start == cs[k].start || cs[k - 1].end == cs[k].end) ==> !RuneStart(cs[k].c)
  }

  lemma EmitSingle(t: Placed, inSpace: bool)
    requires t.text.Chars? ==> |t.text.rs| <= 1
    ensures OneCharPerRange(EmitText(t.text, t.from, t.to, inSpace).cells)
  {
    if t.text.Chars? && t.text.rs != [] {
      EncodingShape(t.text.rs[0]);
      assert t.text.rs == [t.text.rs[0]];
      CharEmits(t.text.rs[0], t.from, t.to, inSpace);
    }
  }

  lemma {:induction false} RenderSingle(ts: seq<Placed>, off: nat, end: nat, inSpace: bool)
    requires Ordered(ts, off, end) && off <= end && SingleChars(ts)
    ensures OneCharPerRange(Render(ts, inSpace).cells)
  {
    hide EmitText;
    if ts != [] {
      var t := ts[0];
      var e := EmitText(t.text, t.from, t.to, inSpace);
      EmitSingle(t, inSpace);
      EmitTextShape(t.text, t.from, t.to, inSpace);
      RenderSingle(ts[1..], t.to, end, e.inSpace);
      RenderShape(ts[1..], t.to, end, e.inSpace);
      SingleOfSum(e.cells, Render(ts[1..], e.inSpace).cells, t.from, t.to, end);
    }
  }

  lemma SingleOfSum(x: seq<Cell>, y: seq<Cell>, from: nat, to: nat, end: nat)
    requires OneCharPerRange(x) && OneCharPerRange(y)
    requires forall k | 0 <= k < |x| :: x[k].start == from && x[k].end == to
    requires Within(y, to, end) && from < to
    ensures OneCharPerRange(x + y)
  {
    var z := x + y;
    forall k | 0 < k < |z| && (z[k - 1].start == z[k].start || z[k - 1].end == z[k].end)
      ensures !RuneStart(z[k].c)
    {
      if k < |x| {
        assert z[k - 1] == x[k - 1] && z[k] == x[k];
      } else if k > |x| {
        assert z[k - 1] == y[k - 1 - |x|] && z[k] == y[k - |x|];
      }
    }
  }

  /** A match on character boundaries is whole. */
  lemma AlignedIsWhole(body: seq<byte>, mode: TagMode, lib: Library, i: nat, n: nat)
    requires SingleCharReferences(body, lib)
    requires 0 < n && i + n <= |Project(body, mode, lib)| && RuneAligned(Bytes(Project(body, mode, lib)), i, n)
    ensures Whole(Project(body, mode, lib), i, n)
  {
    hide Tokenise, Render, SingleChars, SingleCharReferences, Whole, SingleBlanks;
    var ts, cs := Tokenise(body, 0, mode, lib), Project(body, mode, lib);
    TokensOrdered(body, 0, mode, lib);
    TokensSingle(body, 0, mode, lib);
    RenderSingle(ts, 0, |body|, true);
    ProjectShape(body, mode, lib);
    assert OneCharPerRange(cs);
    AlignedCells(cs, |body|, i, n);
  }

  lemma AlignedCells(cs: seq<Cell>, end: nat, i: nat, n: nat)
    requires OneCharPerRange(cs) && Within(cs, 0, end) && 0 < n && i + n <= |cs|
    requires RuneStart(cs[i].c) && (i + n < |cs| ==> RuneStart(cs[i + n].c))
    ensures Whole(cs, i, n)
  {
    if i > 0 {
      assert cs[i - 1].start < cs[i].start;
      assert forall k | 0 <= k < i :: cs[k].start <= cs[i - 1].start;
    }
    if i + n < |cs| {
      assert cs[i + n - 1].end < cs[i + n].end;
      assert forall k | i + n <= k < |cs| :: cs[i + n].end <= cs[k].end;
    }
  }

  // ---- Every citation checks ----

  /** What a search in one projection answers. */
  lemma RenderedHit(body: seq<byte>, needle: seq<byte>, mode: TagMode, lib: Library)
    requires SolidEnds(needle) && SearchProjection(body, needle, mode, lib) != Miss
    requires var h := SearchProjection(body, needle, mode, lib); SpanKept(body, mode, lib, h.start, h.end)
    ensures var h := SearchProjection(body, needle, mode, lib);
            var cs := Project(body, mode, lib);
            && h.Rendered? && h.mode == mode && h.at + |needle| <= |cs|
            && h.start < h.end <= |body|
            && RuneAligned(Bytes(cs), h.at, |needle|)
            && (Bytes(Project(body[h.start..h.end], mode, lib)) == needle <==> Whole(cs, h.at, |needle|))
  {
    hide SpanKept, Project, Whole, RuneAligned;
    var cs := Project(body, mode, lib);
    FirstAlignedIs(Bytes(cs), needle, 0);
    var i := FirstAligned(Bytes(cs), needle, 0);
    assert Bytes(cs)[i..i + |needle|] == needle;
    assert forall k | 0 <= k < |needle| :: Bytes(cs)[i..i + |needle|][k] == needle[k];
    CutRenders(body, mode, lib, i, needle);
  }

  lemma VerbatimHit(body: seq<byte>, claimed: seq<byte>, lib: Library)
    requires Locate(body, claimed, lib).Verbatim? && Tame(claimed, lib)
    ensures var h := Locate(body, claimed, lib);
            && h.start < h.end <= |body| && body[h.start..h.end] == claimed
            && (SpanSupports(body[h.start..h.end], claimed, lib)
                <==> NormaliseSpace(claimed) != [] && !HasReference(claimed, lib))
    ensures !HasReference(claimed, lib) ==> !CheckPanics(claimed, claimed, lib)
  {
    hide Project, NormaliseSpace, HasReference, Tame, SearchProjection;
    FirstAlignedIs(body, claimed, 0);
    assert MatchAt(body, claimed, Locate(body, claimed, lib).start);
    if HasReference(claimed, lib) {
      if NormaliseSpace(claimed) != [] {
        ReferenceMisses(claimed, KeepTags, lib);
        ReferenceMisses(claimed, StripTags, lib);
      }
    } else {
      ProjectKeepTags(claimed, lib);
    }
  }

  function OtherMode(mode: TagMode): TagMode {
    if mode.KeepTags? then StripTags else KeepTags
  }

  /** Without a '<' there is nothing to drop. */
  lemma {:induction false} ModesAgree(b: seq<byte>, off: nat, lib: Library)
    requires LT !in b
    ensures Tokenise(b, off, KeepTags, lib) == Tokenise(b, off, StripTags, lib)
    decreases |b|
  {
    hide Step;
    if b != [] {
      StepsAgree(b, lib);
      var size := Step(b, KeepTags, lib).size;
      assert forall c | c in b[size..] :: c in b;
      ModesAgree(b[size..], off + size, lib);
    }
  }

  lemma StepsAgree(b: seq<byte>, lib: Library)
    requires b != [] && LT !in b
    ensures Step(b, KeepTags, lib) == Step(b, StripTags, lib)
  {
    hide TextToken, Markup;
    assert b[0] in b;
  }

  /** The check tries the mode that hit and the other one. */
  lemma CheckOfCut(cut: seq<byte>, claimed: seq<byte>, mode: TagMode, lib: Library, whole: bool)
    requires NormaliseSpace(claimed) != [] && (Bytes(Project(cut, mode, lib)) == NormaliseSpace(claimed) <==> whole)
    ensures SpanSupports(cut, claimed, lib) <==> whole || Bytes(Project(cut, OtherMode(mode), lib)) == NormaliseSpace(claimed)
    ensures LT !in cut ==> (SpanSupports(cut, claimed, lib) <==> whole)
  {
    hide NormaliseSpace, Tokenise, Render, TrimRight;
    if LT !in cut {
      ModesAgree(cut, 0, lib);
    }
  }

  /** Are the tokens under a rendered hit kept when the page is cut at its end? Where markup is
      not dropped, they always are. */
  ghost predicate HitKept(body: seq<byte>, claimed: seq<byte>, lib: Library) {
    var h := Locate(body, claimed, lib);
    h.Rendered? ==> SpanKept(body, h.mode, lib, h.start, h.end)
  }

  /** What a citation is worth, whichever of the three searches found it: a span inside the page,
      and exactly when its own bytes pass the check. A verbatim hit passes if and only if the claim
      is more than white space and spells out no reference. A rendered hit gives the claim back, in
      the mode that found it, if and only if the match is whole; it passes if and only if it is
      whole or gives the claim back in the other mode, which it can only where it holds a '<'. */
  lemma CitationIsExact(body: seq<byte>, claimed: seq<byte>, lib: Library)
    requires Tame(claimed, lib) && HitKept(body, claimed, lib)
    ensures match Locate(body, claimed, lib)
            case Miss => true
            case Verbatim(s, e) =>
              && s < e <= |body| && body[s..e] == claimed
              && (SpanSupports(body[s..e], claimed, lib)
                  <==> NormaliseSpace(claimed) != [] && !HasReference(claimed, lib))
            case Rendered(s, e, mode, at) =>
              var needle, cs := NormaliseSpace(claimed), Project(body, mode, lib);
              && s < e <= |body| && needle != [] && at + |needle| <= |cs|
              && (Bytes(Project(body[s..e], mode, lib)) == needle <==> Whole(cs, at, |needle|))
              && (SpanSupports(body[s..e], claimed, lib)
                  <==> Whole(cs, at, |needle|) || Bytes(Project(body[s..e], OtherMode(mode), lib)) == needle)
              && (LT !in body[s..e] ==> (SpanSupports(body[s..e], claimed, lib) <==> Whole(cs, at, |needle|)))
  {
    hide Project, NormaliseSpace, HasReference, Tame, SearchProjection, Whole, SpanSupports, HitKept;
    NormalisedEnds(claimed);
    match Locate(body, claimed, lib)
    case Miss =>
    case Verbatim(_, _) => VerbatimHit(body, claimed, lib);
    case Rendered(s, e, mode, at) =>
      HitIsRendered(body, claimed, lib);
      CheckOfCut(body[s..e], claimed, mode, lib, Whole(Project(body, mode, lib), at, |NormaliseSpace(claimed)|));
  }

  /** A rendered hit is that of the search in its own mode. */
  lemma HitIsSearched(body: seq<byte>, claimed: seq<byte>, lib: Library)
    requires Locate(body, claimed, lib).Rendered?
    ensures var h, needle := Locate(body, claimed, lib), NormaliseSpace(claimed);
            needle != [] && h == SearchProjection(body, needle, h.mode, lib)
    ensures Locate(body, claimed, lib).mode.KeepTags? ==> !LocatePanics(body, claimed, lib)
  {
    hide Project, NormaliseSpace, SearchProjection, Panics;
    var needle := NormaliseSpace(claimed);
    if SearchProjection(body, needle, KeepTags, lib) != Miss {
      SearchMode(body, needle, KeepTags, lib);
    } else {
      SearchMode(body, needle, StripTags, lib);
    }
  }

  lemma HitIsRendered(body: seq<byte>, claimed: seq<byte>, lib: Library)
    requires Locate(body, claimed, lib).Rendered? && HitKept(body, claimed, lib)
    ensures var h, needle := Locate(body, claimed, lib), NormaliseSpace(claimed);
            && needle != []
            && h.at + |needle| <= |Project(body, h.mode, lib)| && h.start < h.end <= |body|
            && RuneAligned(Bytes(Project(body, h.mode, lib)), h.at, |needle|)
            && (Bytes(Project(body[h.start..h.end], h.mode, lib)) == needle <==> Whole(Project(body, h.mode, lib), h.at, |needle|))
  {
    hide Project, NormaliseSpace, SearchProjection, Whole, RuneAligned, SpanKept, Locate, Bytes;
    NormalisedEnds(claimed);
    HitIsSearched(body, claimed, lib);
    RenderedHit(body, NormaliseSpace(claimed), Locate(body, claimed, lib).mode, lib);
  }

  /** The tokens under a hit. */
  lemma HitTokens(body: seq<byte>, claimed: seq<byte>, lib: Library) returns (a: nat, z: nat)
    requires Locate(body, claimed, lib).Rendered?
    ensures var h := Locate(body, claimed, lib);
            var ts := Tokenise(body, 0, h.mode, lib);
            a <= z < |ts| && ts[a].from == h.start && ts[z].to == h.end
  {
    hide NormaliseSpace, Tokenise, Render, Locate, TrimRight, Bytes, Around;
    HitIsSearched(body, claimed, lib);
    var h, needle := Locate(body, claimed, lib), NormaliseSpace(claimed);
    var ts, cs := Tokenise(body, 0, h.mode, lib), Project(body, h.mode, lib);
    TokensOrdered(body, 0, h.mode, lib);
    SearchedAt(body, needle, h.mode, lib);
    assert cs <= Render(ts, true).cells;
    var p, q, sp;
    a, z, p, q, sp := MatchTokens(ts, |body|, h.at, |needle|);
  }

  lemma SearchedAt(body: seq<byte>, needle: seq<byte>, mode: TagMode, lib: Library)
    requires needle != [] && SearchProjection(body, needle, mode, lib).Rendered?
    ensures var h, cs := SearchProjection(body, needle, mode, lib), Project(body, mode, lib);
            h.at + |needle| <= |cs| && h.start == cs[h.at].start && h.end == cs[h.at + |needle| - 1].end
  {
    hide Project;
    FirstAlignedIs(Bytes(Project(body, mode, lib)), needle, 0);
  }

  lemma SearchMode(body: seq<byte>, needle: seq<byte>, mode: TagMode, lib: Library)
    requires needle != [] && SearchProjection(body, needle, mode, lib) != Miss
    ensures SearchProjection(body, needle, mode, lib).Rendered? && SearchProjection(body, needle, mode, lib).mode == mode
  {
    hide Project, FirstAligned;
  }

  /** Every citation checks: a claim that is more than white space and spells out no reference,
      located in a page whose references each stand for one character, is supported by the bytes of
      its span alone, if a cut at the end of the span keeps the elements dropped inside it. The
      check of a hit with its markup dropped runs out of range exactly at an element that the cut
      ends too soon; no other check does. */
  lemma EveryCitationChecks(body: seq<byte>, claimed: seq<byte>, lib: Library)
    requires NormaliseSpace(claimed) != [] && !HasReference(claimed, lib) && SingleCharReferences(body, lib)
    requires HitKept(body, claimed, lib)
    ensures var h := Locate(body, claimed, lib);
            h != Miss ==> h.start < h.end <= |body| && SpanSupports(body[h.start..h.end], claimed, lib)
    ensures var h := Locate(body, claimed, lib);
            h.Verbatim? || (h.Rendered? && h.mode.KeepTags?) ==>
              !LocatePanics(body, claimed, lib) && !CheckPanics(body[h.start..h.end], claimed, lib)
    ensures var h := Locate(body, claimed, lib);
            h.Rendered? && h.mode.StripTags? ==> (Panics(body[h.start..h.end], lib) <==> SpanOverruns(body, lib, h.start, h.end))
  {
    hide Project, NormaliseSpace, HasReference, SearchProjection, Whole, SingleCharReferences, RuneAligned, Panics, SpanKept, SpanOverruns, Tokenise;
    NoReferenceIsTame(claimed, lib);
    match Locate(body, claimed, lib)
    case Miss =>
    case Verbatim(_, _) => VerbatimHit(body, claimed, lib);
    case Rendered(s, e, mode, at) =>
      HitIsRendered(body, claimed, lib);
      HitIsSearched(body, claimed, lib);
      AlignedIsWhole(body, mode, lib, at, |NormaliseSpace(claimed)|);
      if mode.StripTags? {
        var a, z := HitTokens(body, claimed, lib);
        CutPanics(body, lib, a, z);
      }
  }

  /** What a reader of the page can see is enough: on a page whose characters keep their lengths, or
      with no element to drop, every such citation checks, and nothing runs out of range. */
  lemma SafePagesCheck(body: seq<byte>, claimed: seq<byte>, lib: Library)
    requires NormaliseSpace(claimed) != [] && !HasReference(claimed, lib) && SingleCharReferences(body, lib)
    requires FoldsSafely(body, lib.fold) && Locate(body, claimed, lib) != Miss
    ensures var h := Locate(body, claimed, lib);
            && !LocatePanics(body, claimed, lib)
            && h.start < h.end <= |body|
            && SpanSupports(body[h.start..h.end], claimed, lib) && !CheckPanics(body[h.start..h.end], claimed, lib)
  {
    hide Project, NormaliseSpace, HasReference, Locate, SingleCharReferences, Panics, FoldsSafely, FoldsInPlace, SpanKept, Tokenise, SpanSupports;
    SafeFoldsInPlace(body, lib.fold);
    SafePageNeverPanics(body, claimed, lib);
    var h := Locate(body, claimed, lib);
    if h.Rendered? {
      SafelyKept(body, h.mode, lib, h.start, h.end);
    }
    EveryCitationChecks(body, claimed, lib);
    FoldsInPlaceWithin(body, lib.fold, h.start, h.end);
    NeverPanics(body[h.start..h.end], lib);
  }

  lemma SafePageNeverPanics(body: seq<byte>, claimed: seq<byte>, lib: Library)
    requires FoldsSafely(body, lib.fold)
    ensures !LocatePanics(body, claimed, lib)
  {
    hide Panics, FoldsSafely, FoldsInPlace, Project, NormaliseSpace, SearchProjection;
    SafeFoldsInPlace(body, lib.fold);
    NeverPanics(body, lib);
  }

  /** Where folding moves nothing, every span is kept. */
  lemma SafelyKept(body: seq<byte>, mode: TagMode, lib: Library, s: nat, e: nat)
    requires FoldsInPlace(body, lib.fold)
    ensures SpanKept(body, mode, lib, s, e)
  {
    hide FoldsInPlace, Tokenise, Step, Kept;
    var ts := Tokenise(body, 0, mode, lib);
    forall k | 0 <= k < |ts| && s <= ts[k].from && ts[k].to <= e
      ensures KeptAt(body, mode, lib, ts[k].from, e)
    {
      if mode.StripTags? && e <= |body| {
        TokenAt(body, mode, lib, k);
        var from := ts[k].from;
        FoldsInPlaceWithin(body, lib.fold, from, |body|);
        assert body[from..|body|] == body[from..];
        InPlaceIsKept(body[from..], lib, e - from);
      } else if mode.KeepTags? {
        TextIsKept(body, lib, s, e);
      }
    }
  }

  lemma NoReferenceIsTame(b: seq<byte>, lib: Library)
    requires !HasReference(b, lib)
    ensures Tame(b, lib)
  {
  }

  /** Projection is local: cut the page where the tokens `a` to `z` begin and end so that they are
      kept, project the cut, and what comes out is the stretch of the whole rendering those tokens made, less a
      blank at either end. */
  lemma ProjectionIsLocal(body: seq<byte>, mode: TagMode, lib: Library, a: nat, z: nat) returns (p: nat, q: nat)
    requires a <= z < |Tokenise(body, 0, mode, lib)|
    requires var ts := Tokenise(body, 0, mode, lib); SpanKept(body, mode, lib, ts[a].from, ts[z].to)
    ensures var ts, full := Tokenise(body, 0, mode, lib), Rendering(body, mode, lib);
            var s, e := ts[a].from, ts[z].to;
            && s < e <= |body| && p <= q <= |full|
            && (forall k | 0 <= k < |full| :: p <= k < q <==> s <= full[k].start && full[k].end <= e)
            && Bytes(Project(body[s..e], mode, lib)) == TrimRightBytes(DropBlankByte(Bytes(full[p..q])))
  {
    hide Tokenise, Render, TrimRightBytes, DropBlankByte, Project, Ordered, SpanKept;
    var ts := Tokenise(body, 0, mode, lib);
    TokensOrdered(body, 0, mode, lib);
    var sp;
    p, q, sp := CellsOfTokens(ts, |body|, a, z);
    ProjectionOfCut(body, mode, lib, a, z, sp);
  }
}
