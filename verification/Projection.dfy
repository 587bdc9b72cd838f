/** The projection of a page: the bytes an extractor would see, each with the range of source
    bytes it came from, and the white-space normaliser it is compared with
    (internal/provenance/assertion.go). */
module Projection {
  import opened Utf8
  import opened Tokens

  /** One rendered byte and the half-open source range behind it. */
  datatype Cell = Cell(c: byte, start: nat, end: nat)

  datatype Emitted = Emitted(cells: seq<Cell>, inSpace: bool)

  function Bytes(cs: seq<Cell>): (b: seq<byte>)
    ensures |b| == |cs|
    ensures forall k | 0 <= k < |cs| :: b[k] == cs[k].c
  {
    seq(|cs|, i requires 0 <= i < |cs| => cs[i].c)
  }

  function From(b: seq<byte>, from: nat, to: nat): (cs: seq<Cell>)
    ensures |cs| == |b|
    ensures forall k | 0 <= k < |b| :: cs[k] == Cell(b[k], from, to)
  {
    seq(|b|, i requires 0 <= i < |b| => Cell(b[i], from, to))
  }

  function EmitRune(r: int, from: nat, to: nat, inSpace: bool): Emitted {
    if IsSpace(r) then Emitted(if inSpace then [] else [Cell(SPACE, from, to)], true)
    else Emitted(From(EncodeRune(r), from, to), false)
  }

  function EmitRunes(rs: seq<int>, from: nat, to: nat, inSpace: bool): Emitted {
    if rs == [] then Emitted([], inSpace)
    else
      var e := EmitRune(rs[0], from, to, inSpace);
      var rest := EmitRunes(rs[1..], from, to, e.inSpace);
      Emitted(e.cells + rest.cells, rest.inSpace)
  }

  function EmitText(t: Text, from: nat, to: nat, inSpace: bool): Emitted {
    match t
    case Chars(rs) => EmitRunes(rs, from, to, inSpace)
    case RawByte(c) => Emitted([Cell(c, from, to)], false)
  }

  /** A token and the source range it was read from. */
  datatype Placed = Placed(text: Text, from: nat, to: nat)

  /** The tokens of `b`, which begins at offset `off` of its page. */
  function Tokenise(b: seq<byte>, off: nat, mode: TagMode, lib: Library): seq<Placed> {
    if b == [] then []
    else
      var t := Step(b, mode, lib);
      [Placed(t.text, off, off + t.size)] + Tokenise(b[t.size..], off + t.size, mode, lib)
  }

  function Render(ts: seq<Placed>, inSpace: bool): Emitted {
    if ts == [] then Emitted([], inSpace)
    else
      var e := EmitText(ts[0].text, ts[0].from, ts[0].to, inSpace);
      var rest := Render(ts[1..], e.inSpace);
      Emitted(e.cells + rest.cells, rest.inSpace)
  }

  function TrimRight(cs: seq<Cell>): (r: seq<Cell>)
    ensures r <= cs
    ensures r != [] ==> r[|r| - 1].c != SPACE
    ensures forall k | |r| <= k < |cs| :: cs[k].c == SPACE
  {
    if cs != [] && cs[|cs| - 1].c == SPACE then TrimRight(cs[..|cs| - 1]) else cs
  }

  function Project(body: seq<byte>, mode: TagMode, lib: Library): seq<Cell> {
    TrimRight(Render(Tokenise(body, 0, mode, lib), true).cells)
  }

  // ---- White-space normalisation ----

  function Normalise(b: seq<byte>, inSpace: bool): seq<byte> {
    if b == [] then []
    else
      var d := DecodeRune(b);
      if !Invalid(d) && IsSpace(d.r) then
        (if inSpace then [] else [SPACE]) + Normalise(b[d.size..], true)
      else b[..d.size] + Normalise(b[d.size..], false)
  }

  function TrimRightBytes(b: seq<byte>): (r: seq<byte>)
    ensures r <= b
    ensures r != [] ==> r[|r| - 1] != SPACE
    ensures forall k | |r| <= k < |b| :: b[k] == SPACE
  {
    if b != [] && b[|b| - 1] == SPACE then TrimRightBytes(b[..|b| - 1]) else b
  }

  function NormaliseSpace(b: seq<byte>): seq<byte> {
    TrimRightBytes(Normalise(b, true))
  }

  // ---- The shape of a rendering ----

  /** No blank follows a blank, and none comes first when `inSpace`. */
  ghost predicate SingleBlanks(cs: seq<Cell>, inSpace: bool) {
    && (inSpace && cs != [] ==> cs[0].c != SPACE)
    && forall k | 0 < k < |cs| :: cs[k - 1].c == SPACE ==> cs[k].c != SPACE
  }

  /** The state after emitting `cs`. */
  ghost predicate EndsInSpace(cs: seq<Cell>, before: bool, after: bool) {
    if cs == [] then after == before else after == (cs[|cs| - 1].c == SPACE)
  }

  ghost predicate Within(cs: seq<Cell>, lo: nat, hi: nat) {
    && (forall k | 0 <= k < |cs| :: lo <= cs[k].start < cs[k].end <= hi)
    && (forall j, k | 0 <= j < k < |cs| :: cs[j].start <= cs[k].start && cs[j].end <= cs[k].end)
  }

  lemma EmitRuneShape(r: int, from: nat, to: nat, inSpace: bool)
    ensures var e := EmitRune(r, from, to, inSpace);
            && SingleBlanks(e.cells, inSpace) && EndsInSpace(e.cells, inSpace, e.inSpace)
            && forall k | 0 <= k < |e.cells| :: e.cells[k].start == from && e.cells[k].end == to
  {
    hide EncodeRune;
    EncodingShape(r);
  }

  lemma ShapeOfSum(x: seq<Cell>, y: seq<Cell>, before: bool, between: bool, after: bool)
    requires SingleBlanks(x, before) && EndsInSpace(x, before, between)
    requires SingleBlanks(y, between) && EndsInSpace(y, between, after)
    ensures SingleBlanks(x + y, before) && EndsInSpace(x + y, before, after)
  {
  }

  lemma {:induction false} EmitRunesShape(rs: seq<int>, from: nat, to: nat, inSpace: bool)
    ensures var e := EmitRunes(rs, from, to, inSpace);
            && SingleBlanks(e.cells, inSpace) && EndsInSpace(e.cells, inSpace, e.inSpace)
            && forall k | 0 <= k < |e.cells| :: e.cells[k].start == from && e.cells[k].end == to
  {
    hide EmitRune, SingleBlanks, EndsInSpace;
    if rs == [] {
      NoShape(inSpace);
    } else {
      var e := EmitRune(rs[0], from, to, inSpace);
      var rest := EmitRunes(rs[1..], from, to, e.inSpace);
      EmitRuneShape(rs[0], from, to, inSpace);
      EmitRunesShape(rs[1..], from, to, e.inSpace);
      ShapeOfSum(e.cells, rest.cells, inSpace, e.inSpace, rest.inSpace);
    }
  }

  lemma NoShape(inSpace: bool)
    ensures SingleBlanks([], inSpace) && EndsInSpace([], inSpace, inSpace)
  {
  }

  /** Bytes that are no character are outside ASCII. */
  ghost predicate Sound(t: Text) {
    t.RawByte? ==> t.c >= 0x80
  }

  /** Tokens come in order, each with a proper range inside `[off, end)`. */
  ghost predicate Ordered(ts: seq<Placed>, off: nat, end: nat) {
    && (forall k | 0 <= k < |ts| :: off <= ts[k].from < ts[k].to <= end && Sound(ts[k].text))
    && (forall j, k | 0 <= j < k < |ts| :: ts[j].to <= ts[k].from)
  }

  lemma StepSound(b: seq<byte>, mode: TagMode, lib: Library)
    requires b != []
    ensures Sound(Step(b, mode, lib).text)
  {
  }

  lemma {:induction false} TokensOrdered(b: seq<byte>, off: nat, mode: TagMode, lib: Library)
    ensures Ordered(Tokenise(b, off, mode, lib), off, off + |b|)
    decreases |b|
  {
    if b != [] {
      StepSound(b, mode, lib);
      var size := Step(b, mode, lib).size;
      TokensOrdered(b[size..], off + size, mode, lib);
    }
  }

  lemma EmitTextShape(t: Text, from: nat, to: nat, inSpace: bool)
    requires Sound(t)
    ensures var e := EmitText(t, from, to, inSpace);
            && SingleBlanks(e.cells, inSpace) && EndsInSpace(e.cells, inSpace, e.inSpace)
            && forall k | 0 <= k < |e.cells| :: e.cells[k].start == from && e.cells[k].end == to
  {
    if t.Chars? {
      EmitRunesShape(t.rs, from, to, inSpace);
    }
  }

  lemma BlanksOfSum(x: seq<Cell>, y: seq<Cell>, before: bool, between: bool, after: bool)
    requires SingleBlanks(x, before) && EndsInSpace(x, before, between)
    requires SingleBlanks(y, between) && EndsInSpace(y, between, after)
    ensures SingleBlanks(x + y, before) && EndsInSpace(x + y, before, after)
  {
    var z := x + y;
    forall k | 0 < k < |z|
      ensures z[k - 1].c == SPACE ==> z[k].c != SPACE
    {
      if k < |x| {
        assert z[k - 1] == x[k - 1] && z[k] == x[k];
      } else if k == |x| {
        assert z[k - 1] == x[|x| - 1] && z[k] == y[0];
      } else {
        assert z[k - 1] == y[k - 1 - |x|] && z[k] == y[k - |x|];
      }
    }
  }

  lemma WithinOfSum(x: seq<Cell>, y: seq<Cell>, lo: nat, mid: nat, hi: nat)
    requires Within(x, lo, mid) && Within(y, mid, hi) && lo <= mid <= hi
    ensures Within(x + y, lo, hi)
  {
    var z := x + y;
    assert forall k | 0 <= k < |x| :: z[k] == x[k];
    assert forall k | |x| <= k < |z| :: z[k] == y[k - |x|];
  }

  lemma {:induction false} RenderShape(ts: seq<Placed>, off: nat, end: nat, inSpace: bool)
    requires Ordered(ts, off, end) && off <= end
    ensures var e := Render(ts, inSpace);
            && SingleBlanks(e.cells, inSpace) && EndsInSpace(e.cells, inSpace, e.inSpace)
            && Within(e.cells, off, end)
  {
    if ts != [] {
      var t := ts[0];
      var e := EmitText(t.text, t.from, t.to, inSpace);
      EmitTextShape(t.text, t.from, t.to, inSpace);
      RenderShape(ts[1..], t.to, end, e.inSpace);
      var rest := Render(ts[1..], e.inSpace);
      BlanksOfSum(e.cells, rest.cells, inSpace, e.inSpace, rest.inSpace);
      WithinOfSum(e.cells, rest.cells, off, t.to, end);
    }
  }

  /** The source map of a projection: every rendered byte has a proper range inside the page,
      ranges never go backwards, and blanks are single and never at an end. */
  lemma ProjectShape(body: seq<byte>, mode: TagMode, lib: Library)
    ensures var cs := Project(body, mode, lib);
            && Within(cs, 0, |body|)
            && (cs != [] ==> cs[0].c != SPACE && cs[|cs| - 1].c != SPACE)
            && forall k | 0 < k < |cs| :: !(cs[k - 1].c == SPACE && cs[k].c == SPACE)
  {
    TokensOrdered(body, 0, mode, lib);
    RenderShape(Tokenise(body, 0, mode, lib), 0, |body|, true);
  }

  // ---- Cutting at token boundaries ----

  lemma SuffixOfSuffix<T>(s: seq<T>, i: nat, j: nat)
    requires i <= j <= |s|
    ensures s[i..][j - i..] == s[j..]
  {
  }

  lemma PrefixOfSuffix<T>(s: seq<T>, i: nat, j: nat)
    requires i <= j <= |s|
    ensures s[i..][..j - i] == s[i..j]
  {
  }

  lemma SuffixOfCons<T>(x: T, s: seq<T>, i: nat)
    requires 1 <= i <= |s| + 1
    ensures ([x] + s)[i..] == s[i - 1..]
  {
  }

  lemma TokeniseHead(b: seq<byte>, off: nat, mode: TagMode, lib: Library)
    requires b != []
    ensures var t := Step(b, mode, lib);
            Tokenise(b, off, mode, lib)
            == [Placed(t.text, off, off + t.size)] + Tokenise(b[t.size..], off + t.size, mode, lib)
  {
  }

  lemma {:induction false} TokensOfSuffix(b: seq<byte>, off: nat, mode: TagMode, lib: Library, i: nat)
    requires b != [] && i < |Tokenise(b, off, mode, lib)|
    ensures var s := Tokenise(b, off, mode, lib)[i].from;
            off <= s <= off + |b| && Tokenise(b[s - off..], s, mode, lib) == Tokenise(b, off, mode, lib)[i..]
    decreases |b|
  {
    hide Step, Tokenise;
    TokeniseHead(b, off, mode, lib);
    if i == 0 {
      assert b[0..] == b;
    } else {
      var size := Step(b, mode, lib).size;
      var rest := Tokenise(b[size..], off + size, mode, lib);
      NoBytesNoTokens(b[size..], off + size, mode, lib);
      TokensOfSuffix(b[size..], off + size, mode, lib, i - 1);
      SuffixOfSuffix(b, size, rest[i - 1].from - off);
      SuffixOfCons(Placed(Step(b, mode, lib).text, off, off + size), rest, i);
    }
  }

  lemma NoBytesNoTokens(b: seq<byte>, off: nat, mode: TagMode, lib: Library)
    ensures b == [] <==> Tokenise(b, off, mode, lib) == []
  {
  }

  /** Is the token that the page has at `from` kept when the page is cut at `to`? */
  predicate KeptAt(body: seq<byte>, mode: TagMode, lib: Library, from: int, to: int) {
    0 <= from <= to <= |body| ==> Kept(body[from..], mode, lib, to - from)
  }

  lemma KeptAtWithin(b: seq<byte>, mode: TagMode, lib: Library, size: nat, from: int, to: int)
    requires size <= from <= to <= |b|
    ensures KeptAt(b[size..], mode, lib, from - size, to - size) == KeptAt(b, mode, lib, from, to)
  {
    hide Kept;
    assert b[size..][from - size..] == b[from..];
  }

  /** Are these tokens, read from `off` on, all kept when the page is cut at `to`? */
  ghost predicate AllKept(b: seq<byte>, off: nat, mode: TagMode, lib: Library, ts: seq<Placed>, to: nat) {
    forall k | 0 <= k < |ts| :: KeptAt(b, mode, lib, ts[k].from - off, to - off)
  }

  lemma AllKeptCons(b: seq<byte>, off: nat, mode: TagMode, lib: Library, t: Placed, ts: seq<Placed>, to: nat)
    ensures AllKept(b, off, mode, lib, [t] + ts, to)
            <==> KeptAt(b, mode, lib, t.from - off, to - off) && AllKept(b, off, mode, lib, ts, to)
  {
    hide KeptAt;
    var all := [t] + ts;
    assert all[0] == t && forall k | 0 <= k < |ts| :: all[k + 1] == ts[k];
    if KeptAt(b, mode, lib, t.from - off, to - off) && AllKept(b, off, mode, lib, ts, to) {
      assert forall k | 0 < k < |all| :: all[k] == ts[k - 1];
    }
  }

  lemma AllKeptWithin(b: seq<byte>, off: nat, mode: TagMode, lib: Library, size: nat, ts: seq<Placed>, to: nat)
    requires size <= |b| && to <= off + |b| && forall k | 0 <= k < |ts| :: off + size <= ts[k].from <= to
    ensures AllKept(b[size..], off + size, mode, lib, ts, to) <==> AllKept(b, off, mode, lib, ts, to)
  {
    hide KeptAt;
    forall k | 0 <= k < |ts|
      ensures KeptAt(b[size..], mode, lib, ts[k].from - (off + size), to - (off + size)) == KeptAt(b, mode, lib, ts[k].from - off, to - off)
    {
      KeptAtWithin(b, mode, lib, size, ts[k].from - off, to - off);
    }
  }

  lemma KeptAtHead(b: seq<byte>, mode: TagMode, lib: Library, n: nat)
    requires n <= |b|
    ensures KeptAt(b, mode, lib, 0, n) == Kept(b, mode, lib, n)
  {
    hide Kept;
    assert b[0..] == b;
  }

  /** Where the first `m` of the tokens end. */
  function EndOf(ts: seq<Placed>, off: nat, m: nat): nat
    requires m <= |ts|
  {
    if m == 0 then off else ts[m - 1].to
  }

  /** Cutting a page behind its first tokens leaves exactly those if and only if all are kept. */
  lemma {:induction false} TokensOfPrefix(b: seq<byte>, off: nat, mode: TagMode, lib: Library, m: nat)
    requires m <= |Tokenise(b, off, mode, lib)|
    ensures var ts := Tokenise(b, off, mode, lib);
            var to := EndOf(ts, off, m);
            && off <= to <= off + |b|
            && (Tokenise(b[..to - off], off, mode, lib) == ts[..m] <==> AllKept(b, off, mode, lib, ts[..m], to))
    decreases |b|
  {
    hide Step, Kept, KeptAt, AllKept, Tokenise;
    if m == 0 {
      NoneKept(b, off, mode, lib);
    } else {
      NoBytesNoTokens(b, off, mode, lib);
      TokeniseHead(b, off, mode, lib);
      var t := Step(b, mode, lib);
      var first, rest := Placed(t.text, off, off + t.size), Tokenise(b[t.size..], off + t.size, mode, lib);
      TokensOfPrefix(b[t.size..], off + t.size, mode, lib, m - 1);
      TokensOrdered(b[t.size..], off + t.size, mode, lib);
      var to := EndOf(rest, off + t.size, m - 1);
      AllKeptWithin(b, off, mode, lib, t.size, rest[..m - 1], to);
      AllKeptCons(b, off, mode, lib, first, rest[..m - 1], to);
      KeptAtHead(b, mode, lib, to - off);
      assert Tokenise(b, off, mode, lib)[..m] == [first] + rest[..m - 1];
      TokensOfShorter(b, off, mode, lib, to - off, rest[..m - 1]);
    }
  }

  lemma NoneKept(b: seq<byte>, off: nat, mode: TagMode, lib: Library)
    ensures Tokenise(b[..0], off, mode, lib) == [] && AllKept(b, off, mode, lib, [], off)
    ensures Tokenise(b, off, mode, lib)[..0] == []
  {
  }

  /** A cut is read as the first token and `rest` exactly when the one is kept and the others are
      read behind it. */
  lemma TokensOfShorter(b: seq<byte>, off: nat, mode: TagMode, lib: Library, n: nat, rest: seq<Placed>)
    requires b != [] && Step(b, mode, lib).size <= n <= |b|
    ensures var t := Step(b, mode, lib);
            Tokenise(b[..n], off, mode, lib) == [Placed(t.text, off, off + t.size)] + rest
            <==> Kept(b, mode, lib, n) && Tokenise(b[t.size..][..n - t.size], off + t.size, mode, lib) == rest
  {
    hide Step, Kept, Tokenise;
    var t, u := Step(b, mode, lib), Step(b[..n], mode, lib);
    StepCut(b, mode, lib, n);
    TokeniseHead(b[..n], off, mode, lib);
    assert b[..n][t.size..] == b[t.size..][..n - t.size];
    SameTokens(u, t, off);
    SameCons(Placed(u.text, off, off + u.size), Tokenise(b[..n][u.size..], off + u.size, mode, lib), Placed(t.text, off, off + t.size), rest);
  }

  lemma SameCons<T>(x: T, xs: seq<T>, y: T, ys: seq<T>)
    ensures [x] + xs == [y] + ys <==> x == y && xs == ys
  {
    if [x] + xs == [y] + ys {
      assert ([x] + xs)[0] == ([y] + ys)[0] && ([x] + xs)[1..] == xs && ([y] + ys)[1..] == ys;
    }
  }

  lemma SameTokens(x: Token, y: Token, off: nat)
    ensures Placed(x.text, off, off + x.size) == Placed(y.text, off, off + y.size) <==> x == y
  {
  }

  /** Cutting a page between two token boundaries leaves exactly the tokens in between if and only
      if all of them are kept. */
  lemma TokensOfCut(body: seq<byte>, mode: TagMode, lib: Library, i: nat, j: nat)
    requires i <= j < |Tokenise(body, 0, mode, lib)|
    ensures var ts := Tokenise(body, 0, mode, lib);
            && 0 <= ts[i].from < ts[j].to <= |body|
            && (Tokenise(body[ts[i].from..ts[j].to], ts[i].from, mode, lib) == ts[i..j + 1]
                <==> AllKept(body, 0, mode, lib, ts[i..j + 1], ts[j].to))
  {
    hide Step, Tokenise, KeptAt, AllKept;
    var ts := Tokenise(body, 0, mode, lib);
    TokensOrdered(body, 0, mode, lib);
    NoBytesNoTokens(body, 0, mode, lib);
    TokensOfSuffix(body, 0, mode, lib, i);
    var s, e := ts[i].from, ts[j].to;
    PrefixOfSuffix(ts, i, j + 1);
    assert ts[i..][j - i] == ts[j];
    TokensOfPrefix(body[s..], s, mode, lib, j + 1 - i);
    PrefixOfSuffix(body, s, e);
    AllKeptWithin(body, 0, mode, lib, s, ts[i..j + 1], e);
  }

  /** Is the cut from token `i` to token `j` read as those tokens? */
  ghost predicate ReadsAlike(body: seq<byte>, mode: TagMode, lib: Library, i: int, j: int) {
    var ts := Tokenise(body, 0, mode, lib);
    0 <= i <= j < |ts| && ts[i].from <= ts[j].to <= |body| ==>
      Tokenise(body[ts[i].from..ts[j].to], ts[i].from, mode, lib) == ts[i..j + 1]
  }

  /** On which pages every cut between tokens is read as it is in the page: those on which every
      token is kept by a cut at its own end. */
  lemma EveryCutReadsAlike(body: seq<byte>, mode: TagMode, lib: Library)
    ensures var ts := Tokenise(body, 0, mode, lib);
            (forall i, j | 0 <= i <= j < |ts| :: ReadsAlike(body, mode, lib, i, j))
            <==> (forall k | 0 <= k < |ts| :: KeptAt(body, mode, lib, ts[k].from, ts[k].to))
  {
    hide Step, Tokenise, Kept, KeptAt;
    var ts := Tokenise(body, 0, mode, lib);
    TokensOrdered(body, 0, mode, lib);
    if forall i, j | 0 <= i <= j < |ts| :: ReadsAlike(body, mode, lib, i, j) {
      forall k | 0 <= k < |ts|
        ensures KeptAt(body, mode, lib, ts[k].from, ts[k].to)
      {
        TokensOfCut(body, mode, lib, k, k);
        assert ReadsAlike(body, mode, lib, k, k);
      }
    }
    if forall k | 0 <= k < |ts| :: KeptAt(body, mode, lib, ts[k].from, ts[k].to) {
      forall i, j | 0 <= i <= j < |ts|
        ensures ReadsAlike(body, mode, lib, i, j)
      {
        TokensOfCut(body, mode, lib, i, j);
        forall k | i <= k <= j
          ensures KeptAt(body, mode, lib, ts[k].from, ts[j].to)
        {
          KeptAtLater(body, mode, lib, k, ts[j].to);
        }
      }
    }
  }

  lemma KeptAtLater(body: seq<byte>, mode: TagMode, lib: Library, k: nat, to: nat)
    requires k < |Tokenise(body, 0, mode, lib)|
    requires var t := Tokenise(body, 0, mode, lib)[k]; t.to <= to <= |body| && KeptAt(body, mode, lib, t.from, t.to)
    ensures KeptAt(body, mode, lib, Tokenise(body, 0, mode, lib)[k].from, to)
  {
    hide Step, Tokenise, Kept;
    var t := Tokenise(body, 0, mode, lib)[k];
    TokensOrdered(body, 0, mode, lib);
    TokenAt(body, mode, lib, k);
    KeptLonger(body[t.from..], mode, lib, t.to - t.from, to - t.from);
  }

  /** What stands in a page's token is what is read there. */
  lemma TokenAt(body: seq<byte>, mode: TagMode, lib: Library, k: nat)
    requires k < |Tokenise(body, 0, mode, lib)|
    ensures var t := Tokenise(body, 0, mode, lib)[k];
            && 0 <= t.from < t.to <= |body|
            && Step(body[t.from..], mode, lib) == Token(t.to - t.from, t.text)
  {
    hide Step, Tokenise;
    NoBytesNoTokens(body, 0, mode, lib);
    TokensOrdered(body, 0, mode, lib);
    TokensOfSuffix(body, 0, mode, lib, k);
    var t := Tokenise(body, 0, mode, lib)[k];
    TokeniseHead(body[t.from..], t.from, mode, lib);
    assert Tokenise(body, 0, mode, lib)[k..][0] == t;
  }

  // ---- Spans ----

  /** Are the tokens between `s` and `e` all kept when the page is cut at `e`? */
  ghost predicate SpanKept(body: seq<byte>, mode: TagMode, lib: Library, s: nat, e: nat) {
    var ts := Tokenise(body, 0, mode, lib);
    forall k | 0 <= k < |ts| && s <= ts[k].from && ts[k].to <= e :: KeptAt(body, mode, lib, ts[k].from, e)
  }

  lemma SpanOfTokens(body: seq<byte>, mode: TagMode, lib: Library, i: nat, j: nat)
    requires i <= j < |Tokenise(body, 0, mode, lib)|
    ensures var ts := Tokenise(body, 0, mode, lib);
            SpanKept(body, mode, lib, ts[i].from, ts[j].to) <==> AllKept(body, 0, mode, lib, ts[i..j + 1], ts[j].to)
  {
    hide Tokenise, KeptAt;
    var ts := Tokenise(body, 0, mode, lib);
    TokensOrdered(body, 0, mode, lib);
    InSpan(ts, |body|, i, j);
    var m := ts[i..j + 1];
    assert forall k | 0 <= k < |m| :: m[k] == ts[i + k];
    if AllKept(body, 0, mode, lib, m, ts[j].to) {
      forall k | 0 <= k < |ts| && ts[i].from <= ts[k].from && ts[k].to <= ts[j].to
        ensures KeptAt(body, mode, lib, ts[k].from, ts[j].to)
      {
        assert m[k - i] == ts[k];
      }
    }
  }

  lemma InSpan(ts: seq<Placed>, end: nat, i: nat, j: nat)
    requires Ordered(ts, 0, end) && i <= j < |ts|
    ensures forall k | 0 <= k < |ts| :: ts[i].from <= ts[k].from && ts[k].to <= ts[j].to <==> i <= k <= j
  {
    forall k | 0 <= k < |ts|
      ensures ts[i].from <= ts[k].from && ts[k].to <= ts[j].to <==> i <= k <= j
    {
      assert k < i ==> ts[k].to <= ts[i].from;
      assert i < k ==> ts[i].to <= ts[k].from;
      assert k < j ==> ts[k].to <= ts[j].from;
      assert j < k ==> ts[j].to <= ts[k].from;
    }
  }

  /** Nothing is lost where markup is kept. */
  lemma TextIsKept(body: seq<byte>, lib: Library, s: nat, e: nat)
    ensures SpanKept(body, KeepTags, lib, s, e)
  {
  }

  // ---- Where a cut runs out of range ----

  predicate PanicsAt(body: seq<byte>, lib: Library, from: int, to: int) {
    0 <= from <= to <= |body| && SkipPanics(body[from..to], NON_TEXT_ELEMENTS, lib.fold)
  }

  /** Is one of these tokens, read from `off` on, an element that runs out of range at `to`? */
  ghost predicate SomePanics(b: seq<byte>, off: nat, lib: Library, ts: seq<Placed>, to: nat) {
    exists k :: 0 <= k < |ts| && PanicsAt(b, lib, ts[k].from - off, to - off)
  }

  lemma SomePanicsCons(b: seq<byte>, off: nat, lib: Library, t: Placed, ts: seq<Placed>, to: nat)
    ensures SomePanics(b, off, lib, [t] + ts, to) <==> PanicsAt(b, lib, t.from - off, to - off) || SomePanics(b, off, lib, ts, to)
  {
    hide PanicsAt;
    var all := [t] + ts;
    assert all[0] == t && forall k | 0 <= k < |ts| :: all[k + 1] == ts[k];
    if SomePanics(b, off, lib, ts, to) {
      var k :| 0 <= k < |ts| && PanicsAt(b, lib, ts[k].from - off, to - off);
      assert PanicsAt(b, lib, all[k + 1].from - off, to - off);
    }
    if PanicsAt(b, lib, t.from - off, to - off) {
      assert PanicsAt(b, lib, all[0].from - off, to - off);
    }
  }

  /** It does not matter from where the tokens are looked at. */
  lemma SomePanicsWithin(b: seq<byte>, off: nat, lib: Library, s: nat, e: nat, ts: seq<Placed>)
    requires s <= e <= |b| && forall k | 0 <= k < |ts| :: off + s <= ts[k].from <= off + e
    ensures SomePanics(b[s..e], off + s, lib, ts, off + e) <==> SomePanics(b, off, lib, ts, off + e)
  {
    hide PanicsAt;
    forall k | 0 <= k < |ts|
      ensures PanicsAt(b[s..e], lib, ts[k].from - (off + s), off + e - (off + s)) == PanicsAt(b, lib, ts[k].from - off, off + e - off)
    {
      PanicsAtWithin(b, lib, s, e, ts[k].from - off);
    }
  }

  lemma PanicsAtWithin(b: seq<byte>, lib: Library, s: nat, e: nat, from: int)
    requires s <= from <= e <= |b|
    ensures PanicsAt(b[s..e], lib, from - s, e - s) == PanicsAt(b, lib, from, e)
  {
    hide SkipPanics;
    SliceOfSlice(b, s, e, from - s, e - s);
  }

  lemma {:induction false} PanicsAtTokens(b: seq<byte>, off: nat, lib: Library)
    ensures Panics(b, lib) <==> SomePanics(b, off, lib, Tokenise(b, off, StripTags, lib), off + |b|)
    decreases |b|
  {
    hide Step, PanicsAt, Tokenise, SomePanics, Panics;
    if b == [] {
      NothingPanics(off, lib);
    } else {
      TokeniseHead(b, off, StripTags, lib);
      var t := Step(b, StripTags, lib);
      PanicsHead(b, lib);
      var rest := Tokenise(b[t.size..], off + t.size, StripTags, lib);
      PanicsAtTokens(b[t.size..], off + t.size, lib);
      TokensOrdered(b[t.size..], off + t.size, StripTags, lib);
      SomePanicsCons(b, off, lib, Placed(t.text, off, off + t.size), rest, off + |b|);
      assert b[t.size..|b|] == b[t.size..];
      SomePanicsWithin(b, off, lib, t.size, |b|, rest);
    }
  }

  lemma NothingPanics(off: nat, lib: Library)
    ensures !Panics([], lib) && !SomePanics([], off, lib, Tokenise([], off, StripTags, lib), off)
  {
  }

  lemma PanicsHead(b: seq<byte>, lib: Library)
    requires b != []
    ensures Panics(b, lib) <==> PanicsAt(b, lib, 0, |b|) || Panics(b[Step(b, StripTags, lib).size..], lib)
  {
    hide Step, SkipPanics;
    assert b[0..|b|] == b;
    if SkipPanics(b, NON_TEXT_ELEMENTS, lib.fold) {
      ElementHasLt(b, lib.fold);
    }
  }

  /** Does an element that the page has between `s` and `e` have its closing tag, in the folded copy
      of what a cut at `e` leaves of it, too close to the end? */
  ghost predicate SpanOverruns(body: seq<byte>, lib: Library, s: nat, e: nat) {
    var ts := Tokenise(body, 0, StripTags, lib);
    exists k :: 0 <= k < |ts| && s <= ts[k].from && ts[k].to <= e && PanicsAt(body, lib, ts[k].from, e)
  }

  lemma SpanOverrunsTokens(body: seq<byte>, lib: Library, i: nat, j: nat)
    requires i <= j < |Tokenise(body, 0, StripTags, lib)|
    ensures var ts := Tokenise(body, 0, StripTags, lib);
            SpanOverruns(body, lib, ts[i].from, ts[j].to) <==> SomePanics(body, 0, lib, ts[i..j + 1], ts[j].to)
  {
    hide Tokenise, PanicsAt;
    var ts := Tokenise(body, 0, StripTags, lib);
    TokensOrdered(body, 0, StripTags, lib);
    InSpan(ts, |body|, i, j);
    var m, e := ts[i..j + 1], ts[j].to;
    assert forall k | 0 <= k < |m| :: m[k] == ts[i + k];
    if k :| 0 <= k < |ts| && ts[i].from <= ts[k].from && ts[k].to <= e && PanicsAt(body, lib, ts[k].from, e) {
      assert PanicsAt(body, lib, m[k - i].from - 0, e - 0);
    }
  }

  /** A cut whose tokens are kept runs out of range exactly at those. */
  lemma CutPanics(body: seq<byte>, lib: Library, i: nat, j: nat)
    requires i <= j < |Tokenise(body, 0, StripTags, lib)|
    requires var ts := Tokenise(body, 0, StripTags, lib); SpanKept(body, StripTags, lib, ts[i].from, ts[j].to)
    ensures var ts := Tokenise(body, 0, StripTags, lib);
            && ts[i].from < ts[j].to <= |body|
            && (Panics(body[ts[i].from..ts[j].to], lib) <==> SpanOverruns(body, lib, ts[i].from, ts[j].to))
  {
    hide Tokenise, PanicsAt, SpanKept, AllKept, Panics, SomePanics, SpanOverruns;
    var ts := Tokenise(body, 0, StripTags, lib);
    TokensOrdered(body, 0, StripTags, lib);
    SpanOfTokens(body, StripTags, lib, i, j);
    TokensOfCut(body, StripTags, lib, i, j);
    SpanOverrunsTokens(body, lib, i, j);
    var s, e, m := ts[i].from, ts[j].to, ts[i..j + 1];
    PanicsAtTokens(body[s..e], s, lib);
    InSpan(ts, |body|, i, j);
    assert forall k | 0 <= k < |m| :: m[k] == ts[i + k] && s <= m[k].from <= e;
    SomePanicsWithin(body, 0, lib, s, e, m);
  }

  lemma SliceOfSlice(b: seq<byte>, from: nat, to: nat, i: nat, n: nat)
    requires from <= to <= |b| && i <= n <= to - from
    ensures b[from..to][i..n] == b[from + i..from + n]
  {
    var x, y := b[from..to][i..n], b[from + i..from + n];
    assert |x| == |y|;
    assert forall k | 0 <= k < |x| :: x[k] == b[from..to][i + k] == b[from + i + k] == y[k];
  }

  /** Where a page starts does not change what it renders to. */
  lemma {:induction false} TokensShift(b: seq<byte>, o1: nat, o2: nat, mode: TagMode, lib: Library)
    ensures var x, y := Tokenise(b, o1, mode, lib), Tokenise(b, o2, mode, lib);
            |x| == |y| && forall k | 0 <= k < |x| :: x[k].text == y[k].text
    decreases |b|
  {
    hide Step;
    if b != [] {
      var size := Step(b, mode, lib).size;
      TokensShift(b[size..], o1 + size, o2 + size, mode, lib);
    }
  }

  lemma BytesOfSum(x: seq<Cell>, y: seq<Cell>)
    ensures Bytes(x + y) == Bytes(x) + Bytes(y)
  {
  }

  lemma EmitRuneShift(r: int, f1: nat, t1: nat, f2: nat, t2: nat, inSpace: bool)
    ensures var x, y := EmitRune(r, f1, t1, inSpace), EmitRune(r, f2, t2, inSpace);
            Bytes(x.cells) == Bytes(y.cells) && x.inSpace == y.inSpace
  {
    hide IsSpace, EncodeRune;
  }

  lemma {:induction false} EmitRunesShift(rs: seq<int>, f1: nat, t1: nat, f2: nat, t2: nat, inSpace: bool)
    ensures var x, y := EmitRunes(rs, f1, t1, inSpace), EmitRunes(rs, f2, t2, inSpace);
            Bytes(x.cells) == Bytes(y.cells) && x.inSpace == y.inSpace
  {
    hide EmitRune, Bytes;
    if rs != [] {
      EmitRuneShift(rs[0], f1, t1, f2, t2, inSpace);
      var x, y := EmitRune(rs[0], f1, t1, inSpace), EmitRune(rs[0], f2, t2, inSpace);
      EmitRunesShift(rs[1..], f1, t1, f2, t2, x.inSpace);
      BytesOfSum(x.cells, EmitRunes(rs[1..], f1, t1, x.inSpace).cells);
      BytesOfSum(y.cells, EmitRunes(rs[1..], f2, t2, x.inSpace).cells);
    }
  }

  lemma {:induction false} RenderShift(x: seq<Placed>, y: seq<Placed>, inSpace: bool)
    requires |x| == |y| && forall k | 0 <= k < |x| :: x[k].text == y[k].text
    ensures Bytes(Render(x, inSpace).cells) == Bytes(Render(y, inSpace).cells)
  {
    if x != [] {
      if x[0].text.Chars? {
        EmitRunesShift(x[0].text.rs, x[0].from, x[0].to, y[0].from, y[0].to, inSpace);
      }
      var e := EmitText(x[0].text, x[0].from, x[0].to, inSpace);
      var f := EmitText(y[0].text, y[0].from, y[0].to, inSpace);
      assert Bytes(e.cells) == Bytes(f.cells) && e.inSpace == f.inSpace;
      RenderShift(x[1..], y[1..], e.inSpace);
      BytesOfSum(e.cells, Render(x[1..], e.inSpace).cells);
      BytesOfSum(f.cells, Render(y[1..], e.inSpace).cells);
    }
  }

  function DropBlank(cs: seq<Cell>): seq<Cell> {
    if cs != [] && cs[0].c == SPACE then cs[1..] else cs
  }

  /** Starting after white space loses a leading blank and nothing else. */
  lemma {:induction false} EmitRunesFresh(rs: seq<int>, from: nat, to: nat, inSpace: bool)
    ensures var x, y := EmitRunes(rs, from, to, true), EmitRunes(rs, from, to, inSpace);
            x.cells == DropBlank(y.cells) && (y.cells != [] ==> x.inSpace == y.inSpace)
  {
    if rs != [] {
      EncodingShape(rs[0]);
      EmitRunesShape(rs[1..], from, to, true);
    }
  }

  lemma EmitTextFresh(t: Placed, inSpace: bool)
    requires Sound(t.text)
    ensures var x, y := EmitText(t.text, t.from, t.to, true), EmitText(t.text, t.from, t.to, inSpace);
            && x.cells == DropBlank(y.cells)
            && (if y.cells == [] then x.inSpace && y.inSpace == inSpace else x.inSpace == y.inSpace)
            && (x.cells == [] && y.cells != [] ==> x.inSpace)
  {
    EmitTextShape(t.text, t.from, t.to, inSpace);
    EmitTextShape(t.text, t.from, t.to, true);
    if t.text.Chars? {
      EmitRunesFresh(t.text.rs, t.from, t.to, inSpace);
    }
  }

  lemma {:induction false} RenderFresh(ts: seq<Placed>, off: nat, end: nat, inSpace: bool)
    requires Ordered(ts, off, end) && off <= end
    ensures Render(ts, true).cells == DropBlank(Render(ts, inSpace).cells)
  {
    hide EmitText;
    if ts != [] {
      var t := ts[0];
      EmitTextFresh(t, inSpace);
      var x := EmitText(t.text, t.from, t.to, true);
      var y := EmitText(t.text, t.from, t.to, inSpace);
      if y.cells == [] {
        RenderFresh(ts[1..], t.to, end, inSpace);
      } else {
        assert DropBlank(y.cells + Render(ts[1..], y.inSpace).cells) == DropBlank(y.cells) + Render(ts[1..], y.inSpace).cells;
      }
    }
  }

  lemma {:induction false} RenderOfSum(x: seq<Placed>, y: seq<Placed>, inSpace: bool)
    ensures var e := Render(x, inSpace);
            Render(x + y, inSpace) == Emitted(e.cells + Render(y, e.inSpace).cells, Render(y, e.inSpace).inSpace)
  {
    hide EmitText;
    if x == [] {
      assert x + y == y;
    } else {
      var e := EmitText(x[0].text, x[0].from, x[0].to, inSpace);
      assert (x + y)[0] == x[0] && (x + y)[1..] == x[1..] + y;
      RenderOfSum(x[1..], y, e.inSpace);
      var m := Render(x[1..], e.inSpace);
      assert e.cells + (m.cells + Render(y, m.inSpace).cells) == (e.cells + m.cells) + Render(y, m.inSpace).cells;
    }
  }

  /** The token a rendered byte came from. */
  lemma {:induction false} Owner(ts: seq<Placed>, inSpace: bool, k: nat) returns (a: nat)
    requires (forall j | 0 <= j < |ts| :: Sound(ts[j].text))
    requires k < |Render(ts, inSpace).cells|
    ensures a < |ts|
    ensures |Render(ts[..a], inSpace).cells| <= k < |Render(ts[..a + 1], inSpace).cells|
    ensures Render(ts, inSpace).cells[k].start == ts[a].from && Render(ts, inSpace).cells[k].end == ts[a].to
  {
    hide EmitText, Render;
    NothingRendered(inSpace);
    assert ts != [] by { assert ts == [] || ts != []; }
    var t := ts[0];
    var e := EmitText(t.text, t.from, t.to, inSpace);
    EmitTextShape(t.text, t.from, t.to, inSpace);
    RenderFirst(ts, inSpace);
    if k < |e.cells| {
      a := 0;
      assert ts[..0] == [] && ts[..1][1..] == [];
      RenderFirst(ts[..1], inSpace);
      NothingRendered(e.inSpace);
    } else {
      a := Owner(ts[1..], e.inSpace, k - |e.cells|);
      RenderFirst(ts[..a + 1], inSpace);
      RenderFirst(ts[..a + 2], inSpace);
      assert ts[1..][..a] == ts[..a + 1][1..] && ts[1..][..a + 1] == ts[..a + 2][1..];
      a := a + 1;
    }
  }

  lemma RenderFirst(ts: seq<Placed>, inSpace: bool)
    requires ts != []
    ensures var e := EmitText(ts[0].text, ts[0].from, ts[0].to, inSpace);
            Render(ts, inSpace).cells == e.cells + Render(ts[1..], e.inSpace).cells
  {
    hide EmitText;
  }

  lemma NothingRendered(inSpace: bool)
    ensures Render([], inSpace).cells == []
  {
  }

  lemma BytesOfTrim(cs: seq<Cell>)
    ensures Bytes(TrimRight(cs)) == TrimRightBytes(Bytes(cs))
  {
    var t, v := TrimRight(cs), TrimRightBytes(Bytes(cs));
    assert v != [] ==> v[|v| - 1] == cs[|v| - 1].c;
    assert t != [] ==> Bytes(cs)[|t| - 1] == t[|t| - 1].c;
  }
}
