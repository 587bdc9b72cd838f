/** Pages as they are written: what a tag, a comment and a dropped element look like, and what a page
    written from such pieces, references and text renders to. Nothing here says how they are looked
    for (internal/provenance/assertion.go). */
module Pages {
  import opened Utf8
  import opened Search
  import opened Folding
  import opened Tokens
  import opened Projection
  import opened Normalising
  import opened Citation
  import opened Wrappers

  // ---- Tags ----

  predicate IsQuote(c: byte) {
    c == 0x22 || c == 0x27
  }

  /** Bytes that are neither quotes nor '>', and stretches from a quote to the next one like it. */
  ghost predicate InTag(s: seq<byte>)
    decreases |s|
  {
    || s == []
    || (!IsQuote(s[0]) && s[0] != 0x3E && InTag(s[1..]))
    || (IsQuote(s[0]) && exists k :: 0 < k < |s| && s[k] == s[0] && s[0] !in s[1..k] && InTag(s[k + 1..]))
  }

  /** The first `e` bytes are a tag, whatever its first byte. */
  ghost predicate IsTag(b: seq<byte>, e: int) {
    1 < e <= |b| && b[e - 1] == 0x3E && InTag(b[1..e - 1])
  }

  /** The rest of a quoted stretch, and what may follow it in a tag. */
  ghost predicate InQuote(q: byte, s: seq<byte>) {
    exists k :: 0 <= k < |s| && s[k] == q && q !in s[..k] && InTag(s[k + 1..])
  }

  lemma InQuoteStep(q: byte, s: seq<byte>)
    ensures InQuote(q, s) <==> s != [] && (if s[0] == q then InTag(s[1..]) else InQuote(q, s[1..]))
  {
    hide InTag;
    if k :| 0 <= k < |s| && s[k] == q && q !in s[..k] && InTag(s[k + 1..]) {
      if k > 0 {
        assert s[..k][0] == s[0];
        assert s[1..][k - 1] == q && s[1..][..k - 1] == s[..k][1..] && s[1..][k..] == s[k + 1..];
      }
    }
    if s != [] && s[0] == q && InTag(s[1..]) {
      assert s[0] == q && q !in s[..0] && InTag(s[0 + 1..]);
    }
    if s != [] && s[0] != q && InQuote(q, s[1..]) {
      var k :| 0 <= k < |s[1..]| && s[1..][k] == q && q !in s[1..][..k] && InTag(s[1..][k + 1..]);
      assert s[..k + 1] == [s[0]] + s[1..][..k] && s[k + 1] == q && s[1..][k + 1..] == s[k + 2..];
    }
  }

  lemma InTagStep(s: seq<byte>)
    requires s != []
    ensures InTag(s) <==> if IsQuote(s[0]) then InQuote(s[0], s[1..]) else s[0] != 0x3E && InTag(s[1..])
  {
    if IsQuote(s[0]) {
      if InTag(s) {
        var k :| 0 < k < |s| && s[k] == s[0] && s[0] !in s[1..k] && InTag(s[k + 1..]);
        assert s[1..][k - 1] == s[0] && s[1..][..k - 1] == s[1..k] && s[1..][k..] == s[k + 1..];
      }
      if InQuote(s[0], s[1..]) {
        var k :| 0 <= k < |s[1..]| && s[1..][k] == s[0] && s[0] !in s[1..][..k] && InTag(s[1..][k + 1..]);
        assert s[k + 1] == s[0] && s[1..k + 1] == s[1..][..k] && s[k + 2..] == s[1..][k + 1..];
      }
    }
  }

  /** The scan from `j` on, in a quote or outside, against what it is to find. */
  lemma {:induction false} TagEndFinds(b: seq<byte>, j: nat, quote: byte, e: int)
    requires quote == 0 || IsQuote(quote)
    ensures TagEnd(b, j, quote) == Some(e) <==>
            j < e <= |b| && b[e - 1] == 0x3E && if quote == 0 then InTag(b[j..e - 1]) else InQuote(quote, b[j..e - 1])
    decreases |b| - j
  {
    hide InTag, InQuote;
    if j < |b| {
      TagEndFinds(b, j + 1, if quote == 0 then (if IsQuote(b[j]) then b[j] else 0) else if b[j] == quote then 0 else quote, e);
      if j + 1 < e <= |b| {
        assert b[j..e - 1][0] == b[j] && b[j..e - 1][1..] == b[j + 1..e - 1];
        InTagStep(b[j..e - 1]);
        InQuoteStep(quote, b[j..e - 1]);
      } else if e == j + 1 {
        assert b[j..j] == [];
        NothingInTag();
        InQuoteStep(quote, []);
      }
    }
  }

  lemma NothingInTag()
    ensures InTag([])
  {
  }

  /** Outside comments, a tag ends at `e` if and only if it is one: so the first '>' that no quote
      shields is its end, and without one there is no tag. */
  lemma TagIs(b: seq<byte>, e: int)
    requires !([0x3C, 0x21, 0x2D, 0x2D] <= b)
    ensures SkipTag(b) == Some(e) <==> IsTag(b, e)
  {
    hide InTag, InQuote;
    TagEndFinds(b, 1, 0, e);
  }

  lemma NoTagIs(b: seq<byte>)
    requires !([0x3C, 0x21, 0x2D, 0x2D] <= b)
    ensures SkipTag(b) == None <==> forall e :: !IsTag(b, e)
  {
    hide IsTag, SkipTag;
    if SkipTag(b).Some? {
      TagIs(b, SkipTag(b).value);
    }
    forall e
      ensures IsTag(b, e) ==> SkipTag(b) == Some(e)
    {
      TagIs(b, e);
    }
  }

  // ---- Comments ----

  predicate ClosesAt(b: seq<byte>, k: int) {
    3 <= k <= |b| && b[k - 3..k] == [0x2D, 0x2D, 0x3E]
  }

  /** The first `e` bytes are a comment: it ends with the first "-->" behind its opening. */
  ghost predicate IsComment(b: seq<byte>, e: int) {
    && 7 <= e && [0x3C, 0x21, 0x2D, 0x2D] <= b && ClosesAt(b, e)
    && forall k | 7 <= k < e :: !ClosesAt(b, k)
  }

  lemma CommentIs(b: seq<byte>, e: int)
    requires [0x3C, 0x21, 0x2D, 0x2D] <= b
    ensures SkipTag(b) == Some(e) <==> IsComment(b, e)
  {
    hide Index, ClosesAt;
    var rest, needle := b[4..], COMMENT_CLOSE;
    var j := Index(rest, needle);
    assert b[..4] == COMMENT_OPEN;
    IndexMatches(rest, needle);
    forall k | k >= 7 && ClosesAt(b, k)
      ensures 0 <= j <= k - 7
    {
      ClosingMatches(b, k);
      IndexLeast(rest, needle, k - 7);
    }
    if j >= 0 {
      ClosingMatches(b, j + 7);
    }
  }

  lemma ClosingMatches(b: seq<byte>, k: int)
    requires 4 <= |b|
    ensures k >= 7 ==> (ClosesAt(b, k) <==> MatchAt(b[4..], COMMENT_CLOSE, k - 7))
  {
    if 7 <= k <= |b| {
      assert b[4..][k - 7..k - 7 + 3] == b[k - 3..k];
    }
  }

  // ---- Elements ----

  /** The elements whose contents are not text. */
  function Dropped(): seq<string> {
    ["script", "style", "noscript", "svg", "iframe", "form", "button", "template"]
  }

  /** '<' and the name, in any case, with nothing behind it that could belong to it. */
  predicate IsOpening(b: seq<byte>, name: string) {
    var n := 1 + |name|;
    && n <= |b| && b[0] == 0x3C
    && (forall k | 0 <= k < |name| :: IsLetter(b[k + 1], name[k]))
    && (n < |b| ==> b[n] == 0x20 || 0x09 <= b[n] <= 0x0D || b[n] == 0x3E || b[n] == 0x2F)
  }

  predicate SmallLetters(name: string) {
    forall k | 0 <= k < |name| :: 'a' <= name[k] <= 'z'
  }

  function Spelled(name: string): (b: seq<byte>)
    requires SmallLetters(name)
    ensures |b| == |name| && forall k | 0 <= k < |name| :: b[k] == name[k] as int
  {
    seq(|name|, i requires 0 <= i < |name| => name[i] as int)
  }

  /** "</" and the name. */
  function Ending(name: string): (b: seq<byte>)
    requires SmallLetters(name)
  {
    [0x3C, 0x2F] + Spelled(name)
  }

  /** The first `e` bytes are the element: from its opening to the first '>' behind the offset at
      which the folded copy first has its closing tag. */
  ghost predicate IsElement(b: seq<byte>, fold: int -> int, name: string, e: int)
    requires SmallLetters(name)
  {
    IsOpening(b, name) && exists i :: FirstAt(FoldAll(b, fold), Ending(name), i) && EndsAt(b, i + 2 + |name|, e)
  }

  ghost predicate FirstAt(h: seq<byte>, n: seq<byte>, i: int) {
    MatchAt(h, n, i) && forall k | 0 <= k < i :: !MatchAt(h, n, k)
  }

  /** The first '>' from `after` on ends at `e`. */
  ghost predicate EndsAt(b: seq<byte>, after: int, e: int) {
    0 <= after < e <= |b| && b[e - 1] == 0x3E && 0x3E !in b[after..e - 1]
  }

  lemma OpeningIs(b: seq<byte>, name: string)
    requires SmallLetters(name)
    ensures Opens(b, Spelled(name)) <==> IsOpening(b, name)
  {
    hide Lower, IsLetter;
    var n := 1 + |name|;
    if n <= |b| {
      SameLower(b[..n], [LT] + Spelled(name));
      LettersAlike(b, name);
    }
  }

  lemma SameLower(s: seq<byte>, t: seq<byte>)
    requires |s| == |t|
    ensures Lower(s) == Lower(t) <==> forall k | 0 <= k < |s| :: LowerByte(s[k]) == LowerByte(t[k])
  {
    hide LowerByte;
    if forall k | 0 <= k < |s| :: LowerByte(s[k]) == LowerByte(t[k]) {
      assert forall k | 0 <= k < |s| :: Lower(s)[k] == Lower(t)[k];
    }
    if Lower(s) == Lower(t) {
      forall k | 0 <= k < |s|
        ensures LowerByte(s[k]) == LowerByte(t[k])
      {
        assert Lower(s)[k] == Lower(t)[k];
      }
    }
  }

  lemma LettersAlike(b: seq<byte>, name: string)
    requires SmallLetters(name) && 1 + |name| <= |b|
    ensures (forall k | 0 <= k < 1 + |name| :: LowerByte(b[..1 + |name|][k]) == LowerByte(([LT] + Spelled(name))[k]))
            <==> b[0] == 0x3C && forall k | 0 <= k < |name| :: IsLetter(b[k + 1], name[k])
  {
    var n, want := 1 + |name|, [LT] + Spelled(name);
    forall k | 0 <= k < |name|
      ensures LowerByte(b[k + 1]) == LowerByte(want[k + 1]) <==> IsLetter(b[k + 1], name[k])
    {
      assert want[k + 1] == Spelled(name)[k];
    }
    if forall k | 0 <= k < n :: LowerByte(b[..n][k]) == LowerByte(want[k]) {
      assert LowerByte(b[..n][0]) == LowerByte(want[0]);
      forall k | 0 <= k < |name|
        ensures IsLetter(b[k + 1], name[k])
      {
        assert b[..n][k + 1] == b[k + 1];
      }
    }
    if b[0] == 0x3C && forall k | 0 <= k < |name| :: IsLetter(b[k + 1], name[k]) {
      forall k | 0 <= k < n
        ensures LowerByte(b[..n][k]) == LowerByte(want[k])
      {
        assert k > 0 ==> IsLetter(b[k - 1 + 1], name[k - 1]);
      }
    }
  }

  lemma FirstIsIndex(h: seq<byte>, n: seq<byte>, i: int)
    ensures FirstAt(h, n, i) <==> i >= 0 && Index(h, n) == i
  {
    hide Index, MatchAt;
    IndexMatches(h, n);
    if FirstAt(h, n, i) {
      MatchInside(h, n, i);
      IndexLeast(h, n, i);
    }
    forall k | 0 <= k < i && MatchAt(h, n, k)
      ensures 0 <= Index(h, n) <= k
    {
      IndexLeast(h, n, k);
    }
  }

  lemma MatchInside(h: seq<byte>, n: seq<byte>, i: int)
    requires MatchAt(h, n, i)
    ensures i >= 0
  {
  }

  lemma PastGtIs(b: seq<byte>, after: nat, e: int)
    requires after <= |b|
    ensures PastGt(b, after) == Some(e) <==> EndsAt(b, after, e)
  {
    hide Index, FirstAt;
    var i := e - 1 - after;
    FirstIsIndex(b[after..], [GT], i);
    FirstByte(b[after..], GT, i);
    if i >= 0 {
      assert i < |b[after..]| ==> b[after..][i] == b[e - 1];
      assert e <= |b| ==> b[after..][..i] == b[after..e - 1];
    }
  }

  lemma FirstByte(h: seq<byte>, c: byte, i: int)
    ensures FirstAt(h, [c], i) <==> 0 <= i < |h| && h[i] == c && c !in h[..i]
  {
    forall k | 0 <= k < |h|
      ensures MatchAt(h, [c], k) <==> h[k] == c
    {
      assert h[k..k + 1] == [h[k]];
    }
    if FirstAt(h, [c], i) {
      assert 0 <= i < |h| && MatchAt(h, [c], i);
      assert forall k | 0 <= k < i :: h[k] == c ==> MatchAt(h, [c], k);
    }
    if 0 <= i < |h| && h[i] == c && c !in h[..i] {
      forall k | 0 <= k < i
        ensures !MatchAt(h, [c], k)
      {
        assert h[..i][k] == h[k];
      }
    }
  }

  /** When the name opens, the element ends at `e` if and only if it is one. */
  lemma NamedElementIs(b: seq<byte>, fold: int -> int, name: string, e: int)
    requires SmallLetters(name) && IsOpening(b, name)
    ensures ElementEnd(b, Spelled(name), fold) == Some(e) <==> IsElement(b, fold, name, e)
  {
    hide FoldAll, Index, IsOpening, PastGt, FirstAt, EndsAt;
    var f, n := FoldAll(b, fold), Ending(name);
    var idx := ClosingTag(b, Spelled(name), fold);
    var after := idx + 2 + |name|;
    TagIsAt(b, fold, name);
    EndsInside(b, after, e);
    if 0 <= idx && after <= |b| {
      PastGtIs(b, after, e);
    }
    if IsElement(b, fold, name, e) {
      var i :| FirstAt(f, n, i) && EndsAt(b, i + 2 + |name|, e);
      assert i == idx;
    }
    if idx >= 0 {
      assert FirstAt(f, n, idx);
    }
  }

  lemma TagIsAt(b: seq<byte>, fold: int -> int, name: string)
    requires SmallLetters(name)
    ensures forall i :: FirstAt(FoldAll(b, fold), Ending(name), i) <==> i >= 0 && ClosingTag(b, Spelled(name), fold) == i
  {
    hide FoldAll, Index, FirstAt;
    forall i
      ensures FirstAt(FoldAll(b, fold), Ending(name), i) <==> i >= 0 && ClosingTag(b, Spelled(name), fold) == i
    {
      FirstIsIndex(FoldAll(b, fold), Ending(name), i);
    }
  }

  lemma EndsInside(b: seq<byte>, after: int, e: int)
    ensures EndsAt(b, after, e) ==> 0 <= after < |b|
  {
  }

  lemma DroppedNames()
    ensures |Dropped()| == |NON_TEXT_ELEMENTS| && forall x | x in Dropped() :: SmallLetters(x)
    ensures forall k | 0 <= k < |Dropped()| :: NON_TEXT_ELEMENTS[k] == Spelled(Dropped()[k])
  {
  }

  /** An element is dropped with its contents if and only if it is one of the eight. */
  lemma ElementIs(b: seq<byte>, fold: int -> int, e: int)
    ensures (forall x | x in Dropped() :: SmallLetters(x))
    ensures SkipElement(b, NON_TEXT_ELEMENTS, fold) == Some(e) <==> exists x :: x in Dropped() && IsElement(b, fold, x, e)
  {
    hide Opens, ElementEnd, Dropped, Spelled, SmallLetters;
    DroppedNames();
    NonTextNames();
    if SkipElement(b, NON_TEXT_ELEMENTS, fold) == Some(e) {
      var k := SkipElementFinds(b, NON_TEXT_ELEMENTS, fold);
      OpeningIs(b, Dropped()[k]);
      NamedElementIs(b, fold, Dropped()[k], e);
    }
    if x :| x in Dropped() && IsElement(b, fold, x, e) {
      var k :| 0 <= k < |Dropped()| && Dropped()[k] == x;
      OpeningIs(b, x);
      NamedElementIs(b, fold, x, e);
      SkipElementByName(b, NON_TEXT_ELEMENTS, fold, k);
    }
  }

  // ---- References ----

  predicate BreaksReference(c: byte) {
    c == 0x20 || 0x09 <= c <= 0x0D || c == 0x26 || c == 0x3B
  }

  /** The first `e` bytes are a character reference: its semicolon comes within 34 bytes, with
      nothing before it that breaks it off, and the library knows all of it. */
  ghost predicate IsReference(b: seq<byte>, lib: Library, e: int) {
    && 1 < e <= 34 && e <= |b| && b[e - 1] == 0x3B
    && (forall k | 1 <= k < e - 1 :: !BreaksReference(b[k]))
    && lib.unescape(b[..e]) != b[..e]
    && (lib.unescape(b[..e]) != [] ==> lib.unescape(b[..e])[|lib.unescape(b[..e])| - 1] != 0x3B)
  }

  lemma {:induction false} TerminatorIs(b: seq<byte>, j: nat, e: int)
    ensures Terminator(b, j) == Some(e) <==>
            j < e <= 34 && e <= |b| && b[e - 1] == 0x3B && forall k | j <= k < e - 1 :: !BreaksReference(b[k])
    decreases |b| - j
  {
    if j < |b| && j < 34 {
      TerminatorIs(b, j + 1, e);
    }
  }

  /** A reference is decoded if and only if it is one. */
  lemma ReferenceIs(b: seq<byte>, lib: Library, e: int)
    ensures DecodeEntity(b, lib) == Some(e) <==> IsReference(b, lib, e)
  {
    TerminatorIs(b, 1, e);
  }

  // ---- Text ----

  /** What text renders to, and whether it ends in white space, character by character. */
  function Read(t: seq<byte>, inSpace: bool): (seq<byte>, bool) {
    if t == [] then ([], inSpace)
    else
      var size := DecodeRune(t).size;
      var head := if HeadIsSpace(t) then (if inSpace then [] else [SPACE]) else t[..size];
      var rest := Read(t[size..], HeadIsSpace(t));
      (head + rest.0, rest.1)
  }

  lemma ReadHead(t: seq<byte>, inSpace: bool)
    requires t != []
    ensures var size := DecodeRune(t).size;
            var rest := Read(t[size..], HeadIsSpace(t));
            Read(t, inSpace) == ((if HeadIsSpace(t) then (if inSpace then [] else [SPACE]) else t[..size]) + rest.0, rest.1)
  {
  }

  lemma ReadNothing(inSpace: bool)
    ensures Read([], inSpace) == ([], inSpace)
  {
  }

  predicate Starts(x: seq<byte>) {
    x == [] || RuneStart(x[0])
  }

  /** A character is read alike whatever begins behind the text it is in. */
  lemma DecodeBeforeStart(t: seq<byte>, x: seq<byte>)
    requires t != [] && Starts(x)
    ensures DecodeRune(t + x) == DecodeRune(t) && DecodeRune(t).size <= |t|
    ensures HeadIsSpace(t + x) == HeadIsSpace(t)
    ensures (t + x)[..DecodeRune(t).size] == t[..DecodeRune(t).size]
  {
    var b := t + x;
    assert b[0] == t[0];
    assert forall k | 0 <= k < |t| :: b[k] == t[k];
    if |t| < |b| {
      assert b[|t|] == x[0];
    }
    assert StartsWellFormed(b) == StartsWellFormed(t);
  }

  lemma {:induction false} TextNormalises(t: seq<byte>, x: seq<byte>, inSpace: bool)
    requires Starts(x)
    ensures Normalise(t + x, inSpace) == Read(t, inSpace).0 + Normalise(x, Read(t, inSpace).1)
    decreases |t|
  {
    hide DecodeRune, HeadIsSpace, Normalise, Read, Starts;
    if t == [] {
      ReadNothing(inSpace);
      assert t + x == x;
    } else {
      DecodeBeforeStart(t, x);
      NormaliseHead(t + x, inSpace);
      ReadHead(t, inSpace);
      var size := DecodeRune(t).size;
      assert (t + x)[size..] == t[size..] + x;
      TextNormalises(t[size..], x, HeadIsSpace(t));
    }
  }

  /** What comes behind text ends it: markup or a reference, or nothing. */
  predicate Stops(x: seq<byte>) {
    x == [] || x[0] == 0x3C || x[0] == 0x26
  }

  lemma StopsStart(x: seq<byte>)
    requires Stops(x)
    ensures Starts(x) && SpaceRun(x) == 0
  {
    if x != [] {
      HeadBytes(x);
    }
  }

  lemma {:induction false} RunBeforeStop(t: seq<byte>, x: seq<byte>)
    requires Stops(x)
    ensures SpaceRun(t + x) == SpaceRun(t)
    decreases |t|
  {
    hide DecodeRune, IsSpace, Stops;
    StopsStart(x);
    if t == [] {
      assert t + x == x;
    } else {
      DecodeBeforeStart(t, x);
      if HeadIsSpace(t) {
        var size := DecodeRune(t).size;
        RunHead(t);
        RunHead(t + x);
        assert (t + x)[size..] == t[size..] + x;
        RunBeforeStop(t[size..], x);
      }
    }
  }

  lemma {:induction false} ReadRun(t: seq<byte>)
    ensures Read(t, true) == Read(t[SpaceRun(t)..], true)
    decreases |t|
  {
    hide DecodeRune, IsSpace, Read;
    if t != [] && HeadIsSpace(t) {
      var size := DecodeRune(t).size;
      RunHead(t);
      ReadHead(t, true);
      ReadRun(t[size..]);
      assert [] + Read(t[size..], true).0 == Read(t[size..], true).0;
      assert t[size..][SpaceRun(t[size..])..] == t[SpaceRun(t)..];
    } else {
      assert SpaceRun(t) == 0 && t[0..] == t;
    }
  }

  /** One token of text. */
  lemma TextStep(t: seq<byte>, x: seq<byte>, off: nat, inSpace: bool, mode: TagMode, lib: Library)
    requires t != [] && Stops(x) && t[0] != 0x26 && (mode.StripTags? ==> t[0] != 0x3C)
    ensures var token := Step(t + x, mode, lib);
            var e := EmitText(token.text, off, off + token.size, inSpace);
            && token.size <= |t|
            && Read(t, inSpace) == (Bytes(e.cells) + Read(t[token.size..], e.inSpace).0, Read(t[token.size..], e.inSpace).1)
  {
    hide SpaceRun, Read, Step, EmitText, Stops;
    var b := t + x;
    StopsStart(x);
    DecodeBeforeStart(t, x);
    assert b[0] == t[0];
    PlainStep(b, mode, lib);
    ReadHead(t, inSpace);
    var d := DecodeRune(t);
    if Invalid(d) {
      RawEmits(t[0], off, inSpace);
      assert t[..1] == [t[0]] && Bytes([Cell(t[0], off, off + 1)]) == [t[0]];
    } else if IsSpace(d.r) {
      RunBeforeStop(t, x);
      RunHead(t);
      ReadRun(t[d.size..]);
      assert t[d.size..][SpaceRun(t[d.size..])..] == t[SpaceRun(t)..];
      BlankEmits(off, off + SpaceRun(t), inSpace);
      assert Bytes([]) == [] && Bytes([Cell(SPACE, off, off + SpaceRun(t))]) == [SPACE];
    } else {
      EncodeDecoded(t);
      CharEmits(d.r, off, off + d.size, inSpace);
      assert Bytes(From(t[..d.size], off, off + d.size)) == t[..d.size];
    }
  }

  lemma RawEmits(c: byte, off: nat, inSpace: bool)
    ensures EmitText(RawByte(c), off, off + 1, inSpace) == Emitted([Cell(c, off, off + 1)], false)
  {
  }

  ghost predicate PlainText(t: seq<byte>, mode: TagMode) {
    0x26 !in t && (mode.StripTags? ==> 0x3C !in t)
  }

  lemma {:induction false} TextRenders(t: seq<byte>, x: seq<byte>, off: nat, inSpace: bool, mode: TagMode, lib: Library)
    requires PlainText(t, mode) && Stops(x)
    ensures Bytes(Render(Tokenise(t + x, off, mode, lib), inSpace).cells)
         == Read(t, inSpace).0 + Bytes(Render(Tokenise(x, off + |t|, mode, lib), Read(t, inSpace).1).cells)
    decreases |t|
  {
    hide Step, EmitText, Read, Render, Tokenise, Bytes, Stops;
    if t == [] {
      ReadNothing(inSpace);
      assert t + x == x;
    } else {
      assert t[0] in t;
      TextStep(t, x, off, inSpace, mode, lib);
      RenderHead(t + x, off, inSpace, mode, lib);
      var token := Step(t + x, mode, lib);
      var e := EmitText(token.text, off, off + token.size, inSpace);
      var rest := t[token.size..];
      assert (t + x)[token.size..] == rest + x;
      assert forall c | c in rest :: c in t;
      TextRenders(rest, x, off + token.size, e.inSpace, mode, lib);
      BytesOfSum(e.cells, Render(Tokenise(rest + x, off + token.size, mode, lib), e.inSpace).cells);
    }
  }

  // ---- Words ----

  /** Every character is white space. */
  predicate AllWhite(g: seq<byte>)
    decreases |g|
  {
    g == [] || (HeadIsSpace(g) && AllWhite(g[DecodeRune(g).size..]))
  }

  /** Words with white space around and between them. */
  function Spread(ws: seq<seq<byte>>, gaps: seq<seq<byte>>): seq<byte>
    requires |gaps| == |ws| + 1
  {
    if ws == [] then gaps[0] else gaps[0] + (ws[0] + Spread(ws[1..], gaps[1..]))
  }

  /** Words with one blank between them. */
  function Joined(ws: seq<seq<byte>>): seq<byte> {
    if ws == [] then [] else if |ws| == 1 then ws[0] else ws[0] + ([0x20] + Joined(ws[1..]))
  }

  /** Words without white space, and white space that keeps them apart. */
  ghost predicate AreWords(ws: seq<seq<byte>>, gaps: seq<seq<byte>>) {
    && |gaps| == |ws| + 1
    && (forall i | 0 <= i < |ws| :: ws[i] != [] && NoWhite(ws[i]))
    && (forall i | 0 <= i < |gaps| :: AllWhite(gaps[i]))
    && (forall i | 0 < i < |ws| :: gaps[i] != [])
  }

  lemma WhiteStarts(g: seq<byte>, x: seq<byte>)
    requires g != [] && HeadIsSpace(g)
    ensures RuneStart(g[0]) && HeadIsSpace(g + x) && DecodeRune(g + x) == DecodeRune(g)
  {
    EncodeDecoded(g);
    var d := DecodeRune(g);
    EncodingShape(d.r);
    assert g + x == EncodeRune(d.r) + (g[d.size..] + x);
    DecodeEncoded(d.r, g[d.size..] + x);
    DecodeEncoded(d.r, g[d.size..]);
    assert g == EncodeRune(d.r) + g[d.size..];
  }

  lemma {:induction false} WhiteNormalises(g: seq<byte>, x: seq<byte>, inSpace: bool)
    requires AllWhite(g)
    ensures Normalise(g + x, inSpace) == if g == [] then Normalise(x, inSpace) else (if inSpace then [] else [SPACE]) + Normalise(x, true)
    decreases |g|
  {
    hide DecodeRune, HeadIsSpace, Normalise;
    if g == [] {
      assert g + x == x;
    } else {
      var size := DecodeRune(g).size;
      WhiteStarts(g, x);
      NormaliseHead(g + x, inSpace);
      assert (g + x)[size..] == g[size..] + x;
      WhiteNormalises(g[size..], x, true);
    }
  }

  lemma {:induction false} WordNormalises(w: seq<byte>, x: seq<byte>, inSpace: bool)
    requires NoWhite(w) && Starts(x)
    ensures Normalise(w + x, inSpace) == w + Normalise(x, if w == [] then inSpace else false)
    decreases |w|
  {
    hide DecodeRune, HeadIsSpace, Normalise, Starts;
    if w == [] {
      assert w + x == x;
    } else {
      var size := DecodeRune(w).size;
      DecodeBeforeStart(w, x);
      NormaliseHead(w + x, inSpace);
      assert (w + x)[size..] == w[size..] + x;
      WordNormalises(w[size..], x, false);
      assert w[..size] + w[size..] == w;
    }
  }

  lemma {:induction false} WordEnds(w: seq<byte>)
    requires w != [] && NoWhite(w)
    ensures w[|w| - 1] != SPACE
    decreases |w|
  {
    hide DecodeRune, HeadIsSpace;
    HeadBytes(w);
    var size := DecodeRune(w).size;
    if size < |w| {
      WordEnds(w[size..]);
    } else {
      assert w[..size] == w && w[|w| - 1] in w;
    }
  }

  lemma SpreadStarts(ws: seq<seq<byte>>, gaps: seq<seq<byte>>)
    requires AreWords(ws, gaps) && (ws != [] ==> gaps[0] != [])
    ensures Starts(Spread(ws, gaps))
  {
    if gaps[0] != [] {
      assert AllWhite(gaps[0]);
      WhiteStarts(gaps[0], []);
    }
  }

  /** What the words leave behind, the white space at the end not yet trimmed. */
  function Untrimmed(ws: seq<seq<byte>>, gaps: seq<seq<byte>>): seq<byte>
    requires |gaps| == |ws| + 1
  {
    Joined(ws) + if ws != [] && gaps[|ws|] != [] then [SPACE] else []
  }

  function Gap(gap: seq<byte>, inSpace: bool): seq<byte> {
    if gap != [] && !inSpace then [SPACE] else []
  }

  lemma {:induction false} SpreadNormalises(ws: seq<seq<byte>>, gaps: seq<seq<byte>>, inSpace: bool)
    requires AreWords(ws, gaps)
    ensures Normalise(Spread(ws, gaps), inSpace) == Gap(gaps[0], inSpace) + Untrimmed(ws, gaps)
  {
    hide Normalise, NoWhite, AllWhite, Starts, Untrimmed, Gap;
    if ws == [] {
      GapNormalises(gaps[0], inSpace);
      NoWords(gaps);
    } else {
      WordsTail(ws, gaps);
      SpreadStarts(ws[1..], gaps[1..]);
      SpreadNormalises(ws[1..], gaps[1..], false);
      var rest := Spread(ws[1..], gaps[1..]);
      GapThenWord(gaps[0], ws[0], rest, inSpace);
      JoinedHead(ws, gaps);
    }
  }

  lemma GapNormalises(gap: seq<byte>, inSpace: bool)
    requires AllWhite(gap)
    ensures Normalise(gap, inSpace) == Gap(gap, inSpace)
  {
    hide Normalise, AllWhite;
    WhiteNormalises(gap, [], inSpace);
    assert gap + [] == gap;
    EmptyNormalises(inSpace);
    EmptyNormalises(true);
  }

  lemma NoWords(gaps: seq<seq<byte>>)
    requires |gaps| == 1
    ensures Untrimmed([], gaps) == []
  {
  }

  lemma GapThenWord(gap: seq<byte>, w: seq<byte>, rest: seq<byte>, inSpace: bool)
    requires AllWhite(gap) && w != [] && NoWhite(w) && Starts(rest)
    ensures Normalise(gap + (w + rest), inSpace) == Gap(gap, inSpace) + (w + Normalise(rest, false))
  {
    hide Normalise, AllWhite, NoWhite, Starts;
    WhiteNormalises(gap, w + rest, inSpace);
    WordNormalises(w, rest, inSpace);
    WordNormalises(w, rest, true);
  }

  lemma WordsTail(ws: seq<seq<byte>>, gaps: seq<seq<byte>>)
    requires AreWords(ws, gaps) && ws != []
    ensures AreWords(ws[1..], gaps[1..]) && NoWhite(ws[0]) && ws[0] != [] && (ws[1..] != [] ==> gaps[1] != [])
    ensures gaps[1..][0] == gaps[1] && gaps[1..][|ws| - 1] == gaps[|ws|]
  {
    hide NoWhite, AllWhite;
    assert forall i | 0 <= i < |ws[1..]| :: ws[1..][i] == ws[i + 1];
    assert forall i | 0 <= i < |gaps[1..]| :: gaps[1..][i] == gaps[i + 1];
  }

  lemma JoinedHead(ws: seq<seq<byte>>, gaps: seq<seq<byte>>)
    requires ws != [] && |gaps| == |ws| + 1 && (|ws| > 1 ==> gaps[1] != [])
    ensures ws[0] + (Gap(gaps[1], false) + Untrimmed(ws[1..], gaps[1..])) == Untrimmed(ws, gaps)
  {
  }

  lemma {:induction false} JoinedEnds(ws: seq<seq<byte>>)
    requires ws != [] && forall i | 0 <= i < |ws| :: ws[i] != [] && NoWhite(ws[i])
    ensures Joined(ws) != [] && Joined(ws)[|Joined(ws)| - 1] != SPACE
  {
    hide NoWhite;
    if |ws| == 1 {
      WordEnds(ws[0]);
    } else {
      assert forall i | 0 <= i < |ws[1..]| :: ws[1..][i] == ws[i + 1];
      JoinedEnds(ws[1..]);
    }
  }

  /** The characters of white space, in Latin-1 and beyond. */
  function WhiteSpace(): set<int> {
    {0x09, 0x0A, 0x0B, 0x0C, 0x0D, 0x20, 0x85, 0xA0, 0x1680,
     0x2000, 0x2001, 0x2002, 0x2003, 0x2004, 0x2005, 0x2006, 0x2007, 0x2008, 0x2009, 0x200A,
     0x2028, 0x2029, 0x202F, 0x205F, 0x3000}
  }

  function Encoded(rs: seq<int>): seq<byte> {
    if rs == [] then [] else EncodeRune(rs[0]) + Encoded(rs[1..])
  }

  lemma {:induction false} WhiteIsWhite(g: seq<int>)
    requires forall i | 0 <= i < |g| :: g[i] in WhiteSpace()
    ensures AllWhite(Encoded(g)) && (Encoded(g) == [] <==> g == [])
  {
    hide DecodeRune, EncodeRune;
    if g != [] {
      var rest := Encoded(g[1..]);
      assert g[0] in WhiteSpace();
      WhiteIsSpace(g[0]);
      EncodedReads(g[0], rest);
      WhiteIsWhite(g[1..]);
      assert (EncodeRune(g[0]) + rest)[|EncodeRune(g[0])|..] == rest;
    }
  }

  lemma WhiteIsSpace(r: int)
    requires r in WhiteSpace()
    ensures IsSpace(r)
  {
  }

  /** Words, and white space between and around them, character by character. */
  function Apart(ws: seq<seq<byte>>, gaps: seq<seq<int>>): seq<byte>
    requires |gaps| == |ws| + 1
  {
    if ws == [] then Encoded(gaps[0]) else Encoded(gaps[0]) + (ws[0] + Apart(ws[1..], gaps[1..]))
  }

  lemma {:induction false} ApartIsSpread(ws: seq<seq<byte>>, gaps: seq<seq<int>>) returns (spaces: seq<seq<byte>>)
    requires |gaps| == |ws| + 1
    ensures |spaces| == |gaps| && (forall i | 0 <= i < |gaps| :: spaces[i] == Encoded(gaps[i])) && Apart(ws, gaps) == Spread(ws, spaces)
  {
    if ws == [] {
      spaces := [Encoded(gaps[0])];
    } else {
      var rest := ApartIsSpread(ws[1..], gaps[1..]);
      spaces := [Encoded(gaps[0])] + rest;
      assert spaces[1..] == rest;
      assert forall i | 0 <= i < |gaps[1..]| :: gaps[1..][i] == gaps[i + 1];
    }
  }

  /** Normalising leaves the words, one blank between each two, and no white space besides. */
  lemma NormalisingKeepsWords(ws: seq<seq<byte>>, gaps: seq<seq<int>>)
    requires |gaps| == |ws| + 1
    requires forall i | 0 <= i < |ws| :: ws[i] != [] && NoWhite(ws[i])
    requires forall i, k | 0 <= i < |gaps| && 0 <= k < |gaps[i]| :: gaps[i][k] in WhiteSpace()
    requires forall i | 0 < i < |ws| :: gaps[i] != []
    ensures NormaliseSpace(Apart(ws, gaps)) == Joined(ws)
  {
    hide Normalise, NoWhite, AllWhite, WhiteSpace, Encoded;
    var spaces := ApartIsSpread(ws, gaps);
    forall i | 0 <= i < |gaps|
      ensures AllWhite(spaces[i]) && (spaces[i] == [] <==> gaps[i] == [])
    {
      WhiteIsWhite(gaps[i]);
    }
    SpreadNormalises(ws, spaces, true);
    var n := Normalise(Spread(ws, spaces), true);
    assert n == Untrimmed(ws, spaces);
    if ws != [] {
      JoinedEnds(ws);
      TrimStops(n, |Joined(ws)|);
    }
  }

  // ---- Pages ----

  /** A stretch of text, a tag or comment or dropped element, or a character reference. */
  datatype Piece = Text(t: seq<byte>) | Mark(m: seq<byte>) | Reference(r: seq<byte>)

  /** A tag that opens none of the dropped elements, a comment, or one of those elements. */
  ghost predicate IsMark(m: seq<byte>, fold: int -> int) {
    || (m != [] && m[0] == 0x3C && !([0x3C, 0x21, 0x2D, 0x2D] <= m) && IsTag(m, |m|) && forall x | x in Dropped() :: !IsOpening(m, x))
    || IsComment(m, |m|)
    || exists x :: x in Dropped() && SmallLetters(x) && IsElement(m, fold, x, |m|)
  }

  ghost predicate WellMade(p: Piece, mode: TagMode, lib: Library) {
    match p
    case Text(t) => PlainText(t, mode)
    case Mark(m) => mode.StripTags? && IsMark(m, lib.fold)
    case Reference(r) => r != [] && r[0] == 0x26 && IsReference(r, lib, |r|) && lib.unescape(r) != []
  }

  /** Every piece is well made, and text is in one piece. */
  ghost predicate IsPage(ps: seq<Piece>, mode: TagMode, lib: Library) {
    && (forall i | 0 <= i < |ps| :: WellMade(ps[i], mode, lib))
    && (forall i | 0 < i < |ps| :: ps[i - 1].Text? ==> !ps[i].Text?)
  }

  function Spell(p: Piece): seq<byte> {
    match p
    case Text(t) => t
    case Mark(m) => m
    case Reference(r) => r
  }

  function Written(ps: seq<Piece>): seq<byte> {
    if ps == [] then [] else Spell(ps[0]) + Written(ps[1..])
  }

  /** What a reader sees: text as it is, references as what they stand for, and a blank for markup. */
  function Seen(p: Piece, lib: Library): seq<byte> {
    match p
    case Text(t) => t
    case Mark(m) => [0x20]
    case Reference(r) => Encoded(Runes(lib.unescape(r)))
  }

  function Shown(ps: seq<Piece>, lib: Library): seq<byte> {
    if ps == [] then [] else Seen(ps[0], lib) + Shown(ps[1..], lib)
  }

  /** A page from anywhere on renders to what is shown from there on. */
  ghost predicate Renders(page: seq<byte>, shown: seq<byte>, mode: TagMode, lib: Library) {
    forall off: nat, inSpace: bool :: Bytes(Render(Tokenise(page, off, mode, lib), inSpace).cells) == Normalise(shown, inSpace)
  }

  lemma TextPiece(t: seq<byte>, page: seq<byte>, shown: seq<byte>, mode: TagMode, lib: Library)
    requires PlainText(t, mode) && Stops(page) && Starts(shown) && Renders(page, shown, mode, lib)
    ensures Renders(t + page, t + shown, mode, lib)
  {
    hide Render, Tokenise, Normalise, Read, Bytes, PlainText, Stops, Starts;
    forall off: nat, inSpace: bool
      ensures Bytes(Render(Tokenise(t + page, off, mode, lib), inSpace).cells) == Normalise(t + shown, inSpace)
    {
      TextRenders(t, page, off, inSpace, mode, lib);
      TextNormalises(t, shown, inSpace);
    }
  }

  lemma {:induction false} RunesEmit(rs: seq<int>, off: nat, to: nat, inSpace: bool, x: seq<byte>)
    ensures var e := EmitRunes(rs, off, to, inSpace);
            Normalise(Encoded(rs) + x, inSpace) == Bytes(e.cells) + Normalise(x, e.inSpace)
  {
    hide EncodeRune, DecodeRune, IsSpace, Normalise, EmitRune;
    if rs == [] {
      assert Encoded(rs) + x == x;
    } else {
      var r := rs[0];
      var b := EncodeRune(r) + (Encoded(rs[1..]) + x);
      assert Encoded(rs) + x == b;
      var e := EmitRune(r, off, to, inSpace);
      RuneEmits(r, off, to, inSpace, Encoded(rs[1..]) + x);
      RunesEmit(rs[1..], off, to, e.inSpace, x);
      BytesOfSum(e.cells, EmitRunes(rs[1..], off, to, e.inSpace).cells);
    }
  }

  lemma RuneEmits(r: int, off: nat, to: nat, inSpace: bool, x: seq<byte>)
    ensures var e := EmitRune(r, off, to, inSpace);
            Normalise(EncodeRune(r) + x, inSpace) == Bytes(e.cells) + Normalise(x, e.inSpace)
  {
    hide DecodeRune, IsSpace, Normalise, EncodeRune;
    var b := EncodeRune(r) + x;
    EncodedReads(r, x);
    NormaliseHead(b, inSpace);
    assert b[..|EncodeRune(r)|] == EncodeRune(r) && b[|EncodeRune(r)|..] == x;
    assert Bytes(From(EncodeRune(r), off, to)) == EncodeRune(r);
  }

  lemma EncodedReads(r: int, x: seq<byte>)
    ensures DecodeRune(EncodeRune(r) + x).size == |EncodeRune(r)| && HeadIsSpace(EncodeRune(r) + x) == IsSpace(r)
  {
    hide DecodeRune;
    if Scalar(r) {
      DecodeEncoded(r, x);
    } else {
      DecodeEncoded(RUNE_ERROR, x);
    }
  }

  lemma ReferencePiece(r: seq<byte>, page: seq<byte>, shown: seq<byte>, mode: TagMode, lib: Library)
    requires WellMade(Reference(r), mode, lib) && Renders(page, shown, mode, lib)
    ensures Renders(r + page, Seen(Reference(r), lib) + shown, mode, lib)
  {
    hide Render, Tokenise, Normalise, Bytes, EmitRunes, IsReference, DecodeEntity, Markup, Encoded, Runes;
    var b, n := r + page, |r|;
    ReferenceIs(r, lib, n);
    assert b[..n] == r && b[n..] == page && b[0] == r[0];
    DecodeEntityCut(b, lib, n);
    var rs := Runes(lib.unescape(r));
    assert Step(b, mode, lib) == Token(n, Chars(rs));
    forall off: nat, inSpace: bool
      ensures Bytes(Render(Tokenise(b, off, mode, lib), inSpace).cells) == Normalise(Encoded(rs) + shown, inSpace)
    {
      RunesEmit(rs, off, off + n, inSpace, shown);
      PieceRenders(b, off, inSpace, mode, lib);
    }
  }

  lemma PieceRenders(b: seq<byte>, off: nat, inSpace: bool, mode: TagMode, lib: Library)
    requires b != []
    ensures var t := Step(b, mode, lib);
            var e := EmitText(t.text, off, off + t.size, inSpace);
            Bytes(Render(Tokenise(b, off, mode, lib), inSpace).cells)
            == Bytes(e.cells) + Bytes(Render(Tokenise(b[t.size..], off + t.size, mode, lib), e.inSpace).cells)
  {
    hide Step, EmitText, Render, Tokenise, Bytes;
    RenderHead(b, off, inSpace, mode, lib);
    var t := Step(b, mode, lib);
    var e := EmitText(t.text, off, off + t.size, inSpace);
    BytesOfSum(e.cells, Render(Tokenise(b[t.size..], off + t.size, mode, lib), e.inSpace).cells);
  }

  lemma LetterThere(b: seq<byte>, name: string, k: nat)
    requires SmallLetters(name) && IsOpening(b, name) && 0 < k <= |name|
    ensures b[k] != 0x3E && b[k] != 0x21
  {
    assert IsLetter(b[k - 1 + 1], name[k - 1]);
  }

  /** An opening does not reach behind the '>' of a tag. */
  lemma OpeningInTag(m: seq<byte>, x: seq<byte>, name: string)
    requires |m| > 1 && m[|m| - 1] == 0x3E && SmallLetters(name) && IsOpening(m + x, name)
    ensures IsOpening(m, name)
  {
    var b, n := m + x, 1 + |name|;
    if n >= |m| {
      LetterThere(b, name, |m| - 1);
      assert false;
    }
    assert forall k | 0 <= k <= n :: b[k] == m[k];
    forall k | 0 <= k < |name|
      ensures IsLetter(m[k + 1], name[k])
    {
      assert IsLetter(b[k + 1], name[k]);
    }
  }

  lemma MarkIsRead(m: seq<byte>, x: seq<byte>, lib: Library)
    requires IsMark(m, lib.fold)
    ensures m != [] && m[0] == 0x3C && Markup(m + x, lib) == Some(|m|)
  {
    hide IsTag, IsComment, IsElement, IsOpening, SkipElement, SkipTag, Dropped, SmallLetters;
    var b, n := m + x, |m|;
    assert b[..n] == m;
    if e :| e in Dropped() && SmallLetters(e) && IsElement(m, lib.fold, e, n) {
      ElementIs(m, lib.fold, n);
      SkipElementCut(b, lib.fold, n);
      ElementHasLt(m, lib.fold);
    } else {
      TagOrComment(m, lib);
      SkipTagCut(b, n);
      NothingOpens(m, x, lib.fold);
    }
  }

  lemma TagOrComment(m: seq<byte>, lib: Library)
    requires IsMark(m, lib.fold) && !exists x :: x in Dropped() && SmallLetters(x) && IsElement(m, lib.fold, x, |m|)
    ensures |m| > 1 && m[0] == 0x3C && m[|m| - 1] == 0x3E && SkipTag(m) == Some(|m|)
    ensures forall x | x in Dropped() :: !IsOpening(m, x)
  {
    hide SkipTag, Dropped, InTag;
    DroppedNames();
    if IsComment(m, |m|) {
      CommentIs(m, |m|);
      CommentEnds(m);
      forall x | x in Dropped()
        ensures !IsOpening(m, x)
      {
        NoLetterNoOpening(m, x);
      }
    } else {
      TagIs(m, |m|);
    }
  }

  lemma CommentEnds(m: seq<byte>)
    requires IsComment(m, |m|)
    ensures |m| > 1 && m[0] == 0x3C && m[1] == 0x21 && m[|m| - 1] == 0x3E
  {
    assert m[|m| - 3..][2] == m[|m| - 1];
  }

  lemma NoLetterNoOpening(m: seq<byte>, name: string)
    requires |m| > 1 && m[1] == 0x21 && name in Dropped()
    ensures !IsOpening(m, name)
  {
    if IsOpening(m, name) {
      DroppedNames();
      LongNames(name);
      LetterThere(m, name, 1);
    }
  }

  lemma LongNames(name: string)
    requires name in Dropped()
    ensures name != ""
  {
  }

  lemma NothingOpens(m: seq<byte>, x: seq<byte>, fold: int -> int)
    requires |m| > 1 && m[|m| - 1] == 0x3E && forall name | name in Dropped() :: !IsOpening(m, name)
    ensures SkipElement(m + x, NON_TEXT_ELEMENTS, fold) == None
  {
    hide IsOpening, Opens, ElementEnd, Dropped, Spelled, SmallLetters;
    DroppedNames();
    if SkipElement(m + x, NON_TEXT_ELEMENTS, fold).Some? {
      var k := SkipElementFinds(m + x, NON_TEXT_ELEMENTS, fold);
      var name := Dropped()[k];
      OpeningIs(m + x, name);
      OpeningInTag(m, x, name);
      assert false;
    }
  }

  lemma MarkPiece(m: seq<byte>, page: seq<byte>, shown: seq<byte>, lib: Library)
    requires IsMark(m, lib.fold) && Renders(page, shown, StripTags, lib)
    ensures Renders(m + page, [0x20] + shown, StripTags, lib)
  {
    hide Render, Tokenise, Normalise, Bytes, IsMark, Markup, EmitText;
    var b, n := m + page, |m|;
    MarkIsRead(m, page, lib);
    assert b[n..] == page && b[0] == m[0];
    assert Step(b, StripTags, lib) == Token(n, BLANK);
    forall off: nat, inSpace: bool
      ensures Bytes(Render(Tokenise(b, off, StripTags, lib), inSpace).cells) == Normalise([0x20] + shown, inSpace)
    {
      PieceRenders(b, off, inSpace, StripTags, lib);
      BlankEmits(off, off + n, inSpace);
      BlankNormalises(shown, inSpace);
      assert Bytes([Cell(SPACE, off, off + n)]) == [SPACE];
    }
  }

  lemma BlankNormalises(shown: seq<byte>, inSpace: bool)
    ensures Normalise([0x20] + shown, inSpace) == (if inSpace then [] else [SPACE]) + Normalise(shown, true)
  {
    hide Normalise;
    var b := [0x20] + shown;
    assert b[1..] == shown && DecodeRune(b) == Decoded(0x20, 1);
    NormaliseHead(b, inSpace);
  }

  lemma PageStops(ps: seq<Piece>, mode: TagMode, lib: Library)
    requires IsPage(ps, mode, lib) && (ps != [] ==> !ps[0].Text?)
    ensures Stops(Written(ps)) && Starts(Shown(ps, lib))
  {
    if ps != [] {
      var p := ps[0];
      assert WellMade(p, mode, lib);
      if p.Mark? {
        MarkIsRead(p.m, [], lib);
      } else {
        ShownStarts(p.r, lib);
      }
    }
  }

  lemma ShownStarts(r: seq<byte>, lib: Library)
    requires lib.unescape(r) != []
    ensures var b := Encoded(Runes(lib.unescape(r))); b != [] && RuneStart(b[0])
  {
    var rs := Runes(lib.unescape(r));
    EncodingShape(rs[0]);
  }

  lemma {:induction false} PieceByPiece(ps: seq<Piece>, mode: TagMode, lib: Library)
    requires IsPage(ps, mode, lib)
    ensures Renders(Written(ps), Shown(ps, lib), mode, lib)
  {
    hide WellMade, Renders, Stops, Starts;
    if ps == [] {
      NothingWritten(mode, lib);
    } else {
      var rest := ps[1..];
      assert forall i | 0 <= i < |rest| :: rest[i] == ps[i + 1];
      PieceByPiece(rest, mode, lib);
      assert WellMade(ps[0], mode, lib);
      OnePiece(ps, mode, lib);
    }
  }

  lemma NothingWritten(mode: TagMode, lib: Library)
    ensures Renders([], [], mode, lib)
  {
    forall off: nat, inSpace: bool
      ensures Bytes(Render(Tokenise([], off, mode, lib), inSpace).cells) == Normalise([], inSpace)
    {
      NothingRendered(inSpace);
      EmptyNormalises(inSpace);
    }
  }

  lemma OnePiece(ps: seq<Piece>, mode: TagMode, lib: Library)
    requires ps != [] && IsPage(ps, mode, lib) && IsPage(ps[1..], mode, lib)
    requires Renders(Written(ps[1..]), Shown(ps[1..], lib), mode, lib)
    ensures Renders(Written(ps), Shown(ps, lib), mode, lib)
  {
    hide Renders, Stops, Starts;
    var page, shown := Written(ps[1..]), Shown(ps[1..], lib);
    assert WellMade(ps[0], mode, lib);
    match ps[0]
    case Text(t) =>
      assert ps[1..] != [] ==> !ps[1..][0].Text?;
      PageStops(ps[1..], mode, lib);
      TextPiece(t, page, shown, mode, lib);
    case Mark(m) => MarkPiece(m, page, shown, lib);
    case Reference(r) => ReferencePiece(r, page, shown, mode, lib);
  }

  /** Every page, however it is written: what it projects to, with its markup dropped, is what a
      reader sees of it, white space normalised; and with its markup kept, what stands there with
      its references read. */
  lemma PageProjects(ps: seq<Piece>, mode: TagMode, lib: Library)
    requires IsPage(ps, mode, lib)
    ensures Bytes(Project(Written(ps), mode, lib)) == NormaliseSpace(Shown(ps, lib))
  {
    hide Render, Tokenise, Normalise, IsPage;
    PieceByPiece(ps, mode, lib);
    BytesOfTrim(Render(Tokenise(Written(ps), 0, mode, lib), true).cells);
  }

  /** So a claim that a reader can see is found. */
  lemma VisibleIsFound(ps: seq<Piece>, claimed: seq<byte>, lib: Library, k: int)
    requires IsPage(ps, StripTags, lib) && claimed != [] && NormaliseSpace(claimed) != []
    requires AlignedAt(NormaliseSpace(Shown(ps, lib)), NormaliseSpace(claimed), k)
    ensures Locate(Written(ps), claimed, lib) != Miss
  {
    hide Project, NormaliseSpace, IsPage, Written, Shown, FirstAligned;
    PageProjects(ps, StripTags, lib);
    var seen, needle := NormaliseSpace(Shown(ps, lib)), NormaliseSpace(claimed);
    FirstAlignedIs(seen, needle, 0);
    AlignedInside(seen, needle, k);
    EmptyPage(StripTags, lib);
  }

  lemma AlignedInside(h: seq<byte>, n: seq<byte>, k: int)
    requires n != [] && AlignedAt(h, n, k)
    ensures 0 <= k < |h|
  {
  }

  lemma EmptyPage(mode: TagMode, lib: Library)
    ensures Project([], mode, lib) == []
  {
    NothingRendered(true);
  }
}
