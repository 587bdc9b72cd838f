/** What the projection of a page reads at one offset, as a function of the bytes from there on:
    whole elements, tags and comments, character references, runs of white space, characters,
    and bytes that are none of these (internal/provenance/assertion.go). */
module Tokens {
  import opened Wrappers
  import opened Utf8
  import opened Search
  import opened Folding

  const LT: byte := 0x3C
  const GT: byte := 0x3E
  const AMP: byte := 0x26
  const SEMICOLON: byte := 0x3B
  const SLASH: byte := 0x2F
  const SPACE: byte := 0x20
  const DOUBLE_QUOTE: byte := 0x22
  const SINGLE_QUOTE: byte := 0x27

  const COMMENT_OPEN: seq<byte> := [LT, 0x21, 0x2D, 0x2D]
  const COMMENT_CLOSE: seq<byte> := [0x2D, 0x2D, GT]
  const MAX_ENTITY_LEN := 34

  datatype TagMode = KeepTags | StripTags

  /** What the Go library decides: html.UnescapeString, whose table of names is left open, and what
      bytes.ToLower makes of one character. */
  datatype Library = Library(unescape: seq<byte> -> seq<byte>, fold: int -> int)

  function CharByte(s: string, i: nat): byte
    requires i < |s| && forall c | c in s :: c < 128 as char
  {
    assert s[i] in s;
    s[i] as int
  }

  function Ascii(s: string): (b: seq<byte>)
    requires forall c | c in s :: c < 128 as char
    ensures |b| == |s|
  {
    seq<byte>(|s|, i requires 0 <= i < |s| => CharByte(s, i))
  }

  /** Elements whose contents are dropped with their tags. */
  const NON_TEXT_ELEMENTS: seq<seq<byte>> := [
    Ascii("script"), Ascii("style"), Ascii("noscript"), Ascii("svg"),
    Ascii("iframe"), Ascii("form"), Ascii("button"), Ascii("template")
  ]

  predicate IsSpaceByte(c: byte) {
    c == 0x20 || 0x09 <= c <= 0x0D
  }

  // ---- Tags and comments ----

  /** Just past the first '>' outside quotes at or after `j`; `quote` is the open quote or 0. */
  function TagEnd(b: seq<byte>, j: nat, quote: byte): (r: Option<nat>)
    ensures r.Some? ==> j < r.value <= |b|
    decreases |b| - j
  {
    if j >= |b| then None
    else if quote != 0 then TagEnd(b, j + 1, if b[j] == quote then 0 else quote)
    else if b[j] == DOUBLE_QUOTE || b[j] == SINGLE_QUOTE then TagEnd(b, j + 1, b[j])
    else if b[j] == GT then Some(j + 1)
    else TagEnd(b, j + 1, 0)
  }

  function SkipTag(b: seq<byte>): (r: Option<nat>)
    ensures r.Some? ==> 1 < r.value <= |b|
  {
    if COMMENT_OPEN <= b then
      var j := Index(b[4..], COMMENT_CLOSE);
      if j >= 0 then Some(4 + j + 3) else None
    else TagEnd(b, 1, 0)
  }

  // ---- Elements dropped whole ----

  /** Do the first bytes of `b` spell the opening of `name`, in any letter case? */
  predicate Begins(b: seq<byte>, name: seq<byte>) {
    var n := 1 + |name|;
    n <= |b| && Lower(b[..n]) == Lower([LT] + name)
  }

  /** Does `b` open the element `name`, with nothing gluing further letters to the name? */
  predicate Opens(b: seq<byte>, name: seq<byte>) {
    var n := 1 + |name|;
    Begins(b, name) && (n < |b| ==> IsSpaceByte(b[n]) || b[n] == GT || b[n] == SLASH)
  }

  /** Where the first closing tag for `name` begins in the folded copy of `b`; -1 when it does not.
      The code takes it for an offset in `b`. */
  function ClosingTag(b: seq<byte>, name: seq<byte>, fold: int -> int): (idx: int)
    ensures idx >= -1
  {
    Index(FoldAll(b, fold), [LT, SLASH] + name)
  }

  /** Just past the first '>' from `after` on. */
  function PastGt(b: seq<byte>, after: nat): (r: Option<nat>)
    requires after <= |b|
    ensures r.Some? ==> after < r.value <= |b|
  {
    var gt := Index(b[after..], [GT]);
    if gt < 0 then None else Some(after + gt + 1)
  }

  /** Is what lies past the closing tag looked for beyond the end of `b`? The code panics there. */
  predicate ElementPanics(b: seq<byte>, name: seq<byte>, fold: int -> int) {
    var idx := ClosingTag(b, name, fold);
    idx >= 0 && idx + 2 + |name| > |b|
  }

  /** Just past the '>' of the first closing tag for `name`; nothing where the code panics. */
  function ElementEnd(b: seq<byte>, name: seq<byte>, fold: int -> int): (r: Option<nat>)
    ensures r.Some? ==> |name| + 2 < r.value <= |b|
  {
    var idx := ClosingTag(b, name, fold);
    if idx < 0 || ElementPanics(b, name, fold) then None else PastGt(b, idx + 2 + |name|)
  }

  function SkipElement(b: seq<byte>, names: seq<seq<byte>>, fold: int -> int): (r: Option<nat>)
    ensures r.Some? ==> 1 < r.value <= |b|
  {
    if names == [] then None
    else if Opens(b, names[0]) then ElementEnd(b, names[0], fold)
    else SkipElement(b, names[1..], fold)
  }

  predicate SkipPanics(b: seq<byte>, names: seq<seq<byte>>, fold: int -> int) {
    names != [] && if Opens(b, names[0]) then ElementPanics(b, names[0], fold) else SkipPanics(b, names[1..], fold)
  }

  // ---- Character references ----

  /** Just past the ';' closing the reference at the head of `b`, when one comes in time. */
  function Terminator(b: seq<byte>, j: nat): (r: Option<nat>)
    ensures r.Some? ==> j < r.value <= Min(MAX_ENTITY_LEN, |b|)
    decreases |b| - j
  {
    if j >= Min(MAX_ENTITY_LEN, |b|) then None
    else if b[j] == SEMICOLON then Some(j + 1)
    else if IsSpaceByte(b[j]) || b[j] == AMP then None
    else Terminator(b, j + 1)
  }

  /** Does the library know `raw` as one whole reference? */
  predicate Decodes(raw: seq<byte>, lib: Library) {
    var out := lib.unescape(raw);
    out != raw && !(out != [] && out[|out| - 1] == SEMICOLON)
  }

  /** Where the reference at the head of `b` ends; its text is `lib` of the bytes up to there. */
  function DecodeEntity(b: seq<byte>, lib: Library): (r: Option<nat>)
    ensures r.Some? ==> 1 < r.value <= |b|
  {
    match Terminator(b, 1)
    case None => None
    case Some(end) => if Decodes(b[..end], lib) then Some(end) else None
  }

  /** The characters of a Go string, as `range` gives them: U+FFFD for every bad byte. */
  function Runes(s: seq<byte>): (rs: seq<int>) {
    if s == [] then []
    else
      var d := DecodeRune(s);
      [d.r] + Runes(s[d.size..])
  }

  // ---- Runs of white space ----

  /** The length of the white space that `b` starts with. */
  function SpaceRun(b: seq<byte>): (n: nat)
    ensures n <= |b|
  {
    var d := DecodeRune(b);
    if d.size == 0 || !IsSpace(d.r) || Invalid(d) then 0
    else d.size + SpaceRun(b[d.size..])
  }

  // ---- One token ----

  /** What a token adds to the rendering: characters, or one byte passed through. */
  datatype Text = Chars(rs: seq<int>) | RawByte(c: byte)

  datatype Token = Token(size: nat, text: Text)

  const BLANK: Text := Chars([0x20])

  function TextToken(b: seq<byte>, lib: Library): (t: Token)
    requires b != []
    ensures 1 <= t.size <= |b|
  {
    if b[0] == AMP && DecodeEntity(b, lib).Some? then
      var end := DecodeEntity(b, lib).value;
      Token(end, Chars(Runes(lib.unescape(b[..end]))))
    else
      var d := DecodeRune(b);
      if Invalid(d) then Token(1, RawByte(b[0]))
      else if IsSpace(d.r) then Token(SpaceRun(b), BLANK)
      else Token(d.size, Chars([d.r]))
  }

  /** The markup at the head of `b` that stripping drops. */
  function Markup(b: seq<byte>, lib: Library): (r: Option<nat>)
    ensures r.Some? ==> 1 < r.value <= |b|
  {
    match SkipElement(b, NON_TEXT_ELEMENTS, lib.fold)
    case Some(end) => Some(end)
    case None => SkipTag(b)
  }

  function Step(b: seq<byte>, mode: TagMode, lib: Library): (t: Token)
    requires b != []
    ensures 1 <= t.size <= |b|
  {
    if mode.StripTags? && b[0] == LT && Markup(b, lib).Some? then Token(Markup(b, lib).value, BLANK)
    else TextToken(b, lib)
  }

  /** Does the projection of `b` with markup dropped run into an element at which the code panics? */
  predicate Panics(b: seq<byte>, lib: Library)
    decreases |b|
  {
    && b != []
    && ((b[0] == LT && SkipPanics(b, NON_TEXT_ELEMENTS, lib.fold)) || Panics(b[Step(b, StripTags, lib).size..], lib))
  }

  // ---- Locality: no lookahead makes a cut tokenise differently ----

  /** What every recogniser does when its input is cut after `n` bytes: it finds the same end
      when that is inside, and nothing otherwise. */
  ghost predicate CutLaw(whole: Option<nat>, cut: Option<nat>, n: nat) {
    cut == if whole.Some? && whole.value <= n then whole else None
  }

  lemma {:induction false} TagEndCut(b: seq<byte>, j: nat, quote: byte, n: nat)
    requires j <= n <= |b|
    ensures CutLaw(TagEnd(b, j, quote), TagEnd(b[..n], j, quote), n)
    decreases n - j
  {
    if j < n {
      assert b[..n][j] == b[j];
      TagEndCut(b, j + 1, if quote == 0 then b[j] else if b[j] == quote then 0 else quote, n);
      TagEndCut(b, j + 1, 0, n);
    }
  }

  lemma {:induction false} TagEndNeedsClose(b: seq<byte>, j: nat)
    requires j <= |b| <= 3
    requires forall k | j <= k < |b| :: b[k] == 0x21 || b[k] == 0x2D
    ensures TagEnd(b, j, 0) == None
    decreases |b| - j
  {
    if j < |b| {
      TagEndNeedsClose(b, j + 1);
    }
  }

  lemma SkipTagCut(b: seq<byte>, n: nat)
    requires 1 <= n <= |b|
    ensures CutLaw(SkipTag(b), SkipTag(b[..n]), n)
  {
    var c := b[..n];
    assert forall k | 0 <= k < n :: c[k] == b[k];
    if COMMENT_OPEN <= b {
      if n >= 4 {
        assert c[..4] == b[..4];
        assert COMMENT_OPEN <= c;
        assert c[4..] == b[4..][..n - 4];
        IndexOfPrefix(b[4..], COMMENT_CLOSE, n - 4);
      } else {
        // Two characters of "<!--" at most follow the '<', and neither is '>'.
        assert b[1] == 0x21 && b[2] == 0x2D;
        TagEndNeedsClose(c, 1);
      }
    } else {
      assert COMMENT_OPEN <= c ==> COMMENT_OPEN <= b;
      TagEndCut(b, 1, 0, n);
    }
  }

  lemma PastGtCut(b: seq<byte>, after: nat, n: nat)
    requires after <= n <= |b|
    ensures CutLaw(PastGt(b, after), PastGt(b[..n], after), n)
  {
    assert b[..n][after..] == b[after..][..n - after];
    IndexOfPrefix(b[after..], [GT], n - after);
  }

  predicate LowerCaseLetters(name: seq<byte>) {
    forall k | 0 <= k < |name| :: 0x61 <= name[k] <= 0x7A
  }

  lemma NameLetters(b: seq<byte>, name: seq<byte>)
    requires LowerCaseLetters(name) && Opens(b, name)
    ensures forall k | 1 <= k <= |name| :: LowerByte(b[k]) == name[k - 1]
  {
    forall k | 1 <= k <= |name|
      ensures LowerByte(b[k]) == name[k - 1]
    {
      assert Lower(b[..1 + |name|])[k] == Lower([LT] + name)[k];
      assert ([LT] + name)[k] == name[k - 1];
    }
  }

  /** The letters of a name cannot delimit a shorter one: at most one name opens. */
  lemma OneNameOpens(b: seq<byte>, x: seq<byte>, y: seq<byte>)
    requires LowerCaseLetters(x) && LowerCaseLetters(y) && Opens(b, x) && Opens(b, y)
    ensures x == y
  {
    NameLetters(b, x);
    NameLetters(b, y);
    assert |x| == |y|;
    assert forall k | 0 <= k < |x| :: x[k] == LowerByte(b[k + 1]) == y[k];
  }

  /** The order of the names is immaterial. */
  lemma {:induction false} SkipElementByName(b: seq<byte>, names: seq<seq<byte>>, fold: int -> int, k: nat)
    requires k < |names| && forall x | x in names :: LowerCaseLetters(x)
    requires Opens(b, names[k])
    ensures SkipElement(b, names, fold) == ElementEnd(b, names[k], fold)
    ensures SkipPanics(b, names, fold) == ElementPanics(b, names[k], fold)
  {
    if Opens(b, names[0]) {
      OneNameOpens(b, names[0], names[k]);
    } else {
      SkipElementByName(b, names[1..], fold, k - 1);
    }
  }

  lemma {:induction false} SkipElementFinds(b: seq<byte>, names: seq<seq<byte>>, fold: int -> int)
    returns (k: nat)
    requires SkipElement(b, names, fold).Some? || SkipPanics(b, names, fold)
    ensures k < |names| && Opens(b, names[k]) && SkipElement(b, names, fold) == ElementEnd(b, names[k], fold)
    ensures SkipPanics(b, names, fold) == ElementPanics(b, names[k], fold)
  {
    if Opens(b, names[0]) {
      k := 0;
    } else {
      k := SkipElementFinds(b, names[1..], fold);
      k := k + 1;
    }
  }

  lemma OpensCut(b: seq<byte>, name: seq<byte>, n: nat)
    requires 1 + |name| < n <= |b|
    ensures Opens(b[..n], name) <==> Opens(b, name)
  {
    assert b[..n][..1 + |name|] == b[..1 + |name|];
  }

  /** Does a closing tag come, in the folded copy, for the element that `b` opens? */
  predicate TagFound(b: seq<byte>, names: seq<seq<byte>>, fold: int -> int) {
    names != [] && if Opens(b, names[0]) then ClosingTag(b, names[0], fold) >= 0 else TagFound(b, names[1..], fold)
  }

  lemma {:induction false} TagFoundByName(b: seq<byte>, names: seq<seq<byte>>, fold: int -> int, k: nat)
    requires k < |names| && forall x | x in names :: LowerCaseLetters(x)
    requires Opens(b, names[k])
    ensures TagFound(b, names, fold) == (ClosingTag(b, names[k], fold) >= 0)
  {
    if Opens(b, names[0]) {
      OneNameOpens(b, names[0], names[k]);
    } else {
      TagFoundByName(b, names[1..], fold, k - 1);
    }
  }

  /** However folding moves things: cut the page, and the closing tag is where it was or nowhere. */
  lemma ClosingTagCut(b: seq<byte>, name: seq<byte>, fold: int -> int, n: nat)
    requires n <= |b| && LowerCaseLetters(name)
    ensures ClosingTag(b[..n], name, fold) == -1 || ClosingTag(b[..n], name, fold) == ClosingTag(b, name, fold)
  {
    hide FoldAll, Index, PlainNeedle, LowerCaseLetters;
    PlainClosing(name);
    FoundInCut(b, fold, [LT, SLASH] + name, n);
  }

  lemma PlainClosing(name: seq<byte>)
    requires LowerCaseLetters(name)
    ensures PlainNeedle([LT, SLASH] + name)
  {
  }

  /** So an element in a cut ends where it ended, or nowhere, by whether its closing tag is found. */
  lemma ElementEndCut(b: seq<byte>, name: seq<byte>, fold: int -> int, n: nat)
    requires n <= |b| && LowerCaseLetters(name)
    ensures var end := ElementEnd(b, name, fold);
            ElementEnd(b[..n], name, fold)
            == if end.Some? && end.value <= n && ClosingTag(b[..n], name, fold) >= 0 then end else None
  {
    hide ClosingTag, PastGt;
    ClosingTagCut(b, name, fold, n);
    var idx := ClosingTag(b, name, fold);
    PastGtIsFar(b, idx + 2 + |name|);
    if 0 <= idx && idx + 2 + |name| <= n {
      PastGtCut(b, idx + 2 + |name|, n);
    }
  }

  lemma PastGtIsFar(b: seq<byte>, after: int)
    ensures 0 <= after <= |b| && PastGt(b, after).Some? ==> after < PastGt(b, after).value
  {
  }

  /** On every page: an element is skipped in a cut as it is in the page if the cut holds its end
      and its closing tag is still found, and otherwise not at all. */
  lemma SkipElementCut(b: seq<byte>, fold: int -> int, n: nat)
    requires n <= |b|
    ensures var end := SkipElement(b, NON_TEXT_ELEMENTS, fold);
            SkipElement(b[..n], NON_TEXT_ELEMENTS, fold)
            == if end.Some? && end.value <= n && TagFound(b[..n], NON_TEXT_ELEMENTS, fold) then end else None
  {
    hide ElementEnd, Opens, ClosingTag, ElementPanics;
    NonTextNames();
    var names := NON_TEXT_ELEMENTS;
    if SkipElement(b, names, fold).Some? && SkipElement(b, names, fold).value <= n {
      var k := SkipElementFinds(b, names, fold);
      EndIsFar(b, names[k], fold);
      OpensCut(b, names[k], n);
      ElementEndCut(b, names[k], fold, n);
      SkipElementByName(b[..n], names, fold, k);
      TagFoundByName(b[..n], names, fold, k);
    } else if SkipElement(b[..n], names, fold).Some? {
      var k := SkipElementFinds(b[..n], names, fold);
      EndIsFar(b[..n], names[k], fold);
      OpensCut(b, names[k], n);
      ElementEndCut(b, names[k], fold, n);
      SkipElementByName(b, names, fold, k);
      assert false;
    }
  }

  lemma EndIsFar(b: seq<byte>, name: seq<byte>, fold: int -> int)
    ensures ElementEnd(b, name, fold).Some? ==> |name| + 2 < ElementEnd(b, name, fold).value <= |b|
  {
  }

  lemma NonTextNames()
    ensures forall x | x in NON_TEXT_ELEMENTS :: LowerCaseLetters(x)
  {
  }

  lemma {:induction false} TerminatorCut(b: seq<byte>, j: nat, n: nat)
    requires j <= n <= |b|
    ensures CutLaw(Terminator(b, j), Terminator(b[..n], j), n)
    decreases n - j
  {
    if j < n {
      assert b[..n][j] == b[j];
      TerminatorCut(b, j + 1, n);
    }
  }

  lemma DecodeEntityCut(b: seq<byte>, lib: Library, n: nat)
    requires 1 <= n <= |b|
    ensures CutLaw(DecodeEntity(b, lib), DecodeEntity(b[..n], lib), n)
  {
    TerminatorCut(b, 1, n);
    if Terminator(b, 1).Some? && Terminator(b, 1).value <= n {
      var end := Terminator(b, 1).value;
      assert b[..n][..end] == b[..end];
    }
  }

  lemma {:induction false} SpaceRunCut(b: seq<byte>, n: nat)
    requires SpaceRun(b) <= n <= |b|
    ensures SpaceRun(b[..n]) == SpaceRun(b)
  {
    DecodePrefix(b, n);
    var d := DecodeRune(b);
    if SpaceRun(b) > 0 {
      assert b[..n][d.size..] == b[d.size..][..n - d.size];
      SpaceRunCut(b[d.size..], n - d.size);
    } else if n > 0 && d.size > n {
      assert DecodeRune(b[..n]) == Decoded(RUNE_ERROR, 1);
    }
  }

  lemma {:induction false} TagEndIsGt(b: seq<byte>, j: nat, quote: byte)
    requires TagEnd(b, j, quote).Some?
    ensures b[TagEnd(b, j, quote).value - 1] == GT
    decreases |b| - j
  {
    if b[j] != GT || quote != 0 {
      TagEndIsGt(b, j + 1, if quote == 0 then (if b[j] == DOUBLE_QUOTE || b[j] == SINGLE_QUOTE then b[j] else 0)
                           else if b[j] == quote then 0 else quote);
    }
  }

  lemma PastGtIsGt(b: seq<byte>, after: nat)
    requires after <= |b| && PastGt(b, after).Some?
    ensures b[PastGt(b, after).value - 1] == GT
  {
    IndexMatches(b[after..], [GT]);
    var gt := Index(b[after..], [GT]);
    assert b[after..][gt..gt + 1] == [GT];
    assert b[after..][gt] == GT;
  }

  /** Dropped markup ends with its '>'. */
  lemma MarkupEndsWithGt(b: seq<byte>, lib: Library)
    requires Markup(b, lib).Some?
    ensures b[Markup(b, lib).value - 1] == GT
  {
    hide TagEnd, PastGt, ClosingTag;
    if SkipElement(b, NON_TEXT_ELEMENTS, lib.fold).Some? {
      var k := SkipElementFinds(b, NON_TEXT_ELEMENTS, lib.fold);
      PastGtIsGt(b, ClosingTag(b, NON_TEXT_ELEMENTS[k], lib.fold) + 2 + |NON_TEXT_ELEMENTS[k]|);
    } else if COMMENT_OPEN <= b {
      var j := Index(b[4..], COMMENT_CLOSE);
      IndexMatches(b[4..], COMMENT_CLOSE);
      assert b[4..][j..j + 3][2] == b[4 + j + 2];
    } else {
      TagEndIsGt(b, 1, 0);
    }
  }

  /** What it takes for the first token of `b` to be read alike when `b` is cut after `n` bytes. For
      a dropped element: that its closing tag is found in the cut, or that its opening tag ends
      where the element does. For any other token: nothing. */
  predicate Kept(b: seq<byte>, mode: TagMode, lib: Library, n: nat)
    requires n <= |b|
  {
    var end := SkipElement(b, NON_TEXT_ELEMENTS, lib.fold);
    mode.StripTags? && end.Some? ==> TagFound(b[..n], NON_TEXT_ELEMENTS, lib.fold) || SkipTag(b[..n]) == end
  }

  lemma MarkupCut(b: seq<byte>, lib: Library, n: nat)
    requires 1 <= n <= |b|
    ensures Markup(b, lib).Some? && Markup(b, lib).value <= n ==>
              (Markup(b[..n], lib) == Markup(b, lib) <==> Kept(b, StripTags, lib, n))
    ensures Markup(b, lib).None? ==> Markup(b[..n], lib).None?
    ensures SkipElement(b, NON_TEXT_ELEMENTS, lib.fold).None? ==> Kept(b, StripTags, lib, n)
  {
    hide SkipElement, SkipTag, TagFound;
    SkipElementCut(b, lib.fold, n);
    SkipTagCut(b, n);
  }

  /** A token is decided by its own bytes: cut the page anywhere at or after its end, and the same
      token is read there exactly when it is kept. */
  lemma StepCut(b: seq<byte>, mode: TagMode, lib: Library, n: nat)
    requires b != [] && Step(b, mode, lib).size <= n <= |b|
    ensures Step(b[..n], mode, lib) == Step(b, mode, lib) <==> Kept(b, mode, lib, n)
  {
    hide Kept, Markup, TextToken, DecodeRune;
    if mode.StripTags? && b[0] == LT && Markup(b, lib).Some? {
      MarkupCut(b, lib, n);
      TextOfLt(b[..n], lib);
    } else {
      KeptText(b, mode, lib, n);
      if mode.StripTags? {
        MarkupCut(b, lib, n);
      }
      TextTokenCut(b, lib, n);
    }
  }

  lemma TextOfLt(b: seq<byte>, lib: Library)
    requires b != [] && b[0] == LT
    ensures TextToken(b, lib).text != BLANK
  {
  }

  lemma OpensWithLt(b: seq<byte>, name: seq<byte>)
    requires Begins(b, name)
    ensures b != [] && b[0] == LT
  {
    assert Lower(b[..1 + |name|])[0] == Lower([LT] + name)[0];
    assert ([LT] + name)[0] == LT;
  }

  lemma KeptText(b: seq<byte>, mode: TagMode, lib: Library, n: nat)
    requires b != [] && n <= |b| && !(mode.StripTags? && b[0] == LT && Markup(b, lib).Some?)
    ensures Kept(b, mode, lib, n)
  {
    hide SkipElement, TagFound, SkipTag;
    if SkipElement(b, NON_TEXT_ELEMENTS, lib.fold).Some? {
      ElementHasLt(b, lib.fold);
    }
  }

  lemma ElementHasLt(b: seq<byte>, fold: int -> int)
    requires SkipElement(b, NON_TEXT_ELEMENTS, fold).Some? || SkipPanics(b, NON_TEXT_ELEMENTS, fold)
    ensures b != [] && b[0] == LT
  {
    hide Opens, ElementEnd;
    var k := SkipElementFinds(b, NON_TEXT_ELEMENTS, fold);
    OpensBegins(b, NON_TEXT_ELEMENTS[k]);
    OpensWithLt(b, NON_TEXT_ELEMENTS[k]);
  }

  lemma OpensBegins(b: seq<byte>, name: seq<byte>)
    requires Opens(b, name)
    ensures Begins(b, name)
  {
  }

  lemma TextTokenCut(b: seq<byte>, lib: Library, n: nat)
    requires b != [] && TextToken(b, lib).size <= n <= |b|
    ensures TextToken(b[..n], lib) == TextToken(b, lib)
  {
    var c := b[..n];
    assert c[0] == b[0];
    DecodeEntityCut(b, lib, n);
    DecodePrefix(b, n);
    if b[0] == AMP && DecodeEntity(b, lib).Some? {
      assert c[..DecodeEntity(b, lib).value] == b[..DecodeEntity(b, lib).value];
    } else if !Invalid(DecodeRune(b)) && IsSpace(DecodeRune(b).r) {
      SpaceRunCut(b, n);
    }
  }

  /** What a cut keeps every longer one keeps. */
  lemma KeptLonger(b: seq<byte>, mode: TagMode, lib: Library, n: nat, m: nat)
    requires b != [] && Step(b, mode, lib).size <= n <= m <= |b| && Kept(b, mode, lib, n)
    ensures Kept(b, mode, lib, m)
  {
    hide SkipTag, SkipElement, TagFound;
    var end := SkipElement(b, NON_TEXT_ELEMENTS, lib.fold);
    if mode.StripTags? && end.Some? {
      ElementHasLt(b, lib.fold);
      assert b[..m][..n] == b[..n];
      SkipElementCut(b, lib.fold, n);
      SkipElementCut(b, lib.fold, m);
      SkipElementCut(b[..m], lib.fold, n);
      SkipTagCut(b[..m], n);
    }
  }
}
