/** The families of claims and pages for which a citation is issued that does not check, each with
    an input that shows it (internal/provenance/assertion.go). */
module Limits {
  import opened Wrappers
  import opened Utf8
  import opened Search
  import opened Tokens
  import opened Projection
  import opened Normalising
  import opened Citation
  import opened Folding

  const AMP_REFERENCE: seq<byte> := [0x26, 0x61, 0x6D, 0x70, 0x3B]          // &amp;
  const NVLT_REFERENCE: seq<byte> := [0x26, 0x6E, 0x76, 0x6C, 0x74, 0x3B]   // &nvlt;

  /** Two rows of the table: one reference for one character, one for two (U+003C, U+20D2). */
  function TwoRows(raw: seq<byte>): seq<byte> {
    if raw == AMP_REFERENCE then [0x26]
    else if raw == NVLT_REFERENCE then [0x3C, 0xE2, 0x83, 0x92]
    else raw
  }

  const TWO_ROWS := Library(TwoRows, r => r)

  lemma AmpIsReference()
    ensures ReferenceAt(AMP_REFERENCE, TWO_ROWS, 0) && ReferenceText(AMP_REFERENCE, TWO_ROWS, 0) == AMP_REFERENCE
    ensures Tame(AMP_REFERENCE, TWO_ROWS)
  {
    var b := AMP_REFERENCE;
    assert b[0..] == b && b[..5] == b;
    assert Terminator(b, 4) == Some(5);
    assert Terminator(b, 1) == Some(5);
    assert DecodeEntity(b, TWO_ROWS) == Some(5);
    assert Runes([0x26]) == [0x26] by {
      assert [0x26][1..] == [];
    }
    assert Expansion(b, TWO_ROWS) == [0x26] by {
      CharEmits(0x26, 0, 0, false);
    }
    forall p | ReferenceAt(b, TWO_ROWS, p)
      ensures TameReference(ReferenceText(b, TWO_ROWS, p), TWO_ROWS)
    {
      assert p == 0;
    }
  }

  /** A claim that spells out a reference is found verbatim and does not check. */
  lemma VerbatimReferenceMisses()
    ensures Locate(AMP_REFERENCE, AMP_REFERENCE, TWO_ROWS) == Verbatim(0, 5)
    ensures !SpanSupports(AMP_REFERENCE, AMP_REFERENCE, TWO_ROWS)
  {
    var b := AMP_REFERENCE;
    AmpIsReference();
    assert b[0..5] == b;
    assert MatchAt(b, b, 0) && AlignedAt(b, b, 0);
    VerbatimHit(b, b, TWO_ROWS);
  }

  const HALF: seq<byte> := [0x3C]
  const BOTH: seq<Cell> := [Cell(0x3C, 0, 6), Cell(0xE2, 0, 6), Cell(0x83, 0, 6), Cell(0x92, 0, 6)]

  lemma NvltTokens(mode: TagMode)
    ensures Tokenise(NVLT_REFERENCE, 0, mode, TWO_ROWS) == [Placed(Chars([0x3C, 0x20D2]), 0, 6)]
  {
    var b := NVLT_REFERENCE;
    assert Terminator(b, 5) == Some(6);
    assert Terminator(b, 3) == Some(6);
    assert Terminator(b, 1) == Some(6);
    assert b[..6] == b;
    assert DecodeEntity(b, TWO_ROWS) == Some(6);
    var out: seq<byte> := [0x3C, 0xE2, 0x83, 0x92];
    assert out[1..] == [0xE2, 0x83, 0x92] && out[1..][3..] == [];
    assert DecodeRune(out[1..]) == Decoded(0x20D2, 3);
    assert Runes(out[1..]) == [0x20D2];
    assert Runes(out) == [0x3C, 0x20D2];
    assert Step(b, mode, TWO_ROWS) == Token(6, Chars([0x3C, 0x20D2]));
    assert b[6..] == [];
  }

  lemma NvltCells(mode: TagMode)
    ensures Project(NVLT_REFERENCE, mode, TWO_ROWS) == BOTH
  {
    hide EmitRunes, Tokenise;
    NvltTokens(mode);
    NvltRunes();
    var ts := [Placed(Chars([0x3C, 0x20D2]), 0, 6)];
    assert ts[1..] == [];
    assert Render(ts, true).cells == BOTH;
  }

  lemma NvltRunes()
    ensures EmitRunes([0x3C, 0x20D2], 0, 6, true).cells == BOTH
  {
    var rs := [0x3C, 0x20D2];
    assert rs[1..] == [0x20D2] && rs[1..][1..] == [];
    assert EncodeRune(0x20D2) == [0xE2, 0x83, 0x92];
    assert From(EncodeRune(0x3C), 0, 6) == [Cell(0x3C, 0, 6)];
    assert From(EncodeRune(0x20D2), 0, 6) == BOTH[1..];
    assert EmitRunes([], 0, 6, false) == Emitted([], false);
    assert EmitRunes(rs[1..], 0, 6, false).cells == BOTH[1..];
  }

  lemma HalfNormalises()
    ensures NormaliseSpace(HALF) == HALF
  {
    assert HALF[1..] == [] && HALF[..1] == HALF;
    assert Normalise(HALF, true) == HALF;
  }

  /** A claim for half of what a reference stands for is found, at the span of the whole
      reference, and does not check. */
  lemma HalfReferenceMisses()
    ensures Locate(NVLT_REFERENCE, HALF, TWO_ROWS) == Rendered(0, 6, KeepTags, 0)
    ensures !SpanSupports(NVLT_REFERENCE, HALF, TWO_ROWS)
  {
    var b := NVLT_REFERENCE;
    HalfNormalises();
    NvltCells(KeepTags);
    NvltCells(StripTags);
    assert Bytes(BOTH)[0..1] == HALF;
    assert MatchAt(Bytes(BOTH), HALF, 0) && AlignedAt(Bytes(BOTH), HALF, 0);
    NotInBody();
  }

  lemma NotInBody()
    ensures FirstAligned(NVLT_REFERENCE, HALF, 0) == -1
  {
    FirstAlignedIs(NVLT_REFERENCE, HALF, 0);
    MatchStarts(NVLT_REFERENCE, HALF);
  }

  // ---- Folding that moves things ----

  const KELVIN: seq<byte> := [0xE2, 0x84, 0xAA]      // U+212A, whose small letter is k

  /** What unicode.ToLower makes of the characters used here. */
  const KELVIN_FOLDS := Library(raw => raw, r => if r == 0x212A then 0x6B else if 0x41 <= r <= 0x5A then r + 0x20 else r)

  /** ASCII in which nothing is folded, blank, or a reference. */
  predicate Plain(s: seq<byte>) {
    forall k | 0 <= k < |s| :: 0x21 <= s[k] < 0x80 && s[k] != AMP && !(0x41 <= s[k] <= 0x5A)
  }

  lemma PlainFolds(b: seq<byte>)
    requires b != [] && Plain(b[..1])
    ensures DecodeRune(b).size == 1 && FoldedHead(b, KELVIN_FOLDS.fold) == [b[0]]
  {
    assert b[..1][0] == b[0];
  }

  lemma {:induction false} FoldPlain(s: seq<byte>, rest: seq<byte>)
    requires Plain(s)
    ensures FoldAll(s + rest, KELVIN_FOLDS.fold) == s + FoldAll(rest, KELVIN_FOLDS.fold)
  {
    hide FoldAll, DecodeRune, FoldedHead;
    if s == [] {
      assert s + rest == rest;
    } else {
      var b := s + rest;
      assert b[1..] == s[1..] + rest;
      FoldPlain(s[1..], rest);
      PlainFolds(b);
      FoldHead(b, KELVIN_FOLDS.fold);
    }
  }

  lemma FoldKelvin(rest: seq<byte>)
    ensures FoldAll(KELVIN + rest, KELVIN_FOLDS.fold) == [0x6B] + FoldAll(rest, KELVIN_FOLDS.fold)
  {
    var b := KELVIN + rest;
    assert b[3..] == rest;
    assert DecodeRune(b) == Decoded(0x212A, 3);
    assert EncodeRune(0x6B) == [0x6B];
  }

  const SVG: seq<byte> := [0x3C, 0x73, 0x76, 0x67, 0x3E]                     // <svg>
  const SVG_END: seq<byte> := [0x3C, 0x2F, 0x73, 0x76, 0x67, 0x3E]           // </svg>
  const FOUR_KELVINS: seq<byte> := KELVIN + (KELVIN + (KELVIN + KELVIN))

  /** From the '<' on: an element whose content folds to eight bytes less than it takes. */
  const ELEMENT: seq<byte> := SVG + (FOUR_KELVINS + ([0x3E, 0x62] + SVG_END))
  const PAGE: seq<byte> := [0x61] + ELEMENT
  const CUT_ELEMENT: seq<byte> := SVG + (FOUR_KELVINS + [0x3E, 0x62])
  const CUT: seq<byte> := [0x61] + CUT_ELEMENT
  const A_B: seq<byte> := [0x61, 0x20, 0x62]

  lemma FoldFourKelvins(rest: seq<byte>)
    ensures FoldAll(FOUR_KELVINS + rest, KELVIN_FOLDS.fold) == [0x6B, 0x6B, 0x6B, 0x6B] + FoldAll(rest, KELVIN_FOLDS.fold)
  {
    hide FoldAll, DecodeRune, EncodeRune;
    assert FOUR_KELVINS + rest == KELVIN + (KELVIN + (KELVIN + (KELVIN + rest)));
    FoldKelvin(rest);
    FoldKelvin(KELVIN + rest);
    FoldKelvin(KELVIN + (KELVIN + rest));
    FoldKelvin(KELVIN + (KELVIN + (KELVIN + rest)));
  }

  lemma FoldElement()
    ensures FoldAll(ELEMENT, KELVIN_FOLDS.fold) == SVG + [0x6B, 0x6B, 0x6B, 0x6B, 0x3E, 0x62] + SVG_END
    ensures FoldAll(CUT_ELEMENT, KELVIN_FOLDS.fold) == SVG + [0x6B, 0x6B, 0x6B, 0x6B, 0x3E, 0x62]
  {
    hide FoldAll;
    var tail: seq<byte> := [0x3E, 0x62];
    FoldNothing(KELVIN_FOLDS.fold);
    assert SVG_END + [] == SVG_END && tail + [] == tail;
    FoldPlain(SVG_END, []);
    FoldPlain(tail, SVG_END);
    FoldPlain(tail, []);
    FoldFourKelvins(tail + SVG_END);
    FoldFourKelvins(tail);
    FoldPlain(SVG, FOUR_KELVINS + (tail + SVG_END));
    FoldPlain(SVG, FOUR_KELVINS + tail);
  }

  lemma {:induction false} FoundAfter(before: seq<byte>, needle: seq<byte>, tail: seq<byte>)
    requires needle != [] && needle[0] !in before
    ensures Index(before + needle + tail, needle) == |before|
    decreases |before|
  {
    var h := before + needle + tail;
    if before == [] {
      assert h[..|needle|] == needle;
    } else {
      assert h[1..] == before[1..] + needle + tail;
      assert h[0] == before[0] != needle[0];
      FoundAfter(before[1..], needle, tail);
    }
  }

  lemma {:induction false} NotFound(h: seq<byte>, needle: seq<byte>, c: byte)
    requires c in needle && c !in h
    ensures Index(h, needle) == -1
  {
    assert needle <= h ==> forall x | x in needle :: x in h;
    if h != [] {
      NotFound(h[1..], needle, c);
    }
  }

  const SVG_NAME: seq<byte> := [0x73, 0x76, 0x67]

  lemma ElementIsSvg(b: seq<byte>)
    requires SVG <= b
    ensures NON_TEXT_ELEMENTS[3] == SVG_NAME && Opens(b, SVG_NAME)
    ensures SkipElement(b, NON_TEXT_ELEMENTS, KELVIN_FOLDS.fold) == ElementEnd(b, SVG_NAME, KELVIN_FOLDS.fold)
  {
    assert Ascii("svg") == SVG_NAME;
    assert b[..4] == [0x3C, 0x73, 0x76, 0x67] && b[4] == GT;
    NonTextNames();
    SkipElementByName(b, NON_TEXT_ELEMENTS, KELVIN_FOLDS.fold, 3);
  }

  /** The element of the page ends, for the code, at the '>' in its content. */
  lemma ElementEndsEarly()
    ensures SkipElement(ELEMENT, NON_TEXT_ELEMENTS, KELVIN_FOLDS.fold) == Some(18)
    ensures SkipElement(CUT_ELEMENT, NON_TEXT_ELEMENTS, KELVIN_FOLDS.fold) == None
  {
    hide FoldAll, Index, SkipElement;
    var f := FoldAll(ELEMENT, KELVIN_FOLDS.fold);
    var needle: seq<byte> := [LT, SLASH] + SVG_NAME;
    FoldElement();
    ElementIsSvg(ELEMENT);
    ElementIsSvg(CUT_ELEMENT);
    var before: seq<byte> := [0x73, 0x76, 0x67, 0x3E, 0x6B, 0x6B, 0x6B, 0x6B, 0x3E, 0x62];
    assert f == [LT] + (before + needle + [GT]);
    FoundAfter(before, needle, [GT]);
    FoundNext(LT, before + needle + [GT], needle);
    assert ClosingTag(ELEMENT, SVG_NAME, KELVIN_FOLDS.fold) == 11;
    assert ELEMENT[16..] == [0xAA] + [GT] + ([0x62] + SVG_END);
    FoundAfter([0xAA], [GT], [0x62] + SVG_END);
    NotFound(FoldAll(CUT_ELEMENT, KELVIN_FOLDS.fold), needle, SLASH);
  }

  lemma FoundNext(c: byte, h: seq<byte>, needle: seq<byte>)
    requires h != [] && |needle| > 1 && h[0] != needle[1] && Index(h, needle) >= 0
    ensures Index([c] + h, needle) == 1 + Index(h, needle)
  {
    assert ([c] + h)[1..] == h && ([c] + h)[1] == h[0];
  }

  // What the page, and the cut of it, are read as

  lemma PlainHereStep(b: seq<byte>, mode: TagMode)
    requires b != [] && Plain(b[..1]) && (mode.StripTags? ==> b[0] != LT)
    ensures Step(b, mode, KELVIN_FOLDS) == Token(1, Chars([b[0]]))
  {
    assert b[..1][0] == b[0];
  }

  lemma KelvinStep(rest: seq<byte>, mode: TagMode)
    ensures Step(KELVIN + rest, mode, KELVIN_FOLDS) == Token(3, Chars([0x212A]))
  {
    assert DecodeRune(KELVIN + rest) == Decoded(0x212A, 3);
  }

  lemma OpensLetter(b: seq<byte>, name: seq<byte>)
    requires LowerCaseLetters(name) && name != []
    ensures Opens(b, name) ==> |b| > 1 && LowerByte(b[1]) >= 0x61
  {
    if Opens(b, name) {
      NameLetters(b, name);
    }
  }

  lemma {:induction false} NoNameOpens(b: seq<byte>, names: seq<seq<byte>>)
    requires |b| > 1 && b[1] == SLASH && forall x | x in names :: LowerCaseLetters(x) && x != []
    ensures SkipElement(b, names, KELVIN_FOLDS.fold) == None
  {
    if names != [] {
      OpensLetter(b, names[0]);
      NoNameOpens(b, names[1..]);
    }
  }

  lemma EndTagStep()
    ensures Step(SVG_END, StripTags, KELVIN_FOLDS) == Token(6, BLANK)
  {
    hide SkipElement;
    NonTextNames();
    NoNameOpens(SVG_END, NON_TEXT_ELEMENTS);
    var b := SVG_END;
    assert TagEnd(b, 5, 0) == Some(6);
    assert TagEnd(b, 4, 0) == Some(6);
    assert TagEnd(b, 3, 0) == Some(6);
    assert TagEnd(b, 2, 0) == Some(6);
    assert TagEnd(b, 1, 0) == Some(6);
  }

  lemma ElementSteps()
    ensures Step(ELEMENT, StripTags, KELVIN_FOLDS) == Token(18, BLANK)
    ensures Step(CUT_ELEMENT, StripTags, KELVIN_FOLDS) == Token(5, BLANK)
  {
    hide SkipElement;
    ElementEndsEarly();
    var b := CUT_ELEMENT;
    assert b[..5] == SVG;
    assert TagEnd(b, 4, 0) == Some(5);
    assert TagEnd(b, 3, 0) == Some(5);
    assert TagEnd(b, 2, 0) == Some(5);
    assert TagEnd(b, 1, 0) == Some(5);
  }

  lemma PageTokens()
    ensures Tokenise(PAGE, 0, StripTags, KELVIN_FOLDS) ==
            [Placed(Chars([0x61]), 0, 1), Placed(BLANK, 1, 19), Placed(Chars([0x62]), 19, 20), Placed(BLANK, 20, 26)]
  {
    hide Step, Tokenise;
    var b: seq<byte> := [0x62] + SVG_END;
    PlainHereStep(PAGE, StripTags);
    assert PAGE[1..] == ELEMENT;
    TokeniseHead(PAGE, 0, StripTags, KELVIN_FOLDS);
    ElementSteps();
    assert ELEMENT[18..] == b;
    TokeniseHead(ELEMENT, 1, StripTags, KELVIN_FOLDS);
    PlainHereStep(b, StripTags);
    assert b[1..] == SVG_END;
    TokeniseHead(b, 19, StripTags, KELVIN_FOLDS);
    EndTagStep();
    TokeniseHead(SVG_END, 20, StripTags, KELVIN_FOLDS);
    assert SVG_END[6..] == [];
    NoBytesNoTokens([], 26, StripTags, KELVIN_FOLDS);
  }

  const READ: seq<Cell> := [Cell(0x61, 0, 1), Cell(0x20, 1, 19), Cell(0x62, 19, 20)]

  lemma RenderNext(t: Placed, ts: seq<Placed>, inSpace: bool)
    ensures var e := EmitText(t.text, t.from, t.to, inSpace); Render([t] + ts, inSpace).cells == e.cells + Render(ts, e.inSpace).cells
  {
    assert ([t] + ts)[1..] == ts;
  }

  lemma LetterEmits(c: byte, from: nat, to: nat, inSpace: bool)
    requires 0x61 <= c <= 0x7A
    ensures EmitText(Chars([c]), from, to, inSpace) == Emitted([Cell(c, from, to)], false)
  {
    CharEmits(c, from, to, inSpace);
    assert EncodeRune(c) == [c];
    assert From([c], from, to) == [Cell(c, from, to)];
  }

  lemma PageReads()
    ensures Project(PAGE, StripTags, KELVIN_FOLDS) == READ && Bytes(READ) == A_B
  {
    hide EmitText, Render, Tokenise;
    PageTokens();
    var t3, t2, t1, t0 := Placed(BLANK, 20, 26), Placed(Chars([0x62]), 19, 20), Placed(BLANK, 1, 19), Placed(Chars([0x61]), 0, 1);
    assert [t0] + ([t1] + ([t2] + ([t3] + []))) == [t0, t1, t2, t3];
    LetterEmits(0x61, 0, 1, true);
    BlankEmits(1, 19, false);
    LetterEmits(0x62, 19, 20, true);
    BlankEmits(20, 26, false);
    RenderNext(t0, [t1] + ([t2] + ([t3] + [])), true);
    RenderNext(t1, [t2] + ([t3] + []), false);
    RenderNext(t2, [t3] + [], true);
    RenderNext(t3, [], false);
    NothingRenders();
    assert Render([t0, t1, t2, t3], true).cells == READ + [Cell(0x20, 20, 26)];
    ReadTrims();
  }

  lemma ReadTrims()
    ensures TrimRight(READ + [Cell(0x20, 20, 26)]) == READ && Bytes(READ) == A_B
  {
    assert (READ + [Cell(0x20, 20, 26)])[..3] == READ;
    assert TrimRight(READ) == READ;
  }

  lemma NothingRenders()
    ensures forall inSpace :: Render([], inSpace).cells == []
  {
  }

  // The claim in the page

  lemma NoSuchByteNoMatch(h: seq<byte>, needle: seq<byte>, c: byte)
    requires c in needle && c !in h
    ensures FirstAligned(h, needle, 0) == -1
  {
    FirstAlignedIs(h, needle, 0);
    MatchContains(h, needle, FirstAligned(h, needle, 0), c);
  }

  lemma MatchContains(h: seq<byte>, needle: seq<byte>, k: int, c: byte)
    requires c in needle
    ensures MatchAt(h, needle, k) ==> c in h
  {
    if MatchAt(h, needle, k) {
      assert forall x | x in h[k..k + |needle|] :: x in h;
    }
  }

  /** Normalising makes nothing up but blanks. */
  lemma {:induction false} NormaliseFrom(b: seq<byte>, inSpace: bool)
    ensures forall c | c in Normalise(b, inSpace) :: c == SPACE || c in b
    decreases |b|
  {
    hide DecodeRune, HeadIsSpace, Normalise;
    if b == [] {
      EmptyNormalises(inSpace);
    } else {
      NormaliseHead(b, inSpace);
      var n := DecodeRune(b).size;
      NormaliseFrom(b[n..], HeadIsSpace(b));
      assert forall c | c in b[..n] || c in b[n..] :: c in b;
    }
  }

  lemma {:induction false} PlainIsNotWhite(s: seq<byte>, rest: seq<byte>)
    requires Plain(s)
    ensures NoWhite(s + rest) == NoWhite(rest)
  {
    if s == [] {
      assert s + rest == rest;
    } else {
      var b := s + rest;
      assert b[1..] == s[1..] + rest;
      PlainIsNotWhite(s[1..], rest);
    }
  }

  lemma KelvinIsNotWhite(rest: seq<byte>)
    ensures NoWhite(KELVIN + rest) == NoWhite(rest)
  {
    var b := KELVIN + rest;
    assert b[3..] == rest && DecodeRune(b) == Decoded(0x212A, 3);
  }

  lemma {:induction false} NoWhiteNoBlank(b: seq<byte>, inSpace: bool)
    requires NoWhite(b) && SPACE !in b
    ensures SPACE !in Normalise(b, inSpace)
    decreases |b|
  {
    hide DecodeRune, HeadIsSpace, Normalise;
    if b == [] {
      EmptyNormalises(inSpace);
    } else {
      NormaliseHead(b, inSpace);
      var n := DecodeRune(b).size;
      assert forall c | c in b[..n] || c in b[n..] :: c in b;
      NoWhiteNoBlank(b[n..], HeadIsSpace(b));
    }
  }

  lemma NoWhiteHere()
    ensures NoWhite(PAGE) && NoWhite(CUT)
  {
    hide NoWhite;
    var tail: seq<byte> := [0x3E, 0x62];
    NoWhiteNothing();
    assert tail + [] == tail && tail + SVG_END + [] == tail + SVG_END;
    PlainIsNotWhite(tail, []);
    PlainIsNotWhite(tail + SVG_END, []);
    FourNotWhite(tail);
    FourNotWhite(tail + SVG_END);
    PlainIsNotWhite([0x61] + SVG, FOUR_KELVINS + tail);
    PlainIsNotWhite([0x61] + SVG, FOUR_KELVINS + (tail + SVG_END));
    assert PAGE == [0x61] + SVG + (FOUR_KELVINS + (tail + SVG_END));
    assert CUT == [0x61] + SVG + (FOUR_KELVINS + tail);
  }

  lemma NoWhiteNothing()
    ensures NoWhite([])
  {
  }

  lemma FourNotWhite(rest: seq<byte>)
    ensures NoWhite(FOUR_KELVINS + rest) == NoWhite(rest)
  {
    hide NoWhite;
    assert FOUR_KELVINS + rest == KELVIN + (KELVIN + (KELVIN + (KELVIN + rest)));
    KelvinIsNotWhite(rest);
    KelvinIsNotWhite(KELVIN + rest);
    KelvinIsNotWhite(KELVIN + (KELVIN + rest));
    KelvinIsNotWhite(KELVIN + (KELVIN + (KELVIN + rest)));
  }

  /** With its markup kept, text without references or white space renders without a blank. */
  lemma KeepTagsHasNoBlank(b: seq<byte>)
    requires NoWhite(b) && SPACE !in b && AMP !in b
    ensures SPACE !in Bytes(Project(b, KeepTags, KELVIN_FOLDS))
  {
    hide NoWhite, Project, Normalise;
    ProjectKeepTags(b, KELVIN_FOLDS);
    NoWhiteNoBlank(b, true);
    TrimRightIsPrefix(Normalise(b, true));
  }

  lemma {:induction false} TrimRightIsPrefix(b: seq<byte>)
    ensures TrimRightBytes(b) <= b
  {
    if b != [] && b[|b| - 1] == SPACE {
      TrimRightIsPrefix(b[..|b| - 1]);
    }
  }

  lemma ClaimNormalises()
    ensures NormaliseSpace(A_B) == A_B
  {
    hide Normalise;
    var b: seq<byte> := A_B;
    NormaliseHead(b, true);
    NormaliseHead(b[1..], false);
    NormaliseHead(b[2..], true);
    EmptyNormalises(false);
    assert b[1..][1..] == b[2..] && b[2..][1..] == [];
    assert b[..1] == [0x61] && b[2..][..1] == [0x62];
    assert Normalise(b, true) == A_B;
  }

  /** The cut renders, with its markup dropped, to text that goes on with the Kelvin signs. */
  lemma CutReads()
    ensures Bytes(Project(CUT, StripTags, KELVIN_FOLDS)) != A_B
  {
    hide Step, Tokenise, EmitText, Render, TrimRight;
    var rest := FOUR_KELVINS + [0x3E, 0x62];
    PlainHereStep(CUT, StripTags);
    assert CUT[1..] == CUT_ELEMENT && CUT_ELEMENT[5..] == rest;
    TokeniseHead(CUT, 0, StripTags, KELVIN_FOLDS);
    ElementSteps();
    TokeniseHead(CUT_ELEMENT, 1, StripTags, KELVIN_FOLDS);
    assert rest == KELVIN + (KELVIN + (KELVIN + (KELVIN + [0x3E, 0x62])));
    KelvinStep(KELVIN + (KELVIN + (KELVIN + [0x3E, 0x62])), StripTags);
    TokeniseHead(rest, 6, StripTags, KELVIN_FOLDS);
    var more := Tokenise(rest[3..], 9, StripTags, KELVIN_FOLDS);
    RenderNext(Placed(Chars([0x61]), 0, 1), [Placed(BLANK, 1, 6)] + ([Placed(Chars([0x212A]), 6, 9)] + more), true);
    RenderNext(Placed(BLANK, 1, 6), [Placed(Chars([0x212A]), 6, 9)] + more, false);
    RenderNext(Placed(Chars([0x212A]), 6, 9), more, true);
    LetterEmits(0x61, 0, 1, true);
    BlankEmits(1, 6, false);
    KelvinEmits(6, 9);
    var cs := Render(Tokenise(CUT, 0, StripTags, KELVIN_FOLDS), true).cells;
    assert |cs| > 2 && cs[2].c == 0xE2;
    TrimIsPrefix(cs);
  }

  lemma KelvinEmits(from: nat, to: nat)
    ensures var cs := EmitText(Chars([0x212A]), from, to, true).cells; cs != [] && cs[0].c == 0xE2
  {
    CharEmits(0x212A, from, to, true);
    assert EncodeRune(0x212A) == KELVIN;
  }

  lemma {:induction false} TrimIsPrefix(cs: seq<Cell>)
    ensures TrimRight(cs) <= cs
  {
    if cs != [] && cs[|cs| - 1].c == SPACE {
      TrimIsPrefix(cs[..|cs| - 1]);
    }
  }

  /** A page of valid UTF-8 without a reference, and a claim that is in it: the element is taken to
      end at a '>' inside it, the claim is found across it, and the bytes cited do not check. */
  lemma FoldedElementMisses()
    ensures !HasReference(A_B, KELVIN_FOLDS) && SingleCharReferences(PAGE, KELVIN_FOLDS)
    ensures Locate(PAGE, A_B, KELVIN_FOLDS) == Rendered(0, 20, StripTags, 0) && PAGE[0..20] == CUT
    ensures !SpanSupports(CUT, A_B, KELVIN_FOLDS)
  {
    hide Project, Normalise, Tokenise, FirstAligned, NoWhite;
    ClaimNormalises();
    NoWhiteHere();
    NoSuchByteNoMatch(PAGE, A_B, SPACE);
    KeepTagsHasNoBlank(PAGE);
    NoSuchByteNoMatch(Bytes(Project(PAGE, KeepTags, KELVIN_FOLDS)), A_B, SPACE);
    PageReads();
    FirstAlignedIs(A_B, A_B, 0);
    assert A_B[0..3] == A_B && AlignedAt(A_B, A_B, 0);
    assert FirstAligned(A_B, A_B, 0) == 0;
    KeepTagsHasNoBlank(CUT);
    CutReads();
    assert PAGE[0..20] == CUT;
  }

  /** The cut does not keep the element. */
  lemma FoldedElementIsNotKept()
    ensures !HitKept(PAGE, A_B, KELVIN_FOLDS)
  {
    hide HitKept, Locate, SpanSupports, NormaliseSpace, HasReference, SingleCharReferences;
    FoldedElementMisses();
    ClaimNormalises();
    if HitKept(PAGE, A_B, KELVIN_FOLDS) {
      EveryCitationChecks(PAGE, A_B, KELVIN_FOLDS);
    }
  }

  // ---- Folding that runs off the page ----

  const SCRIPT: seq<byte> := [0x3C, 0x73, 0x63, 0x72, 0x69, 0x70, 0x74, 0x3E]                // <script>
  const SCRIPT_END: seq<byte> := [0x3C, 0x2F, 0x73, 0x63, 0x72, 0x69, 0x70, 0x74, 0x3E]      // </script>
  const SCRIPT_NAME: seq<byte> := [0x73, 0x63, 0x72, 0x69, 0x70, 0x74]

  /** A script whose content is one byte that is not UTF-8. */
  const BROKEN: seq<byte> := SCRIPT + ([0xFF] + SCRIPT_END)

  lemma FoldBroken()
    ensures FoldAll(BROKEN, KELVIN_FOLDS.fold) == SCRIPT + [0xEF, 0xBF, 0xBD] + SCRIPT_END
  {
    hide FoldAll;
    FoldNothing(KELVIN_FOLDS.fold);
    assert SCRIPT_END + [] == SCRIPT_END;
    FoldPlain(SCRIPT_END, []);
    BadByteFolds(SCRIPT_END);
    FoldPlain(SCRIPT, [0xFF] + SCRIPT_END);
  }

  lemma BadByteFolds(rest: seq<byte>)
    ensures FoldAll([0xFF] + rest, KELVIN_FOLDS.fold) == [0xEF, 0xBF, 0xBD] + FoldAll(rest, KELVIN_FOLDS.fold)
  {
    var b := [0xFF] + rest;
    assert b[1..] == rest && DecodeRune(b) == Decoded(RUNE_ERROR, 1);
    assert EncodeRune(RUNE_ERROR) == [0xEF, 0xBF, 0xBD];
  }

  /** Locating a claim that is not in such a page slices it beyond its end. */
  lemma BrokenScriptPanics()
    ensures LocatePanics(BROKEN, [0x7A], KELVIN_FOLDS)
  {
    hide FoldAll, Index, SkipElement, Project, Normalise, FirstAligned;
    var needle: seq<byte> := [LT, SLASH] + SCRIPT_NAME;
    var before: seq<byte> := SCRIPT[1..] + [0xEF, 0xBF, 0xBD];
    FoldBroken();
    assert FoldAll(BROKEN, KELVIN_FOLDS.fold) == [LT] + (before + needle + [GT]);
    FoundAfter(before, needle, [GT]);
    FoundNext(LT, before + needle + [GT], needle);
    assert Ascii("script") == SCRIPT_NAME;
    assert BROKEN[..7] == [LT] + SCRIPT_NAME && BROKEN[7] == GT;
    assert SkipPanics(BROKEN, NON_TEXT_ELEMENTS, KELVIN_FOLDS.fold);
    NoSuchByteNoMatch(BROKEN, [0x7A], 0x7A);
    ProjectKeepTags(BROKEN, KELVIN_FOLDS);
    NormaliseFrom(BROKEN, true);
    TrimRightIsPrefix(Normalise(BROKEN, true));
    NoSuchByteNoMatch(Bytes(Project(BROKEN, KeepTags, KELVIN_FOLDS)), [0x7A], 0x7A);
    LetterNormalises(0x7A);
  }

  lemma LetterNormalises(c: byte)
    requires 0x61 <= c <= 0x7A
    ensures NormaliseSpace([c]) == [c]
  {
    hide Normalise;
    NormaliseHead([c], true);
    EmptyNormalises(false);
    assert [c][1..] == [] && [c][..1] == [c];
    assert Normalise([c], true) == [c];
  }

  // ---- Folding that runs off a cut ----

  const X_A: seq<byte> := [0x78, 0x20, 0x61]
  const SVG_ODD: seq<byte> := [0x3C, 0x73, 0x76, 0x67, 0x2F]      // <svg/
  const A_B_C: seq<byte> := [0x61, 0x62, 0x63]

  /** An element whose opening tag holds two bytes that are not UTF-8: its closing tag, in the folded
      copy, ends where the page does, so that the element is not dropped. */
  const UNDROPPED: seq<byte> := SVG_ODD + ([0xFF] + ([0xFF] + ([0x3E] + SVG_END + A_B_C)))
  const LONG_PAGE: seq<byte> := [0x78] + UNDROPPED
  const SHORT_ELEMENT: seq<byte> := SVG_ODD + ([0xFF] + ([0xFF] + ([0x3E] + SVG_END + [0x61])))
  const SHORT_CUT: seq<byte> := [0x78] + SHORT_ELEMENT

  lemma FoldUndropped(tail: seq<byte>)
    requires Plain(tail)
    ensures FoldAll(SVG_ODD + ([0xFF] + ([0xFF] + ([0x3E] + SVG_END + tail))), KELVIN_FOLDS.fold)
         == [LT] + (SVG_ODD[1..] + [0xEF, 0xBF, 0xBD, 0xEF, 0xBF, 0xBD, 0x3E] + SVG_END[..5] + ([GT] + tail))
  {
    hide FoldAll;
    var rest := [0x3E] + SVG_END + tail;
    FoldNothing(KELVIN_FOLDS.fold);
    assert rest + [] == rest;
    FoldPlain(rest, []);
    BadByteFolds(rest);
    BadByteFolds([0xFF] + rest);
    FoldPlain(SVG_ODD, [0xFF] + ([0xFF] + rest));
  }

  /** The closing tag is looked for from offset 17 on. */
  lemma UndroppedTag(tail: seq<byte>)
    requires Plain(tail)
    ensures var b := SVG_ODD + ([0xFF] + ([0xFF] + ([0x3E] + SVG_END + tail)));
            NON_TEXT_ELEMENTS[3] == SVG_NAME && Opens(b, SVG_NAME) && ClosingTag(b, SVG_NAME, KELVIN_FOLDS.fold) == 12
  {
    hide FoldAll, Index;
    var b := SVG_ODD + ([0xFF] + ([0xFF] + ([0x3E] + SVG_END + tail)));
    var needle: seq<byte> := [LT, SLASH] + SVG_NAME;
    var before: seq<byte> := SVG_ODD[1..] + [0xEF, 0xBF, 0xBD, 0xEF, 0xBF, 0xBD, 0x3E];
    assert Ascii("svg") == SVG_NAME;
    assert b[..4] == [0x3C, 0x73, 0x76, 0x67] && b[4] == SLASH;
    assert SVG_END[..5] == needle;
    FoldUndropped(tail);
    FoundAfter(before, needle, [GT] + tail);
    FoundNext(LT, before + needle + ([GT] + tail), needle);
  }

  lemma UndroppedReads()
    ensures SkipElement(UNDROPPED, NON_TEXT_ELEMENTS, KELVIN_FOLDS.fold) == None
    ensures !SkipPanics(UNDROPPED, NON_TEXT_ELEMENTS, KELVIN_FOLDS.fold)
    ensures SkipPanics(SHORT_ELEMENT, NON_TEXT_ELEMENTS, KELVIN_FOLDS.fold)
  {
    hide FoldAll, SkipElement, SkipPanics, ClosingTag, Opens;
    NonTextNames();
    assert Plain(A_B_C) && Plain([0x61]);
    UndroppedTag(A_B_C);
    UndroppedTag([0x61]);
    SkipElementByName(UNDROPPED, NON_TEXT_ELEMENTS, KELVIN_FOLDS.fold, 3);
    SkipElementByName(SHORT_ELEMENT, NON_TEXT_ELEMENTS, KELVIN_FOLDS.fold, 3);
    assert |UNDROPPED| == 17 && |SHORT_ELEMENT| == 15;
    assert UNDROPPED[17..] == [];
  }

  lemma UndroppedStep()
    ensures Step(UNDROPPED, StripTags, KELVIN_FOLDS) == Token(8, BLANK)
  {
    hide SkipElement;
    UndroppedReads();
    var b := UNDROPPED;
    assert b[..8] == SVG_ODD + [0xFF, 0xFF, 0x3E];
    assert forall k | 1 <= k < 7 :: b[k] == b[..8][k];
    assert TagEnd(b, 7, 0) == Some(8);
    assert TagEnd(b, 6, 0) == Some(8);
    assert TagEnd(b, 5, 0) == Some(8);
    assert TagEnd(b, 4, 0) == Some(8);
    assert TagEnd(b, 3, 0) == Some(8);
    assert TagEnd(b, 2, 0) == Some(8);
    assert TagEnd(b, 1, 0) == Some(8);
  }

  lemma {:induction false} NoNamePanics(b: seq<byte>, names: seq<seq<byte>>)
    requires |b| > 1 && b[1] == SLASH && forall x | x in names :: LowerCaseLetters(x) && x != []
    ensures !SkipPanics(b, names, KELVIN_FOLDS.fold)
  {
    if names != [] {
      OpensLetter(b, names[0]);
      NoNamePanics(b, names[1..]);
    }
  }

  lemma EndThenStep(tail: seq<byte>)
    ensures Step(SVG_END + tail, StripTags, KELVIN_FOLDS) == Token(6, BLANK)
    ensures !SkipPanics(SVG_END + tail, NON_TEXT_ELEMENTS, KELVIN_FOLDS.fold)
  {
    hide SkipElement, SkipPanics;
    NonTextNames();
    var b := SVG_END + tail;
    NoNameOpens(b, NON_TEXT_ELEMENTS);
    NoNamePanics(b, NON_TEXT_ELEMENTS);
    assert b[..6] == SVG_END;
    assert forall k | 0 <= k < 6 :: b[k] == SVG_END[k];
    assert TagEnd(b, 5, 0) == Some(6);
    assert TagEnd(b, 4, 0) == Some(6);
    assert TagEnd(b, 3, 0) == Some(6);
    assert TagEnd(b, 2, 0) == Some(6);
    assert TagEnd(b, 1, 0) == Some(6);
  }

  /** Letters are read one by one, and none panics. */
  lemma LetterHead(c: byte, rest: seq<byte>, off: nat)
    requires 0x61 <= c <= 0x7A
    ensures Tokenise([c] + rest, off, StripTags, KELVIN_FOLDS)
         == [Placed(Chars([c]), off, off + 1)] + Tokenise(rest, off + 1, StripTags, KELVIN_FOLDS)
    ensures Panics([c] + rest, KELVIN_FOLDS) <==> Panics(rest, KELVIN_FOLDS)
  {
    hide Step, Tokenise, SkipPanics;
    var b := [c] + rest;
    assert b[1..] == rest;
    PlainHereStep(b, StripTags);
    TokeniseHead(b, off, StripTags, KELVIN_FOLDS);
  }

  lemma LongPageReads()
    ensures Tokenise(LONG_PAGE, 0, StripTags, KELVIN_FOLDS)
         == [Placed(Chars([0x78]), 0, 1), Placed(BLANK, 1, 9), Placed(BLANK, 9, 15)] + Tokenise(A_B_C, 15, StripTags, KELVIN_FOLDS)
    ensures !Panics(LONG_PAGE, KELVIN_FOLDS)
  {
    hide Step, Tokenise, SkipPanics, Panics;
    LetterHead(0x78, UNDROPPED, 0);
    UndroppedTokens();
  }

  lemma UndroppedTokens()
    ensures Tokenise(UNDROPPED, 1, StripTags, KELVIN_FOLDS)
         == [Placed(BLANK, 1, 9), Placed(BLANK, 9, 15)] + Tokenise(A_B_C, 15, StripTags, KELVIN_FOLDS)
    ensures !Panics(UNDROPPED, KELVIN_FOLDS)
  {
    hide Step, Tokenise, SkipPanics, Panics;
    UndroppedReads();
    UndroppedStep();
    TokeniseHead(UNDROPPED, 1, StripTags, KELVIN_FOLDS);
    PanicsNext(UNDROPPED);
    assert UNDROPPED[8..] == SVG_END + A_B_C;
    EndTokens();
  }

  lemma EndTokens()
    ensures Tokenise(SVG_END + A_B_C, 9, StripTags, KELVIN_FOLDS) == [Placed(BLANK, 9, 15)] + Tokenise(A_B_C, 15, StripTags, KELVIN_FOLDS)
    ensures !Panics(SVG_END + A_B_C, KELVIN_FOLDS)
  {
    hide Step, Tokenise, SkipPanics, Panics;
    EndThenStep(A_B_C);
    TokeniseHead(SVG_END + A_B_C, 9, StripTags, KELVIN_FOLDS);
    assert (SVG_END + A_B_C)[6..] == A_B_C;
    PanicsNext(SVG_END + A_B_C);
    LettersRead();
  }

  lemma PanicsNext(b: seq<byte>)
    requires b != [] && !SkipPanics(b, NON_TEXT_ELEMENTS, KELVIN_FOLDS.fold)
    ensures Panics(b, KELVIN_FOLDS) <==> Panics(b[Step(b, StripTags, KELVIN_FOLDS).size..], KELVIN_FOLDS)
  {
    hide Step, SkipPanics;
  }

  lemma LettersRead()
    ensures Tokenise(A_B_C, 15, StripTags, KELVIN_FOLDS)
         == [Placed(Chars([0x61]), 15, 16), Placed(Chars([0x62]), 16, 17), Placed(Chars([0x63]), 17, 18)]
    ensures !Panics(A_B_C, KELVIN_FOLDS)
  {
    hide Tokenise, Panics;
    NothingPanics(18, KELVIN_FOLDS);
    assert A_B_C == [0x61] + ([0x62] + ([0x63] + []));
    LetterHead(0x61, [0x62] + ([0x63] + []), 15);
    LetterHead(0x62, [0x63] + [], 16);
    LetterHead(0x63, [], 17);
    NoBytesNoTokens([], 18, StripTags, KELVIN_FOLDS);
  }

  const LONG_READ: seq<Cell> :=
    [Cell(0x78, 0, 1), Cell(0x20, 1, 9), Cell(0x61, 15, 16), Cell(0x62, 16, 17), Cell(0x63, 17, 18)]

  lemma LongPageRenders()
    ensures Project(LONG_PAGE, StripTags, KELVIN_FOLDS) == LONG_READ
  {
    hide EmitText, Render, Tokenise, TrimRight;
    LongPageReads();
    HeadRenders(Tokenise(A_B_C, 15, StripTags, KELVIN_FOLDS));
    LettersRender();
    assert LONG_READ[..2] + LONG_READ[2..] == LONG_READ;
    SolidTrims();
  }

  lemma HeadRenders(ts: seq<Placed>)
    ensures Render([Placed(Chars([0x78]), 0, 1), Placed(BLANK, 1, 9), Placed(BLANK, 9, 15)] + ts, true).cells
         == LONG_READ[..2] + Render(ts, true).cells
  {
    hide EmitText, Render;
    var t0, t1, t2 := Placed(Chars([0x78]), 0, 1), Placed(BLANK, 1, 9), Placed(BLANK, 9, 15);
    assert [t0] + ([t1] + ([t2] + ts)) == [t0, t1, t2] + ts;
    LetterEmits(0x78, 0, 1, true);
    BlankEmits(1, 9, false);
    BlankEmits(9, 15, true);
    RenderNext(t0, [t1] + ([t2] + ts), true);
    RenderNext(t1, [t2] + ts, false);
    RenderNext(t2, ts, true);
  }

  lemma LettersRender()
    ensures Render(Tokenise(A_B_C, 15, StripTags, KELVIN_FOLDS), true).cells == LONG_READ[2..]
  {
    hide EmitText, Render, Tokenise;
    LettersRead();
    var t3, t4, t5 := Placed(Chars([0x61]), 15, 16), Placed(Chars([0x62]), 16, 17), Placed(Chars([0x63]), 17, 18);
    assert [t3] + ([t4] + ([t5] + [])) == [t3, t4, t5];
    LetterEmits(0x61, 15, 16, true);
    LetterEmits(0x62, 16, 17, false);
    LetterEmits(0x63, 17, 18, false);
    RenderNext(t3, [t4] + ([t5] + []), true);
    RenderNext(t4, [t5] + [], false);
    RenderNext(t5, [], false);
    NothingRenders();
  }

  lemma SolidTrims()
    ensures TrimRight(LONG_READ) == LONG_READ
  {
  }

  lemma BadIsNotWhite(rest: seq<byte>)
    ensures NoWhite([0xFF] + rest) == NoWhite(rest)
  {
    var b := [0xFF] + rest;
    assert b[1..] == rest && DecodeRune(b) == Decoded(RUNE_ERROR, 1);
  }

  lemma NoWhiteThere(tail: seq<byte>)
    requires Plain(tail)
    ensures NoWhite([0x78] + (SVG_ODD + ([0xFF] + ([0xFF] + ([0x3E] + SVG_END + tail)))))
  {
    hide NoWhite;
    var rest := [0x3E] + SVG_END + tail;
    NoWhiteNothing();
    assert rest + [] == rest;
    PlainIsNotWhite(rest, []);
    BadIsNotWhite(rest);
    BadIsNotWhite([0xFF] + rest);
    PlainIsNotWhite(SVG_ODD, [0xFF] + ([0xFF] + rest));
    PlainIsNotWhite([0x78], SVG_ODD + ([0xFF] + ([0xFF] + rest)));
  }

  lemma ShortCutPanics()
    ensures Panics(SHORT_CUT, KELVIN_FOLDS)
  {
    hide SkipPanics, Step;
    UndroppedReads();
    LetterHead(0x78, SHORT_ELEMENT, 0);
    PanicsHead(SHORT_ELEMENT, KELVIN_FOLDS);
    assert SHORT_ELEMENT[0..|SHORT_ELEMENT|] == SHORT_ELEMENT;
  }

  /** A claim is found in a page at which nothing panics, and the check of its span runs out of
      range: the cut ends before the offset at which the closing tag is looked for. */
  lemma IssuedSpanPanics()
    ensures Locate(LONG_PAGE, X_A, KELVIN_FOLDS) == Rendered(0, 16, StripTags, 0) && !LocatePanics(LONG_PAGE, X_A, KELVIN_FOLDS)
    ensures LONG_PAGE[0..16] == SHORT_CUT && CheckPanics(SHORT_CUT, X_A, KELVIN_FOLDS)
  {
    hide Project, Normalise, Tokenise, FirstAligned, NoWhite, Panics;
    assert Plain(A_B_C) && Plain([0x61]);
    SpacedNormalises();
    NoWhiteThere(A_B_C);
    NoWhiteThere([0x61]);
    NoSuchByteNoMatch(LONG_PAGE, X_A, SPACE);
    KeepTagsHasNoBlank(LONG_PAGE);
    NoSuchByteNoMatch(Bytes(Project(LONG_PAGE, KeepTags, KELVIN_FOLDS)), X_A, SPACE);
    LongPageReads();
    LongPageRenders();
    var text := Bytes(LONG_READ);
    FirstAlignedIs(text, X_A, 0);
    assert text[0..3] == X_A && AlignedAt(text, X_A, 0);
    assert FirstAligned(text, X_A, 0) == 0;
    KeepTagsHasNoBlank(SHORT_CUT);
    ShortCutPanics();
    assert LONG_PAGE[0..16] == SHORT_CUT;
  }

  lemma SpacedNormalises()
    ensures NormaliseSpace(X_A) == X_A
  {
    hide Normalise;
    var b: seq<byte> := X_A;
    NormaliseHead(b, true);
    NormaliseHead(b[1..], false);
    NormaliseHead(b[2..], true);
    EmptyNormalises(false);
    assert b[1..][1..] == b[2..] && b[2..][1..] == [];
    assert b[..1] == [0x78] && b[2..][..1] == [0x61];
    assert Normalise(b, true) == X_A;
  }
}
