/** White-space normalisation against the projection: what the two share, and by how much a
    projection shrinks when its page holds references or markup
    (internal/provenance/assertion.go). */
module Normalising {
  import opened Utf8
  import opened Tokens
  import opened Projection

  // ---- The shape of normalised text ----

  predicate HeadIsSpace(b: seq<byte>) {
    !Invalid(DecodeRune(b)) && IsSpace(DecodeRune(b).r)
  }

  /** A character that is not white space has no blank among its bytes. */
  lemma HeadBytes(b: seq<byte>)
    requires b != []
    ensures var d := DecodeRune(b);
            && (HeadIsSpace(b) || SPACE !in b[..d.size])
            && (forall k | 1 <= k < d.size :: b[k] >= 0x80)
            && (b[0] < 0x80 ==> d == Decoded(b[0], 1))
  {
    var d := DecodeRune(b);
    if StartsWellFormed(b) {
      EncodeDecoded(b);
      EncodingShape(d.r);
      assert forall k | 0 <= k < d.size :: b[k] == EncodeRune(d.r)[k];
    } else {
      assert b[..1] == [b[0]];
    }
  }

  ghost predicate Blanks(b: seq<byte>, inSpace: bool) {
    && (inSpace && b != [] ==> b[0] != SPACE)
    && forall k | 0 < k < |b| :: !(b[k - 1] == SPACE && b[k] == SPACE)
  }

  lemma NormaliseHead(b: seq<byte>, inSpace: bool)
    requires b != []
    ensures var d := DecodeRune(b);
            Normalise(b, inSpace)
            == if HeadIsSpace(b) then (if inSpace then [] else [SPACE]) + Normalise(b[d.size..], true)
               else b[..d.size] + Normalise(b[d.size..], false)
  {
  }

  lemma {:induction false} NormaliseShape(b: seq<byte>, inSpace: bool)
    ensures Blanks(Normalise(b, inSpace), inSpace)
    decreases |b|
  {
    hide DecodeRune, HeadIsSpace, Normalise;
    if b == [] {
      EmptyNormalises(inSpace);
    } else {
      NormaliseHead(b, inSpace);
      HeadBytes(b);
      var d := DecodeRune(b);
      NormaliseShape(b[d.size..], HeadIsSpace(b));
      assert b[..d.size] != [] && b[..d.size][0] in b[..d.size];
    }
  }

  lemma EmptyNormalises(inSpace: bool)
    ensures Normalise([], inSpace) == []
  {
  }

  /** No character of `b` is white space. */
  predicate NoWhite(b: seq<byte>)
    decreases |b|
  {
    b == [] || (!HeadIsSpace(b) && NoWhite(b[DecodeRune(b).size..]))
  }

  /** A normalised claim neither begins nor ends with a blank. */
  lemma NormalisedEnds(b: seq<byte>)
    ensures var n := NormaliseSpace(b);
            n != [] ==> n[0] != SPACE && n[|n| - 1] != SPACE
  {
    NormaliseShape(b, true);
  }

  // ---- Pages without references ----

  predicate ReferenceAt(b: seq<byte>, lib: Library, p: int) {
    0 <= p < |b| && b[p] == AMP && DecodeEntity(b[p..], lib).Some?
  }

  /** Does the text hold a character reference the library decodes? */
  ghost predicate HasReference(b: seq<byte>, lib: Library) {
    exists p :: ReferenceAt(b, lib, p)
  }

  lemma ReferenceInTail(b: seq<byte>, lib: Library, k: nat, p: int)
    requires k <= |b| && p >= 0
    ensures ReferenceAt(b[k..], lib, p) <==> ReferenceAt(b, lib, k + p)
  {
    if k + p < |b| {
      assert b[k..][p..] == b[k + p..];
    }
  }

  lemma NoReferenceInTail(b: seq<byte>, lib: Library, k: nat)
    requires k <= |b| && !HasReference(b, lib)
    ensures !HasReference(b[k..], lib)
  {
    forall p
      ensures !ReferenceAt(b[k..], lib, p)
    {
      if p >= 0 {
        ReferenceInTail(b, lib, k, p);
      }
    }
  }

  /** A token that is neither markup nor a reference. */
  lemma PlainStep(b: seq<byte>, mode: TagMode, lib: Library)
    requires b != [] && !ReferenceAt(b, lib, 0)
    requires mode.StripTags? ==> b[0] != LT || Markup(b, lib).None?
    ensures var d := DecodeRune(b);
            Step(b, mode, lib)
            == if Invalid(d) then Token(1, RawByte(b[0]))
               else if IsSpace(d.r) then Token(SpaceRun(b), BLANK)
               else Token(d.size, Chars([d.r]))
  {
    assert b[0..] == b;
  }

  lemma RunHead(b: seq<byte>)
    requires b != [] && HeadIsSpace(b)
    ensures SpaceRun(b) == DecodeRune(b).size + SpaceRun(b[DecodeRune(b).size..])
    ensures DecodeRune(b).size <= SpaceRun(b) <= |b|
  {
  }

  /** Inside white space, the rest of a run normalises to nothing. */
  lemma {:induction false} NormaliseRun(b: seq<byte>)
    ensures Normalise(b, true) == Normalise(b[SpaceRun(b)..], true)
    decreases |b|
  {
    hide DecodeRune, Normalise, IsSpace;
    if b != [] && HeadIsSpace(b) {
      var size := DecodeRune(b).size;
      RunHead(b);
      NormaliseHead(b, true);
      NormaliseRun(b[size..]);
      assert b[size..][SpaceRun(b[size..])..] == b[SpaceRun(b)..];
    } else {
      assert SpaceRun(b) == 0 && b[0..] == b;
    }
  }

  /** What a plain token emits, and what normalisation makes of the same bytes. */
  lemma PlainToken(b: seq<byte>, off: nat, inSpace: bool, mode: TagMode, lib: Library)
    requires b != [] && !ReferenceAt(b, lib, 0)
    requires mode.StripTags? ==> b[0] != LT || Markup(b, lib).None?
    ensures var t := Step(b, mode, lib);
            var e := EmitText(t.text, off, off + t.size, inSpace);
            && e.inSpace == HeadIsSpace(b)
            && Normalise(b, inSpace) == Bytes(e.cells) + Normalise(b[t.size..], e.inSpace)
  {
    hide SpaceRun, Normalise, Step;
    PlainStep(b, mode, lib);
    NormaliseHead(b, inSpace);
    var d := DecodeRune(b);
    if Invalid(d) {
      assert b[..1] == [b[0]];
    } else if IsSpace(d.r) {
      RunHead(b);
      NormaliseRun(b[d.size..]);
      assert b[d.size..][SpaceRun(b[d.size..])..] == b[SpaceRun(b)..];
      BlankEmits(off, off + SpaceRun(b), inSpace);
    } else {
      EncodeDecoded(b);
      CharEmits(d.r, off, off + d.size, inSpace);
    }
  }

  lemma BlankEmits(from: nat, to: nat, inSpace: bool)
    ensures EmitText(BLANK, from, to, inSpace) == Emitted(if inSpace then [] else [Cell(SPACE, from, to)], true)
  {
    assert EmitRunes([0x20][1..], from, to, true) == Emitted([], true);
  }

  lemma CharEmits(r: int, from: nat, to: nat, inSpace: bool)
    ensures EmitText(Chars([r]), from, to, inSpace) == EmitRune(r, from, to, inSpace)
  {
    var e := EmitRune(r, from, to, inSpace);
    assert EmitRunes([r][1..], from, to, e.inSpace) == Emitted([], e.inSpace);
    assert e.cells + [] == e.cells;
  }

  /** With no reference to decode, the tag-keeping projection is white-space normalisation. */
  lemma {:induction false} KeepTagsNormalises(b: seq<byte>, off: nat, inSpace: bool, lib: Library)
    requires !HasReference(b, lib)
    ensures Bytes(Render(Tokenise(b, off, KeepTags, lib), inSpace).cells) == Normalise(b, inSpace)
    decreases |b|
  {
    hide Step, EmitText, Normalise, DecodeRune, Bytes, DecodeEntity;
    if b == [] {
      EmptyNormalises(inSpace);
    } else {
      var t := Step(b, KeepTags, lib);
      var e := EmitText(t.text, off, off + t.size, inSpace);
      assert !ReferenceAt(b, lib, 0);
      PlainToken(b, off, inSpace, KeepTags, lib);
      NoReferenceInTail(b, lib, t.size);
      KeepTagsNormalises(b[t.size..], off + t.size, e.inSpace, lib);
      RenderHead(b, off, inSpace, KeepTags, lib);
      BytesOfSum(e.cells, Render(Tokenise(b[t.size..], off + t.size, KeepTags, lib), e.inSpace).cells);
    }
  }

  lemma RenderHead(b: seq<byte>, off: nat, inSpace: bool, mode: TagMode, lib: Library)
    requires b != []
    ensures var t := Step(b, mode, lib);
            var e := EmitText(t.text, off, off + t.size, inSpace);
            Render(Tokenise(b, off, mode, lib), inSpace).cells
            == e.cells + Render(Tokenise(b[t.size..], off + t.size, mode, lib), e.inSpace).cells
  {
    hide Step, EmitText;
    var t := Step(b, mode, lib);
    var rest := Tokenise(b[t.size..], off + t.size, mode, lib);
    TokeniseHead(b, off, mode, lib);
    assert ([Placed(t.text, off, off + t.size)] + rest)[1..] == rest;
  }

  lemma ProjectKeepTags(b: seq<byte>, lib: Library)
    requires !HasReference(b, lib)
    ensures Bytes(Project(b, KeepTags, lib)) == NormaliseSpace(b)
  {
    hide Tokenise, Render, Normalise;
    KeepTagsNormalises(b, 0, true, lib);
    BytesOfTrim(Render(Tokenise(b, 0, KeepTags, lib), true).cells);
  }

  // ---- Pages with references: a projection is shorter ----

  /** Normalisation up to a solid ASCII byte, and from there on. */
  lemma {:induction false} SolidSplit(b: seq<byte>, inSpace: bool, e: nat) returns (w: seq<byte>)
    requires 1 <= e <= |b| && b[e - 1] < 0x80 && !IsSpace(b[e - 1])
    ensures Normalise(b, inSpace) == w + Normalise(b[e..], false)
    ensures w != [] && w[|w| - 1] == b[e - 1]
    ensures e >= 2 && b[0] < 0x80 && !IsSpace(b[0]) ==> |w| >= 2
    decreases e
  {
    hide DecodeRune, Normalise, IsSpace;
    NormaliseHead(b, inSpace);
    HeadBytes(b);
    var size := DecodeRune(b).size;
    var head := if HeadIsSpace(b) then (if inSpace then [] else [SPACE]) else b[..size];
    if e <= size {
      assert e == 1 && size == 1;
      assert b[..1] == [b[0]];
      w := head;
    } else {
      var rest := SolidSplit(b[size..], HeadIsSpace(b), e - size);
      assert b[size..][e - size..] == b[e..];
      w := head + rest;
      assert head + (rest + Normalise(b[e..], false)) == w + Normalise(b[e..], false);
    }
  }

  predicate Solid(raw: seq<byte>) {
    forall k | 0 <= k < |raw| :: 0x20 < raw[k] < 0x7F
  }

  lemma {:induction false} NormaliseSolid(b: seq<byte>, inSpace: bool, e: nat)
    requires e <= |b| && Solid(b[..e])
    ensures Normalise(b, inSpace) == b[..e] + Normalise(b[e..], if e == 0 then inSpace else false)
  {
    hide DecodeRune, Normalise;
    if e == 0 {
      assert b[0..] == b && b[..0] == [];
    } else {
      NormaliseHead(b, inSpace);
      HeadBytes(b);
      assert b[..e][0] == b[0];
      assert DecodeRune(b) == Decoded(b[0], 1);
      var c := b[1..];
      assert c[..e - 1] == b[..e][1..];
      NormaliseSolid(c, false, e - 1);
      assert c[e - 1..] == b[e..] && b[..1] + c[..e - 1] == b[..e];
    }
  }

  /** What a reference is rendered as. */
  function Expansion(raw: seq<byte>, lib: Library): seq<byte> {
    Bytes(EmitRunes(Runes(lib.unescape(raw)), 0, 0, false).cells)
  }

  function Ampersands(b: seq<byte>): nat {
    multiset(b)[AMP]
  }

  /** The reference at `p`, semicolon included. */
  function ReferenceText(b: seq<byte>, lib: Library, p: nat): seq<byte>
    requires ReferenceAt(b, lib, p)
  {
    b[p..][..DecodeEntity(b[p..], lib).value]
  }

  /** References are spelled in visible ASCII, and one that stands for text with an ampersand in it
      stands for one ampersand and for fewer bytes than it takes. */
  ghost predicate Tame(b: seq<byte>, lib: Library) {
    forall p | ReferenceAt(b, lib, p) :: TameReference(ReferenceText(b, lib, p), lib)
  }

  predicate TameReference(raw: seq<byte>, lib: Library) {
    var x := Expansion(raw, lib);
    Solid(raw) && (AMP in x ==> Ampersands(x) == 1 && |x| < |raw|)
  }

  lemma TameInTail(b: seq<byte>, lib: Library, k: nat)
    requires k <= |b| && Tame(b, lib)
    ensures Tame(b[k..], lib)
  {
    hide TameReference;
    forall p | ReferenceAt(b[k..], lib, p)
      ensures TameReference(ReferenceText(b[k..], lib, p), lib)
    {
      ReferenceInTail(b, lib, k, p);
      assert b[k..][p..] == b[k + p..];
      assert ReferenceText(b[k..], lib, p) == ReferenceText(b, lib, k + p);
    }
  }

  /** White space holds no ampersand. */
  lemma {:induction false} NoAmpersandInRun(b: seq<byte>)
    ensures forall k | 0 <= k < SpaceRun(b) :: b[k] != AMP
    decreases |b|
  {
    if b != [] && HeadIsSpace(b) {
      var size := DecodeRune(b).size;
      RunHead(b);
      HeadBytes(b);
      NoAmpersandInRun(b[size..]);
      forall k | 0 <= k < SpaceRun(b)
        ensures b[k] != AMP
      {
        if k >= size {
          assert b[k] == b[size..][k - size];
        }
      }
    }
  }

  /** A reference that is not the head token lies wholly after it. */
  lemma ReferenceAfterPlain(b: seq<byte>, mode: TagMode, lib: Library)
    requires b != [] && !ReferenceAt(b, lib, 0) && HasReference(b, lib)
    requires mode.StripTags? ==> b[0] != LT || Markup(b, lib).None?
    ensures HasReference(b[Step(b, mode, lib).size..], lib)
  {
    hide DecodeEntity, Step, SpaceRun;
    PlainStep(b, mode, lib);
    HeadBytes(b);
    NoAmpersandInRun(b);
    var size := Step(b, mode, lib).size;
    var p :| ReferenceAt(b, lib, p);
    assert p >= size;
    ReferenceInTail(b, lib, size, p - size);
  }

  /** Does normalised text leave off inside white space? */
  ghost predicate LeavesOff(n: seq<byte>, inSpace: bool) {
    if n == [] then inSpace else n[|n| - 1] == SPACE
  }

  /** Emitting after white space adds no more than emitting elsewhere. */
  lemma EmitTextState(t: Text, from: nat, to: nat, s1: bool, s2: bool)
    requires s2 ==> s1
    requires Sound(t)
    ensures var x, y := EmitText(t, from, to, s1).cells, EmitText(t, from, to, s2).cells;
            |x| <= |y| && Ampersands(Bytes(x)) == Ampersands(Bytes(y))
  {
    hide EmitText;
    if s1 != s2 {
      EmitTextFresh(Placed(t, from, to), s2);
      DropKeepsAmpersands(EmitText(t, from, to, s2).cells);
    }
  }

  lemma DropKeepsAmpersands(cs: seq<Cell>)
    ensures Ampersands(Bytes(DropBlank(cs))) == Ampersands(Bytes(cs))
  {
    if cs != [] {
      assert Bytes(cs) == [cs[0].c] + Bytes(cs[1..]);
    }
  }

  /** Rendered text `r` against the normalised text `w` of the same bytes: it has no more
      ampersands, and with as many it is no longer, and shorter if there was a reference. */
  ghost predicate FallsBehind(r: seq<byte>, w: seq<byte>, reference: bool) {
    Ampersands(r) < Ampersands(w)
    || (Ampersands(r) == Ampersands(w) && |r| <= |w| && (reference ==> |r| < |w|))
  }

  /** What one token renders to, and the normalised text of the same bytes. */
  lemma TokenShrinks(b: seq<byte>, off: nat, rendered: bool, normalised: bool, mode: TagMode, lib: Library)
    returns (w: seq<byte>, next: bool)
    requires b != [] && Tame(b, lib) && (normalised ==> rendered)
    ensures var t := Step(b, mode, lib);
            var e := EmitText(t.text, off, off + t.size, rendered);
            && Normalise(b, normalised) == w + Normalise(b[t.size..], next)
            && (next ==> e.inSpace) && LeavesOff(w, normalised) == next
            && FallsBehind(Bytes(e.cells), w, HasReference(b, lib) && !HasReference(b[t.size..], lib))
  {
    hide Markup, DecodeEntity, EmitText, Tame;
    var t := Step(b, mode, lib);
    StepSound(b, mode, lib);
    if mode.StripTags? && b[0] == LT && Markup(b, lib).Some? {
      MarkupEndsWithGt(b, lib);
      w := SolidSplit(b, normalised, t.size);
      next := false;
      BlankEmits(off, off + t.size, rendered);
      BlankFallsBehind(EmitText(BLANK, off, off + t.size, rendered).cells, w);
    } else if ReferenceAt(b, lib, 0) {
      w, next := ReferenceShrinks(b, off, rendered, normalised, mode, lib);
    } else {
      w, next := PlainShrinks(b, off, rendered, normalised, mode, lib);
      if HasReference(b, lib) {
        ReferenceAfterPlain(b, mode, lib);
      }
    }
  }

  lemma BlankFallsBehind(cs: seq<Cell>, w: seq<byte>)
    requires |w| >= 2 && |cs| <= 1 && forall k | 0 <= k < |cs| :: cs[k].c == SPACE
    ensures FallsBehind(Bytes(cs), w, true)
  {
    assert AMP !in Bytes(cs);
  }

  lemma PlainShrinks(b: seq<byte>, off: nat, rendered: bool, normalised: bool, mode: TagMode, lib: Library)
    returns (w: seq<byte>, next: bool)
    requires b != [] && !ReferenceAt(b, lib, 0) && (normalised ==> rendered)
    requires mode.StripTags? ==> b[0] != LT || Markup(b, lib).None?
    ensures var t := Step(b, mode, lib);
            var e := EmitText(t.text, off, off + t.size, rendered);
            && Normalise(b, normalised) == w + Normalise(b[t.size..], next)
            && FallsBehind(Bytes(e.cells), w, false) && next == e.inSpace && LeavesOff(w, normalised) == next
  {
    hide Step, Normalise, EmitText, HeadIsSpace;
    var t := Step(b, mode, lib);
    StepSound(b, mode, lib);
    PlainToken(b, off, rendered, mode, lib);
    PlainToken(b, off, normalised, mode, lib);
    EmitTextShape(t.text, off, off + t.size, normalised);
    EmitTextState(t.text, off, off + t.size, rendered, normalised);
    var e := EmitText(t.text, off, off + t.size, normalised);
    w, next := Bytes(e.cells), e.inSpace;
  }

  lemma ReferenceShrinks(b: seq<byte>, off: nat, rendered: bool, normalised: bool, mode: TagMode, lib: Library)
    returns (w: seq<byte>, next: bool)
    requires ReferenceAt(b, lib, 0) && Tame(b, lib)
    ensures var t := Step(b, mode, lib);
            var e := EmitText(t.text, off, off + t.size, rendered);
            && Normalise(b, normalised) == w + Normalise(b[t.size..], next)
            && FallsBehind(Bytes(e.cells), w, true) && !next && !LeavesOff(w, normalised)
  {
    hide EmitRunes, Normalise, Markup, DecodeEntity, Bytes, Ampersands;
    assert b[0..] == b;
    var raw := ReferenceText(b, lib, 0);
    var rs := Runes(lib.unescape(raw));
    assert TameReference(raw, lib);
    EmitTextState(Chars(rs), off, off + |raw|, rendered, false);
    EmitRunesShift(rs, 0, 0, off, off + |raw|, false);
    NormaliseSolid(b, normalised, |raw|);
    w, next := raw, false;
    ExpansionFallsBehind(raw, Expansion(raw, lib), Bytes(EmitText(Chars(rs), off, off + |raw|, rendered).cells));
  }

  lemma ExpansionFallsBehind(raw: seq<byte>, x: seq<byte>, r: seq<byte>)
    requires raw != [] && raw[0] == AMP && (AMP in x ==> Ampersands(x) == 1 && |x| < |raw|)
    requires |r| <= |x| && Ampersands(r) == Ampersands(x)
    ensures FallsBehind(r, raw, true)
  {
    assert raw[0] in multiset(raw);
    assert AMP !in x ==> Ampersands(x) == 0;
  }

  /** Token by token, a projection never catches up with the normalised text of its page, and is
      behind as soon as there is a reference. */
  lemma {:induction false} RenderShrinks(b: seq<byte>, off: nat, rendered: bool, normalised: bool, mode: TagMode, lib: Library)
    requires Tame(b, lib) && (normalised ==> rendered)
    ensures var r, n := Render(Tokenise(b, off, mode, lib), rendered), Normalise(b, normalised);
            && FallsBehind(Bytes(r.cells), n, HasReference(b, lib))
            && (LeavesOff(n, normalised) ==> r.inSpace)
    decreases |b|
  {
    hide Step, EmitText, Normalise, DecodeEntity, Tame, FallsBehind;
    if b == [] {
      EmptyNormalises(normalised);
      NothingBehind();
    } else {
      var t := Step(b, mode, lib);
      var e := EmitText(t.text, off, off + t.size, rendered);
      var w, next := TokenShrinks(b, off, rendered, normalised, mode, lib);
      TameInTail(b, lib, t.size);
      RenderShrinks(b[t.size..], off + t.size, e.inSpace, next, mode, lib);
      TokeniseHead(b, off, mode, lib);
      var rest := Tokenise(b[t.size..], off + t.size, mode, lib);
      assert ([Placed(t.text, off, off + t.size)] + rest)[1..] == rest;
      var tail := Render(rest, e.inSpace).cells;
      BytesOfSum(e.cells, tail);
      BothBehind(Bytes(e.cells), Bytes(tail), w, Normalise(b[t.size..], next), HasReference(b, lib), HasReference(b[t.size..], lib));
    }
  }

  lemma NothingBehind()
    ensures FallsBehind([], [], false)
  {
  }

  lemma BothBehind(r1: seq<byte>, r2: seq<byte>, w1: seq<byte>, w2: seq<byte>, here: bool, later: bool)
    requires FallsBehind(r1, w1, here && !later) && FallsBehind(r2, w2, later)
    ensures FallsBehind(r1 + r2, w1 + w2, here)
  {
  }

  lemma {:induction false} TrimKeepsAmpersands(b: seq<byte>)
    ensures Ampersands(TrimRightBytes(b)) == Ampersands(b)
  {
    if b != [] && b[|b| - 1] == SPACE {
      assert b == b[..|b| - 1] + [SPACE];
      TrimKeepsAmpersands(b[..|b| - 1]);
    }
  }

  /** So a claim that spells out a reference does not project to itself. */
  lemma ReferenceMisses(b: seq<byte>, mode: TagMode, lib: Library)
    requires Tame(b, lib) && HasReference(b, lib) && NormaliseSpace(b) != []
    ensures Bytes(Project(b, mode, lib)) != NormaliseSpace(b)
  {
    hide Tokenise, Render, Normalise, HasReference, Tame, Ampersands, TrimRightBytes, TrimRight;
    var ts := Tokenise(b, 0, mode, lib);
    var r, n := Render(ts, true), Normalise(b, true);
    RenderShrinks(b, 0, true, true, mode, lib);
    NormaliseShape(b, true);
    TokensOrdered(b, 0, mode, lib);
    RenderShape(ts, 0, |b|, true);
    BytesOfTrim(r.cells);
    TrimKeepsAmpersands(Bytes(r.cells));
    TrimKeepsAmpersands(n);
    if |r.cells| < |n| {
      TrimmedLengths(r, n);
    }
  }

  lemma TrimmedLengths(r: Emitted, n: seq<byte>)
    requires |r.cells| < |n| && (LeavesOff(n, true) ==> r.inSpace)
    requires SingleBlanks(r.cells, true) && EndsInSpace(r.cells, true, r.inSpace) && Blanks(n, true)
    requires TrimRightBytes(n) != []
    ensures |TrimRight(r.cells)| < |TrimRightBytes(n)|
  {
    var v := TrimRightBytes(n);
    assert |v| < |n| ==> n[|n| - 1] == SPACE;
    assert |n| >= 2 ==> !(n[|n| - 2] == SPACE && n[|n| - 1] == SPACE);
    assert |n| <= |v| + 1;
  }

  // ---- Normalising twice ----

  /** Bytes outside ASCII at the head of normalised text are the text's own. */
  lemma {:induction false} HighBytesCopied(b: seq<byte>, m: nat)
    requires m <= |Normalise(b, false)| && forall k | 0 <= k < m :: Normalise(b, false)[k] >= 0x80
    ensures m <= |b| && b[..m] == Normalise(b, false)[..m]
    decreases |b|
  {
    hide DecodeRune, Normalise, HeadIsSpace;
    if b == [] {
      EmptyNormalises(false);
    } else if m > 0 {
      NormaliseHead(b, false);
      var size, n := DecodeRune(b).size, Normalise(b, false);
      assert n[0] >= 0x80;
      assert !HeadIsSpace(b);
      var rest := Normalise(b[size..], false);
      assert n == b[..size] + rest;
      if m > size {
        assert forall k | 0 <= k < m - size :: rest[k] == n[size + k];
        HighBytesCopied(b[size..], m - size);
        assert b[..m] == b[..size] + b[size..][..m - size];
        assert n[..m] == b[..size] + rest[..m - size];
      } else {
        assert n[..m] == b[..size][..m] == b[..m];
      }
    }
  }

  lemma StillBroken(b: seq<byte>)
    requires b != [] && StartsWellFormed([b[0]] + Normalise(b[1..], false))
    ensures StartsWellFormed(b)
  {
    hide Normalise;
    var rest := Normalise(b[1..], false);
    var n := [b[0]] + rest;
    var m := SequenceLength(n[0]) - 1;
    assert forall k | 0 <= k < m :: rest[k] == n[k + 1];
    HighBytesCopied(b[1..], m);
    assert forall k | 0 <= k < m :: b[1..][..m][k] == b[k + 1];
  }

  /** Normalised text decodes as the text it came from does. */
  lemma SameHead(b: seq<byte>)
    requires b != [] && !HeadIsSpace(b)
    ensures var size := DecodeRune(b).size;
            DecodeRune(b[..size] + Normalise(b[size..], false)) == DecodeRune(b)
  {
    hide Normalise;
    var size := DecodeRune(b).size;
    var n := b[..size] + Normalise(b[size..], false);
    assert n[..size] == b[..size];
    if StartsWellFormed(b) {
      DecodePrefix(b, size);
      DecodePrefix(n, size);
    } else {
      assert b[..1] == [b[0]];
      if StartsWellFormed(n) {
        StillBroken(b);
      }
    }
  }

  lemma {:induction false} NormaliseTwice(b: seq<byte>, inSpace: bool)
    ensures Normalise(Normalise(b, inSpace), inSpace) == Normalise(b, inSpace)
    decreases |b|
  {
    hide DecodeRune, Normalise, IsSpace;
    if b == [] {
      EmptyNormalises(inSpace);
    } else {
      var size := DecodeRune(b).size;
      var rest := Normalise(b[size..], HeadIsSpace(b));
      NormaliseHead(b, inSpace);
      NormaliseTwice(b[size..], HeadIsSpace(b));
      if HeadIsSpace(b) {
        assert [] + rest == rest;
        BlankHead(rest);
        NormaliseHead([SPACE] + rest, false);
      } else {
        var n := b[..size] + rest;
        SameHead(b);
        NormaliseHead(n, inSpace);
        assert n[size..] == rest && n[..size] == b[..size];
      }
    }
  }

  lemma BlankHead(rest: seq<byte>)
    ensures var b := [SPACE] + rest;
            DecodeRune(b) == Decoded(0x20, 1) && HeadIsSpace(b) && b[1..] == rest
  {
  }

  /** A trailing blank is copied unless the text already leaves off in white space. */
  lemma {:induction false} NormaliseBlankEnd(v: seq<byte>, inSpace: bool)
    ensures var n := Normalise(v, inSpace);
            && Normalise(v + [SPACE], inSpace) == n + (if LeavesOff(n, inSpace) then [] else [SPACE])
            && |n| <= |v|
    decreases |v|
  {
    hide DecodeRune, Normalise, HeadIsSpace;
    EmptyNormalises(inSpace);
    if v == [] {
      EmptyNormalises(true);
      BlankHead([]);
      NormaliseHead([SPACE] + [], inSpace);
      assert [] + [SPACE] == [SPACE] + [];
    } else {
      var size := DecodeRune(v).size;
      BlankEndDecodes(v);
      NormaliseHead(v, inSpace);
      NormaliseHead(v + [SPACE], inSpace);
      assert (v + [SPACE])[size..] == v[size..] + [SPACE] && (v + [SPACE])[..size] == v[..size];
      NormaliseBlankEnd(v[size..], HeadIsSpace(v));
      HeadBytes(v);
      assert !HeadIsSpace(v) ==> v[..size][size - 1] in v[..size];
      var head := if HeadIsSpace(v) then (if inSpace then [] else [SPACE]) else v[..size];
      var n := Normalise(v[size..], HeadIsSpace(v));
      var tail := if LeavesOff(n, HeadIsSpace(v)) then [] else [SPACE];
      assert head + (n + tail) == (head + n) + tail;
      assert LeavesOff(head + n, inSpace) == LeavesOff(n, HeadIsSpace(v));
    }
  }

  lemma BlankEndDecodes(v: seq<byte>)
    requires v != []
    ensures DecodeRune(v + [SPACE]) == DecodeRune(v) && HeadIsSpace(v + [SPACE]) == HeadIsSpace(v)
  {
    assert (v + [SPACE])[..|v|] == v;
    DecodePrefix(v + [SPACE], |v|);
  }

  /** Normalising is idempotent. */
  lemma NormaliseSpaceTwice(b: seq<byte>)
    ensures NormaliseSpace(NormaliseSpace(b)) == NormaliseSpace(b)
  {
    hide Normalise;
    var w := Normalise(b, true);
    var v := TrimRightBytes(w);
    NormaliseTwice(b, true);
    NormaliseShape(b, true);
    assert |w| >= 2 ==> !(w[|w| - 2] == SPACE && w[|w| - 1] == SPACE);
    if v != w {
      assert w == v + [SPACE];
      NormaliseBlankEnd(v, true);
      assert Normalise(v, true) == v;
    }
  }
}
