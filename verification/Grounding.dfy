/** The code of internal/provenance/assertion.go in its own form: scanning loops over byte
    offsets, a builder that appends to three arrays, an index that caches its two projections,
    and an assertion whose evidence is written in place. Each is tied to the functions of the
    modules Tokens, Projection and Citation. */
module Grounding {
  import opened Wrappers
  import opened Utf8
  import opened Search
  import T = Tokens
  import opened Projection
  import opened Normalising
  import opened Citation
  import opened Folding
  import opened Elements

  type byte = Utf8.byte

  /** The three parallel arrays of the source's `projection`. */
  datatype Arrays = Arrays(norm: seq<byte>, starts: seq<nat>, ends: seq<nat>)

  function ArraysOf(cs: seq<Cell>): (p: Arrays)
    ensures |p.norm| == |p.starts| == |p.ends| == |cs|
    ensures forall k | 0 <= k < |cs| :: Cell(p.norm[k], p.starts[k], p.ends[k]) == cs[k]
    ensures p.norm == Bytes(cs)
  {
    Arrays(Bytes(cs),
           seq(|cs|, i requires 0 <= i < |cs| => cs[i].start),
           seq(|cs|, i requires 0 <= i < |cs| => cs[i].end))
  }

  // ---- Scanning ----

  lemma {:induction false} NoMatchBetween(h: seq<byte>, n: seq<byte>, from: nat, to: nat)
    requires n != [] && from <= to
    requires forall k | from <= k < to :: !AlignedAt(h, n, k)
    ensures FirstAligned(h, n, from) == FirstAligned(h, n, to)
    decreases if to >= from then to - from else 0
  {
    if from < to {
      assert !AlignedAt(h, n, from);
      NoMatchBetween(h, n, from + 1, to);
    }
  }

  lemma NoneLeft(h: seq<byte>, n: seq<byte>, from: nat)
    requires n != [] && from > |h| - |n|
    ensures FirstAligned(h, n, from) == -1
  {
  }

  /** What searching the rest of the haystack says about the haystack. */
  lemma IndexFrom(h: seq<byte>, n: seq<byte>, from: nat)
    requires from <= |h| && n != []
    ensures var j := Index(h[from..], n);
            && (j >= 0 ==> MatchAt(h, n, from + j))
            && (forall k | from <= k < (if j < 0 then |h| else from + j) :: !AlignedAt(h, n, k))
  {
    IndexMatches(h[from..], n);
    var j := Index(h[from..], n);
    forall k | from <= k < (if j < 0 then |h| else from + j)
      ensures !MatchAt(h, n, k)
    {
      MatchInSuffix(h, n, from, k - from);
      if MatchAt(h, n, k) {
        IndexLeast(h[from..], n, k - from);
      }
    }
    if j >= 0 {
      MatchInSuffix(h, n, from, j);
    }
  }

  method IndexAligned(haystack: seq<byte>, needle: seq<byte>) returns (i: int)
    requires needle != []
    ensures i == FirstAligned(haystack, needle, 0)
  {
    hide FirstAligned, Index, RuneStart;
    var from := 0;
    while from <= |haystack| - |needle|
      invariant 0 <= from <= |haystack|
      invariant FirstAligned(haystack, needle, 0) == FirstAligned(haystack, needle, from)
    {
      var j := Index(haystack[from..], needle);
      IndexFrom(haystack, needle, from);
      if j < 0 {
        NoMatchBetween(haystack, needle, from, |haystack|);
        NoneLeft(haystack, needle, |haystack|);
        return -1;
      }
      i := from + j;
      NoMatchBetween(haystack, needle, from, i);
      Here(haystack, needle, i);
      if RuneAligned(haystack, i, |needle|) {
        return i;
      }
      from := i + 1;
    }
    NoneLeft(haystack, needle, from);
    return -1;
  }

  lemma Here(h: seq<byte>, n: seq<byte>, i: nat)
    requires n != [] && MatchAt(h, n, i)
    ensures FirstAligned(h, n, i) == if RuneAligned(h, i, |n|) then i else FirstAligned(h, n, i + 1)
  {
  }

  function Past(i: nat, r: Option<nat>): Option<nat> {
    match r
    case None => None
    case Some(n) => Some(i + n)
  }

  method SkipTag(body: seq<byte>, i: nat) returns (end: Option<nat>)
    requires i < |body|
    ensures end == Past(i, T.SkipTag(body[i..]))
  {
    var b := body[i..];
    if T.COMMENT_OPEN <= body[i..] {
      var j := Index(body[i + 4..], T.COMMENT_CLOSE);
      assert b[4..] == body[i + 4..];
      if j >= 0 {
        return Some(i + 4 + j + 3);
      }
      return None;
    }
    var quote: byte := 0;
    var j := i + 1;
    while j < |body|
      invariant i + 1 <= j <= |body|
      invariant T.TagEnd(b, 1, 0) == T.TagEnd(b, j - i, quote)
    {
      var c := body[j];
      assert c == b[j - i];
      if quote != 0 {
        if c == quote {
          quote := 0;
        }
      } else if c == T.DOUBLE_QUOTE || c == T.SINGLE_QUOTE {
        quote := c;
      } else if c == T.GT {
        return Some(j + 1);
      }
      j := j + 1;
    }
    return None;
  }

  lemma NamesFrom(rest: seq<byte>, names: seq<seq<byte>>, fold: int -> int, k: nat)
    requires k < |names|
    ensures T.SkipElement(rest, names[k..], fold)
            == if T.Opens(rest, names[k]) then T.ElementEnd(rest, names[k], fold) else T.SkipElement(rest, names[k + 1..], fold)
    ensures T.SkipPanics(rest, names[k..], fold)
            == if T.Opens(rest, names[k]) then T.ElementPanics(rest, names[k], fold) else T.SkipPanics(rest, names[k + 1..], fold)
  {
    assert names[k..][0] == names[k] && names[k..][1..] == names[k + 1..];
  }

  /** `panics` is the slice out of range that the source runs into. */
  method SkipElement(body: seq<byte>, i: nat, names: seq<seq<byte>>, fold: int -> int) returns (end: Option<nat>, panics: bool)
    requires i < |body|
    ensures end == Past(i, T.SkipElement(body[i..], names, fold)) && panics == T.SkipPanics(body[i..], names, fold)
  {
    ghost var rest := body[i..];
    assert names[0..] == names;
    for k := 0 to |names|
      invariant T.SkipElement(rest, names, fold) == T.SkipElement(rest, names[k..], fold)
      invariant T.SkipPanics(rest, names, fold) == T.SkipPanics(rest, names[k..], fold)
    {
      NamesFrom(rest, names, fold, k);
      var opens := NameOpens(body, i, names[k]);
      if opens {
        end, panics := ElementEnd(body, i, names[k], fold);
        return;
      }
    }
    assert names[|names|..] == [];
    return None, false;
  }

  /** The two tests that make the source's loop `continue`. */
  method NameOpens(body: seq<byte>, i: nat, name: seq<byte>) returns (opens: bool)
    requires i < |body|
    ensures opens == T.Opens(body[i..], name)
  {
    ghost var rest := body[i..];
    var open := [T.LT] + name;
    if |body| - i < |open| {
      return false;
    }
    assert rest[..|open|] == body[i..i + |open|];
    if Lower(body[i..i + |open|]) != Lower(open) {
      return false;
    }
    var n := i + |open|;
    if n < |body| && !T.IsSpaceByte(body[n]) && body[n] != T.GT && body[n] != T.SLASH {
      return false;
    }
    return true;
  }

  method ElementEnd(body: seq<byte>, i: nat, name: seq<byte>, fold: int -> int) returns (end: Option<nat>, panics: bool)
    requires i < |body|
    ensures end == Past(i, T.ElementEnd(body[i..], name, fold)) && panics == T.ElementPanics(body[i..], name, fold)
  {
    var rest := body[i..];
    var idx := Index(FoldAll(rest, fold), [T.LT, T.SLASH] + name);
    if idx < 0 {
      return None, false;
    }
    var after := i + idx + 2 + |name|;
    if after > |body| {
      return None, true;
    }
    var gt := Index(body[after..], [T.GT]);
    assert body[after..] == rest[after - i..];
    if gt >= 0 {
      return Some(after + gt + 1), false;
    }
    return None, false;
  }

  method DecodeEntity(body: seq<byte>, i: nat, lib: T.Library) returns (decoded: seq<byte>, end: Option<nat>)
    requires i < |body|
    ensures end == Past(i, T.DecodeEntity(body[i..], lib))
    ensures end.Some? ==> i < end.value <= |body| && decoded == lib.unescape(body[i..end.value])
  {
    var b := body[i..];
    var limit := Min(i + T.MAX_ENTITY_LEN, |body|);
    var j := i + 1;
    while j < limit
      invariant i + 1 <= j
      invariant T.Terminator(b, 1) == T.Terminator(b, j - i)
    {
      assert body[j] == b[j - i];
      if body[j] == T.SEMICOLON {
        var raw := body[i..j + 1];
        assert raw == b[..j + 1 - i];
        var out := lib.unescape(raw);
        if out == raw {
          return [], None;
        }
        if out != [] && out[|out| - 1] == T.SEMICOLON {
          return [], None;
        }
        return out, Some(j + 1);
      }
      if T.IsSpaceByte(body[j]) || body[j] == T.AMP {
        return [], None;
      }
      j := j + 1;
    }
    return [], None;
  }

  // ---- Normalising ----

  lemma NormaliseAt(b: seq<byte>, i: nat, inSpace: bool)
    requires i < |b|
    ensures var d := DecodeRune(b[i..]);
            && i + d.size <= |b|
            && Normalise(b[i..], inSpace)
               == if HeadIsSpace(b[i..]) then (if inSpace then [] else [T.SPACE]) + Normalise(b[i + d.size..], true)
                  else b[i..i + d.size] + Normalise(b[i + d.size..], false)
  {
    hide DecodeRune, Normalise, IsSpace;
    var d := DecodeRune(b[i..]);
    NormaliseHead(b[i..], inSpace);
    assert b[i..][d.size..] == b[i + d.size..] && b[i..][..d.size] == b[i..i + d.size];
  }

  lemma Appended(out: seq<byte>, x: seq<byte>, rest: seq<byte>)
    ensures out + (x + rest) == out + x + rest && out + ([] + rest) == out + rest
  {
  }

  method NormaliseClaim(b: seq<byte>) returns (out: seq<byte>)
    ensures out == NormaliseSpace(b)
  {
    hide DecodeRune, Normalise, IsSpace, TrimRightBytes;
    out := [];
    var inSpace := true;
    var i := 0;
    assert b[0..] == b;
    while i < |b|
      invariant 0 <= i <= |b|
      invariant out + Normalise(b[i..], inSpace) == Normalise(b, true)
    {
      var d := DecodeRune(b[i..]);
      NormaliseAt(b, i, inSpace);
      assert HeadIsSpace(b[i..]) <==> !(d.r == RUNE_ERROR && d.size <= 1) && IsSpace(d.r);
      if d.r == RUNE_ERROR && d.size <= 1 {
        assert b[i..i + d.size] == [b[i]];
        Appended(out, [b[i]], Normalise(b[i + 1..], false));
        out := out + [b[i]];
        inSpace := false;
        i := i + 1;
        continue;
      }
      if IsSpace(d.r) {
        Appended(out, [T.SPACE], Normalise(b[i + d.size..], true));
        if !inSpace {
          out := out + [T.SPACE];
          inSpace := true;
        }
        i := i + d.size;
        continue;
      }
      Appended(out, b[i..i + d.size], Normalise(b[i + d.size..], false));
      out := out + b[i..i + d.size];
      inSpace := false;
      i := i + d.size;
    }
    EmptyNormalises(inSpace);
    assert b[i..] == [];
    assert out + [] == out;
    out := TrimRightBytes(out);
  }

  // ---- Building a projection ----

  /** The accumulators the source's closures share: three arrays and the white-space state. */
  class Builder {
    var norm: seq<byte>
    var starts: seq<nat>
    var ends: seq<nat>
    var inSpace: bool

    ghost predicate Valid()
      reads this
    {
      |norm| == |starts| == |ends|
    }

    ghost function Cells(): (cs: seq<Cell>)
      requires Valid()
      reads this
      ensures |cs| == |norm|
    {
      seq(|norm|, i requires 0 <= i < |norm| reads this requires Valid() => Cell(norm[i], starts[i], ends[i]))
    }

    /** Leading white space is trimmed by starting in the space state. */
    constructor ()
      ensures Valid() && Cells() == [] && inSpace
    {
      norm, starts, ends, inSpace := [], [], [], true;
    }

    method Append(c: byte, from: nat, to: nat)
      requires Valid()
      modifies this
      ensures Valid() && Cells() == old(Cells()) + [Cell(c, from, to)] && inSpace == old(inSpace)
    {
      norm, starts, ends := norm + [c], starts + [from], ends + [to];
    }

    method EmitRune(r: int, from: nat, to: nat)
      requires Valid()
      modifies this
      ensures var e := Projection.EmitRune(r, from, to, old(inSpace));
              Valid() && Cells() == old(Cells()) + e.cells && inSpace == e.inSpace
    {
      if IsSpace(r) {
        if inSpace {
          assert old(Cells()) + [] == Cells();
          return;
        }
        Append(T.SPACE, from, to);
        inSpace := true;
        return;
      }
      var buf := EncodeRune(r);
      ghost var before := Cells();
      for k := 0 to |buf|
        invariant Valid() && Cells() == before + From(buf, from, to)[..k]
      {
        Append(buf[k], from, to);
      }
      assert From(buf, from, to)[..|buf|] == From(buf, from, to);
      inSpace := false;
      assert Cells() == before + From(buf, from, to);
    }

    method EmitByte(c: byte, from: nat, to: nat)
      requires Valid()
      modifies this
      ensures Valid() && Cells() == old(Cells()) + [Cell(c, from, to)] && !inSpace
    {
      Append(c, from, to);
      inSpace := false;
    }

    /** `range` over the decoded text of a reference. */
    method EmitString(s: seq<byte>, from: nat, to: nat)
      requires Valid()
      modifies this
      ensures var e := EmitRunes(T.Runes(s), from, to, old(inSpace));
              Valid() && Cells() == old(Cells()) + e.cells && inSpace == e.inSpace
    {
      hide DecodeRune, Projection.EmitRune, IsSpace, EncodeRune;
      ghost var before, state := Cells(), inSpace;
      var k := 0;
      assert s[0..] == s;
      while k < |s|
        invariant 0 <= k <= |s| && Valid()
        invariant var e := EmitRunes(T.Runes(s[k..]), from, to, inSpace);
                  EmitRunes(T.Runes(s), from, to, state).inSpace == e.inSpace
        invariant var e := EmitRunes(T.Runes(s[k..]), from, to, inSpace);
                  before + EmitRunes(T.Runes(s), from, to, state).cells == Cells() + e.cells
      {
        var d := DecodeRune(s[k..]);
        assert s[k..][d.size..] == s[k + d.size..];
        assert T.Runes(s[k..])[1..] == T.Runes(s[k + d.size..]);
        EmitRune(d.r, from, to);
        k := k + d.size;
      }
      assert s[k..] == [];
    }

    /** One round of the source's main loop: the token at `i`. */
    method EmitToken(body: seq<byte>, i: nat, mode: T.TagMode, lib: T.Library) returns (next: nat, panics: bool)
      requires Valid() && i < |body|
      modifies this
      ensures panics == (mode.StripTags? && body[i] == T.LT && T.SkipPanics(body[i..], T.NON_TEXT_ELEMENTS, lib.fold))
      ensures panics ==> Valid()
      ensures !panics ==>
              var t := T.Step(body[i..], mode, lib);
              var e := EmitText(t.text, i, i + t.size, old(inSpace));
              && next == i + t.size && Valid() && inSpace == e.inSpace
              && Cells() == old(Cells()) + e.cells
    {
      hide T.SkipElement, T.SkipPanics, T.SkipTag, T.DecodeEntity, DecodeRune, T.SpaceRun, IsSpace, Projection.EmitRune;
      panics := false;
      var c := body[i];
      assert c == body[i..][0];
      if mode == T.StripTags && c == T.LT {
        var end;
        end, panics := SkipElement(body, i, T.NON_TEXT_ELEMENTS, lib.fold);
        if panics {
          return i, true;
        }
        if end == None {
          end := SkipTag(body, i);
        }
        if end.Some? {
          BlankIsRune(i, end.value, inSpace);
          EmitRune(0x20, i, end.value);
          return end.value, false;
        }
      }
      if c == T.AMP {
        var decoded, end := DecodeEntity(body, i, lib);
        if end.Some? {
          assert body[i..][..end.value - i] == body[i..end.value];
          EmitString(decoded, i, end.value);
          return end.value, false;
        }
      }
      next := EmitPlain(body, i, mode, lib);
    }

    /** A character, a run of white space, or a byte that is neither. */
    method EmitPlain(body: seq<byte>, i: nat, mode: T.TagMode, lib: T.Library) returns (next: nat)
      requires Valid() && i < |body| && !ReferenceAt(body[i..], lib, 0)
      requires mode.StripTags? ==> body[i] != T.LT || T.Markup(body[i..], lib).None?
      modifies this
      ensures var t := T.Step(body[i..], mode, lib);
              var e := EmitText(t.text, i, i + t.size, old(inSpace));
              && next == i + t.size && Valid() && inSpace == e.inSpace
              && Cells() == old(Cells()) + e.cells
    {
      hide T.Step, DecodeRune, IsSpace, T.SpaceRun, Projection.EmitRune, ReferenceAt;
      PlainStep(body[i..], mode, lib);
      var d := DecodeRune(body[i..]);
      if d.r == RUNE_ERROR && d.size <= 1 {
        EmitByte(body[i], i, i + 1);
        return i + 1;
      }
      if IsSpace(d.r) {
        var j := SpaceEnd(body, i);
        BlankIsRune(i, j, inSpace);
        EmitRune(0x20, i, j);
        return j;
      }
      CharEmits(d.r, i, i + d.size, inSpace);
      EmitRune(d.r, i, i + d.size);
      next := i + d.size;
    }

    /** Just past the white space that begins at `i`. */
    static method SpaceEnd(body: seq<byte>, i: nat) returns (j: nat)
      requires i <= |body|
      ensures j == i + T.SpaceRun(body[i..])
    {
      hide IsSpace, DecodeRune, T.SpaceRun;
      j := i;
      while j < |body|
        invariant i <= j <= |body|
        invariant i + T.SpaceRun(body[i..]) == j + T.SpaceRun(body[j..])
      {
        var d := DecodeRune(body[j..]);
        RunAt(body, j);
        if d.size == 0 || !IsSpace(d.r) || (d.r == RUNE_ERROR && d.size <= 1) {
          break;
        }
        j := j + d.size;
      }
      RunAt(body, j);
    }

    method Result() returns (p: Arrays)
      requires Valid()
      ensures p == ArraysOf(Cells())
    {
      p := Arrays(norm, starts, ends);
      assert p.norm == Bytes(Cells());
    }

    /** The trailing blank goes. */
    method TrimEnd()
      requires Valid()
      modifies this
      ensures Valid() && Cells() == TrimRight(old(Cells()))
    {
      while norm != [] && norm[|norm| - 1] == T.SPACE
        invariant Valid() && TrimRight(Cells()) == TrimRight(old(Cells()))
        decreases |norm|
      {
        ghost var cs := Cells();
        norm := norm[..|norm| - 1];
        starts := starts[..|starts| - 1];
        ends := ends[..|ends| - 1];
        assert Cells() == cs[..|cs| - 1];
      }
    }
  }

  lemma BlankIsRune(from: nat, to: nat, inSpace: bool)
    ensures EmitText(T.BLANK, from, to, inSpace) == Projection.EmitRune(0x20, from, to, inSpace)
  {
    BlankEmits(from, to, inSpace);
  }

  lemma RunAt(body: seq<byte>, j: nat)
    requires j <= |body|
    ensures T.SpaceRun(body[j..])
            == if j < |body| && HeadIsSpace(body[j..])
               then DecodeRune(body[j..]).size + T.SpaceRun(body[j + DecodeRune(body[j..]).size..]) else 0
  {
    hide DecodeRune, IsSpace;
    if j < |body| {
      assert body[j..][DecodeRune(body[j..]).size..] == body[j + DecodeRune(body[j..]).size..];
    }
  }

  lemma RenderFrom(body: seq<byte>, i: nat, inSpace: bool, mode: T.TagMode, lib: T.Library)
    requires i < |body|
    ensures var t := T.Step(body[i..], mode, lib);
            var e := EmitText(t.text, i, i + t.size, inSpace);
            Render(Tokenise(body[i..], i, mode, lib), inSpace).cells
            == e.cells + Render(Tokenise(body[i + t.size..], i + t.size, mode, lib), e.inSpace).cells
  {
    hide T.Step, EmitText, Render, Tokenise;
    var size := T.Step(body[i..], mode, lib).size;
    RenderHead(body[i..], i, inSpace, mode, lib);
    assert body[i..][size..] == body[i + size..];
  }

  method BuildProjection(body: seq<byte>, mode: T.TagMode, lib: T.Library) returns (p: Arrays, panics: bool)
    ensures panics == (mode.StripTags? && T.Panics(body, lib))
    ensures !panics ==> p == ArraysOf(Project(body, mode, lib))
  {
    hide T.Step, EmitText, Render, Tokenise, TrimRight, Bytes, Rendering, Project, ArraysOf, T.SkipPanics;
    var b := new Builder();
    var i := 0;
    StartOf(body, b.Cells(), mode, lib);
    assert body[0..] == body;
    while i < |body|
      invariant 0 <= i <= |body| && b.Valid() && fresh(b)
      invariant b.Cells() + Render(Tokenise(body[i..], i, mode, lib), b.inSpace).cells == Rendering(body, mode, lib)
      invariant mode.StripTags? ==> T.Panics(body, lib) == T.Panics(body[i..], lib)
    {
      RenderAfter(body, i, b.Cells(), b.inSpace, mode, lib);
      PanicsFrom(body, i, lib);
      var next;
      next, panics := b.EmitToken(body, i, mode, lib);
      if panics {
        return Arrays([], [], []), true;
      }
      i := next;
    }
    assert body[i..] == [];
    NothingLeft(i, b.inSpace, mode, lib);
    assert b.Cells() + [] == b.Cells();
    b.TrimEnd();
    p := b.Result();
    panics := false;
  }

  lemma PanicsFrom(body: seq<byte>, i: nat, lib: T.Library)
    requires i < |body|
    ensures var size := T.Step(body[i..], T.StripTags, lib).size;
            T.Panics(body[i..], lib) ==
            ((body[i] == T.LT && T.SkipPanics(body[i..], T.NON_TEXT_ELEMENTS, lib.fold)) || T.Panics(body[i + size..], lib))
  {
    hide T.Step, T.SkipPanics;
    var size := T.Step(body[i..], T.StripTags, lib).size;
    assert body[i..][size..] == body[i + size..];
  }

  lemma StartOf(body: seq<byte>, none: seq<Cell>, mode: T.TagMode, lib: T.Library)
    requires none == []
    ensures none + Render(Tokenise(body[0..], 0, mode, lib), true).cells == Rendering(body, mode, lib)
    ensures Project(body, mode, lib) == TrimRight(Rendering(body, mode, lib))
  {
    hide Render, Tokenise, TrimRight;
    assert body[0..] == body;
  }

  lemma RenderAfter(body: seq<byte>, i: nat, done: seq<Cell>, inSpace: bool, mode: T.TagMode, lib: T.Library)
    requires i < |body|
    ensures var t := T.Step(body[i..], mode, lib);
            var e := EmitText(t.text, i, i + t.size, inSpace);
            done + Render(Tokenise(body[i..], i, mode, lib), inSpace).cells
            == done + e.cells + Render(Tokenise(body[i + t.size..], i + t.size, mode, lib), e.inSpace).cells
  {
    hide T.Step, EmitText, Render, Tokenise;
    RenderFrom(body, i, inSpace, mode, lib);
  }

  lemma NothingLeft(i: nat, inSpace: bool, mode: T.TagMode, lib: T.Library)
    ensures Render(Tokenise([], i, mode, lib), inSpace).cells == []
  {
  }

  // ---- The index and the assertion ----

  /** The fields of an assertion that grounding reads or writes. */
  class Assertion {
    var observationHash: string
    var byteStart: nat
    var byteEnd: nat
    var confidence: real
    var validated: bool
    var unsupported: bool

    constructor (confidence: real)
      ensures this.confidence == confidence && !validated && !unsupported
    {
      observationHash, byteStart, byteEnd := "", 0, 0;
      this.confidence, validated, unsupported := confidence, false, false;
    }
  }

  /** Grounds many claims against one observation; each projection is built on first use. */
  class EvidenceIndex {
    const hash: string
    const body: seq<byte>
    const lib: T.Library
    var markup: Option<Arrays>
    var text: Option<Arrays>

    /** A cached projection is the projection of this body. */
    ghost predicate Valid()
      reads this
    {
      && (markup.Some? ==> markup.value == ArraysOf(Project(body, T.KeepTags, lib)))
      && (text.Some? ==> text.value == ArraysOf(Project(body, T.StripTags, lib)) && !T.Panics(body, lib))
    }

    constructor (hash: string, body: seq<byte>, lib: T.Library)
      ensures Valid() && this.hash == hash && this.body == body && this.lib == lib
    {
      this.hash, this.body, this.lib := hash, body, lib;
      markup, text := None, None;
    }

    /** When the code panics, the projection it was building counts as built, and is empty: the
        index is of no more use. */
    method Locate(claimed: seq<byte>) returns (start: nat, end: nat, ok: bool, panics: bool)
      requires Valid()
      modifies this
      ensures panics == LocatePanics(body, claimed, lib)
      ensures !panics ==> Valid()
      ensures !panics ==>
              match Citation.Locate(body, claimed, lib)
              case Miss => !ok && start == 0 && end == 0
              case Verbatim(s, e) => ok && start == s && end == e
              case Rendered(s, e, _, _) => ok && start == s && end == e
    {
      hide Project, FirstAligned, NormaliseSpace, T.Panics;
      panics := false;
      if |body| == 0 || claimed == [] {
        return 0, 0, false, false;
      }
      var i := IndexAligned(body, claimed);
      if i >= 0 {
        return i, i + |claimed|, true, false;
      }
      var needle := NormaliseClaim(claimed);
      if |needle| == 0 {
        return 0, 0, false, false;
      }
      if markup == None {
        var p, _ := BuildProjection(body, T.KeepTags, lib);
        markup := Some(p);
      }
      FirstAlignedIs(markup.value.norm, needle, 0);
      i := IndexAligned(markup.value.norm, needle);
      if i >= 0 {
        return markup.value.starts[i], markup.value.ends[i + |needle| - 1], true, false;
      }
      if text == None {
        var p;
        p, panics := BuildProjection(body, T.StripTags, lib);
        if panics {
          text := Some(Arrays([], [], []));
          return 0, 0, false, true;
        }
        text := Some(p);
      }
      FirstAlignedIs(text.value.norm, needle, 0);
      i := IndexAligned(text.value.norm, needle);
      if i >= 0 {
        return text.value.starts[i], text.value.ends[i + |needle| - 1], true, false;
      }
      return 0, 0, false, false;
    }

    /** A located claim is recorded with its span, and any other is kept, marked unsupported,
        with no confidence left. */
    method Ground(a: Assertion, claimed: seq<byte>) returns (panics: bool)
      requires Valid()
      modifies this, a
      ensures a.observationHash == hash && panics == LocatePanics(body, claimed, lib)
      ensures !panics ==>
              var h := Citation.Locate(body, claimed, lib);
              && Valid() && a.validated == (h != Miss) && a.unsupported == (h == Miss)
              && a.confidence == (if h == Miss then 0.0 else old(a.confidence))
              && (h == Miss ==> a.byteStart == 0 && a.byteEnd == 0)
              && (h != Miss ==> a.byteStart == h.start && a.byteEnd == h.end)
      ensures !panics && a.validated && NormaliseSpace(claimed) != [] && !HasReference(claimed, lib)
              && SingleCharReferences(body, lib) && HitKept(body, claimed, lib)
              ==> a.byteStart < a.byteEnd <= |body| && SpanSupports(body[a.byteStart..a.byteEnd], claimed, lib)
      ensures NormaliseSpace(claimed) != [] && !HasReference(claimed, lib)
              && SingleCharReferences(body, lib) && FoldsSafely(body, lib.fold)
              ==> !panics && (a.validated ==> a.byteStart < a.byteEnd <= |body|
                                              && SpanSupports(body[a.byteStart..a.byteEnd], claimed, lib)
                                              && !CheckPanics(body[a.byteStart..a.byteEnd], claimed, lib))
    {
      hide Citation.Locate, LocatePanics, CheckPanics, SpanSupports, NormaliseSpace, HasReference, SingleCharReferences, HitKept, FoldsSafely;
      if NormaliseSpace(claimed) != [] {
        GroundedSpan(body, claimed, lib);
      }
      a.observationHash := hash;
      var start, end, ok;
      start, end, ok, panics := Locate(claimed);
      if panics {
        return;
      }
      if !ok {
        a.byteStart, a.byteEnd := 0, 0;
        a.validated := false;
        a.unsupported := true;
        a.confidence := 0.0;
        return;
      }
      a.byteStart, a.byteEnd := start, end;
      a.validated := true;
      a.unsupported := false;
    }
  }

  lemma GroundedSpan(body: seq<byte>, claimed: seq<byte>, lib: T.Library)
    requires NormaliseSpace(claimed) != []
    ensures var h := Citation.Locate(body, claimed, lib);
            h != Miss && !HasReference(claimed, lib) && SingleCharReferences(body, lib) && HitKept(body, claimed, lib)
            ==> h.start < h.end <= |body| && SpanSupports(body[h.start..h.end], claimed, lib)
    ensures var h := Citation.Locate(body, claimed, lib);
            !HasReference(claimed, lib) && SingleCharReferences(body, lib) && FoldsSafely(body, lib.fold)
            ==> !LocatePanics(body, claimed, lib)
                && (h != Miss ==> h.start < h.end <= |body| && SpanSupports(body[h.start..h.end], claimed, lib)
                                  && !CheckPanics(body[h.start..h.end], claimed, lib))
  {
    hide Citation.Locate, LocatePanics, CheckPanics, SpanSupports, NormaliseSpace, HasReference, SingleCharReferences, HitKept, FoldsSafely;
    if !HasReference(claimed, lib) && SingleCharReferences(body, lib) {
      if HitKept(body, claimed, lib) {
        EveryCitationChecks(body, claimed, lib);
      }
      if FoldsSafely(body, lib.fold) {
        SafePageNeverPanics(body, claimed, lib);
        if Citation.Locate(body, claimed, lib) != Miss {
          SafePagesCheck(body, claimed, lib);
        }
      }
    }
  }
}
