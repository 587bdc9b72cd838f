/** When a page can be cut: which dropped elements a cut keeps, where the offset of a closing tag in
    the folded copy is one in the page, and what is enough for a whole page
    (internal/provenance/assertion.go). */
module Elements {
  import opened Utf8
  import opened Search
  import opened Folding
  import opened Tokens

  // ---- One tag ----

  /** A closing tag found in the folded copy begins at some character `k` of the page, and the
      offset the code has for it is the folded length of what lies before `k`. So the offset is
      right exactly when folding keeps that length. */
  lemma {:induction false} ClosingTagIsFoldedLength(b: seq<byte>, name: seq<byte>, fold: int -> int) returns (k: nat)
    requires ClosingTag(b, name, fold) >= 0
    ensures k <= |b| && Boundary(b, k) && [LT, SLASH] + name <= FoldAll(b[k..], fold)
    ensures ClosingTag(b, name, fold) == |FoldAll(b[..k], fold)|
    ensures ClosingTag(b, name, fold) == k <==> |FoldAll(b[..k], fold)| == k
    decreases |b|
  {
    hide FoldAll, DecodeRune, EncodeRune, FoldedHead;
    var needle, f := [LT, SLASH] + name, FoldAll(b, fold);
    assert needle[0] == LT;
    FoldNothing(fold);
    if needle <= f {
      k := 0;
      assert b[0..] == b;
    } else {
      assert b != [];
      var n := DecodeRune(b).size;
      DecodedHigh(b);
      FoldHead(b, fold);
      var e, rest := FoldedHead(b, fold), FoldAll(b[n..], fold);
      NotInHead(b, fold, needle);
      k := ClosingTagIsFoldedLength(b[n..], name, fold);
      k := k + n;
      FoldAt(b[n..], fold, k - n);
      DecodePrefix(b, k);
      FoldHead(b[..k], fold);
      assert b[..k][n..] == b[n..][..k - n] && b[k..] == b[n..][k - n..];
      SameHead(b, b[..k], fold);
    }
  }

  lemma AtStart(f: seq<byte>, needle: seq<byte>)
    ensures MatchAt(f, needle, 0) <==> needle <= f
  {
    if MatchAt(f, needle, 0) {
      assert f[0..|needle|] == f[..|needle|];
    }
  }

  lemma PastHead(e: seq<byte>, f: seq<byte>, idx: int)
    requires e <= f && 0 < idx < |f| && f[idx] == LT
    requires |e| > 1 ==> forall k | 0 <= k < |e| :: e[k] >= 0x80
    ensures idx >= |e|
  {
  }

  lemma MatchPast(e: seq<byte>, rest: seq<byte>, needle: seq<byte>)
    requires needle != [] && needle[0] == LT && Index(e + rest, needle) >= 0 && !(needle <= e + rest)
    requires |e| > 1 ==> forall k | 0 <= k < |e| :: e[k] >= 0x80
    ensures |e| <= Index(e + rest, needle) && MatchAt(e + rest, needle, Index(e + rest, needle))
  {
    hide Index, MatchAt;
    var f, idx := e + rest, Index(e + rest, needle);
    IndexMatches(f, needle);
    StartsWithLt(f, needle, idx);
    AtStart(f, needle);
    PastHead(e, f, idx);
  }

  /** What is spelled from a '<' on is not found inside a character's encoding. */
  lemma FoundPast(e: seq<byte>, rest: seq<byte>, needle: seq<byte>)
    requires needle != [] && needle[0] == LT && Index(e + rest, needle) >= 0 && !(needle <= e + rest)
    requires |e| > 1 ==> forall k | 0 <= k < |e| :: e[k] >= 0x80
    ensures Index(rest, needle) >= 0 && Index(e + rest, needle) == |e| + Index(rest, needle)
  {
    hide Index, MatchAt;
    var f, idx := e + rest, Index(e + rest, needle);
    assert f[|e|..] == rest;
    MatchPast(e, rest, needle);
    MatchInSuffix(f, needle, |e|, idx - |e|);
    IndexLeast(rest, needle, idx - |e|);
    IndexMatches(rest, needle);
    MatchInSuffix(f, needle, |e|, Index(rest, needle));
    IndexLeast(f, needle, |e| + Index(rest, needle));
  }

  lemma StartsWithLt(f: seq<byte>, needle: seq<byte>, idx: int)
    requires needle != [] && needle[0] == LT && MatchAt(f, needle, idx)
    ensures 0 <= idx < |f| && f[idx] == LT
  {
    MatchStarts(f, needle);
  }

  lemma NotInHead(b: seq<byte>, fold: int -> int, needle: seq<byte>)
    requires b != [] && needle != [] && needle[0] == LT && Index(FoldAll(b, fold), needle) >= 0 && !(needle <= FoldAll(b, fold))
    ensures var e, rest := FoldedHead(b, fold), FoldAll(b[DecodeRune(b).size..], fold);
            Index(rest, needle) >= 0 && Index(FoldAll(b, fold), needle) == |e| + Index(rest, needle)
  {
    hide FoldAll, DecodeRune, EncodeRune, Index;
    FoldHead(b, fold);
    EncodedHigh(if Invalid(DecodeRune(b)) then RUNE_ERROR else fold(DecodeRune(b).r));
    FoundPast(FoldedHead(b, fold), FoldAll(b[DecodeRune(b).size..], fold), needle);
  }

  // ---- One element ----

  lemma {:induction false} AsciiEndsCharacter(b: seq<byte>, k: nat)
    requires 0 < k <= |b| && b[k - 1] < 0x80
    ensures Boundary(b, k)
    decreases |b|
  {
    hide DecodeRune;
    DecodedHigh(b);
    var n := DecodeRune(b).size;
    assert n > 1 ==> forall j | 0 <= j < n :: b[j] >= 0x80;
    if k > n {
      AsciiEndsCharacter(b[n..], k - n);
    }
  }

  lemma TagInside(b: seq<byte>, name: seq<byte>, fold: int -> int, e: nat, n: nat)
    requires LowerCaseLetters(name) && e <= n <= |b| && Boundary(b, e) && |FoldAll(b[..e], fold)| == e
    requires 0 <= ClosingTag(b, name, fold) && ClosingTag(b, name, fold) + 2 + |name| <= e
    ensures ClosingTag(b[..n], name, fold) == ClosingTag(b, name, fold)
  {
    hide FoldAll, Index, Boundary, LowerCaseLetters;
    FoldAt(b, fold, e);
    assert FoldAll(b, fold)[..e] == FoldAll(b[..e], fold);
    IndexOfPrefix(FoldAll(b, fold), [LT, SLASH] + name, e);
    assert b[..n][..e] == b[..e];
    ClosingTagCut(b[..n], name, fold, e);
  }

  /** An element whose own bytes keep their length under folding is kept by every cut that holds
      it, whatever else is on the page. */
  lemma KeptByOwnLength(b: seq<byte>, lib: Library, n: nat)
    requires SkipElement(b, NON_TEXT_ELEMENTS, lib.fold).Some?
    requires var e := SkipElement(b, NON_TEXT_ELEMENTS, lib.fold).value; e <= n <= |b| && |FoldAll(b[..e], lib.fold)| == e
    ensures Kept(b, StripTags, lib, n)
  {
    hide ClosingTag, SkipTag, PastGt, FoldAll, Opens;
    var names, fold := NON_TEXT_ELEMENTS, lib.fold;
    NonTextNames();
    MarkupEndsWithGt(b, lib);
    var k := SkipElementFinds(b, names, fold);
    var e := SkipElement(b, names, fold).value;
    EndIsFar(b, names[k], fold);
    AsciiEndsCharacter(b, e);
    PastGtIsFar(b, ClosingTag(b, names[k], fold) + 2 + |names[k]|);
    TagInside(b, names[k], fold, e, n);
    OpensCut(b, names[k], n);
    TagFoundByName(b[..n], names, fold, k);
  }

  // ---- A page ----

  /** What is spelled in ASCII is found at one place in the folded copy and in the page. */
  ghost predicate FindsAlike(b: seq<byte>, fold: int -> int) {
    forall needle | PlainNeedle(needle) :: Index(FoldAll(b, fold), needle) == Index(Lower(b), needle)
  }

  ghost predicate BeginsElement(b: seq<byte>) {
    exists name :: name in NON_TEXT_ELEMENTS && Begins(b, name)
  }

  /** Wherever a stretch of the page begins a dropped element, folding it moves nothing in ASCII. */
  ghost predicate FoldsInPlace(b: seq<byte>, fold: int -> int) {
    forall i, n | 0 <= i <= n <= |b| && BeginsElement(b[i..n]) :: FindsAlike(b[i..n], fold)
  }

  lemma FoldsInPlaceWithin(b: seq<byte>, fold: int -> int, from: nat, to: nat)
    requires FoldsInPlace(b, fold) && from <= to <= |b|
    ensures FoldsInPlace(b[from..to], fold)
  {
    hide FindsAlike, BeginsElement;
    var c := b[from..to];
    forall i, n | 0 <= i <= n <= |c| && BeginsElement(c[i..n])
      ensures FindsAlike(c[i..n], fold)
    {
      SliceOfSlice(b, from, to, i, n);
    }
  }

  lemma SliceOfSlice(b: seq<byte>, from: nat, to: nat, i: nat, n: nat)
    requires from <= to <= |b| && i <= n <= to - from
    ensures b[from..to][i..n] == b[from + i..from + n]
  {
    var x, y := b[from..to][i..n], b[from + i..from + n];
    assert |x| == |y|;
    assert forall k | 0 <= k < |x| :: x[k] == b[from..to][i + k] == b[from + i + k] == y[k];
  }

  lemma AlikeAtOpening(b: seq<byte>, name: seq<byte>, fold: int -> int, n: nat)
    requires FoldsInPlace(b, fold) && name in NON_TEXT_ELEMENTS && n <= |b| && Begins(b[..n], name)
    ensures FindsAlike(b[..n], fold)
  {
    assert b[0..n] == b[..n];
  }

  lemma LowerFinds(b: seq<byte>, name: seq<byte>, fold: int -> int)
    requires FindsAlike(b, fold) && LowerCaseLetters(name)
    ensures ClosingTag(b, name, fold) == Index(Lower(b), [LT, SLASH] + name)
    ensures ClosingTag(b, name, fold) >= 0 ==> ClosingTag(b, name, fold) + 2 + |name| <= |b|
    ensures !ElementPanics(b, name, fold)
  {
    hide FoldAll, Index, Lower, PlainNeedle, LowerCaseLetters;
    PlainClosing(name);
    LowerFits(b, [LT, SLASH] + name, fold);
  }

  lemma LowerFits(b: seq<byte>, needle: seq<byte>, fold: int -> int)
    requires FindsAlike(b, fold) && PlainNeedle(needle)
    ensures Index(FoldAll(b, fold), needle) == Index(Lower(b), needle)
    ensures Index(Lower(b), needle) >= 0 ==> Index(Lower(b), needle) + |needle| <= |b|
  {
    hide FoldAll, Index;
  }

  lemma TagStays(b: seq<byte>, name: seq<byte>, fold: int -> int, n: nat)
    requires n <= |b| && LowerCaseLetters(name) && FindsAlike(b, fold) && FindsAlike(b[..n], fold)
    ensures var idx := ClosingTag(b, name, fold);
            ClosingTag(b[..n], name, fold) == if idx >= 0 && idx + 2 + |name| <= n then idx else -1
  {
    hide FindsAlike, ClosingTag;
    LowerFinds(b, name, fold);
    LowerFinds(b[..n], name, fold);
    assert Lower(b[..n]) == Lower(b)[..n];
    IndexOfPrefix(Lower(b), [LT, SLASH] + name, n);
  }

  /** What begins in a cut begins in the page. */
  lemma BeginsCut(b: seq<byte>, name: seq<byte>, n: nat)
    requires n <= |b| && Begins(b[..n], name)
    ensures Begins(b, name)
  {
    assert b[..n][..1 + |name|] == b[..1 + |name|];
  }

  /** Where folding moves nothing, every cut keeps what it holds. */
  lemma InPlaceIsKept(b: seq<byte>, lib: Library, n: nat)
    requires b != [] && Step(b, StripTags, lib).size <= n <= |b| && FoldsInPlace(b, lib.fold)
    ensures Kept(b, StripTags, lib, n)
  {
    hide FindsAlike, FoldsInPlace, ClosingTag, SkipTag, PastGt;
    var names, fold := NON_TEXT_ELEMENTS, lib.fold;
    NonTextNames();
    if SkipElement(b, names, fold).Some? {
      ElementHasLt(b, fold);
      var k := SkipElementFinds(b, names, fold);
      EndIsFar(b, names[k], fold);
      OpensCut(b, names[k], n);
      assert b[..|b|] == b;
      AlikeAtOpening(b, names[k], fold, |b|);
      AlikeAtOpening(b, names[k], fold, n);
      TagStays(b, names[k], fold, n);
      TagFoundByName(b[..n], names, fold, k);
    }
  }

  /** Where folding moves nothing, the code does not panic. */
  lemma SkipsSafely(b: seq<byte>, fold: int -> int)
    requires FoldsInPlace(b, fold)
    ensures !SkipPanics(b, NON_TEXT_ELEMENTS, fold)
  {
    hide FindsAlike, FoldsInPlace, ElementPanics;
    NonTextNames();
    if SkipPanics(b, NON_TEXT_ELEMENTS, fold) {
      var k := SkipElementFinds(b, NON_TEXT_ELEMENTS, fold);
      assert b[..|b|] == b;
      AlikeAtOpening(b, NON_TEXT_ELEMENTS[k], fold, |b|);
      LowerFinds(b, NON_TEXT_ELEMENTS[k], fold);
    }
  }

  /** A page folded in place is never sliced beyond its end. */
  lemma {:induction false} NeverPanics(b: seq<byte>, lib: Library)
    requires FoldsInPlace(b, lib.fold)
    ensures !Panics(b, lib)
    decreases |b|
  {
    hide FoldsInPlace, Step, SkipPanics;
    if b != [] {
      var size := Step(b, StripTags, lib).size;
      SkipsSafely(b, lib.fold);
      FoldsInPlaceWithin(b, lib.fold, size, |b|);
      assert b[size..|b|] == b[size..];
      NeverPanics(b[size..], lib);
    }
  }

  /** Every character decodes, keeps its length, and stays on its side of ASCII. */
  predicate KeepsLengths(b: seq<byte>, fold: int -> int)
    decreases |b|
  {
    b == [] ||
    var d := DecodeRune(b);
    && !Invalid(d)
    && |EncodeRune(fold(d.r))| == d.size
    && (d.size == 1 ==> fold(d.r) == LowerByte(b[0]))
    && KeepsLengths(b[d.size..], fold)
  }

  lemma HeadAlike(b: seq<byte>, fold: int -> int)
    requires b != [] && KeepsLengths(b, fold)
    ensures var n := DecodeRune(b).size;
            n <= |b| && |FoldedHead(b, fold)| == n && AlikeTo(FoldedHead(b, fold), Lower(b[..n]), n)
  {
    hide DecodeRune, EncodeRune;
    DecodedHigh(b);
    EncodedHigh(fold(DecodeRune(b).r));
  }

  /** Cut anywhere, the folded copy and the page agree on ASCII up to the last whole character. */
  lemma {:induction false} PrefixAlike(b: seq<byte>, fold: int -> int, m: nat) returns (n: nat)
    requires KeepsLengths(b, fold) && m <= |b|
    ensures AlikeTo(FoldAll(b[..m], fold), Lower(b[..m]), n)
    decreases |b|
  {
    hide DecodeRune, EncodeRune, FoldAll, FoldedHead, AlikeTo;
    if m == 0 {
      n := 0;
      FoldNothing(fold);
      NothingAlike();
    } else {
      var size := DecodeRune(b).size;
      DecodedHigh(b);
      if m < size {
        CutShort(b, m, fold);
        n := 0;
      } else {
        var c := b[..m];
        DecodePrefix(b, m);
        HeadAlike(b, fold);
        SameHead(b, c, fold);
        FoldHead(c, fold);
        assert c[size..] == b[size..][..m - size] && c[..size] == b[..size];
        n := PrefixAlike(b[size..], fold, m - size);
        LowerSum(c, size);
        AlikeSum(FoldedHead(b, fold), FoldAll(c[size..], fold), Lower(b[..size]), Lower(c[size..]), size, n);
        n := size + n;
      }
    }
  }

  lemma NothingAlike()
    ensures AlikeTo([], Lower([]), 0)
  {
  }

  /** A tag begins between characters. */
  lemma {:induction false} SuffixKeepsLengths(b: seq<byte>, fold: int -> int, i: nat)
    requires KeepsLengths(b, fold) && i < |b| && b[i] < 0x80
    ensures KeepsLengths(b[i..], fold)
    decreases |b|
  {
    hide DecodeRune, EncodeRune;
    if i == 0 {
      assert b[0..] == b;
    } else {
      DecodedHigh(b);
      var n := DecodeRune(b).size;
      assert n > 1 ==> b[0] >= 0x80;
      assert i >= n;
      SuffixKeepsLengths(b[n..], fold, i - n);
      assert b[n..][i - n..] == b[i..];
    }
  }

  /** A page that is UTF-8 throughout and whose characters keep their lengths is folded in place. */
  lemma KeptLengthsFoldInPlace(b: seq<byte>, fold: int -> int)
    requires KeepsLengths(b, fold)
    ensures FoldsInPlace(b, fold)
  {
    hide FoldAll, Index, KeepsLengths, AlikeTo;
    forall i, n | 0 <= i <= n <= |b| && BeginsElement(b[i..n])
      ensures FindsAlike(b[i..n], fold)
    {
      BeginsWithLt(b[i..n]);
      assert b[i..n][0] == b[i];
      SuffixKeepsLengths(b, fold, i);
      var m := PrefixAlike(b[i..], fold, n - i);
      assert b[i..][..n - i] == b[i..n];
      forall needle | PlainNeedle(needle)
        ensures Index(FoldAll(b[i..n], fold), needle) == Index(Lower(b[i..n]), needle)
      {
        AlikeFinds(FoldAll(b[i..n], fold), Lower(b[i..n]), m, needle);
      }
    }
  }

  lemma BeginsWithLt(b: seq<byte>)
    requires BeginsElement(b)
    ensures b != [] && b[0] == LT
  {
    var name :| name in NON_TEXT_ELEMENTS && Begins(b, name);
    assert Lower(b[..1 + |name|])[0] == Lower([LT] + name)[0];
    assert ([LT] + name)[0] == LT;
  }

  /** So is one in which none of the dropped elements begins. */
  ghost predicate DropsNothing(b: seq<byte>) {
    forall i | 0 <= i <= |b| :: !BeginsElement(b[i..])
  }

  lemma NothingDroppedFoldsInPlace(b: seq<byte>, fold: int -> int)
    requires DropsNothing(b)
    ensures FoldsInPlace(b, fold)
  {
    hide BeginsElement;
    forall i, n | 0 <= i <= n <= |b|
      ensures !BeginsElement(b[i..n])
    {
      BeginsSooner(b, i, n);
    }
  }

  lemma BeginsSooner(b: seq<byte>, i: nat, n: nat)
    requires i <= n <= |b|
    ensures BeginsElement(b[i..n]) ==> BeginsElement(b[i..])
  {
    if BeginsElement(b[i..n]) {
      var name :| name in NON_TEXT_ELEMENTS && Begins(b[i..n], name);
      assert b[i..][..n - i] == b[i..n];
      BeginsCut(b[i..], name, n - i);
    }
  }

  /** What a reader of the page can see: its characters keep their lengths, or there is no element
      to drop. */
  ghost predicate FoldsSafely(b: seq<byte>, fold: int -> int) {
    KeepsLengths(b, fold) || DropsNothing(b)
  }

  lemma SafeFoldsInPlace(b: seq<byte>, fold: int -> int)
    requires FoldsSafely(b, fold)
    ensures FoldsInPlace(b, fold)
  {
    hide FoldsInPlace, KeepsLengths, DropsNothing;
    if KeepsLengths(b, fold) {
      KeptLengthsFoldInPlace(b, fold);
    } else {
      NothingDroppedFoldsInPlace(b, fold);
    }
  }
}
