/** Letter case: what ASCII folding and `bytes.ToLower` make of bytes, and what can be found in the
    folded copy of a page that was cut (internal/provenance/assertion.go). */
module Folding {
  import opened Utf8
  import opened Search

  function LowerByte(c: byte): byte {
    if 0x41 <= c <= 0x5A then c + 0x20 else c
  }

  function Lower(b: seq<byte>): (r: seq<byte>)
    ensures |r| == |b|
    ensures forall k | 0 <= k < |b| :: r[k] == LowerByte(b[k])
  {
    seq(|b|, i requires 0 <= i < |b| => LowerByte(b[i]))
  }

  /** `c` is the letter, small or capital. */
  predicate IsLetter(c: byte, letter: char) {
    c == letter as int || c == letter as int - 0x20
  }

  /** `bytes.ToLower`, for a given folding of characters: it folds them one by one, and what does
      not decode becomes U+FFFD. Neither need keep the length. */
  function FoldAll(b: seq<byte>, fold: int -> int): seq<byte>
    decreases |b|
  {
    if b == [] then []
    else
      var d := DecodeRune(b);
      EncodeRune(if Invalid(d) then RUNE_ERROR else fold(d.r)) + FoldAll(b[d.size..], fold)
  }

  // ---- Character by character ----

  lemma DecodedHigh(b: seq<byte>)
    requires b != []
    ensures var n := DecodeRune(b).size; 0 < n <= |b| && (n > 1 ==> forall k | 0 <= k < n :: b[k] >= 0x80)
    ensures !Invalid(DecodeRune(b)) && DecodeRune(b).size == 1 ==> b[0] < 0x80 && DecodeRune(b).r == b[0]
    ensures b[0] < 0x80 ==> DecodeRune(b) == Decoded(b[0], 1)
  {
  }

  lemma EncodedHigh(r: int)
    ensures |EncodeRune(r)| > 1 ==> forall k | 0 <= k < |EncodeRune(r)| :: EncodeRune(r)[k] >= 0x80
    ensures |EncodeRune(r)| == 1 ==> EncodeRune(r) == [r] && r < 0x80
  {
  }

  /** What the first character of `b` folds to. */
  function FoldedHead(b: seq<byte>, fold: int -> int): seq<byte>
    requires b != []
  {
    EncodeRune(if Invalid(DecodeRune(b)) then RUNE_ERROR else fold(DecodeRune(b).r))
  }

  lemma FoldHead(b: seq<byte>, fold: int -> int)
    requires b != []
    ensures FoldAll(b, fold) == FoldedHead(b, fold) + FoldAll(b[DecodeRune(b).size..], fold)
  {
  }

  /** Does a character begin or the page end at `k`? */
  predicate Boundary(b: seq<byte>, k: nat)
    decreases |b|
  {
    k == 0 || (b != [] && DecodeRune(b).size <= k && Boundary(b[DecodeRune(b).size..], k - DecodeRune(b).size))
  }

  /** Between characters the folded copy comes apart where the page does. */
  lemma {:induction false} FoldAt(b: seq<byte>, fold: int -> int, k: nat)
    requires k <= |b| && Boundary(b, k)
    ensures FoldAll(b, fold) == FoldAll(b[..k], fold) + FoldAll(b[k..], fold)
    decreases |b|
  {
    hide FoldAll, DecodeRune, EncodeRune;
    if k == 0 {
      FoldNothing(fold);
      assert b[0..] == b;
    } else {
      var n := DecodeRune(b).size;
      DecodedHigh(b);
      DecodePrefix(b, k);
      FoldAt(b[n..], fold, k - n);
      FoldHead(b, fold);
      FoldHead(b[..k], fold);
      assert b[..k][n..] == b[n..][..k - n] && b[k..] == b[n..][k - n..];
    }
  }

  lemma FoldNothing(fold: int -> int)
    ensures FoldAll([], fold) == []
  {
  }

  lemma SameHead(b: seq<byte>, c: seq<byte>, fold: int -> int)
    requires b != [] && c != [] && DecodeRune(b) == DecodeRune(c)
    ensures FoldedHead(b, fold) == FoldedHead(c, fold)
  {
  }

  // ---- Alike in ASCII ----

  ghost predicate PlainNeedle(needle: seq<byte>) {
    needle != [] && forall k | 0 <= k < |needle| :: needle[k] < 0x80
  }

  /** Up to `n` the two agree on every ASCII byte, and from there on neither has one. */
  ghost predicate AlikeTo(x: seq<byte>, y: seq<byte>, n: nat) {
    && n <= |x| && n <= |y|
    && (forall k | 0 <= k < n :: x[k] == y[k] || (x[k] >= 0x80 && y[k] >= 0x80))
    && (forall k | n <= k < |x| :: x[k] >= 0x80)
    && (forall k | n <= k < |y| :: y[k] >= 0x80)
  }

  lemma AlikeSum(x: seq<byte>, x1: seq<byte>, y: seq<byte>, y1: seq<byte>, n: nat, m: nat)
    requires |x| == |y| == n && AlikeTo(x, y, n) && AlikeTo(x1, y1, m)
    ensures AlikeTo(x + x1, y + y1, n + m)
  {
  }

  lemma LowerSum(b: seq<byte>, n: nat)
    requires n <= |b|
    ensures Lower(b) == Lower(b[..n]) + Lower(b[n..])
  {
  }

  /** A character cut short decodes to nothing but U+FFFD. */
  lemma {:induction false} BrokenFoldsHigh(s: seq<byte>, fold: int -> int)
    requires forall k | 0 <= k < |s| :: Continuation(s[k])
    ensures forall k | 0 <= k < |FoldAll(s, fold)| :: FoldAll(s, fold)[k] >= 0x80
    ensures AlikeTo(FoldAll(s, fold), Lower(s), 0)
  {
    if s != [] {
      assert DecodeRune(s) == Decoded(RUNE_ERROR, 1);
      EncodedHigh(RUNE_ERROR);
      BrokenFoldsHigh(s[1..], fold);
    }
  }

  lemma CutShort(b: seq<byte>, m: nat, fold: int -> int)
    requires 0 < m < DecodeRune(b).size <= |b|
    ensures AlikeTo(FoldAll(b[..m], fold), Lower(b[..m]), 0)
  {
    hide DecodeRune, EncodeRune, FoldAll, FoldedHead;
    var c := b[..m];
    BrokenHead(b, m);
    BrokenFoldsHigh(c[1..], fold);
    ErrorFoldsHigh(c, fold);
    FoldHead(c, fold);
    assert c[0] == b[0];
  }

  lemma BrokenHead(b: seq<byte>, m: nat)
    requires 0 < m < DecodeRune(b).size <= |b|
    ensures DecodeRune(b[..m]) == Decoded(RUNE_ERROR, 1) && b[0] >= 0xC2
    ensures forall k | 0 <= k < |b[..m][1..]| :: Continuation(b[..m][1..][k])
  {
    assert forall k | 1 <= k < DecodeRune(b).size :: Continuation(b[k]);
  }

  lemma ErrorFoldsHigh(c: seq<byte>, fold: int -> int)
    requires c != [] && DecodeRune(c) == Decoded(RUNE_ERROR, 1)
    ensures forall k | 0 <= k < |FoldedHead(c, fold)| :: FoldedHead(c, fold)[k] >= 0x80
  {
    hide DecodeRune;
    assert EncodeRune(RUNE_ERROR) == [0xEF, 0xBF, 0xBD];
  }

  /** An ASCII needle is found at one place in both. */
  lemma AlikeFinds(x: seq<byte>, y: seq<byte>, n: nat, needle: seq<byte>)
    requires AlikeTo(x, y, n) && PlainNeedle(needle)
    ensures Index(x, needle) == Index(y, needle)
  {
    hide Index;
    forall k
      ensures MatchAt(x, needle, k) <==> MatchAt(y, needle, k)
    {
      PlainMatch(x, y, n, needle, k);
      AlikeBack(x, y, n);
      PlainMatch(y, x, n, needle, k);
    }
    IndexMatches(y, needle);
    forall k | 0 <= k < (if Index(y, needle) < 0 then |x| + 1 else Index(y, needle))
      ensures !MatchAt(x, needle, k)
    {
      if MatchAt(x, needle, k) {
        IndexLeast(y, needle, k);
      }
    }
    IndexIs(x, needle, Index(y, needle));
  }

  lemma AlikeBack(x: seq<byte>, y: seq<byte>, n: nat)
    requires AlikeTo(x, y, n)
    ensures AlikeTo(y, x, n)
  {
  }

  lemma PlainMatch(x: seq<byte>, y: seq<byte>, n: nat, needle: seq<byte>, k: int)
    requires AlikeTo(x, y, n) && PlainNeedle(needle)
    ensures MatchAt(x, needle, k) ==> MatchAt(y, needle, k)
  {
    if MatchAt(x, needle, k) {
      var part, last := x[k..k + |needle|], k + |needle| - 1;
      assert part[|needle| - 1] == x[last];
      assert forall j | 0 <= j < |needle| :: part[j] == x[k + j] == needle[j];
      var other := y[k..k + |needle|];
      forall j | 0 <= j < |needle|
        ensures other[j] == needle[j]
      {
        assert part[j] == needle[j] && other[j] == y[k + j];
      }
    }
  }

  // ---- A cut ----

  /** The folded copy of a cut is the beginning of the folded copy of the page, but for what a
      character cut in two becomes, and that is not ASCII. */
  lemma {:induction false} FoldedCut(b: seq<byte>, fold: int -> int, n: nat) returns (m: nat)
    requires n <= |b|
    ensures m <= |FoldAll(b, fold)| && AlikeTo(FoldAll(b[..n], fold), FoldAll(b, fold)[..m], m)
    decreases |b|
  {
    hide DecodeRune, EncodeRune, FoldAll, FoldedHead, AlikeTo;
    m := 0;
    if n == 0 {
      FoldNothing(fold);
      HighAlike([]);
    } else {
      var size := DecodeRune(b).size;
      DecodedHigh(b);
      if n < size {
        CutShort(b, n, fold);
        AlikeHigh(FoldAll(b[..n], fold), Lower(b[..n]));
        HighAlike(FoldAll(b[..n], fold));
      } else {
        var c, e := b[..n], FoldedHead(b, fold);
        DecodePrefix(b, n);
        SameHead(b, c, fold);
        FoldHead(c, fold);
        FoldHead(b, fold);
        assert c[size..] == b[size..][..n - size];
        m := FoldedCut(b[size..], fold, n - size);
        var rest := FoldAll(b[size..], fold)[..m];
        AlikeSame(e);
        AlikeSum(e, FoldAll(c[size..], fold), e, rest, |e|, m);
        m := |e| + m;
        assert FoldAll(b, fold)[..m] == e + rest;
      }
    }
  }

  lemma AlikeSame(x: seq<byte>)
    ensures AlikeTo(x, x, |x|)
  {
  }

  lemma AlikeHigh(x: seq<byte>, y: seq<byte>)
    requires AlikeTo(x, y, 0)
    ensures forall k | 0 <= k < |x| :: x[k] >= 0x80
  {
  }

  lemma HighAlike(x: seq<byte>)
    requires forall k | 0 <= k < |x| :: x[k] >= 0x80
    ensures AlikeTo(x, [], 0)
  {
  }

  /** So what is found in the folded copy of a cut is found at the same place in that of the page. */
  lemma FoundInCut(b: seq<byte>, fold: int -> int, needle: seq<byte>, n: nat)
    requires n <= |b| && PlainNeedle(needle)
    ensures Index(FoldAll(b[..n], fold), needle) == -1 || Index(FoldAll(b[..n], fold), needle) == Index(FoldAll(b, fold), needle)
  {
    hide FoldAll, Index, AlikeTo, PlainNeedle;
    var m := FoldedCut(b, fold, n);
    AlikeFinds(FoldAll(b[..n], fold), FoldAll(b, fold)[..m], m, needle);
    IndexOfPrefix(FoldAll(b, fold), needle, m);
  }
}
