/** The Bloom filter that can stand in for the exact set of seen URLs (internal/engine/bloom.go).
    The two hash functions and the sizing, which is floating point, are parameters. */
module Bloom {

  type Url = string
  type Word = bv64

  // ---- One word ----

  // The operators by name, so that their laws can be used without looking inside.
  function Meet(a: Word, b: Word): Word { a & b }
  function Union(a: Word, b: Word): Word { a | b }
  function Without(a: Word, b: Word): Word { a & !b }
  function Below(m: Word): Word { m - 1 }

  function Shift(i: bv6): Word { (1 as Word) << i }
  function Place(i: nat): bv6 requires i < 64 { i as bv6 }

  /** The word with bit i alone. */
  function Mask(i: nat): Word
    requires i < 64
  {
    Shift(Place(i))
  }

  predicate Bit(w: Word, i: nat)
    requires i < 64
  {
    Meet(w, Mask(i)) != 0
  }

  lemma Small(i: nat)
    requires i < 64
    ensures Place(i) as nat == i
  {
  }

  lemma PlacesApart(i: nat, j: nat)
    requires i < 64 && j < 64 && Place(i) == Place(j)
    ensures i == j
  {
    hide Place;
    Small(i);
    Small(j);
  }

  lemma ShiftsApart(i: bv6, j: bv6)
    requires i != j
    ensures Meet(Shift(i), Shift(j)) == 0
  {
  }

  lemma ShiftPower(i: bv6)
    ensures Shift(i) != 0 && Meet(Shift(i), Below(Shift(i))) == 0
  {
  }

  lemma MasksApart(i: nat, j: nat)
    requires i < 64 && j < 64
    ensures Mask(i) != 0 && (i != j ==> Meet(Mask(i), Mask(j)) == 0)
  {
    hide Shift, Place, Meet;
    ShiftPower(Place(i));
    if i != j {
      if Place(i) == Place(j) {
        PlacesApart(i, j);
      }
      ShiftsApart(Place(i), Place(j));
    }
  }

  lemma UnionHas(w: Word, m: Word)
    ensures Meet(Union(w, m), m) == m
  {
  }

  lemma UnionElsewhere(w: Word, m: Word, n: Word)
    requires Meet(m, n) == 0
    ensures Meet(Union(w, m), n) == Meet(w, n)
  {
  }

  lemma MeetSelf(m: Word)
    ensures Meet(m, m) == m && Meet(0, m) == 0 && Meet(m, 0) == 0
    ensures Meet(m, 0xFFFF_FFFF_FFFF_FFFF) == m
  {
  }

  lemma MeetSplit(w: Word, a: Word, b: Word)
    requires Meet(w, a) == 0 && Meet(w, b) == 0
    ensures Meet(w, Union(a, b)) == 0
  {
  }

  lemma MeetWithout(w: Word, m: Word, n: Word)
    ensures Meet(m, n) == 0 ==> Meet(Without(w, m), n) == Meet(w, n)
  {
  }

  lemma MeetGone(w: Word, m: Word)
    ensures Meet(Without(w, m), m) == 0
  {
  }

  /** Setting bit i sets bit i and no other. */
  lemma BitOr(w: Word, i: nat, j: nat)
    requires i < 64 && j < 64
    ensures Bit(Union(w, Mask(i)), j) <==> i == j || Bit(w, j)
  {
    hide Mask, Meet, Union;
    MasksApart(i, j);
    if i == j {
      UnionHas(w, Mask(i));
    } else {
      UnionElsewhere(w, Mask(i), Mask(j));
    }
  }

  lemma BitClear(w: Word, i: nat, j: nat)
    requires i < 64 && j < 64
    ensures Bit(Without(w, Mask(i)), j) <==> i != j && Bit(w, j)
  {
    hide Mask, Meet, Without;
    MasksApart(i, j);
    MeetWithout(w, Mask(i), Mask(j));
    MeetGone(w, Mask(i));
  }

  // ---- Counting bits ----

  /** How many of the first n bits are set. */
  function Ones(w: Word, n: nat): nat
    requires n <= 64
  {
    if n == 0 then 0 else Ones(w, n - 1) + if Bit(w, n - 1) then 1 else 0
  }

  lemma {:induction false} OnesZero(n: nat)
    requires n <= 64
    ensures Ones(0, n) == 0
  {
    hide Mask, Meet;
    if n > 0 {
      OnesZero(n - 1);
      MeetSelf(Mask(n - 1));
    }
  }

  lemma {:induction false} OnesClear(w: Word, i: nat, n: nat)
    requires i < 64 && n <= 64 && Bit(w, i)
    ensures Ones(Without(w, Mask(i)), n) == Ones(w, n) - if i < n then 1 else 0
  {
    hide Mask, Bit, Without;
    if n > 0 {
      OnesClear(w, i, n - 1);
      BitClear(w, i, n - 1);
    }
  }

  lemma BelowNext(i: bv6)
    requires i != 63
    ensures Below(Shift(i + 1)) == Union(Below(Shift(i)), Shift(i))
  {
  }

  lemma NextPlace(i: nat)
    requires i < 63
    ensures Place(i + 1) == Place(i) + 1 && Place(i) != 63
  {
    Small(i);
    Small(i + 1);
  }

  lemma BelowMask(i: nat)
    requires i < 63
    ensures Below(Mask(i + 1)) == Union(Below(Mask(i)), Mask(i))
  {
    hide Place, Shift, Below, Union;
    NextPlace(i);
    BelowNext(Place(i));
  }

  lemma EndPlaces()
    ensures Place(0) == 0 && Place(63) == 63
  {
  }

  lemma FirstMask()
    ensures Below(Mask(0)) == 0
  {
    hide Place;
    EndPlaces();
  }

  lemma LastMask()
    ensures Union(Below(Mask(63)), Mask(63)) == 0xFFFF_FFFF_FFFF_FFFF
  {
    hide Place;
    EndPlaces();
  }

  /** The lowest set bit, looked for from n up. */
  lemma Lowest(w: Word, n: nat) returns (i: nat)
    requires w != 0 && n < 64 && Meet(w, Below(Mask(n))) == 0
    ensures i < 64 && Bit(w, i) && Meet(w, Below(Mask(i))) == 0
    decreases 64 - n
  {
    hide Mask, Meet, Union, Below;
    i := n;
    if !Bit(w, n) {
      MeetSplit(w, Below(Mask(n)), Mask(n));
      if n < 63 {
        BelowMask(n);
        i := Lowest(w, n + 1);
      } else {
        LastMask();
        MeetSelf(w);
      }
    }
  }

  lemma DropPower(w: Word, m: Word)
    requires Meet(m, Below(m)) == 0 && m != 0 && Meet(w, Below(m)) == 0 && Meet(w, m) == m
    ensures Meet(w, Below(w)) == Without(w, m)
  {
  }

  lemma MeetPower(w: Word, m: Word)
    requires Meet(m, Below(m)) == 0 && Meet(w, m) != 0
    ensures Meet(w, m) == m
  {
  }

  lemma DropLowest(w: Word, i: nat)
    requires i < 64 && Meet(w, Below(Mask(i))) == 0 && Meet(w, Mask(i)) != 0
    ensures Meet(w, Below(w)) == Without(w, Mask(i))
  {
    hide Place, Shift, Meet, Below, Without;
    ShiftPower(Place(i));
    MeetPower(w, Mask(i));
    DropPower(w, Mask(i));
  }

  /** `x &= x - 1` clears one bit. */
  lemma ClearsOne(w: Word)
    requires w != 0
    ensures Ones(Meet(w, Below(w)), 64) == Ones(w, 64) - 1
  {
    hide Ones, Mask, Meet, Below, Without;
    FirstMask();
    MeetSelf(w);
    var i := Lowest(w, 0);
    DropLowest(w, i);
    OnesClear(w, i, 64);
  }

  method PopCount(x0: Word) returns (count: nat)
    ensures count == Ones(x0, 64)
  {
    hide Ones, Meet, Below;
    var x := x0;
    count := 0;
    while x != 0
      invariant count + Ones(x, 64) == Ones(x0, 64)
      decreases Ones(x, 64)
    {
      ClearsOne(x);
      x := Meet(x, Below(x));
      count := count + 1;
    }
    OnesZero(64);
  }

  // ---- Many words ----

  predicate HasBit(words: seq<Word>, p: nat)
    requires p < 64 * |words|
  {
    Bit(words[p / 64], p % 64)
  }

  function WithBit(words: seq<Word>, p: nat): seq<Word>
    requires p < 64 * |words|
  {
    words[p / 64 := Union(words[p / 64], Mask(p % 64))]
  }

  lemma WithBitHas(words: seq<Word>, p: nat, q: nat)
    requires p < 64 * |words| && q < 64 * |words|
    ensures |WithBit(words, p)| == |words| && (HasBit(WithBit(words, p), q) <==> p == q || HasBit(words, q))
  {
    hide Bit, Union, Mask;
    if p / 64 == q / 64 {
      BitOr(words[p / 64], p % 64, q % 64);
    }
  }

  /** How many of the first n bits are set. */
  function NumSet(words: seq<Word>, n: nat): nat
    requires n <= 64 * |words|
  {
    if n == 0 then 0 else NumSet(words, n - 1) + if HasBit(words, n - 1) then 1 else 0
  }

  lemma {:induction false} NumSetWithBit(words: seq<Word>, p: nat, n: nat)
    requires p < 64 * |words| && n <= 64 * |words|
    ensures NumSet(WithBit(words, p), n) <= NumSet(words, n) + if p < n then 1 else 0
  {
    hide HasBit, WithBit;
    WithBitHas(words, p, p);
    if n > 0 {
      WithBitHas(words, p, n - 1);
      NumSetWithBit(words, p, n - 1);
    }
  }

  lemma {:induction false} NumSetFirst(words: seq<Word>, n: nat)
    requires n <= 64 * |words|
    ensures NumSet(words, n) <= n
  {
    if n > 0 {
      NumSetFirst(words, n - 1);
    }
  }

  /** Nothing is set from n on. */
  ghost predicate NoneFrom(words: seq<Word>, n: nat) {
    forall p: nat | n <= p < 64 * |words| :: !HasBit(words, p)
  }

  lemma {:induction false} NumSetRest(words: seq<Word>, n: nat, m: nat)
    requires n <= m <= 64 * |words| && NoneFrom(words, n)
    ensures NumSet(words, m) == NumSet(words, n)
  {
    hide HasBit;
    if n < m {
      NumSetRest(words, n, m - 1);
    }
  }

  function Total(words: seq<Word>): nat {
    if words == [] then 0 else Total(words[..|words| - 1]) + Ones(words[|words| - 1], 64)
  }

  lemma {:induction false} NumSetPrefix(words: seq<Word>, k: nat, n: nat)
    requires k <= |words| && n <= 64 * k
    ensures NumSet(words[..k], n) == NumSet(words, n)
  {
    if n > 0 {
      NumSetPrefix(words, k, n - 1);
    }
  }

  lemma {:induction false} NumSetWord(words: seq<Word>, k: nat, n: nat)
    requires k < |words| && n <= 64
    ensures NumSet(words, 64 * k + n) == NumSet(words, 64 * k) + Ones(words[k], n)
  {
    hide Bit;
    if n > 0 {
      NumSetWord(words, k, n - 1);
      assert (64 * k + n - 1) / 64 == k && (64 * k + n - 1) % 64 == n - 1;
    }
  }

  lemma {:induction false} TotalIsNumSet(words: seq<Word>)
    ensures Total(words) == NumSet(words, 64 * |words|)
  {
    hide Ones, HasBit;
    if words != [] {
      var k := |words| - 1;
      TotalIsNumSet(words[..k]);
      NumSetPrefix(words, k, 64 * k);
      NumSetWord(words, k, 64);
    }
  }

  // ---- The filter ----

  const WRAP: nat := 0x1_0000_0000_0000_0000

  /** What sizes a filter and tells URLs apart. */
  datatype Shape = Shape(numBits: nat, numHash: nat, hash1: Url -> nat, hash2: Url -> nat)

  ghost predicate Sized(f: Shape) {
    0 < f.numBits < WRAP && 0 < f.numHash
  }

  /** The i-th bit a URL sets, in 64-bit arithmetic that wraps. */
  function Position(f: Shape, url: Url, i: nat): (p: nat)
    requires f.numBits > 0
    ensures p < f.numBits
  {
    (f.hash1(url) + i * f.hash2(url)) % WRAP % f.numBits
  }

  /** The hashes of a URL in turn: the first of the two, and each time the second on top, as 64 bits
      hold it. */
  function HashAt(h1: nat, h2: nat, i: nat): nat {
    if i == 0 then h1 % 0x1_0000_0000_0000_0000 else (HashAt(h1, h2, i - 1) + h2) % 0x1_0000_0000_0000_0000
  }

  lemma AddWrapped(a: nat, b: nat)
    ensures (a % WRAP + b) % WRAP == (a + b) % WRAP
  {
    var q := a / WRAP;
    assert a + b == q * WRAP + (a % WRAP + b);
    WrapDrops(q, a % WRAP + b);
  }

  lemma {:induction false} WrapDrops(q: nat, x: nat)
    ensures (q * WRAP + x) % WRAP == x % WRAP
  {
    if q > 0 {
      WrapDrops(q - 1, x);
      var y := (q - 1) * WRAP + x;
      assert q * WRAP + x == y + WRAP;
      assert (y + WRAP) % WRAP == y % WRAP;
    }
  }

  function Sum(h1: nat, h2: nat, i: nat): nat {
    h1 + i * h2
  }

  lemma SumNext(h1: nat, h2: nat, i: nat)
    requires i > 0
    ensures Sum(h1, h2, i) == Sum(h1, h2, i - 1) + h2 && Sum(h1, h2, 0) == h1
  {
    assert i * h2 == (i - 1) * h2 + h2;
  }

  lemma {:induction false} HashIsSum(h1: nat, h2: nat, i: nat)
    ensures HashAt(h1, h2, i) == Sum(h1, h2, i) % WRAP
  {
    hide Sum;
    if i == 0 {
      SumNext(h1, h2, 1);
    } else {
      HashIsSum(h1, h2, i - 1);
      SumNext(h1, h2, i);
      AddWrapped(Sum(h1, h2, i - 1), h2);
    }
  }

  /** The positions are the hashes in turn, each cut down to the bits there are. */
  lemma PositionIs(f: Shape, url: Url, i: nat)
    requires f.numBits > 0
    ensures Position(f, url, i) == HashAt(f.hash1(url), f.hash2(url), i) % f.numBits
  {
    hide HashAt;
    HashIsSum(f.hash1(url), f.hash2(url), i);
  }

  ghost predicate AllSet(f: Shape, words: seq<Word>, url: Url, n: nat)
    requires f.numBits > 0 && f.numBits <= 64 * |words|
  {
    forall i: nat | i < n :: HasBit(words, Position(f, url, i))
  }

  /** After setting the first n bits of a URL. */
  function Added(f: Shape, words: seq<Word>, url: Url, n: nat): (r: seq<Word>)
    requires f.numBits > 0 && f.numBits <= 64 * |words|
    ensures |r| == |words|
  {
    if n == 0 then words else WithBit(Added(f, words, url, n - 1), Position(f, url, n - 1))
  }

  /** Adding a URL sets its bits, loses none, touches nothing beyond the sized bits, and sets at
      most one new bit a hash. */
  lemma {:induction false} AddedHas(f: Shape, words: seq<Word>, url: Url, n: nat)
    requires f.numBits > 0 && f.numBits <= 64 * |words|
    ensures forall q: nat | q < 64 * |words| :: HasBit(Added(f, words, url, n), q) <==> HasBit(words, q) || exists i: nat :: i < n && Position(f, url, i) == q
    ensures NumSet(Added(f, words, url, n), f.numBits) <= NumSet(words, f.numBits) + n
  {
    hide HasBit, WithBit, NumSet, Position;
    if n > 0 {
      AddedHas(f, words, url, n - 1);
      var before := Added(f, words, url, n - 1);
      NumSetWithBit(before, Position(f, url, n - 1), f.numBits);
      forall q: nat | q < 64 * |words|
        ensures HasBit(Added(f, words, url, n), q) <==> HasBit(words, q) || exists i: nat :: i < n && Position(f, url, i) == q
      {
        WithBitHas(before, Position(f, url, n - 1), q);
      }
    }
  }

  /** The filter's words after URLs were added: every one of them is found, no bit is set beyond
      the sized ones, and no more than the hashes account for. */
  ghost predicate Holds(f: Shape, words: seq<Word>, added: set<Url>, count: nat) {
    && Sized(f) && |words| == (f.numBits + 63) / 64
    && (forall u | u in added :: AllSet(f, words, u, f.numHash))
    && NoneFrom(words, f.numBits)
    && NumSet(words, f.numBits) <= count * f.numHash
    && (forall q: nat | q < f.numBits :: HasBit(words, q) ==> HashedBy(f, added, q))
  }

  /** One of the URLs hashes there. */
  ghost predicate HashedBy(f: Shape, added: set<Url>, q: nat)
    requires f.numBits > 0
  {
    exists u, i: nat :: u in added && i < f.numHash && Position(f, u, i) == q
  }

  lemma HashedByMore(f: Shape, added: set<Url>, url: Url, q: nat)
    requires f.numBits > 0
    ensures HashedBy(f, added, q) || (exists i: nat :: i < f.numHash && Position(f, url, i) == q) ==> HashedBy(f, added + {url}, q)
  {
    hide Position;
    if u, i: nat :| u in added && i < f.numHash && Position(f, u, i) == q {
      assert u in added + {url};
    }
    if i: nat :| i < f.numHash && Position(f, url, i) == q {
      assert url in added + {url};
    }
  }

  /** A URL is found exactly when each of its positions is one of some URL that was added. */
  lemma FoundExactly(f: Shape, words: seq<Word>, added: set<Url>, count: nat, url: Url)
    requires Holds(f, words, added, count)
    ensures AllSet(f, words, url, f.numHash) <==> forall i: nat | i < f.numHash :: HashedBy(f, added, Position(f, url, i))
  {
    hide HasBit, NumSet, Position;
    forall i: nat | i < f.numHash
      ensures HasBit(words, Position(f, url, i)) <==> HashedBy(f, added, Position(f, url, i))
    {
      var q := Position(f, url, i);
      if u, j: nat :| u in added && j < f.numHash && Position(f, u, j) == q {
        assert AllSet(f, words, u, f.numHash);
      }
    }
  }

  lemma HoldsAdd(f: Shape, words: seq<Word>, added: set<Url>, count: nat, url: Url)
    requires Holds(f, words, added, count)
    ensures Holds(f, Added(f, words, url, f.numHash), added + {url}, count + 1)
  {
    hide HasBit, NumSet, Added;
    var after := Added(f, words, url, f.numHash);
    AddedHas(f, words, url, f.numHash);
    forall u | u in added + {url}
      ensures AllSet(f, after, u, f.numHash)
    {
      assert u in added ==> AllSet(f, words, u, f.numHash);
    }
    assert NoneFrom(after, f.numBits);
    forall q: nat | q < f.numBits && HasBit(after, q)
      ensures HashedBy(f, added + {url}, q)
    {
      HashedByMore(f, added, url, q);
    }
    Distributes(count, f.numHash);
  }

  lemma Distributes(count: nat, k: nat)
    ensures (count + 1) * k == count * k + k
  {
  }

  /** The population of the words, which the false-positive estimate is made from, is no more than
      the bits there are and no more than the hashes computed. */
  lemma PopulationIsBounded(f: Shape, words: seq<Word>, added: set<Url>, count: nat)
    requires Holds(f, words, added, count)
    ensures Total(words) <= f.numBits && Total(words) <= count * f.numHash
  {
    hide HasBit, Ones;
    TotalIsNumSet(words);
    NumSetRest(words, f.numBits, 64 * |words|);
    NumSetFirst(words, f.numBits);
  }

  class BloomFilter {
    const shape: Shape
    const bits: array<Word>
    var count: nat
    ghost var added: set<Url>

    ghost predicate Valid()
      reads this, bits
    {
      Holds(shape, bits[..], added, count)
    }

    constructor (shape: Shape)
      requires Sized(shape)
      ensures Valid() && added == {} && count == 0 && this.shape == shape && fresh(bits)
    {
      this.shape := shape;
      bits := new Word[(shape.numBits + 63) / 64](_ => 0);
      count, added := 0, {};
      new;
      AllClear(bits[..], 64 * bits.Length);
      AllClear(bits[..], shape.numBits);
    }

    /** Sets the URL's bits, in place. */
    method Add(url: Url)
      requires Valid()
      modifies this, bits
      ensures Valid() && count == old(count) + 1 && added == old(added) + {url}
      ensures bits[..] == Added(shape, old(bits[..]), url, shape.numHash)
    {
      hide HasBit, NumSet, Union, Mask, Position;
      ghost var before := bits[..];
      for i := 0 to shape.numHash
        invariant bits[..] == Added(shape, before, url, i) && count == old(count) && added == old(added)
      {
        var pos := Position(shape, url, i);
        bits[pos / 64] := Union(bits[pos / 64], Mask(pos % 64));
      }
      HoldsAdd(shape, before, added, count, url);
      count := count + 1;
      added := added + {url};
    }

    /** Whether all the URL's bits are set. */
    method Contains(url: Url) returns (r: bool)
      requires Valid()
      ensures r <==> AllSet(shape, bits[..], url, shape.numHash)
      ensures url in added ==> r
      ensures r <==> forall i: nat | i < shape.numHash :: HashedBy(shape, added, Position(shape, url, i))
    {
      hide NumSet, Bit;
      FoundExactly(shape, bits[..], added, count, url);
      for i := 0 to shape.numHash
        invariant AllSet(shape, bits[..], url, i)
      {
        var pos := Position(shape, url, i);
        if !Bit(bits[pos / 64], pos % 64) {
          assert !HasBit(bits[..], Position(shape, url, i));
          return false;
        }
      }
      return true;
    }

    /** The count of set bits, one word after the other. */
    method SetBits() returns (n: nat)
      requires Valid()
      ensures n == Total(bits[..]) && n <= shape.numBits && n <= count * shape.numHash
    {
      n := 0;
      for i := 0 to bits.Length
        invariant n == Total(bits[..i])
      {
        var ones := PopCount(bits[i]);
        assert bits[..i + 1][..i] == bits[..i];
        n := n + ones;
      }
      assert bits[..bits.Length] == bits[..];
      PopulationIsBounded(shape, bits[..], added, count);
    }
  }

  lemma {:induction false} AllClear(words: seq<Word>, n: nat)
    requires n <= 64 * |words| && forall i | 0 <= i < |words| :: words[i] == 0
    ensures NumSet(words, n) == 0 && forall p: nat | p < n :: !HasBit(words, p)
  {
    hide Mask, Meet;
    if n > 0 {
      AllClear(words, n - 1);
      MeetSelf(Mask((n - 1) % 64));
    }
  }

  // ---- Deduplication ----

  class BloomDeduplicator {
    const bloom: BloomFilter
    const canonical: string -> Url
    /** Every canonical URL ever offered: what an exact deduplicator would hold. */
    ghost var offered: set<Url>

    ghost predicate Valid()
      reads this, bloom, bloom.bits
    {
      bloom.Valid() && forall u | u in offered :: AllSet(bloom.shape, bloom.bits[..], u, bloom.shape.numHash)
    }

    constructor (shape: Shape, canonical: string -> Url)
      requires Sized(shape)
      ensures Valid() && offered == {} && this.canonical == canonical && fresh(bloom) && fresh(bloom.bits)
    {
      bloom := new BloomFilter(shape);
      this.canonical := canonical;
      offered := {};
    }

    /** Claims a URL. Whatever is called new here an exact set would have called new too; what was
        offered before is never new again, even if it was wrongly turned away. */
    method MarkIfUnseen(rawUrl: string) returns (isNew: bool)
      requires Valid()
      modifies this, bloom, bloom.bits
      ensures Valid() && offered == old(offered) + {canonical(rawUrl)}
      ensures isNew ==> canonical(rawUrl) !in old(offered)
      ensures isNew <==> !AllSet(bloom.shape, old(bloom.bits[..]), canonical(rawUrl), bloom.shape.numHash)
    {
      var u := canonical(rawUrl);
      var seen := bloom.Contains(u);
      if seen {
        offered := offered + {u};
        return false;
      }
      ghost var before := bloom.bits[..];
      bloom.Add(u);
      KeepsAll(bloom.shape, before, u, offered);
      offered := offered + {u};
      return true;
    }
  }

  lemma KeepsAll(f: Shape, words: seq<Word>, url: Url, us: set<Url>)
    requires f.numBits > 0 && f.numBits <= 64 * |words|
    requires forall u | u in us :: AllSet(f, words, u, f.numHash)
    ensures forall u | u in us :: AllSet(f, Added(f, words, url, f.numHash), u, f.numHash)
  {
    hide HasBit, Added, NumSet;
    AddedHas(f, words, url, f.numHash);
  }
}
