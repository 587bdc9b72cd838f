/** Substring search: the first occurrence, as bytes.Index and strings.Index find it. */
module Search {

  predicate MatchAt<T(==)>(h: seq<T>, n: seq<T>, k: int) {
    0 <= k <= |h| - |n| && h[k..k + |n|] == n
  }

  /** The least offset at which `n` occurs in `h`, or -1. */
  function Index<T(==)>(h: seq<T>, n: seq<T>): (r: int)
    ensures -1 <= r && (r >= 0 ==> r + |n| <= |h|)
  {
    if n <= h then 0
    else if h == [] then -1
    else
      var r := Index(h[1..], n);
      if r < 0 then -1 else r + 1
  }

  lemma MatchInTail<T>(h: seq<T>, n: seq<T>, k: int)
    requires h != [] && k >= 0
    ensures MatchAt(h[1..], n, k) <==> MatchAt(h, n, k + 1)
  {
    if k + 1 <= |h| - |n| {
      assert h[1..][k..k + |n|] == h[k + 1..k + 1 + |n|];
    }
  }

  /** What `Index` returns is an occurrence. */
  lemma {:induction false} IndexMatches<T>(h: seq<T>, n: seq<T>)
    ensures Index(h, n) >= 0 ==> MatchAt(h, n, Index(h, n))
  {
    if !(n <= h) && h != [] {
      IndexMatches(h[1..], n);
      if Index(h, n) > 0 {
        MatchInTail(h, n, Index(h, n) - 1);
      }
    }
  }

  /** No occurrence comes before it. */
  lemma {:induction false} IndexLeast<T>(h: seq<T>, n: seq<T>, k: int)
    requires MatchAt(h, n, k)
    ensures 0 <= Index(h, n) <= k
  {
    if k > 0 && !(n <= h) {
      MatchInTail(h, n, k - 1);
      IndexLeast(h[1..], n, k - 1);
    }
  }

  /** The two together pin the offset down. */
  lemma IndexIs<T>(h: seq<T>, n: seq<T>, r: int)
    requires r == -1 || MatchAt(h, n, r)
    requires forall k | 0 <= k < (if r < 0 then |h| + 1 else r) :: !MatchAt(h, n, k)
    ensures Index(h, n) == r
  {
    IndexMatches(h, n);
    if r >= 0 {
      IndexLeast(h, n, r);
    }
  }

  lemma MatchInPrefix<T>(h: seq<T>, n: seq<T>, m: nat, k: int)
    requires 0 <= k && k + |n| <= m <= |h|
    ensures MatchAt(h[..m], n, k) <==> MatchAt(h, n, k)
  {
    assert h[..m][k..k + |n|] == h[k..k + |n|];
  }

  /** Cutting the haystack keeps the first occurrence when it is wholly inside, and otherwise
      leaves none. */
  lemma IndexOfPrefix<T>(h: seq<T>, n: seq<T>, m: nat)
    requires m <= |h|
    ensures var r := Index(h, n);
            Index(h[..m], n) == if r >= 0 && r + |n| <= m then r else -1
  {
    hide Index;
    var r, p := Index(h, n), Index(h[..m], n);
    IndexMatches(h, n);
    IndexMatches(h[..m], n);
    if p >= 0 {
      MatchInPrefix(h, n, m, p);
      IndexLeast(h, n, p);
    }
    if r >= 0 && r + |n| <= m {
      MatchInPrefix(h, n, m, r);
      IndexLeast(h[..m], n, r);
    }
  }

  lemma MatchInSuffix<T>(h: seq<T>, n: seq<T>, from: nat, k: int)
    requires from <= |h| && k >= 0
    ensures MatchAt(h[from..], n, k) <==> MatchAt(h, n, from + k)
  {
    if from + k <= |h| - |n| {
      assert h[from..][k..k + |n|] == h[from + k..from + k + |n|];
    }
  }

  lemma MatchStarts<T>(h: seq<T>, n: seq<T>)
    requires n != []
    ensures forall k :: MatchAt(h, n, k) ==> h[k] == n[0]
  {
    forall k | MatchAt(h, n, k)
      ensures h[k] == n[0]
    {
      assert h[k..k + |n|][0] == h[k];
    }
  }
}
