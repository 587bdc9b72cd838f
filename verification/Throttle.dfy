/** Politeness: one request per delay to each registrable domain, remembered for the domains most
    recently touched (internal/engine/throttle.go).

    A limiter of rate one per delay and burst one holds at most one token; a claim takes it, and
    it is back one delay later. So a limiter is the time of its last claim, if any. */
module Throttle {
  import opened Wrappers

  type Domain = nat
  type Time = int

  /** The domains with a limiter, the most recently used first, and each limiter's last claim. */
  datatype Slots = Slots(lru: seq<Domain>, limiters: map<Domain, Option<Time>>)

  datatype Event =
    | Looked(d: Domain, at: Time)        // Ready, Delay or Reserve: spends nothing
    | Claimed(d: Domain, at: Time)
    | Denied(d: Domain, at: Time)

  /** d moves to the front; when it is new and the list is full, the last makes room. */
  function TouchedList(lru: seq<Domain>, d: Domain, maxSize: nat): seq<Domain>
    requires maxSize > 0
  {
    if d in lru then [d] + Without(lru, d)
    else [d] + if |lru| >= maxSize then lru[..maxSize - 1] else lru
  }

  function Restrict(m: map<Domain, Option<Time>>, keep: seq<Domain>): map<Domain, Option<Time>> {
    map d | d in m && d in keep :: m[d]
  }

  function Touched(s: Slots, d: Domain, maxSize: nat): Slots
    requires maxSize > 0
  {
    var lru := TouchedList(s.lru, d, maxSize);
    Slots(lru, if d in s.lru then s.limiters else Restrict(s.limiters, lru)[d := None])
  }

  function LimiterWait(last: Option<Time>, now: Time, delay: nat): nat {
    if last.Some? && now < last.value + delay then last.value + delay - now else 0
  }

  /** How long until d has its token back, as a limiter made afresh would say when there is none. */
  function Wait(s: Slots, d: Domain, now: Time, delay: nat): nat {
    LimiterWait(if d in s.limiters then s.limiters[d] else None, now, delay)
  }

  function After(s: Slots, e: Event, maxSize: nat): Slots
    requires maxSize > 0
  {
    var s1 := Touched(s, e.d, maxSize);
    if e.Claimed? then s1.(limiters := s1.limiters[e.d := Some(e.at)]) else s1
  }

  function Replay(h: seq<Event>, maxSize: nat): Slots
    requires maxSize > 0
  {
    if h == [] then Slots([], map[]) else After(Replay(h[..|h| - 1], maxSize), h[|h| - 1], maxSize)
  }

  /** Calls in order of time, each claim granted exactly when the token was there. */
  ghost predicate Lawful(h: seq<Event>, maxSize: nat, delay: nat)
    requires maxSize > 0
  {
    && (forall i, j | 0 <= i < j < |h| :: h[i].at <= h[j].at)
    && (forall i | 0 <= i < |h| && h[i].Claimed? :: Wait(Replay(h[..i], maxSize), h[i].d, h[i].at, delay) == 0)
    && (forall i | 0 <= i < |h| && h[i].Denied? :: Wait(Replay(h[..i], maxSize), h[i].d, h[i].at, delay) > 0)
  }

  // ---- The list is the recency order of the history ----

  /** The different domains of h, the most recently touched first. */
  function Recent(h: seq<Event>): seq<Domain> {
    if h == [] then [] else [h[|h| - 1].d] + Without(Recent(h[..|h| - 1]), h[|h| - 1].d)
  }

  lemma {:induction false} RecentDistinct(h: seq<Event>)
    ensures Distinct(Recent(h)) && forall d :: d in Recent(h) <==> exists i :: 0 <= i < |h| && h[i].d == d
  {
    if h != [] {
      var before, d := h[..|h| - 1], h[|h| - 1].d;
      RecentDistinct(before);
      WithoutHas(Recent(before), d);
      DistinctCons(d, Without(Recent(before), d));
      forall x
        ensures x in Recent(h) <==> exists i :: 0 <= i < |h| && h[i].d == x
      {
        assert x in Recent(h) <==> x == d || x in Recent(before);
        if x == d {
          assert h[|h| - 1].d == x;
        } else if x in Recent(before) {
          var i :| 0 <= i < |before| && before[i].d == x;
          assert h[i].d == x;
        } else {
          assert forall i | 0 <= i < |h| - 1 :: before[i] == h[i];
        }
      }
    }
  }

  lemma {:induction false} WithoutPrefix(s: seq<Domain>, d: Domain, n: nat)
    requires Distinct(s) && n <= |s|
    ensures d in s[..n] ==> n > 0 && |Without(s, d)| >= n - 1 && Without(s[..n], d) == Without(s, d)[..n - 1]
    ensures d !in s[..n] ==> |Without(s, d)| >= n - (if d in s && n == |s| then 1 else 0) && (n <= |Without(s, d)| ==> Without(s, d)[..n] == s[..n])
    ensures d !in s ==> Without(s, d) == s
  {
    WithoutHas(s, d);
    if n > 0 {
      assert s[..n] == [s[0]] + s[1..][..n - 1];
      if s[0] != d {
        WithoutPrefix(s[1..], d, n - 1);
        assert Without(s, d) == [s[0]] + Without(s[1..], d);
      } else {
        assert Without(s, d) == s[1..];
        assert s[..n][1..] == s[1..][..n - 1];
      }
    } else if s != [] {
      if s[0] != d {
        WithoutPrefix(s[1..], d, 0);
      }
    }
  }

  /** The limiters kept are those of the most recently touched domains, as many as there is room
      for, and nothing else decides. */
  lemma {:induction false} ListIsRecent(h: seq<Event>, maxSize: nat)
    requires maxSize > 0
    ensures Replay(h, maxSize).lru == if |Recent(h)| <= maxSize then Recent(h) else Recent(h)[..maxSize]
    decreases |h|
  {
    if h != [] {
      var before, d := h[..|h| - 1], h[|h| - 1].d;
      ListIsRecent(before, maxSize);
      RecentDistinct(before);
      var recent, lru := Recent(before), Replay(before, maxSize).lru;
      var n := if |recent| <= maxSize then |recent| else maxSize;
      assert lru == recent[..n];
      WithoutPrefix(recent, d, n);
      WithoutPrefix(recent, d, |recent|);
      WithoutHas(recent, d);
      ListStep(recent, d, maxSize, n);
    }
  }

  lemma ListStep(recent: seq<Domain>, d: Domain, maxSize: nat, n: nat)
    requires maxSize > 0 && Distinct(recent) && n == if |recent| <= maxSize then |recent| else maxSize
    ensures var all := [d] + Without(recent, d);
            TouchedList(recent[..n], d, maxSize) == if |all| <= maxSize then all else all[..maxSize]
  {
    hide Distinct, Without;
    var all := [d] + Without(recent, d);
    WithoutHas(recent, d);
    WithoutPrefix(recent, d, n);
    if d in recent[..n] {
      assert all[..n] == [d] + Without(recent, d)[..n - 1];
    } else if n == maxSize {
      WithoutPrefix(recent, d, maxSize - 1);
      assert recent[..n][..maxSize - 1] == recent[..maxSize - 1];
      assert d !in recent[..maxSize - 1];
      assert all[..maxSize] == [d] + Without(recent, d)[..maxSize - 1];
    } else {
      assert recent[..n] == recent;
    }
  }

  // ---- Politeness ----

  /** What comes before d in s. */
  function Ahead(s: seq<Domain>, d: Domain): set<Domain> {
    if s == [] || s[0] == d then {} else {s[0]} + Ahead(s[1..], d)
  }

  lemma {:induction false} AheadWithout(s: seq<Domain>, d: Domain, x: Domain)
    requires x != d
    ensures Ahead(Without(s, x), d) <= Ahead(s, d)
  {
    if s != [] && s[0] != x {
      AheadWithout(s[1..], d, x);
      assert ([s[0]] + Without(s[1..], x))[1..] == Without(s[1..], x);
    }
  }

  lemma {:induction false} AheadInside(s: seq<Domain>, d: Domain)
    ensures forall x | x in Ahead(s, d) :: x in s
  {
    if s != [] && s[0] != d {
      AheadInside(s[1..], d);
    }
  }

  lemma AheadTail(s: seq<Domain>, d: Domain)
    requires Distinct(s) && s != [] && s[0] != d
    ensures Distinct(s[1..]) && (d in s <==> d in s[1..]) && |Ahead(s, d)| == |Ahead(s[1..], d)| + 1
  {
    AheadInside(s[1..], d);
    assert s[0] !in s[1..];
  }

  /** d is among the first n exactly when fewer than n others are ahead of it. */
  lemma {:induction false} AheadCounts(s: seq<Domain>, d: Domain, n: nat)
    requires Distinct(s) && d in s && n <= |s|
    ensures d in s[..n] <==> |Ahead(s, d)| < n
  {
    hide Distinct;
    if n > 0 && s[0] != d {
      AheadTail(s, d);
      hide Ahead;
      AheadCounts(s[1..], d, n - 1);
      assert s[..n] == [s[0]] + s[1..][..n - 1];
    } else if n > 0 {
      assert s[..n][0] == d;
    }
  }

  /** The domains other than d touched after i and before k. */
  ghost function Others(h: seq<Event>, i: nat, k: nat, d: Domain): set<Domain>
    requires i < k <= |h|
  {
    set n | i < n < k && h[n].d != d :: h[n].d
  }

  /** Since d was touched at i, only domains touched after i have come ahead of it. */
  lemma {:induction false} AheadIsOthers(h: seq<Event>, i: nat, k: nat, d: Domain)
    requires i < k <= |h| && h[i].d == d
    ensures d in Recent(h[..k]) && Ahead(Recent(h[..k]), d) <= Others(h, i, k, d)
    decreases k
  {
    var last := h[k - 1];
    assert h[..k][..k - 1] == h[..k - 1] && h[..k][k - 1] == last;
    if last.d != d {
      assert i < k - 1;
      AheadIsOthers(h, i, k - 1, d);
      var before := Recent(h[..k - 1]);
      RecentDistinct(h[..k - 1]);
      WithoutHas(before, last.d);
      AheadWithout(before, d, last.d);
      assert Recent(h[..k])[1..] == Without(before, last.d);
      assert Ahead(Recent(h[..k]), d) == {last.d} + Ahead(Without(before, last.d), d);
      assert Others(h, i, k - 1, d) <= Others(h, i, k, d);
    }
  }

  /** The limiters after the first k calls. */
  function Upto(h: seq<Event>, k: nat, maxSize: nat): Slots
    requires maxSize > 0 && k <= |h|
  {
    Replay(h[..k], maxSize)
  }

  /** A limiter is discarded only after maxSize other domains were touched since its own touch. */
  lemma KeptWhileFewOthers(h: seq<Event>, i: nat, k: nat, d: Domain, maxSize: nat)
    requires maxSize > 0 && i < k <= |h| && h[i].d == d && |Others(h, i, k, d)| < maxSize
    ensures d in Upto(h, k, maxSize).lru
  {
    AheadIsOthers(h, i, k, d);
    SubsetIsSmaller(Ahead(Recent(h[..k]), d), Others(h, i, k, d));
    RecentDistinct(h[..k]);
    ListIsRecent(h[..k], maxSize);
    if |Recent(h[..k])| > maxSize {
      AheadCounts(Recent(h[..k]), d, maxSize);
    }
  }

  /** d's limiter is there and remembers a claim no older than `since`. */
  predicate Remembers(s: Slots, d: Domain, since: Time) {
    d in s.lru && d in s.limiters && s.limiters[d].Some? && s.limiters[d].value >= since
  }

  lemma StepRemembers(s: Slots, e: Event, d: Domain, since: Time, maxSize: nat)
    requires maxSize > 0 && Remembers(s, d, since) && e.at >= since && d in After(s, e, maxSize).lru
    ensures Remembers(After(s, e, maxSize), d, since)
  {
    hide TouchedList;
  }

  lemma StepClaims(s: Slots, e: Event, maxSize: nat)
    requires maxSize > 0 && e.Claimed?
    ensures Remembers(After(s, e, maxSize), e.d, e.at)
  {
  }

  lemma OthersGrow(h: seq<Event>, i: nat, k: nat, d: Domain)
    requires i < k < |h|
    ensures |Others(h, i, k, d)| <= |Others(h, i, k + 1, d)|
  {
    SubsetIsSmaller(Others(h, i, k, d), Others(h, i, k + 1, d));
  }

  lemma ReplayStep(h: seq<Event>, k: nat, maxSize: nat)
    requires maxSize > 0 && k < |h|
    ensures Upto(h, k + 1, maxSize) == After(Upto(h, k, maxSize), h[k], maxSize)
  {
    assert h[..k + 1][..k] == h[..k];
  }

  lemma ClaimWaited(h: seq<Event>, j: nat, maxSize: nat, delay: nat)
    requires maxSize > 0 && Lawful(h, maxSize, delay) && j < |h| && h[j].Claimed?
    ensures Wait(Upto(h, j, maxSize), h[j].d, h[j].at, delay) == 0
  {
  }

  lemma InOrder(h: seq<Event>, i: nat, j: nat, maxSize: nat, delay: nat)
    requires maxSize > 0 && Lawful(h, maxSize, delay) && i <= j < |h|
    ensures h[i].at <= h[j].at
  {
  }

  /** Until then, a claim is remembered. */
  lemma {:induction false} ClaimRemembered(h: seq<Event>, i: nat, k: nat, maxSize: nat, delay: nat)
    requires maxSize > 0 && Lawful(h, maxSize, delay) && i < k <= |h| && h[i].Claimed?
    requires |Others(h, i, k, h[i].d)| < maxSize
    ensures Remembers(Upto(h, k, maxSize), h[i].d, h[i].at)
    decreases k
  {
    hide Upto, After, Lawful, Others, Remembers;
    InOrder(h, i, k - 1, maxSize, delay);
    ReplayStep(h, k - 1, maxSize);
    if i < k - 1 {
      KeptWhileFewOthers(h, i, k, h[i].d, maxSize);
      OthersGrow(h, i, k - 1, h[i].d);
      ClaimRemembered(h, i, k - 1, maxSize, delay);
      StepRemembers(Upto(h, k - 1, maxSize), h[k - 1], h[i].d, h[i].at, maxSize);
    } else {
      StepClaims(Upto(h, i, maxSize), h[i], maxSize);
    }
  }

  /** Two claims on one domain that are closer than the delay have at least maxSize other domains
      touched between them. */
  lemma Politeness(h: seq<Event>, i: nat, j: nat, maxSize: nat, delay: nat)
    requires maxSize > 0 && Lawful(h, maxSize, delay)
    requires i < j < |h| && h[i].Claimed? && h[j].Claimed? && h[i].d == h[j].d
    requires h[j].at - h[i].at < delay
    ensures |Others(h, i, j, h[i].d)| >= maxSize
  {
    hide Lawful, Others;
    ClaimWaited(h, j, maxSize, delay);
    if |Others(h, i, j, h[i].d)| < maxSize {
      ClaimRemembered(h, i, j, maxSize, delay);
    }
  }

  // ---- What a domain waits for, from the history alone ----

  lemma {:induction false} AheadWithoutExactly(s: seq<Domain>, d: Domain, x: Domain)
    requires Distinct(s) && x != d && d in s
    ensures Ahead(s, d) - {x} <= Ahead(Without(s, x), d)
  {
    hide Distinct;
    if s[0] != d {
      AheadTail(s, d);
      if s[0] != x {
        AheadWithoutExactly(s[1..], d, x);
        assert ([s[0]] + Without(s[1..], x))[1..] == Without(s[1..], x);
      }
    }
  }

  lemma AheadCons(x: Domain, s: seq<Domain>, d: Domain)
    requires x != d
    ensures Ahead([x] + s, d) == {x} + Ahead(s, d)
  {
    assert ([x] + s)[1..] == s;
  }

  lemma RecentNext(h: seq<Event>, k: nat)
    requires 0 < k <= |h|
    ensures Recent(h[..k]) == [h[k - 1].d] + Without(Recent(h[..k - 1]), h[k - 1].d)
  {
    assert h[..k][..k - 1] == h[..k - 1];
  }

  lemma OthersNext(h: seq<Event>, i: nat, k: nat, d: Domain)
    requires i < k - 1 < |h| && h[k - 1].d != d
    ensures Others(h, i, k, d) == Others(h, i, k - 1, d) + {h[k - 1].d}
  {
    forall x | x in Others(h, i, k, d)
      ensures x in Others(h, i, k - 1, d) + {h[k - 1].d}
    {
      var n :| i < n < k && h[n].d != d && h[n].d == x;
      assert n < k - 1 || n == k - 1;
    }
  }

  lemma NoOthers(h: seq<Event>, i: nat, d: Domain)
    requires i < |h|
    ensures Others(h, i, i + 1, d) == {}
  {
  }

  /** When d was last touched at i, exactly the domains touched since are ahead of it. */
  lemma {:induction false} AheadIsExactlyOthers(h: seq<Event>, i: nat, k: nat, d: Domain)
    requires i < k <= |h| && h[i].d == d && forall n | i < n < k :: h[n].d != d
    ensures Others(h, i, k, d) <= Ahead(Recent(h[..k]), d)
    decreases k
  {
    hide Others, Ahead, Recent, Without;
    if i == k - 1 {
      NoOthers(h, i, d);
    } else {
      var before, x := Recent(h[..k - 1]), h[k - 1].d;
      AheadIsExactlyOthers(h, i, k - 1, d);
      AheadIsOthers(h, i, k - 1, d);
      RecentDistinct(h[..k - 1]);
      AheadWithoutExactly(before, d, x);
      RecentNext(h, k);
      AheadCons(x, Without(before, x), d);
      OthersNext(h, i, k, d);
    }
  }

  /** Fewer than maxSize other domains were touched since d was, after the first k calls. */
  ghost predicate TouchedLately(h: seq<Event>, k: nat, d: Domain, maxSize: nat)
    requires k <= |h|
  {
    exists j :: 0 <= j < k && h[j].d == d && |Others(h, j, k, d)| < maxSize
  }

  lemma {:induction false} LastTouch(h: seq<Event>, k: nat, d: Domain) returns (j: nat)
    requires k <= |h| && exists i :: 0 <= i < k && h[i].d == d
    ensures j < k && h[j].d == d && forall n | j < n < k :: h[n].d != d
  {
    if h[k - 1].d == d {
      j := k - 1;
    } else {
      j := LastTouch(h, k - 1, d);
    }
  }

  /** d has its limiter exactly when it was touched lately. */
  lemma KeptExactly(h: seq<Event>, k: nat, d: Domain, maxSize: nat)
    requires maxSize > 0 && k <= |h|
    ensures d in Upto(h, k, maxSize).lru <==> TouchedLately(h, k, d, maxSize)
  {
    hide Others, Ahead, Recent;
    if TouchedLately(h, k, d, maxSize) {
      var j :| 0 <= j < k && h[j].d == d && |Others(h, j, k, d)| < maxSize;
      KeptWhileFewOthers(h, j, k, d, maxSize);
    }
    var lru, recent := Upto(h, k, maxSize).lru, Recent(h[..k]);
    ListIsRecent(h[..k], maxSize);
    RecentDistinct(h[..k]);
    if d in lru {
      assert d in recent;
      var i :| 0 <= i < |h[..k]| && h[..k][i].d == d;
      assert h[i].d == d;
      var j := LastTouch(h, k, d);
      AheadIsExactlyOthers(h, j, k, d);
      SubsetIsSmaller(Others(h, j, k, d), Ahead(recent, d));
      AheadCounts(recent, d, |lru|);
      assert lru == recent[..|lru|];
    }
  }

  /** The last claim on d among the first k calls, at time t, with d's limiter never discarded since. */
  ghost predicate Remembered(h: seq<Event>, i: int, k: nat, d: Domain, t: Time, maxSize: nat)
    requires k <= |h|
  {
    && 0 <= i < k && h[i] == Claimed(d, t)
    && (forall n | i < n < k && h[n].d == d :: !h[n].Claimed?)
    && (forall n | i < n <= k :: TouchedLately(h, n, d, maxSize))
  }

  ghost predicate SomeRemembered(h: seq<Event>, k: nat, d: Domain, t: Time, maxSize: nat)
    requires k <= |h|
  {
    exists i :: Remembered(h, i, k, d, t, maxSize)
  }

  /** What a limiter remembers after one more call. */
  lemma RememberedStep(h: seq<Event>, k: nat, d: Domain, t: Time, maxSize: nat, i: int)
    requires maxSize > 0 && k < |h|
    ensures Remembered(h, i, k + 1, d, t, maxSize)
            <==> if h[k].Claimed? && h[k].d == d then i == k && t == h[k].at
                 else Remembered(h, i, k, d, t, maxSize) && TouchedLately(h, k + 1, d, maxSize)
  {
    hide TouchedLately;
    if h[k].Claimed? && h[k].d == d {
      JustTouched(h, k, maxSize);
    }
  }

  lemma JustTouched(h: seq<Event>, k: nat, maxSize: nat)
    requires maxSize > 0 && k < |h|
    ensures TouchedLately(h, k + 1, h[k].d, maxSize)
  {
    assert Others(h, k, k + 1, h[k].d) == {};
  }

  /** The limiter of d after one more call. */
  lemma LimiterStep(s: Slots, e: Event, d: Domain, maxSize: nat)
    requires maxSize > 0 && Listed(s.lru, s.limiters, maxSize)
    ensures var s1 := After(s, e, maxSize);
            && Listed(s1.lru, s1.limiters, maxSize)
            && (e.Claimed? && e.d == d ==> d in s1.limiters && s1.limiters[d] == Some(e.at))
            && (!(e.Claimed? && e.d == d) && d in s1.limiters ==>
                  s1.limiters[d] == if d in s.limiters then s.limiters[d] else None)
            && (d in s1.limiters && d !in s.limiters ==> e.d == d)
  {
    hide Listed, Restrict, Without;
    ListedTouched(s.lru, s.limiters, e.d, maxSize);
    RestrictKeys(s.limiters, TouchedList(s.lru, e.d, maxSize));
    var s1 := Touched(s, e.d, maxSize);
    ListedAgain(s1.lru, s1.limiters, e.d, Some(e.at), maxSize);
    ListedKey(s.lru, s.limiters, e.d, maxSize);
    LookedUp(s, s1, e.d, d, maxSize);
  }

  lemma ListedAgain(lru: seq<Domain>, slots: map<Domain, Option<Time>>, d: Domain, last: Option<Time>, maxSize: nat)
    requires Listed(lru, slots, maxSize) && d in slots
    ensures Listed(lru, slots[d := last], maxSize)
  {
  }

  lemma ListedKey(lru: seq<Domain>, slots: map<Domain, Option<Time>>, d: Domain, maxSize: nat)
    requires Listed(lru, slots, maxSize)
    ensures d in lru <==> d in slots
  {
  }

  lemma LookedUp(s: Slots, s1: Slots, x: Domain, d: Domain, maxSize: nat)
    requires maxSize > 0 && s1 == Touched(s, x, maxSize) && (x in s.lru <==> x in s.limiters)
    ensures d in s1.limiters ==> (s1.limiters[d] == if d in s.limiters then s.limiters[d] else None)
  {
  }

  /** d's limiter remembers a claim exactly when it was the last on d and the limiter was kept. */
  lemma {:induction false} LimiterRemembers(h: seq<Event>, k: nat, d: Domain, maxSize: nat)
    requires maxSize > 0 && k <= |h|
    ensures var s := Upto(h, k, maxSize);
            && Listed(s.lru, s.limiters, maxSize)
            && forall t :: d in s.limiters && s.limiters[d] == Some(t) <==> SomeRemembered(h, k, d, t, maxSize)
    decreases k
  {
    hide Upto, After, TouchedLately, SomeRemembered;
    if k == 0 {
      NothingRemembered(h, d, maxSize);
    } else {
      LimiterRemembers(h, k - 1, d, maxSize);
      ReplayStep(h, k - 1, maxSize);
      var s, s1 := Upto(h, k - 1, maxSize), Upto(h, k, maxSize);
      LimiterStep(s, h[k - 1], d, maxSize);
      KeptExactly(h, k, d, maxSize);
      KeptExactly(h, k - 1, d, maxSize);
      forall t
        ensures d in s1.limiters && s1.limiters[d] == Some(t) <==> SomeRemembered(h, k, d, t, maxSize)
      {
        RememberedNext(h, k - 1, k, d, t, maxSize);
        assert SomeRemembered(h, k - 1, d, t, maxSize) <==> d in s.limiters && s.limiters[d] == Some(t);
        assert d in s1.lru <==> d in s1.limiters;
      }
    }
  }

  lemma RememberedNext(h: seq<Event>, k: nat, k1: nat, d: Domain, t: Time, maxSize: nat)
    requires maxSize > 0 && k < |h| && k1 == k + 1
    ensures SomeRemembered(h, k1, d, t, maxSize)
            <==> if h[k].Claimed? && h[k].d == d then t == h[k].at
                 else SomeRemembered(h, k, d, t, maxSize) && TouchedLately(h, k1, d, maxSize)
  {
    hide TouchedLately, Remembered;
    if i :| Remembered(h, i, k1, d, t, maxSize) {
      RememberedStep(h, k, d, t, maxSize, i);
    }
    if i :| Remembered(h, i, k, d, t, maxSize) {
      RememberedStep(h, k, d, t, maxSize, i);
    }
    RememberedStep(h, k, d, t, maxSize, k);
  }

  lemma NothingRemembered(h: seq<Event>, d: Domain, maxSize: nat)
    requires maxSize > 0
    ensures Upto(h, 0, maxSize) == Slots([], map[]) && forall t :: !SomeRemembered(h, 0, d, t, maxSize)
  {
  }

  /** A claim on d that is younger than the delay, the last on d, with d's limiter kept since. */
  ghost predicate Binding(h: seq<Event>, i: int, d: Domain, now: Time, maxSize: nat, delay: nat) {
    0 <= i < |h| && now < h[i].at + delay && Remembered(h, i, |h|, d, h[i].at, maxSize)
  }

  /** How long d waits, told from the calls alone: what is left of the delay since the claim that
      binds it, and nothing when none does. */
  lemma WaitTells(h: seq<Event>, d: Domain, now: Time, maxSize: nat, delay: nat)
    requires maxSize > 0
    ensures forall i | Binding(h, i, d, now, maxSize, delay) :: Wait(Replay(h, maxSize), d, now, delay) == h[i].at + delay - now
    ensures (forall i :: !Binding(h, i, d, now, maxSize, delay)) ==> Wait(Replay(h, maxSize), d, now, delay) == 0
  {
    hide TouchedLately, Listed;
    LimiterRemembers(h, |h|, d, maxSize);
    assert h[..|h|] == h;
    var s := Replay(h, maxSize);
    forall i | Binding(h, i, d, now, maxSize, delay)
      ensures Wait(s, d, now, delay) == h[i].at + delay - now
    {
      assert SomeRemembered(h, |h|, d, h[i].at, maxSize);
    }
    if d in s.limiters && s.limiters[d].Some? {
      assert SomeRemembered(h, |h|, d, s.limiters[d].value, maxSize);
      var i :| Remembered(h, i, |h|, d, s.limiters[d].value, maxSize);
      assert h[i].at == s.limiters[d].value;
    }
  }

  lemma BindingWaits(h: seq<Event>, d: Domain, now: Time, maxSize: nat, delay: nat)
    requires maxSize > 0
    ensures Wait(Replay(h, maxSize), d, now, delay) == 0 <==> forall i :: !Binding(h, i, d, now, maxSize, delay)
  {
    hide Wait, Remembered, Replay;
    WaitTells(h, d, now, maxSize, delay);
    if i :| Binding(h, i, d, now, maxSize, delay) {
      assert Wait(Replay(h, maxSize), d, now, delay) == h[i].at + delay - now;
    }
  }

  /** When every claim on d is older than the delay, d need not wait; and when it must, one is not. */
  lemma OldClaimsBindNot(h: seq<Event>, d: Domain, now: Time, maxSize: nat, delay: nat)
    requires maxSize > 0
    ensures (forall i | 0 <= i < |h| && h[i].Claimed? && h[i].d == d :: h[i].at + delay <= now) ==> Wait(Replay(h, maxSize), d, now, delay) == 0
    ensures Wait(Replay(h, maxSize), d, now, delay) > 0 ==>
              exists i :: 0 <= i < |h| && h[i].Claimed? && h[i].d == d && now < h[i].at + delay
  {
    hide Wait, Replay, TouchedLately;
    BindingWaits(h, d, now, maxSize, delay);
  }

  // ---- The throttler ----

  class Throttler {
    var lru: seq<Domain>
    var slots: map<Domain, Option<Time>>
    const delay: nat                     // 0: no throttling
    const maxSize: nat
    ghost var history: seq<Event>

    ghost predicate Valid()
      reads this
    {
      && maxSize > 0
      && Slots(lru, slots) == Replay(history, maxSize)
      && Lawful(history, maxSize, delay)
      && Listed(lru, slots, maxSize)
    }

    constructor (delay: int, maxSlots: int)
      ensures Valid() && history == []
      ensures this.delay == (if delay > 0 then delay else 0) && maxSize == (if maxSlots <= 0 then 10_000 else maxSlots)
    {
      lru, slots, history := [], map[], [];
      this.delay := if delay > 0 then delay else 0;
      maxSize := if maxSlots <= 0 then 10_000 else maxSlots;
    }

    /** The limiter of d, made afresh if there is none, at the cost of the least recently used. */
    method LimiterFor(d: Domain) returns (last: Option<Time>)
      requires maxSize > 0 && Listed(lru, slots, maxSize)
      modifies this`lru, this`slots
      ensures Slots(lru, slots) == Touched(Slots(old(lru), old(slots)), d, maxSize)
      ensures Listed(lru, slots, maxSize) && d in slots && last == slots[d]
    {
      hide Listed, Touched, Restrict, Drop, Without;
      ListedTouched(lru, slots, d, maxSize);
      if d in slots {
        lru := [d] + Without(lru, d);
        return slots[d];
      }
      ghost var before, all := lru, slots;
      while |lru| >= maxSize
        invariant Listed(lru, slots, maxSize) && Listed(before, all, maxSize) && d !in all && |lru| <= |before|
        invariant lru == before[..|lru|] && slots == Restrict(all, lru)
        invariant |before| >= maxSize ==> |lru| >= maxSize - 1
        invariant |before| < maxSize ==> lru == before
      {
        var oldest := lru[|lru| - 1];
        ListedDrop(lru, slots, all, maxSize);
        PrefixShorter(before, lru);
        lru := lru[..|lru| - 1];
        slots := Drop(slots, oldest);
      }
      MadeRoom(before, all, lru, slots, d, maxSize);
      lru := [d] + lru;
      slots := slots[d := None];
      return None;
    }

    /** Whether d may be requested now; if so its token is spent. */
    method Allow(d: Domain, now: Time) returns (ok: bool)
      requires Valid() && (history != [] ==> history[|history| - 1].at <= now)
      modifies this
      ensures Valid()
      ensures delay == 0 ==> ok && history == old(history)
      ensures delay > 0 ==> history == old(history) + [if ok then Claimed(d, now) else Denied(d, now)]
      ensures delay > 0 ==> ok == (old(Wait(Slots(lru, slots), d, now, delay)) == 0)
      ensures delay > 0 ==> (ok <==> forall i :: !Binding(old(history), i, d, now, maxSize, delay))
    {
      hide Listed, Touched, Lawful, Replay, LimiterWait, Wait, Binding;
      if delay == 0 {
        return true;
      }
      BindingWaits(history, d, now, maxSize, delay);
      AllowIs(lru, slots, history, d, now, maxSize, delay);
      var last := LimiterFor(d);
      ok := LimiterWait(last, now, delay) == 0;
      if ok {
        slots := slots[d := Some(now)];
      }
      history := history + [if ok then Claimed(d, now) else Denied(d, now)];
    }

    /** How long a request to d must wait. Spends nothing, but counts as a touch. */
    method Reserve(d: Domain, now: Time) returns (wait: nat)
      requires Valid() && (history != [] ==> history[|history| - 1].at <= now)
      modifies this
      ensures Valid()
      ensures delay == 0 ==> wait == 0 && history == old(history)
      ensures delay > 0 ==> history == old(history) + [Looked(d, now)]
      ensures delay > 0 ==> wait == old(Wait(Slots(lru, slots), d, now, delay)) == Wait(Slots(lru, slots), d, now, delay)
      ensures delay > 0 ==> forall i | Binding(old(history), i, d, now, maxSize, delay) :: wait == old(history)[i].at + delay - now
      ensures delay > 0 && (forall i :: !Binding(old(history), i, d, now, maxSize, delay)) ==> wait == 0
    {
      hide Binding, Wait, LimiterWait, Replay, Lawful, Listed, Touched;
      if delay == 0 {
        return 0;
      }
      WaitTells(history, d, now, maxSize, delay);
      WaitTouched(lru, slots, d, now, delay, maxSize);
      var last := LimiterFor(d);
      WaitIs(Slots(lru, slots), d, now, delay);
      wait := LimiterWait(last, now, delay);
      LawfulSnoc(history, Looked(d, now), maxSize, delay);
      history := history + [Looked(d, now)];
    }
  }

  /** The map has an entry for just the domains listed. */
  ghost predicate Listed(lru: seq<Domain>, slots: map<Domain, Option<Time>>, maxSize: nat) {
    Distinct(lru) && |lru| <= maxSize && forall d :: d in lru <==> d in slots
  }

  lemma RestrictKeys(m: map<Domain, Option<Time>>, keep: seq<Domain>)
    ensures forall d :: d in Restrict(m, keep) <==> d in m && d in keep
  {
  }

  lemma RestrictSame(m: map<Domain, Option<Time>>, keep: seq<Domain>)
    requires forall d :: d in keep <==> d in m
    ensures Restrict(m, keep) == m
  {
  }

  lemma ListedTouched(lru: seq<Domain>, slots: map<Domain, Option<Time>>, d: Domain, maxSize: nat)
    requires maxSize > 0 && Listed(lru, slots, maxSize)
    ensures var s := Touched(Slots(lru, slots), d, maxSize); Listed(s.lru, s.limiters, maxSize) && d in s.limiters
    ensures Restrict(slots, lru) == slots && lru[..|lru|] == lru && |lru| <= maxSize
    ensures d in slots ==> Touched(Slots(lru, slots), d, maxSize) == Slots([d] + Without(lru, d), slots)
  {
    hide Restrict;
    WithoutHas(lru, d);
    RestrictKeys(slots, TouchedList(lru, d, maxSize));
    RestrictSame(slots, lru);
    if d in lru {
      DistinctCons(d, Without(lru, d));
    } else {
      DistinctCons(d, if |lru| >= maxSize then lru[..maxSize - 1] else lru);
    }
  }

  lemma ListedDrop(lru: seq<Domain>, slots: map<Domain, Option<Time>>, all: map<Domain, Option<Time>>, maxSize: nat)
    requires Listed(lru, slots, maxSize) && lru != [] && slots == Restrict(all, lru)
    ensures var l1, oldest := lru[..|lru| - 1], lru[|lru| - 1];
            Listed(l1, Drop(slots, oldest), maxSize) && Drop(slots, oldest) == Restrict(all, l1) && oldest in slots
  {
    var l1, oldest := lru[..|lru| - 1], lru[|lru| - 1];
    assert forall x :: x in lru <==> x in l1 || x == oldest;
  }

  lemma PrefixShorter(all: seq<Domain>, s: seq<Domain>)
    requires 0 < |s| <= |all| && s == all[..|s|]
    ensures s[..|s| - 1] == all[..|s| - 1]
  {
  }

  lemma MadeRoom(before: seq<Domain>, all: map<Domain, Option<Time>>, lru: seq<Domain>, slots: map<Domain, Option<Time>>, d: Domain, maxSize: nat)
    requires maxSize > 0 && Listed(before, all, maxSize) && d !in all && |lru| <= |before|
    requires lru == before[..|lru|] && slots == Restrict(all, lru)
    requires |lru| == if |before| >= maxSize then maxSize - 1 else |before|
    ensures Slots([d] + lru, slots[d := None]) == Touched(Slots(before, all), d, maxSize)
  {
    assert d !in before;
    assert [d] + lru == TouchedList(before, d, maxSize);
    assert Restrict(all, [d] + lru) == slots;
  }

  /** A touch by itself does not change how long anybody waits for d. */
  lemma WaitTouched(lru: seq<Domain>, slots: map<Domain, Option<Time>>, d: Domain, now: Time, delay: nat, maxSize: nat)
    requires maxSize > 0 && Listed(lru, slots, maxSize)
    ensures Wait(Touched(Slots(lru, slots), d, maxSize), d, now, delay) == Wait(Slots(lru, slots), d, now, delay)
  {
  }

  lemma LawfulSnoc(h: seq<Event>, e: Event, maxSize: nat, delay: nat)
    requires maxSize > 0 && Lawful(h, maxSize, delay) && (h != [] ==> h[|h| - 1].at <= e.at)
    requires e.Claimed? ==> Wait(Replay(h, maxSize), e.d, e.at, delay) == 0
    requires e.Denied? ==> Wait(Replay(h, maxSize), e.d, e.at, delay) > 0
    ensures Lawful(h + [e], maxSize, delay) && Replay(h + [e], maxSize) == After(Replay(h, maxSize), e, maxSize)
  {
    hide Wait, After;
    var h1 := h + [e];
    assert h1[..|h|] == h;
    forall i | 0 <= i < |h1|
      ensures h1[i].Claimed? ==> Wait(Replay(h1[..i], maxSize), h1[i].d, h1[i].at, delay) == 0
      ensures h1[i].Denied? ==> Wait(Replay(h1[..i], maxSize), h1[i].d, h1[i].at, delay) > 0
    {
      assert h1[..i] == if i < |h| then h[..i] else h;
    }
    forall i, j | 0 <= i < j < |h1|
      ensures h1[i].at <= h1[j].at
    {
      assert h != [] && h[i].at <= h[|h| - 1].at;
    }
  }

  lemma WaitIs(s: Slots, d: Domain, now: Time, delay: nat)
    requires d in s.limiters
    ensures Wait(s, d, now, delay) == LimiterWait(s.limiters[d], now, delay)
  {
  }

  lemma ListedSet(lru: seq<Domain>, slots: map<Domain, Option<Time>>, maxSize: nat, d: Domain, last: Option<Time>)
    requires Listed(lru, slots, maxSize) && d in slots
    ensures Listed(lru, slots[d := last], maxSize)
  {
  }

  /** What Allow comes to, on values. */
  lemma AllowIs(lru: seq<Domain>, slots: map<Domain, Option<Time>>, h: seq<Event>, d: Domain, now: Time, maxSize: nat, delay: nat)
    requires maxSize > 0 && Lawful(h, maxSize, delay) && (h != [] ==> h[|h| - 1].at <= now)
    requires Listed(lru, slots, maxSize) && Slots(lru, slots) == Replay(h, maxSize)
    ensures var s := Touched(Slots(lru, slots), d, maxSize);
            && Listed(s.lru, s.limiters, maxSize) && d in s.limiters
            && LimiterWait(s.limiters[d], now, delay) == Wait(Slots(lru, slots), d, now, delay)
            && if LimiterWait(s.limiters[d], now, delay) == 0
               then
                 && Lawful(h + [Claimed(d, now)], maxSize, delay)
                 && Replay(h + [Claimed(d, now)], maxSize) == s.(limiters := s.limiters[d := Some(now)])
                 && Listed(s.lru, s.limiters[d := Some(now)], maxSize)
               else Lawful(h + [Denied(d, now)], maxSize, delay) && Replay(h + [Denied(d, now)], maxSize) == s
  {
    hide Lawful, Replay, Touched, LimiterWait, Listed, Wait;
    var s := Touched(Slots(lru, slots), d, maxSize);
    ListedTouched(lru, slots, d, maxSize);
    ListedSet(s.lru, s.limiters, maxSize, d, Some(now));
    WaitTouched(lru, slots, d, now, delay, maxSize);
    WaitIs(s, d, now, delay);
    var e := if Wait(Slots(lru, slots), d, now, delay) == 0 then Claimed(d, now) else Denied(d, now);
    LawfulSnoc(h, e, maxSize, delay);
  }
}
