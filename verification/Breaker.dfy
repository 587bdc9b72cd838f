/** The per-domain circuit breaker: what it decides is a function of the recorded history of the
    domain since the breaker last made room for it (internal/engine/backoff.go). */
module Breaker {
  import opened Wrappers


  type Domain = nat
  type Time = int

  datatype CircuitState = Closed | Open | HalfOpen

  /** One domain's circuit. */
  datatype Circuit = Circuit(state: CircuitState, consecutive: nat, openedAt: Time, probing: bool)

  const NEW_CIRCUIT := Circuit(Closed, 0, 0, false)

  datatype Limits = Limits(failures: nat, cooldown: nat, maxSize: nat)

  // ---- One call on one circuit ----

  function Allows(l: Limits, b: Circuit, now: Time): bool {
    match b.state
    case Closed => true
    case Open => now - b.openedAt >= l.cooldown
    case HalfOpen => !b.probing
  }

  function AfterAllow(l: Limits, b: Circuit, now: Time): Circuit {
    if b.state.Closed? || !Allows(l, b, now) then b
    else if b.state.Open? then b.(state := HalfOpen, probing := true)
    else b.(probing := true)
  }

  function AfterSuccess(b: Circuit): Circuit {
    b.(consecutive := 0, probing := false, state := Closed)
  }

  function AfterFailure(l: Limits, b: Circuit, now: Time): Circuit {
    var b1 := b.(consecutive := b.consecutive + 1, probing := false);
    if b.state.HalfOpen? || b1.consecutive >= l.failures then b1.(state := Open, openedAt := now) else b1
  }

  // ---- Histories ----

  datatype Event = Granted(at: Time) | Refused(at: Time) | Success(at: Time) | Failure(at: Time)

  predicate IsResult(e: Event) {
    e.Success? || e.Failure?
  }

  function After(l: Limits, b: Circuit, e: Event): Circuit {
    match e
    case Granted(at) => AfterAllow(l, b, at)
    case Refused(at) => AfterAllow(l, b, at)
    case Success(_) => AfterSuccess(b)
    case Failure(at) => AfterFailure(l, b, at)
  }

  /** The circuit after the calls in h, one after the other. */
  function Replay(l: Limits, h: seq<Event>): Circuit {
    if h == [] then NEW_CIRCUIT else After(l, Replay(l, h[..|h| - 1]), h[|h| - 1])
  }

  /** A history that calls in order of time could have recorded. */
  ghost predicate Lawful(l: Limits, h: seq<Event>) {
    && (forall i, j | 0 <= i < j < |h| :: h[i].at <= h[j].at)
    && (forall i | 0 <= i < |h| && h[i].Granted? :: Allows(l, Replay(l, h[..i]), h[i].at))
    && (forall i | 0 <= i < |h| && h[i].Refused? :: !Allows(l, Replay(l, h[..i]), h[i].at))
  }

  // ---- The same, told from the history alone ----

  /** Failures since the last success. */
  function FailuresSince(h: seq<Event>): nat {
    if h == [] then 0
    else match h[|h| - 1]
      case Success(_) => 0
      case Failure(_) => FailuresSince(h[..|h| - 1]) + 1
      case _ => FailuresSince(h[..|h| - 1])
  }

  /** Some request was let through since the last result. */
  predicate GrantPending(h: seq<Event>) {
    h != [] && !IsResult(h[|h| - 1]) && (h[|h| - 1].Granted? || GrantPending(h[..|h| - 1]))
  }

  /** k is the last result of h. */
  ghost predicate LastResult(h: seq<Event>, k: int) {
    0 <= k < |h| && IsResult(h[k]) && forall i | k < i < |h| :: !IsResult(h[i])
  }

  /** Too many failures since the last success. */
  predicate Tripped(l: Limits, h: seq<Event>) {
    FailuresSince(h) >= l.failures
  }

  /** What a reader of the history expects of the circuit. */
  ghost predicate Tells(l: Limits, h: seq<Event>, b: Circuit) {
    && b.consecutive == FailuresSince(h)
    && (b.state.Closed? <==> !Tripped(l, h))
    && (b.state.HalfOpen? <==> b.probing)
    && (b.state.HalfOpen? <==> Tripped(l, h) && GrantPending(h))
    && (!b.state.Closed? ==> exists k :: LastResult(h, k) && h[k] == Failure(b.openedAt))
  }

  lemma LastResultSnoc(h: seq<Event>, k: int)
    requires h != []
    ensures !IsResult(h[|h| - 1]) && LastResult(h[..|h| - 1], k) ==> LastResult(h, k)
    ensures IsResult(h[|h| - 1]) ==> LastResult(h, |h| - 1)
  {
    if !IsResult(h[|h| - 1]) && LastResult(h[..|h| - 1], k) {
      forall i | k < i < |h|
        ensures !IsResult(h[i])
      {
        assert i < |h| - 1 ==> h[..|h| - 1][i] == h[i];
      }
    }
  }

  lemma LawfulPrefix(l: Limits, h: seq<Event>, n: nat)
    requires Lawful(l, h) && n <= |h|
    ensures Lawful(l, h[..n])
  {
    var p := h[..n];
    forall i | 0 <= i < n
      ensures p[i].Granted? ==> Allows(l, Replay(l, p[..i]), p[i].at)
      ensures p[i].Refused? ==> !Allows(l, Replay(l, p[..i]), p[i].at)
    {
      assert p[..i] == h[..i];
    }
  }

  /** The circuit is closed exactly while the failures since the last success are fewer than the
      threshold, and half-open exactly while a probe is out; it opened at its last failure. */
  lemma {:induction false} CircuitTellsHistory(l: Limits, h: seq<Event>)
    requires l.failures > 0 && Lawful(l, h)
    ensures Tells(l, h, Replay(l, h))
    decreases |h|
  {
    hide Lawful, Tells, After, Replay;
    if h == [] {
      NothingTold(l);
    } else {
      var before, e := h[..|h| - 1], h[|h| - 1];
      LawfulPrefix(l, h, |h| - 1);
      CircuitTellsHistory(l, before);
      LawfulLast(l, h);
      ReplaySnoc(l, before, e);
      assert before + [e] == h;
      match e
      case Success(_) => TellsSuccess(l, before, Replay(l, before), e);
      case Failure(_) => TellsFailure(l, before, Replay(l, before), e);
      case Granted(_) => TellsGranted(l, before, Replay(l, before), e);
      case Refused(_) => TellsRefused(l, before, Replay(l, before), e);
    }
  }

  lemma NothingTold(l: Limits)
    requires l.failures > 0
    ensures Tells(l, [], Replay(l, []))
  {
  }

  lemma LawfulLast(l: Limits, h: seq<Event>)
    requires Lawful(l, h) && h != []
    ensures var before, e := Replay(l, h[..|h| - 1]), h[|h| - 1];
            (e.Granted? ==> Allows(l, before, e.at)) && (e.Refused? ==> !Allows(l, before, e.at))
  {
    hide Allows, Replay;
  }

  lemma TellsSuccess(l: Limits, h: seq<Event>, b: Circuit, e: Event)
    requires l.failures > 0 && Tells(l, h, b) && e.Success?
    ensures Tells(l, h + [e], After(l, b, e))
  {
    assert (h + [e])[..|h|] == h;
  }

  lemma TellsFailure(l: Limits, h: seq<Event>, b: Circuit, e: Event)
    requires l.failures > 0 && Tells(l, h, b) && e.Failure?
    ensures Tells(l, h + [e], After(l, b, e))
  {
    assert (h + [e])[..|h|] == h;
    LastResultSnoc(h + [e], 0);
  }

  lemma TellsGranted(l: Limits, h: seq<Event>, b: Circuit, e: Event)
    requires l.failures > 0 && Tells(l, h, b) && e.Granted? && Allows(l, b, e.at)
    ensures Tells(l, h + [e], After(l, b, e))
  {
    assert (h + [e])[..|h|] == h;
    StaysLast(h, b, e);
  }

  lemma TellsRefused(l: Limits, h: seq<Event>, b: Circuit, e: Event)
    requires l.failures > 0 && Tells(l, h, b) && e.Refused? && !Allows(l, b, e.at)
    ensures Tells(l, h + [e], After(l, b, e))
  {
    assert (h + [e])[..|h|] == h;
    StaysLast(h, b, e);
  }

  lemma StaysLast(h: seq<Event>, b: Circuit, e: Event)
    requires !IsResult(e)
    ensures (exists k :: LastResult(h, k) && h[k] == Failure(b.openedAt)) ==>
              exists k :: LastResult(h + [e], k) && (h + [e])[k] == Failure(b.openedAt)
  {
    if k :| LastResult(h, k) && h[k] == Failure(b.openedAt) {
      assert (h + [e])[..|h|] == h;
      LastResultSnoc(h + [e], k);
      assert LastResult(h + [e], k) && (h + [e])[k] == Failure(b.openedAt);
    }
  }

  /** Half-open without a probe never happens: the branch of Allow that serves it is dead. */
  lemma HalfOpenIsProbing(l: Limits, h: seq<Event>)
    requires l.failures > 0 && Lawful(l, h) && Replay(l, h).state.HalfOpen?
    ensures Replay(l, h).probing && forall now :: !Allows(l, Replay(l, h), now)
  {
    CircuitTellsHistory(l, h);
  }

  /** When a request is let through: while not tripped, or when no other was let through since the
      last failure and that is a cooldown ago. */
  lemma AllowsWhen(l: Limits, h: seq<Event>, now: Time)
    requires l.failures > 0 && Lawful(l, h)
    ensures Allows(l, Replay(l, h), now) <==>
              || !Tripped(l, h)
              || (!GrantPending(h) && exists k :: LastResult(h, k) && h[k].Failure? && now - h[k].at >= l.cooldown)
  {
    CircuitTellsHistory(l, h);
    var b := Replay(l, h);
    if !b.state.Closed? {
      var k :| LastResult(h, k) && h[k] == Failure(b.openedAt);
      assert forall j | LastResult(h, j) :: j == k;
    }
  }

  // ---- How often a failing site is tried ----

  /** The request at i was let through while the circuit was not closed. */
  predicate Probe(l: Limits, h: seq<Event>, i: nat) {
    i < |h| && h[i].Granted? && Tripped(l, h[..i])
  }

  lemma {:induction false} PendingSince(h: seq<Event>, i: nat)
    requires i < |h| && h[i].Granted? && forall j | i < j < |h| :: !IsResult(h[j])
    ensures GrantPending(h)
    decreases |h|
  {
    if i < |h| - 1 {
      PendingSince(h[..|h| - 1], i);
    }
  }

  /** Two probes have a recorded failure between them and are a cooldown apart, whatever else
      happened in between. */
  lemma ProbesAreSpaced(l: Limits, h: seq<Event>, i: nat, j: nat)
    requires l.failures > 0 && Lawful(l, h) && Probe(l, h, i) && Probe(l, h, j) && i < j
    ensures exists k :: i < k < j && h[k].Failure?
    ensures h[j].at - h[i].at >= l.cooldown
  {
    var b := h[..j];
    LawfulPrefix(l, h, j);
    AllowsWhen(l, b, h[j].at);
    var k :| LastResult(b, k) && b[k].Failure? && h[j].at - b[k].at >= l.cooldown;
    if k < i {
      assert b[i] == h[i];
      PendingSince(b, i);
    }
    assert i < k && h[k] == b[k];
  }

  function Probes(l: Limits, h: seq<Event>, from: nat, end: nat): nat
    requires from <= end <= |h|
    decreases end
  {
    if from == end then 0 else Probes(l, h, from, end - 1) + if Probe(l, h, end - 1) then 1 else 0
  }

  function Times(n: int, c: nat): int {
    n * c
  }

  lemma OneMore(n: int, c: nat)
    ensures Times(n, c) == Times(n - 1, c) + c && Times(0, c) == 0
  {
  }

  /** The last probe of a stretch that has one, and how far the others reach back from it. */
  lemma LastProbe(l: Limits, h: seq<Event>, from: nat, end: nat)
    requires from <= end <= |h| && Probes(l, h, from, end) > 0
    ensures from < end && Probes(l, h, from, end) == Probes(l, h, from, end - 1) + if Probe(l, h, end - 1) then 1 else 0
  {
    hide Probe;
  }

  lemma InTime(l: Limits, h: seq<Event>, i: nat, j: int)
    requires Lawful(l, h) && j < |h|
    ensures i <= j ==> h[i].at <= h[j].at
  {
    hide Allows, Replay;
  }

  lemma {:induction false} ProbesReachBack(l: Limits, h: seq<Event>, from: nat, end: nat) returns (last: nat)
    requires l.failures > 0 && Lawful(l, h) && from <= end <= |h| && Probes(l, h, from, end) > 0
    ensures from <= last < end && Probe(l, h, last)
    ensures h[last].at - h[from].at >= Times(Probes(l, h, from, end) - 1, l.cooldown)
    decreases end
  {
    hide Times, Probe, Probes, Lawful;
    LastProbe(l, h, from, end);
    InTime(l, h, from, end - 1);
    var before := Probes(l, h, from, end - 1);
    if !Probe(l, h, end - 1) {
      last := ProbesReachBack(l, h, from, end - 1);
    } else {
      last := end - 1;
      OneMore(before, l.cooldown);
      if before > 0 {
        var prev := ProbesReachBack(l, h, from, end - 1);
        assert h[last].at - h[prev].at >= l.cooldown by { ProbesAreSpaced(l, h, prev, last); }
      }
    }
  }

  /** A stretch of time T sees at most T / cooldown + 1 probes. */
  lemma ProbesAreFew(l: Limits, h: seq<Event>, from: nat, end: nat)
    requires l.failures > 0 && l.cooldown > 0 && Lawful(l, h) && from < end <= |h|
    ensures Probes(l, h, from, end) <= (h[end - 1].at - h[from].at) / l.cooldown + 1
  {
    assert h[from].at <= h[end - 1].at;
    if Probes(l, h, from, end) > 0 {
      var last := ProbesReachBack(l, h, from, end);
      assert h[last].at <= h[end - 1].at;
    }
    hide Times, Probe, Probes, Lawful;
    DivideBound(Probes(l, h, from, end), h[end - 1].at - h[from].at, l.cooldown);
  }

  lemma DivideBound(n: nat, t: int, c: int)
    requires c > 0 && t >= 0 && (n > 0 ==> Times(n - 1, c) <= t)
    ensures n <= t / c + 1
  {
    var q := t / c;
    assert t < (q + 1) * c;
    assert q + 1 <= n - 1 ==> (q + 1) * c <= (n - 1) * c;
  }

  // ---- The table ----

  /** First in, first out: touching a domain that is already there does not save it. */
  function Inserted(order: seq<Domain>, d: Domain, maxSize: nat): seq<Domain>
    requires maxSize > 0
  {
    if d in order then order
    else (if |order| >= maxSize then order[|order| - (maxSize - 1)..] else order) + [d]
  }

  /** The table agrees with what is on record of each domain in it. */
  ghost predicate Table(l: Limits, domains: map<Domain, Circuit>, order: seq<Domain>, history: map<Domain, seq<Event>>, latest: Time) {
    && l.maxSize > 0 && l.cooldown > 0
    && Distinct(order) && |order| <= l.maxSize
    && (forall d :: d in order <==> d in domains)
    && (forall d :: d in order <==> d in history)
    && (forall d | d in history :: d in domains && Kept(l, domains[d], history[d], latest))
  }

  ghost predicate Kept(l: Limits, b: Circuit, h: seq<Event>, latest: Time) {
    b == Replay(l, h) && Lawful(l, h) && forall i | 0 <= i < |h| :: h[i].at <= latest
  }

  lemma TableKeys(l: Limits, domains: map<Domain, Circuit>, order: seq<Domain>, history: map<Domain, seq<Event>>, latest: Time, d: Domain)
    requires Table(l, domains, order, history, latest)
    ensures d in order <==> d in domains
    ensures d in order <==> d in history
    ensures d in order ==> domains[d] == Replay(l, history[d])
    ensures |order| <= l.maxSize
  {
    assert d in history ==> Kept(l, domains[d], history[d], latest);
  }

  lemma Rest(s: seq<Domain>)
    requires Distinct(s) && s != []
    ensures Distinct(s[1..]) && forall x :: x in s[1..] <==> x in s && x != s[0]
  {
    forall x | x in s && x != s[0]
      ensures x in s[1..]
    {
      var i :| 0 <= i < |s| && s[i] == x;
      assert s[1..][i - 1] == x;
    }
  }

  lemma TableEvict(l: Limits, domains: map<Domain, Circuit>, order: seq<Domain>, history: map<Domain, seq<Event>>, latest: Time)
    requires Table(l, domains, order, history, latest) && order != []
    ensures Table(l, Drop(domains, order[0]), order[1..], Drop(history, order[0]), latest)
    ensures order[0] in history
  {
    hide Kept;
    Rest(order);
  }

  lemma TableInsert(l: Limits, domains: map<Domain, Circuit>, order: seq<Domain>, history: map<Domain, seq<Event>>, latest: Time, d: Domain)
    requires Table(l, domains, order, history, latest) && d !in domains && |order| < l.maxSize
    ensures Table(l, domains[d := NEW_CIRCUIT], order + [d], history[d := []], latest)
  {
    assert Kept(l, NEW_CIRCUIT, [], latest);
    hide Kept;
    var o := order + [d];
    forall x
      ensures x in o <==> x in order || x == d
    {
    }
  }

  /** One more event of d goes on record. */
  lemma TableRecord(l: Limits, domains: map<Domain, Circuit>, order: seq<Domain>, history: map<Domain, seq<Event>>, latest: Time, d: Domain, e: Event)
    requires Table(l, domains, order, history, latest) && d in history && d in domains && latest <= e.at
    requires e.Granted? ==> Allows(l, domains[d], e.at)
    requires e.Refused? ==> !Allows(l, domains[d], e.at)
    ensures Table(l, domains[d := Replay(l, history[d] + [e])], order, history[d := history[d] + [e]], e.at)
  {
    KeptSnoc(l, domains[d], history[d], latest, e);
    forall x | x in history
      ensures Kept(l, domains[x], history[x], e.at)
    {
      assert Kept(l, domains[x], history[x], latest);
    }
    hide Kept;
  }

  lemma KeptSnoc(l: Limits, b: Circuit, h: seq<Event>, latest: Time, e: Event)
    requires Kept(l, b, h, latest) && latest <= e.at
    requires e.Granted? ==> Allows(l, b, e.at)
    requires e.Refused? ==> !Allows(l, b, e.at)
    ensures Kept(l, Replay(l, h + [e]), h + [e], e.at)
  {
    var h1 := h + [e];
    forall i | 0 <= i < |h1|
      ensures h1[i].Granted? ==> Allows(l, Replay(l, h1[..i]), h1[i].at)
      ensures h1[i].Refused? ==> !Allows(l, Replay(l, h1[..i]), h1[i].at)
    {
      assert h1[..i] == if i < |h| then h[..i] else h;
    }
  }

  lemma ReplaySnoc(l: Limits, h: seq<Event>, e: Event)
    ensures Replay(l, h + [e]) == After(l, Replay(l, h), e)
  {
    assert (h + [e])[..|h|] == h;
  }

  /** Everything on record of other domains is as it was, or gone with its domain. */
  ghost predicate OthersKept(before: map<Domain, seq<Event>>, after: map<Domain, seq<Event>>, d: Domain) {
    forall x | x in after && x != d :: x in before && after[x] == before[x]
  }

  lemma TableTells(l: Limits, domains: map<Domain, Circuit>, order: seq<Domain>, history: map<Domain, seq<Event>>, latest: Time, d: Domain)
    requires Table(l, domains, order, history, latest) && d in history && l.failures > 0
    ensures Tells(l, history[d], Replay(l, history[d]))
  {
    assert Kept(l, domains[d], history[d], latest);
    CircuitTellsHistory(l, history[d]);
  }

  lemma OthersSame(h: map<Domain, seq<Event>>, d: Domain)
    ensures OthersKept(h, h, d)
  {
  }

  lemma OthersDrop(before: map<Domain, seq<Event>>, after: map<Domain, seq<Event>>, d: Domain, x: Domain)
    requires OthersKept(before, after, d)
    ensures OthersKept(before, Drop(after, x), d)
  {
  }

  lemma OthersSet(before: map<Domain, seq<Event>>, after: map<Domain, seq<Event>>, d: Domain, h: seq<Event>)
    requires OthersKept(before, after, d)
    ensures OthersKept(before, after[d := h], d)
  {
  }

  class CircuitBreaker {
    var domains: map<Domain, Circuit>
    var order: seq<Domain>
    const limits: Limits
    /** What was recorded of each domain since the breaker last made room for it. */
    ghost var history: map<Domain, seq<Event>>
    ghost var latest: Time
    /** The domains of the calls that looked for a circuit. */
    ghost var calls: seq<Domain>

    ghost predicate Valid()
      reads this
    {
      && limits.maxSize > 0
      && Table(limits, domains, order, history, latest)
      && order == Order(calls, limits.maxSize)
    }

    /** The history of d as a call on d finds it. */
    ghost function Known(d: Domain): seq<Event>
      reads this
    {
      if d in history then history[d] else []
    }

    constructor (threshold: int, cooldown: int, maxSize: int, ghost now: Time)
      ensures Valid() && order == [] && latest == now && calls == []
      ensures limits == Limits(if threshold <= 0 then 0 else threshold, if cooldown <= 0 then 30_000_000_000 else cooldown, if maxSize <= 0 then 10_000 else maxSize)
    {
      domains, order, history, latest, calls := map[], [], map[], now, [];
      limits := Limits(if threshold <= 0 then 0 else threshold, if cooldown <= 0 then 30_000_000_000 else cooldown, if maxSize <= 0 then 10_000 else maxSize);
    }

    /** The circuit of d, made afresh if there is none, at the cost of the oldest when full. */
    method Get(d: Domain) returns (b: Circuit)
      requires Valid()
      modifies this`domains, this`order, this`history, this`calls
      ensures Valid() && d in history && d in domains
      ensures order == Inserted(old(order), d, limits.maxSize) && calls == old(calls) + [d]
      ensures history[d] == old(Known(d)) && b == domains[d] == Replay(limits, history[d])
      ensures OthersKept(old(history), history, d)
    {
      hide Table, OthersKept, Order;
      TableKeys(limits, domains, order, history, latest, d);
      OthersSame(history, d);
      OrderSnoc(calls, d, limits.maxSize);
      if d in domains {
        HitChangesNothing(order, d, limits.maxSize);
        calls := calls + [d];
        return domains[d];
      }
      ghost var before := order;
      while |order| >= limits.maxSize
        invariant Table(limits, domains, order, history, latest) && d !in domains && |order| <= |before| && calls == old(calls)
        invariant order == before[|before| - |order|..]
        invariant |before| >= limits.maxSize ==> |order| >= limits.maxSize - 1
        invariant |before| < limits.maxSize ==> order == before
        invariant OthersKept(old(history), history, d)
      {
        var oldest := order[0];
        TableEvict(limits, domains, order, history, latest);
        OthersDrop(old(history), history, d, oldest);
        order := order[1..];
        domains := Drop(domains, oldest);
        history := Drop(history, oldest);
      }
      TableInsert(limits, domains, order, history, latest, d);
      OthersSet(old(history), history, d, []);
      domains := domains[d := NEW_CIRCUIT];
      history := history[d := []];
      order, calls := order + [d], calls + [d];
      return NEW_CIRCUIT;
    }

    /** Writes d's circuit back as its history now demands. */
    method Store(d: Domain, b: Circuit, ghost e: Event)
      requires Valid() && d in history && d in domains && latest <= e.at
      requires e.Granted? ==> Allows(limits, domains[d], e.at)
      requires e.Refused? ==> !Allows(limits, domains[d], e.at)
      requires b == Replay(limits, history[d] + [e])
      modifies this`domains, this`history, this`latest
      ensures Valid() && latest == e.at && history == old(history)[d := old(history)[d] + [e]]
    {
      hide Table, Replay, Order;
      TableRecord(limits, domains, order, history, latest, d, e);
      domains := domains[d := b];
      history := history[d := history[d] + [e]];
      latest := e.at;
    }

    /** Whether d may be requested now; the answer goes on record. */
    method Allow(d: Domain, now: Time) returns (ok: bool)
      requires Valid() && latest <= now
      modifies this
      ensures Valid()
      ensures limits.failures == 0 ==> ok && history == old(history)
      ensures limits.failures > 0 ==> order == Inserted(old(order), d, limits.maxSize) && calls == old(calls) + [d]
      ensures limits.failures > 0 ==> latest == now && d in history && history[d] == old(Known(d)) + [if ok then Granted(now) else Refused(now)]
      ensures OthersKept(old(history), history, d)
    {
      if limits.failures == 0 {
        return true;
      }
      hide Replay, Table, OthersKept, Inserted, Order, AfterAllow, Allows;
      var b := Get(d);
      ok, b := Decide(b, now);
      ghost var e := if ok then Granted(now) else Refused(now);
      ReplaySnoc(limits, history[d], e);
      OthersSet(old(history), history, d, history[d] + [e]);
      Store(d, b, e);
    }

    method Decide(b: Circuit, now: Time) returns (ok: bool, b1: Circuit)
      ensures ok == Allows(limits, b, now) && b1 == AfterAllow(limits, b, now)
    {
      match b.state {
        case Closed =>
          return true, b;
        case Open =>
          if now - b.openedAt < limits.cooldown {
            return false, b;
          }
          return true, b.(state := HalfOpen, probing := true);
        case HalfOpen =>
          if b.probing {
            return false, b;       // a probe is already out
          }
          return true, b.(probing := true);
      }
    }

    method RecordSuccess(d: Domain, now: Time)
      requires Valid() && latest <= now
      modifies this
      ensures Valid()
      ensures limits.failures == 0 ==> history == old(history)
      ensures limits.failures > 0 ==> order == Inserted(old(order), d, limits.maxSize) && calls == old(calls) + [d]
      ensures limits.failures > 0 ==> latest == now && d in history && history[d] == old(Known(d)) + [Success(now)]
      ensures OthersKept(old(history), history, d)
    {
      if limits.failures == 0 {
        return;
      }
      hide Replay, Table, OthersKept, Inserted, Order;
      var b := Get(d);
      ReplaySnoc(limits, history[d], Success(now));
      OthersSet(old(history), history, d, history[d] + [Success(now)]);
      Store(d, b.(consecutive := 0, probing := false, state := Closed), Success(now));
    }

    /** A failed fetch; the state returned is open exactly when the history is tripped. */
    method RecordFailure(d: Domain, now: Time) returns (state: CircuitState)
      requires Valid() && latest <= now
      modifies this
      ensures Valid()
      ensures limits.failures == 0 ==> history == old(history) && state == Closed
      ensures limits.failures > 0 ==> order == Inserted(old(order), d, limits.maxSize) && calls == old(calls) + [d]
      ensures limits.failures > 0 ==> latest == now && d in history && history[d] == old(Known(d)) + [Failure(now)]
      ensures limits.failures > 0 ==> state == if Tripped(limits, old(Known(d)) + [Failure(now)]) then Open else Closed
      ensures OthersKept(old(history), history, d)
    {
      if limits.failures == 0 {
        return Closed;
      }
      hide Replay, Tripped, Table, OthersKept, Inserted, Order;
      var b := Get(d);
      ReplaySnoc(limits, history[d], Failure(now));
      b := b.(consecutive := b.consecutive + 1, probing := false);
      if domains[d].state.HalfOpen? || b.consecutive >= limits.failures {
        b := b.(state := Open, openedAt := now);
      }
      OthersSet(old(history), history, d, history[d] + [Failure(now)]);
      Store(d, b, Failure(now));
      TableTells(limits, domains, order, history, latest, d);
      return b.state;
    }
  }

  // ---- Who has to go ----

  /** The table's order after calls on these domains. */
  function Order(calls: seq<Domain>, maxSize: nat): seq<Domain>
    requires maxSize > 0
  {
    if calls == [] then [] else Inserted(Order(calls[..|calls| - 1], maxSize), calls[|calls| - 1], maxSize)
  }

  /** The calls that found no circuit. */
  function Arrivals(calls: seq<Domain>, maxSize: nat): seq<Domain>
    requires maxSize > 0
  {
    if calls == [] then []
    else
      var before, d := calls[..|calls| - 1], calls[|calls| - 1];
      Arrivals(before, maxSize) + if d in Order(before, maxSize) then [] else [d]
  }

  function LastOf(s: seq<Domain>, n: nat): seq<Domain> {
    if |s| <= n then s else s[|s| - n..]
  }

  lemma InsertedIsLast(arrivals: seq<Domain>, d: Domain, maxSize: nat)
    requires maxSize > 0 && d !in LastOf(arrivals, maxSize)
    ensures Inserted(LastOf(arrivals, maxSize), d, maxSize) == LastOf(arrivals + [d], maxSize)
  {
  }

  /** The table holds the last arrivals, as many as there is room for, and no call on a domain that
      is there changes that. */
  lemma {:induction false} OrderIsLastArrivals(calls: seq<Domain>, maxSize: nat)
    requires maxSize > 0
    ensures Order(calls, maxSize) == LastOf(Arrivals(calls, maxSize), maxSize)
  {
    hide Inserted, LastOf;
    if calls == [] {
      NobodyLast(maxSize);
    } else {
      var before, d := calls[..|calls| - 1], calls[|calls| - 1];
      OrderIsLastArrivals(before, maxSize);
      assert Arrivals(before, maxSize) + [] == Arrivals(before, maxSize);
      if d in Order(before, maxSize) {
        HitChangesNothing(Order(before, maxSize), d, maxSize);
      } else {
        InsertedIsLast(Arrivals(before, maxSize), d, maxSize);
      }
    }
  }

  lemma NobodyLast(n: nat)
    ensures LastOf([], n) == []
  {
  }

  lemma HitChangesNothing(order: seq<Domain>, d: Domain, maxSize: nat)
    requires maxSize > 0 && d in order
    ensures Inserted(order, d, maxSize) == order
  {
  }

  /** A domain has its circuit if and only if fewer than maxSize arrivals came after one of its
      own. */
  lemma KeptWhileFewArrive(calls: seq<Domain>, d: Domain, maxSize: nat)
    requires maxSize > 0
    ensures var arrivals := Arrivals(calls, maxSize);
            d in Order(calls, maxSize) <==> exists p :: 0 <= p < |arrivals| && arrivals[p] == d && |arrivals| - 1 - p < maxSize
  {
    hide Arrivals, Order;
    OrderIsLastArrivals(calls, maxSize);
    var arrivals := Arrivals(calls, maxSize);
    var kept := LastOf(arrivals, maxSize);
    var from := |arrivals| - |kept|;
    assert kept == arrivals[from..];
    if d in kept {
      var i :| 0 <= i < |kept| && kept[i] == d;
      assert arrivals[from + i] == d;
    }
    if p :| 0 <= p < |arrivals| && arrivals[p] == d && |arrivals| - 1 - p < maxSize {
      assert kept[p - from] == d;
    }
  }

  /** What a table by recency of use, with as much room, would hold: the least recently used first. */
  function LruOrder(calls: seq<Domain>, maxSize: nat): seq<Domain>
    requires maxSize > 0
  {
    if calls == [] then []
    else
      var before, d := LruOrder(calls[..|calls| - 1], maxSize), calls[|calls| - 1];
      if d in before then Without(before, d) + [d] else Inserted(before, d, maxSize)
  }

  /** What one call does to the domains of either table. */
  lemma InsertedDomains(s: seq<Domain>, d: Domain, maxSize: nat)
    requires maxSize > 0 && Distinct(s) && |s| <= maxSize && d !in s
    ensures Distinct(Inserted(s, d, maxSize)) && |Inserted(s, d, maxSize)| <= maxSize
    ensures forall x :: x in Inserted(s, d, maxSize) <==> x == d || (x in s && !(|s| == maxSize && x == s[0]))
  {
    if |s| == maxSize {
      Rest(s);
    }
  }

  lemma {:induction false} OrderShape(calls: seq<Domain>, maxSize: nat)
    requires maxSize > 0
    ensures Distinct(Order(calls, maxSize)) && |Order(calls, maxSize)| <= maxSize
  {
    hide Distinct;
    if calls == [] {
      NoOrder(maxSize);
    } else {
      var before, d := calls[..|calls| - 1], calls[|calls| - 1];
      OrderShape(before, maxSize);
      if d !in Order(before, maxSize) {
        InsertedDomains(Order(before, maxSize), d, maxSize);
      }
    }
  }

  lemma {:induction false} LruShape(calls: seq<Domain>, maxSize: nat)
    requires maxSize > 0
    ensures Distinct(LruOrder(calls, maxSize)) && |LruOrder(calls, maxSize)| <= maxSize
  {
    hide Distinct;
    if calls == [] {
      NoOrder(maxSize);
    } else {
      var before, d := calls[..|calls| - 1], calls[|calls| - 1];
      LruShape(before, maxSize);
      if d !in LruOrder(before, maxSize) {
        InsertedDomains(LruOrder(before, maxSize), d, maxSize);
      } else {
        WithoutHas(LruOrder(before, maxSize), d);
        DistinctSnoc(Without(LruOrder(before, maxSize), d), d);
      }
    }
  }

  lemma NoOrder(maxSize: nat)
    requires maxSize > 0
    ensures Order([], maxSize) == LruOrder([], maxSize) == [] && Distinct<Domain>([])
  {
  }

  ghost predicate SameMembers(s: seq<Domain>, t: seq<Domain>) {
    forall x :: x in s <==> x in t
  }

  /** At every point of the run the two hold circuits of the same domains. */
  ghost predicate SameAsLru(calls: seq<Domain>, maxSize: nat)
    requires maxSize > 0
  {
    forall n | 0 <= n <= |calls| :: SameMembers(Order(calls[..n], maxSize), LruOrder(calls[..n], maxSize))
  }

  /** Does `d` arrive at a full table whose first arrival is not the one least recently called? */
  predicate Parts(before: seq<Domain>, d: Domain, maxSize: nat)
    requires maxSize > 0
  {
    var order, lru := Order(before, maxSize), LruOrder(before, maxSize);
    d !in order && |order| == maxSize && !(lru != [] && order[0] == lru[0])
  }

  ghost predicate NeverParts(calls: seq<Domain>, maxSize: nat)
    requires maxSize > 0
  {
    forall n | 0 <= n < |calls| :: !Parts(calls[..n], calls[n], maxSize)
  }

  /** The table holds the domains that one by recency of use would hold exactly as long as, at each
      arrival in a full table, the domain that arrived first is also the one least recently called. */
  lemma {:induction false} SameAsLruExactly(calls: seq<Domain>, maxSize: nat)
    requires maxSize > 0
    ensures SameAsLru(calls, maxSize) <==> NeverParts(calls, maxSize)
    decreases |calls|
  {
    hide Order, LruOrder, Parts, SameMembers;
    if calls == [] {
      NoOrder(maxSize);
      SameAsItself([]);
    } else {
      var m := |calls| - 1;
      var before, d := calls[..m], calls[m];
      SameAsLruExactly(before, maxSize);
      SplitLast(calls, maxSize);
      if SameAsLru(before, maxSize) {
        assert before[..m] == before;
        OneMoreCall(before, d, maxSize);
        assert before + [d] == calls;
      }
    }
  }

  lemma SameAsItself(s: seq<Domain>)
    ensures SameMembers(s, s)
  {
  }

  lemma SplitLast(calls: seq<Domain>, maxSize: nat)
    requires maxSize > 0 && calls != []
    ensures var before := calls[..|calls| - 1];
            SameAsLru(calls, maxSize) <==> (SameAsLru(before, maxSize) && SameMembers(Order(calls, maxSize), LruOrder(calls, maxSize)))
    ensures var before, d := calls[..|calls| - 1], calls[|calls| - 1];
            NeverParts(calls, maxSize) <==> (NeverParts(before, maxSize) && !Parts(before, d, maxSize))
  {
    hide Order, LruOrder, Parts, SameMembers;
    var before := calls[..|calls| - 1];
    assert forall n | 0 <= n <= |before| :: before[..n] == calls[..n];
    assert calls[..|calls|] == calls;
    assert forall n | 0 <= n < |before| :: before[n] == calls[n];
  }

  lemma LruSnoc(calls: seq<Domain>, d: Domain, maxSize: nat)
    requires maxSize > 0
    ensures var before := LruOrder(calls, maxSize);
            LruOrder(calls + [d], maxSize) == if d in before then Without(before, d) + [d] else Inserted(before, d, maxSize)
  {
    assert (calls + [d])[..|calls|] == calls;
  }

  /** One more call, on two tables of the same domains. */
  lemma OneMoreCall(calls: seq<Domain>, d: Domain, maxSize: nat)
    requires maxSize > 0 && SameMembers(Order(calls, maxSize), LruOrder(calls, maxSize))
    ensures SameMembers(Order(calls + [d], maxSize), LruOrder(calls + [d], maxSize)) <==> !Parts(calls, d, maxSize)
  {
    hide Order, LruOrder, Inserted, Distinct;
    var order, lru := Order(calls, maxSize), LruOrder(calls, maxSize);
    OrderShape(calls, maxSize);
    LruShape(calls, maxSize);
    OrderSnoc(calls, d, maxSize);
    LruSnoc(calls, d, maxSize);
    if d in order {
      HitChangesNothing(order, d, maxSize);
      WithoutHas(lru, d);
    } else {
      SameLength(order, lru);
      InsertedDomains(order, d, maxSize);
      InsertedDomains(lru, d, maxSize);
      if |order| == maxSize {
        assert order[0] in order && lru[0] in lru;
      }
    }
  }

  /** So in a full table the domain that arrived first goes next, however often and however lately
      it was called since. */
  lemma BusyDomainIsEvicted(calls: seq<Domain>, again: seq<Domain>, d: Domain, maxSize: nat)
    requires maxSize > 0 && |Order(calls, maxSize)| == maxSize && d !in Order(calls, maxSize)
    requires forall i | 0 <= i < |again| :: again[i] in Order(calls, maxSize)
    ensures Order(calls + again + [d], maxSize) == Order(calls, maxSize)[1..] + [d]
  {
    hide Order;
    CallsAgain(calls, again, maxSize);
    OrderSnoc(calls + again, d, maxSize);
  }

  lemma OrderSnoc(calls: seq<Domain>, d: Domain, maxSize: nat)
    requires maxSize > 0
    ensures Order(calls + [d], maxSize) == Inserted(Order(calls, maxSize), d, maxSize)
  {
    assert (calls + [d])[..|calls|] == calls;
  }

  lemma {:induction false} CallsAgain(calls: seq<Domain>, again: seq<Domain>, maxSize: nat)
    requires maxSize > 0 && forall i | 0 <= i < |again| :: again[i] in Order(calls, maxSize)
    ensures Order(calls + again, maxSize) == Order(calls, maxSize)
    decreases |again|
  {
    hide Order;
    if again == [] {
      assert calls + again == calls;
    } else {
      var n := |again| - 1;
      CallsAgain(calls, again[..n], maxSize);
      OrderSnoc(calls + again[..n], again[n], maxSize);
      assert calls + again[..n] + [again[n]] == calls + again;
    }
  }
}
