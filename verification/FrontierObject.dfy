/** The frontier as the object the code has: a queue, the set of requests handed out, a closed
    flag and the one-slot wakeup channel. Each critical section is shown to take exactly one step
    of the protocol in `Crawl` (internal/engine/frontier.go). */
module FrontierObject {
  import opened Wrappers
  import opened Crawl

  /** What one locked scan of the queue comes to. */
  datatype Scanned =
    | Took(r: Req, remaining: nat)
    | Sleep(soonest: Option<nat>)     // nothing ready; how long until the first will be
    | SawClosed

  lemma TakenOut(s: seq<Req>, i: nat)
    requires i < |s|
    ensures multiset(s[..i] + s[i + 1..]) == multiset(s) - multiset{s[i]}
  {
    assert s == s[..i] + [s[i]] + s[i + 1..];
  }

  lemma AnyAt(s: seq<Req>)
    ensures forall r | r in multiset(s) :: exists i :: 0 <= i < |s| && s[i] == r
    ensures forall i | 0 <= i < |s| :: s[i] in multiset(s)
  {
  }

  /** How long the gate says r must wait, at the instant of `s`. */
  function Delay(c: Config, s: State, r: Req): nat {
    if ReadyAt(c, s, r) <= s.now then 0 else ReadyAt(c, s, r) - s.now
  }

  /** What the four fields become when t takes r, gated or not. */
  lemma TakeIs(c: Config, s: State, t: Tid, r: Req)
    requires t in s.pcs && r in s.queue
    ensures s.pcs[t] == Pc.Scan && Ready(c, s, r) ==>
              && CanPop(c, s, Pc.Scan, Take(r)) && PopTo(s, Pc.Scan, Take(r)) == Claiming(r, |s.queue - multiset{r}|)
              && AfterTake(s, Pops(c, s, t, Take(r)), r)
    ensures s.pcs[t] == Draining ==> CanPop(c, s, Draining, Drain(r)) && AfterTake(s, Pops(c, s, t, Drain(r)), r)
  {
  }

  predicate AfterTake(s: State, s1: State, r: Req) {
    s1.queue == s.queue - multiset{r} && s1.inFlight == s.inFlight + {r} && s1.closed == s.closed && s1.notify == s.notify
  }

  predicate SameFields(s: State, s1: State) {
    s1.queue == s.queue && s1.inFlight == s.inFlight && s1.closed == s.closed && s1.notify == s.notify
  }

  function Deadline(s: State, soonest: Option<nat>): Option<Time> {
    if soonest.Some? then Some(s.now + soonest.value) else None
  }

  /** A scan that found nothing ready parks, or sees the frontier closed. */
  lemma LeaveIs(c: Config, s: State, t: Tid, d: Option<Time>)
    requires t in s.pcs && s.pcs[t] == Pc.Scan && NoneReady(c, s) && Soonest(c, s, d)
    ensures !s.closed ==> CanPop(c, s, Pc.Scan, Park(d)) && SameFields(s, Pops(c, s, t, Park(d)))
    ensures s.closed ==> CanPop(c, s, Pc.Scan, SeeClosed) && SameFields(s, Pops(c, s, t, SeeClosed))
  {
    hide NoneReady, Soonest;
  }

  lemma BestIsReady(c: Config, s: State, q: seq<Req>, delay: Req -> nat, priority: Req -> int, best: nat)
    requires multiset(q) == s.queue && best < |q| && delay(q[best]) == 0 && forall r :: delay(r) == Delay(c, s, r)
    requires forall i | 0 <= i < |q| && delay(q[i]) == 0 :: priority(q[best]) <= priority(q[i])
    ensures q[best] in s.queue && Ready(c, s, q[best])
    ensures forall x | x in s.queue && Ready(c, s, x) :: priority(q[best]) <= priority(x)
  {
    AnyAt(q);
  }

  lemma DrainNothingIs(c: Config, s: State, t: Tid)
    requires t in s.pcs && s.pcs[t] == Draining && s.queue == multiset{}
    ensures CanPop(c, s, Draining, DrainNothing) && SameFields(s, Pops(c, s, t, DrainNothing))
  {
  }

  lemma SleepIsSoonest(c: Config, s: State, q: seq<Req>, soonest: Option<nat>)
    requires multiset(q) == s.queue && forall i | 0 <= i < |q| :: Delay(c, s, q[i]) > 0
    requires soonest.None? ==> q == []
    requires soonest.Some? ==> exists i :: 0 <= i < |q| && Delay(c, s, q[i]) == soonest.value
    requires soonest.Some? ==> forall i | 0 <= i < |q| :: soonest.value <= Delay(c, s, q[i])
    ensures NoneReady(c, s)
    ensures Soonest(c, s, Deadline(s, soonest))
  {
    AnyAt(q);
    if soonest.Some? {
      var i :| 0 <= i < |q| && Delay(c, s, q[i]) == soonest.value;
      assert q[i] in s.queue && ReadyAt(c, s, q[i]) == s.now + soonest.value;
    }
  }

  /** A scan that found nothing ready, by what it was told of the delays. */
  lemma SleepIs(c: Config, s: State, t: Tid, q: seq<Req>, delay: Req -> nat, soonest: Option<nat>)
    requires t in s.pcs && s.pcs[t] == Pc.Scan && multiset(q) == s.queue && forall r :: delay(r) == Delay(c, s, r)
    requires forall i | 0 <= i < |q| :: delay(q[i]) > 0
    requires soonest.None? ==> forall i | 0 <= i < |q| :: delay(q[i]) == 0
    requires soonest.Some? ==> exists i :: 0 <= i < |q| && delay(q[i]) == soonest.value
    requires soonest.Some? ==> forall i | 0 <= i < |q| && delay(q[i]) > 0 :: soonest.value <= delay(q[i])
    ensures !s.closed ==> CanPop(c, s, Pc.Scan, Park(Deadline(s, soonest))) && SameFields(s, Pops(c, s, t, Park(Deadline(s, soonest))))
    ensures s.closed ==> CanPop(c, s, Pc.Scan, SeeClosed) && SameFields(s, Pops(c, s, t, SeeClosed))
  {
    hide Pops, CanPop, NoneReady, Soonest, Deadline, Delay;
    assert soonest.None? ==> q == [] by {
      assert q != [] ==> delay(q[0]) > 0;
    }
    SleepIsSoonest(c, s, q, soonest);
    LeaveIs(c, s, t, Deadline(s, soonest));
  }

  class Frontier {
    var pq: seq<Req>
    var inFlight: set<Req>
    var closed: bool
    var notify: bool
    const priority: Req -> int

    /** The object holds what the protocol's state says. */
    ghost predicate Shows(s: State)
      reads this
    {
      multiset(pq) == s.queue && inFlight == s.inFlight && closed == s.closed && notify == s.notify
    }

    constructor (priority: Req -> int)
      ensures pq == [] && inFlight == {} && !closed && !notify
    {
      pq, inFlight, closed, notify := [], {}, false, false;
      this.priority := priority;
    }

    method Wake(ghost s: State)
      requires Shows(s)
      modifies this`notify
      ensures Shows(s.(notify := true))
    {
      notify := true;
    }

    /** Queues r, unless the frontier is closed. The caller owes a wakeup when it was queued. */
    method Push(r: Req, ghost s: State) returns (queued: bool)
      requires Shows(s)
      modifies this`pq
      ensures queued == !closed
      ensures Shows(Crawl.Push(s, r))
    {
      if closed {
        return false;
      }
      pq := pq + [r];
      return true;
    }

    /** The scan of PopReady: the first of the ready entries with the least priority value, and
        the shortest wait among the others. */
    method Scan(delay: Req -> nat) returns (best: Option<nat>, soonest: Option<nat>)
      ensures best.None? ==> forall i | 0 <= i < |pq| :: delay(pq[i]) > 0
      ensures best.Some? ==> best.value < |pq| && delay(pq[best.value]) == 0
      ensures best.Some? ==> forall i | 0 <= i < |pq| && delay(pq[i]) == 0 ::
                               priority(pq[best.value]) <= priority(pq[i]) && (i < best.value ==> priority(pq[best.value]) < priority(pq[i]))
      ensures soonest.None? ==> forall i | 0 <= i < |pq| :: delay(pq[i]) == 0
      ensures soonest.Some? ==> exists i :: 0 <= i < |pq| && delay(pq[i]) == soonest.value
      ensures soonest.Some? ==> forall i | 0 <= i < |pq| && delay(pq[i]) > 0 :: soonest.value <= delay(pq[i])
    {
      best, soonest := None, None;
      for n := 0 to |pq|
        invariant best.None? ==> forall i | 0 <= i < n :: delay(pq[i]) > 0
        invariant best.Some? ==> best.value < n && delay(pq[best.value]) == 0
        invariant best.Some? ==> forall i | 0 <= i < n && delay(pq[i]) == 0 ::
                                   priority(pq[best.value]) <= priority(pq[i]) && (i < best.value ==> priority(pq[best.value]) < priority(pq[i]))
        invariant soonest.None? ==> forall i | 0 <= i < n :: delay(pq[i]) == 0
        invariant soonest.Some? ==> exists i :: 0 <= i < n && delay(pq[i]) == soonest.value
        invariant soonest.Some? ==> forall i | 0 <= i < n && delay(pq[i]) > 0 :: soonest.value <= delay(pq[i])
      {
        if delay(pq[n]) == 0 {
          if best.None? || priority(pq[n]) < priority(pq[best.value]) {
            best := Some(n);
          }
        } else if soonest.None? || delay(pq[n]) < soonest.value {
          soonest := Some(delay(pq[n]));
        }
      }
    }

    /** Takes the entry at i into the in-flight set, under the lock it was found under. */
    method TakeAt(i: nat) returns (r: Req)
      requires i < |pq|
      modifies this`pq, this`inFlight
      ensures r == old(pq[i]) && multiset(pq) == old(multiset(pq)) - multiset{r} && inFlight == old(inFlight) + {r}
    {
      r := pq[i];
      TakenOut(pq, i);
      pq := pq[..i] + pq[i + 1..];
      inFlight := inFlight + {r};
    }

    /** One locked pass of PopReady's loop by the thread t, which is about to scan: it takes the
        ready request of the highest priority, or sleeps until the first is ready, or sees that
        the frontier is closed. Whichever it does is a step of the protocol. */
    method PopReadyOnce(delay: Req -> nat, ghost c: Config, ghost s: State, ghost t: Tid) returns (out: Scanned)
      requires Shows(s) && t in s.pcs && s.pcs[t] == Pc.Scan
      requires forall r :: delay(r) == Delay(c, s, r)
      modifies this`pq, this`inFlight
      ensures out.Took? ==>
                && CanPop(c, s, Pc.Scan, Take(out.r)) && PopTo(s, Pc.Scan, Take(out.r)) == Claiming(out.r, out.remaining)
                && Shows(Pops(c, s, t, Take(out.r)))
      ensures out.Took? ==> forall x | x in s.queue && Ready(c, s, x) :: priority(out.r) <= priority(x)
      ensures out.Sleep? ==>
                && CanPop(c, s, Pc.Scan, Park(Deadline(s, out.soonest)))
                && Shows(Pops(c, s, t, Park(Deadline(s, out.soonest))))
      ensures out.SawClosed? ==> CanPop(c, s, Pc.Scan, SeeClosed) && Shows(Pops(c, s, t, SeeClosed))
    {
      hide Pops, CanPop, PopTo, NoneReady, Soonest, Ready, Deadline, Delay;
      var best, soonest := Scan(delay);
      if best.Some? {
        BestIsReady(c, s, pq, delay, priority, best.value);
        TakeIs(c, s, t, pq[best.value]);
        var r := TakeAt(best.value);
        return Took(r, |pq|);
      }
      SleepIs(c, s, t, pq, delay, soonest);
      if closed {
        return SawClosed;
      }
      return Sleep(soonest);
    }

    /** Where a request of the highest priority is. */
    method Least() returns (best: nat)
      requires pq != []
      ensures best < |pq| && forall r | r in multiset(pq) :: priority(pq[best]) <= priority(r)
    {
      best := 0;
      for n := 1 to |pq|
        invariant best < |pq| && forall i | 0 <= i < n :: priority(pq[best]) <= priority(pq[i])
      {
        if priority(pq[n]) < priority(pq[best]) {
          best := n;
        }
      }
      AnyAt(pq);
    }

    /** Takes a request of the highest priority without asking the gate, if there is one. */
    method TryPop(ghost c: Config, ghost s: State, ghost t: Tid) returns (out: Option<Req>)
      requires Shows(s) && t in s.pcs && s.pcs[t] == Draining
      modifies this`pq, this`inFlight
      ensures out.None? ==> CanPop(c, s, Draining, DrainNothing) && Shows(Pops(c, s, t, DrainNothing))
      ensures out.Some? ==> CanPop(c, s, Draining, Drain(out.value)) && Shows(Pops(c, s, t, Drain(out.value)))
      ensures out.Some? ==> forall x | x in s.queue :: priority(out.value) <= priority(x)
    {
      hide Pops, CanPop;
      if |pq| == 0 {
        DrainNothingIs(c, s, t);
        return None;
      }
      var best := Least();
      TakeIs(c, s, t, pq[best]);
      var r := TakeAt(best);
      return Some(r);
    }

    method Done(r: Req, ghost s: State, ghost live: bool)
      requires Shows(s)
      modifies this`inFlight
      ensures Shows(Crawl.Done(s, r, live))
    {
      inFlight := inFlight - {r};
    }

    /** Queued and in flight, counted under one lock. */
    method Outstanding(ghost s: State) returns (n: nat)
      requires Shows(s)
      ensures n == Crawl.Outstanding(s)
    {
      n := |pq| + |inFlight|;
      assert |multiset(pq)| == |pq|;
    }

    method Close(ghost s: State)
      requires Shows(s)
      modifies this`closed
      ensures Shows(s.(closed := true))
    {
      if closed {
        return;
      }
      closed := true;
    }
  }
}
