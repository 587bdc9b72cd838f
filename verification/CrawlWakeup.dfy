/** No wakeup is lost: while the crawl runs, a queued request always has somebody coming for it.
    The frontier's wakeup channel has one slot and its sender never blocks, so that a wake meets
    a full slot, a single sleeper, or nobody at all (internal/engine/frontier.go). */
module CrawlWakeup {
  import opened Wrappers
  import opened Crawl

  /** A timer set for `at` goes off no later than any queued request becomes ready. */
  ghost predicate InTime(c: Config, s: State, at: Time) {
    forall r | r in s.queue :: at <= ReadyAt(c, s, r)
  }

  /** A thread at `pc` will look at the queue again, or will wake somebody who does. */
  ghost predicate Attends(c: Config, s: State, pc: Pc) {
    || OwesWake(pc) || pc.Scan? || pc.Rejected? || pc.Returning?
    || (pc.Claiming? && pc.remaining > 0)
    || (pc.Parked? && pc.deadline.Some? && InTime(c, s, pc.deadline.value))
  }

  ghost predicate AttendedBy(c: Config, s: State, t: Tid) {
    t in s.pcs && Attends(c, s, s.pcs[t])
  }

  ghost predicate Over(s: State) {
    s.closed || s.cancelled || s.queue == multiset{}
  }

  ghost predicate Awaited(c: Config, s: State) {
    Over(s) || s.notify || exists t :: AttendedBy(c, s, t)
  }

  /** Nothing is queued, nothing becomes ready sooner, no token is taken, and the crawl goes on. */
  ghost predicate Calm(c: Config, s: State, s1: State) {
    && (s.notify ==> s1.notify)
    && s1.closed == s.closed && s1.cancelled == s.cancelled
    && (forall r | r in s1.queue :: r in s.queue && ReadyAt(c, s, r) <= ReadyAt(c, s1, r))
  }

  lemma CalmInTime(c: Config, s: State, s1: State, at: Time)
    requires Calm(c, s, s1) && InTime(c, s, at)
    ensures InTime(c, s1, at)
  {
    hide ReadyAt;
  }

  /** Whoever attends keeps attending through a calm step of another. */
  lemma CalmAttends(c: Config, s: State, s1: State, pc: Pc)
    requires Calm(c, s, s1) && Attends(c, s, pc)
    ensures Attends(c, s1, pc)
  {
    hide Calm, InTime;
    if pc.Parked? && pc.deadline.Some? && InTime(c, s, pc.deadline.value) {
      CalmInTime(c, s, s1, pc.deadline.value);
    }
  }

  /** A calm step of a thread that nobody counts on. */
  lemma AwaitedCalm(c: Config, s: State, s1: State, t: Tid)
    requires Awaited(c, s) && Calm(c, s, s1)
    requires forall x | x in s.pcs && x != t :: x in s1.pcs && s1.pcs[x] == s.pcs[x]
    requires t in s.pcs && !Attends(c, s, s.pcs[t])
    ensures Awaited(c, s1)
  {
    if !Over(s1) && !s1.notify {
      CalmQueue(c, s, s1);
      hide Calm, Over;
      var x :| AttendedBy(c, s, x);
      CalmAttends(c, s, s1, s.pcs[x]);
      assert AttendedBy(c, s1, x);
    }
  }

  lemma CalmQueue(c: Config, s: State, s1: State)
    requires Calm(c, s, s1)
    ensures s.queue == multiset{} ==> s1.queue == multiset{}
  {
    hide ReadyAt;
    if s.queue == multiset{} {
      assert forall r :: r !in s1.queue;
      NothingIn(s1.queue);
    }
  }

  lemma NothingIn(q: multiset<Req>)
    requires forall r :: r !in q
    ensures q == multiset{}
  {
  }

  /** The mover comes out of its step attending. */
  lemma AwaitedBy(c: Config, s1: State, t: Tid)
    requires t in s1.pcs && Attends(c, s1, s1.pcs[t])
    ensures Awaited(c, s1)
  {
    assert AttendedBy(c, s1, t);
  }

  lemma AwaitedPark(c: Config, s: State, t: Tid, d: Option<Time>)
    requires t in s.pcs && Soonest(c, s, d)
    ensures Awaited(c, Move(s, t, Parked(d)))
  {
    var s1 := Move(s, t, Parked(d));
    if d.Some? {
      assert forall r :: ReadyAt(c, s1, r) == ReadyAt(c, s, r);
      assert InTime(c, s1, d.value);
      AwaitedBy(c, s1, t);
    }
  }

  lemma AwaitedTake(c: Config, s: State, t: Tid, r: Req)
    requires t in s.pcs && r in s.queue
    ensures Awaited(c, Move(Pop(s, t, r), t, Claiming(r, |s.queue - multiset{r}|)))
  {
    hide InTime;
    var s1 := Move(Pop(s, t, r), t, Claiming(r, |s.queue - multiset{r}|));
    if |s.queue - multiset{r}| == 0 {
      assert s1.queue == multiset{};
    } else {
      AwaitedBy(c, s1, t);
    }
  }

  lemma AwaitedClaim(c: Config, s: State, t: Tid)
    requires Awaited(c, s) && t in s.pcs && CanPop(c, s, s.pcs[t], ClaimOk)
    ensures Awaited(c, Pops(c, s, t, ClaimOk))
  {
    var pc, s1 := s.pcs[t], Pops(c, s, t, ClaimOk);
    if pc.remaining > 0 {
      AwaitedBy(c, s1, t);
    } else {
      assert forall r :: ReadyAt(c, s, r) <= ReadyAt(c, s1, r);
      hide ReadyAt, Awaited;
      assert Calm(c, s, s1);
      AwaitedCalm(c, s, s1, t);
    }
  }

  lemma AwaitedDrain(c: Config, s: State, t: Tid, r: Req)
    requires Awaited(c, s) && t in s.pcs && s.pcs[t].Draining?
    ensures Awaited(c, Move(Pop(s, t, r), t, Taken(r)))
  {
    hide Awaited;
    var s1 := Move(Pop(s, t, r), t, Taken(r));
    assert forall x :: ReadyAt(c, s, x) == ReadyAt(c, s1, x);
    hide ReadyAt;
    AwaitedCalm(c, s, s1, t);
  }

  /** After a push, either the pusher owes a wakeup or the frontier was closed. */
  lemma AwaitedPush(c: Config, s: State, t: Tid, r: Req, pc: Pc)
    requires t in s.pcs && (s.closed || OwesWake(pc))
    ensures Awaited(c, Move(Push(s, r), t, pc))
  {
    hide InTime;
    if !s.closed {
      AwaitedBy(c, Move(Push(s, r), t, pc), t);
    }
  }

  /** A step that touches neither the queue, nor readiness, nor the token. */
  lemma AwaitedStay(c: Config, s: State, s1: State, t: Tid, pc: Pc)
    requires Awaited(c, s) && t in s.pcs && s1.pcs == s.pcs && s1.queue == s.queue && s1.readyAt == s.readyAt && s1.now == s.now
    requires s1.notify == s.notify && s1.closed == s.closed && s1.cancelled == s.cancelled
    requires !Attends(c, s, s.pcs[t])
    ensures Awaited(c, Move(s1, t, pc))
  {
    hide Awaited, Attends;
    assert forall x :: ReadyAt(c, s, x) == ReadyAt(c, Move(s1, t, pc), x);
    hide ReadyAt;
    AwaitedCalm(c, s, Move(s1, t, pc), t);
  }

  lemma AwaitedInPop(c: Config, s: State, t: Tid, p: PopStep)
    requires Awaited(c, s) && t in s.pcs && CanPop(c, s, s.pcs[t], p)
    ensures Awaited(c, Pops(c, s, t, p))
  {
    hide Awaited, InTime, Soonest, NoneReady, Ready, Push, Pop;
    match p
    case Take(r) => AwaitedTake(c, s, t, r);
    case Park(d) => AwaitedPark(c, s, t, d);
    case SeeClosed => AwaitedEnd(c, Pops(c, s, t, p));
    case Drain(r) => AwaitedDrain(c, s, t, r);
    case DrainNothing => AwaitedStay(c, s, s, t, Exited);
    case CtxExit => AwaitedEnd(c, Pops(c, s, t, p));
    case ClaimOk => AwaitedClaim(c, s, t);
    case PushBack => AwaitedPush(c, s, t, s.pcs[t].r, PopTo(s, s.pcs[t], p));
    case _ => AwaitedBy(c, Pops(c, s, t, p), t);
  }

  lemma AwaitedEnd(c: Config, s1: State)
    requires s1.closed || s1.cancelled
    ensures Awaited(c, s1)
  {
  }

  predicate Idles(pc: Pc) {
    !OwesWake(pc) && !pc.Scan? && !pc.Rejected? && !pc.Returning? && !pc.Claiming? && !pc.Parked?
  }

  lemma WorkIdles(c: Config, s: State, pc: Pc, w: WorkStep)
    requires CanWork(c, s, pc, w)
    ensures Idles(pc)
    ensures w.RequeuePush? || w.LinkPush? ==> s.closed || OwesWake(WorkTo(c, s, pc, w))
  {
    hide MayRetry, Accepts;
  }

  lemma SideIdles(c: Config, s: State, pc: Pc, o: SideStep)
    requires CanSide(c, s, pc, o)
    ensures Idles(pc)
    ensures o.SeedPush? || o.FirePush? ==> s.closed || OwesWake(SideTo(c, s, pc, o))
  {
    hide Accepts, Outstanding;
  }

  lemma IdlesAttendsNot(c: Config, s: State, pc: Pc)
    requires Idles(pc)
    ensures !Attends(c, s, pc)
  {
  }

  lemma AwaitedLater(c: Config, s: State, t: Tid, timer: Tid, due: Time)
    requires Awaited(c, s) && t in s.pcs && CanWork(c, s, s.pcs[t], RetryLater(timer, due))
    ensures Awaited(c, Works(c, s, t, RetryLater(timer, due)))
  {
    hide Awaited;
    var s1 := Works(c, s, t, RetryLater(timer, due));
    assert forall x :: ReadyAt(c, s, x) == ReadyAt(c, s1, x);
    hide ReadyAt;
    AwaitedCalm(c, s, s1, t);
  }

  lemma AwaitedInWork(c: Config, s: State, t: Tid, w: WorkStep)
    requires Awaited(c, s) && t in s.pcs && CanWork(c, s, s.pcs[t], w)
    ensures Awaited(c, Works(c, s, t, w))
  {
    hide Awaited, Attends, Idles, OwesWake, MayRetry, Accepts, WorkTo, Push, Move;
    var pc, to := s.pcs[t], WorkTo(c, s, s.pcs[t], w);
    WorkIdles(c, s, pc, w);
    IdlesAttendsNot(c, s, pc);
    match w
    case RetryLater(timer, due) => AwaitedLater(c, s, t, timer, due);
    case RequeuePush => AwaitedPush(c, s, t, pc.r, to);
    case LinkPush => AwaitedPush(c, s, t, pc.child, to);
    case Close => AwaitedEnd(c, Works(c, s, t, w)) by { MoveEnds(s.(closed := true), t, to); }
    case Cancel => AwaitedEnd(c, Works(c, s, t, w)) by { MoveEnds(s.(cancelled := true), t, to); }
    case _ => AwaitedStay(c, s, WorkEffect(c, s, t, pc, w), t, to);
  }

  lemma MoveEnds(s: State, t: Tid, pc: Pc)
    ensures Move(s, t, pc).closed == s.closed && Move(s, t, pc).cancelled == s.cancelled
  {
  }

  lemma AwaitedAside(c: Config, s: State, t: Tid, o: SideStep)
    requires Awaited(c, s) && t in s.pcs && CanSide(c, s, s.pcs[t], o)
    ensures Awaited(c, Sides(c, s, t, o))
  {
    hide Awaited, Attends, Idles, OwesWake, Accepts, SideTo, Push, Move;
    var pc, to := s.pcs[t], SideTo(c, s, s.pcs[t], o);
    SideIdles(c, s, pc, o);
    IdlesAttendsNot(c, s, pc);
    match o
    case SeedPush => AwaitedPush(c, s, t, pc.r, to);
    case FirePush => AwaitedPush(c, s, t, pc.r, to);
    case MonitorStops => AwaitedEnd(c, Sides(c, s, t, o)) by { MoveEnds(s.(closed := true), t, to); }
    case _ => AwaitedStay(c, s, SideEffect(c, s, t, pc, o), t, to);
  }

  lemma AwaitedTick(c: Config, s: State, d: nat)
    requires Awaited(c, s)
    ensures Awaited(c, Apply(c, s, Tick(d)))
  {
    var s1 := s.(now := s.now + d);
    if !Over(s1) && !s1.notify {
      assert Calm(c, s, s1);
      hide Calm;
      var x :| AttendedBy(c, s, x);
      CalmAttends(c, s, s1, s.pcs[x]);
      assert AttendedBy(c, s1, x);
    }
  }

  /** Every step leaves the queue attended. */
  lemma AwaitedStep(c: Config, s: State, a: Action)
    requires Awaited(c, s) && Enabled(c, s, a)
    ensures Awaited(c, Apply(c, s, a))
  {
    hide Pops, Works, Sides, CanPop, CanWork, CanSide, Awaited;
    match a
    case InPop(t, p) => AwaitedInPop(c, s, t, p);
    case InWork(t, w) => AwaitedInWork(c, s, t, w);
    case Aside(t, o) => AwaitedAside(c, s, t, o);
    case Wake(t) => AwaitedWoken(c, Apply(c, s, a));
    case Tick(d) => AwaitedTick(c, s, d);
    case _ => AwaitedEnd(c, Apply(c, s, a));
  }

  lemma AwaitedWoken(c: Config, s1: State)
    requires s1.notify
    ensures Awaited(c, s1)
  {
  }

  /** `t` has a step of its own to take towards a scan, and can take it now. */
  ghost predicate CanMove(c: Config, s: State, t: Tid) {
    Enabled(c, s, Wake(t)) || exists p :: Enabled(c, s, InPop(t, p))
  }

  lemma AttendsMoves(c: Config, s: State, t: Tid, r: Req)
    requires AttendedBy(c, s, t) && r in s.queue && Ready(c, s, r)
    ensures CanMove(c, s, t)
  {
    var pc := s.pcs[t];
    if pc.Scan? {
      assert Enabled(c, s, InPop(t, Take(r)));
    } else if pc.Parked? {
      assert Enabled(c, s, InPop(t, UnparkTimer));
    } else if pc.Claiming? {
      assert Enabled(c, s, InPop(t, if Ready(c, s, pc.r) then ClaimOk else ClaimFail));
    } else if pc.Rejected? {
      assert Enabled(c, s, InPop(t, Reject));
    } else if pc.Returning? {
      assert Enabled(c, s, InPop(t, PushBack));
    } else {
      assert Enabled(c, s, Wake(t));
    }
  }

  /** While a queued request is ready, a token is waiting or a thread that attends to the queue can
      take, right now, a step of its own towards a scan: nobody sleeps past it. */
  lemma ReadyIsAttended(c: Config, s: State, r: Req)
    requires Awaited(c, s) && !s.closed && !s.cancelled && r in s.queue && Ready(c, s, r)
    ensures s.notify || exists t :: AttendedBy(c, s, t) && CanMove(c, s, t)
  {
    hide AttendedBy, CanMove, Ready;
    if !s.notify {
      var t :| AttendedBy(c, s, t);
      AttendsMoves(c, s, t, r);
    }
  }
}
