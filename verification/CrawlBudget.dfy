/** The two bounds a crawl promises: no request is fetched more than once plus its retries, and
    the request limit is overrun by at most one send per worker (internal/engine/scheduler.go). */
module CrawlBudget {
  import opened Wrappers
  import opened Crawl
  import opened CrawlSafety

  // ---- Roles ----

  predicate WorkerPc(pc: Pc) {
    !(|| pc.SeedIdle? || pc.SeedClaimed? || pc.SeedWake? || pc.Waiting? || pc.Firing? || pc.FiredWake?
      || pc.FiredDone? || pc.Gone? || pc.MonIdle? || pc.MonRead? || pc.MonClosing? || pc.MonDone?)
  }

  ghost predicate Roles(c: Config, pcs: map<Tid, Pc>) {
    && c.workers <= pcs.Keys
    && (forall t | t in pcs :: t in c.workers <==> WorkerPc(pcs[t]))
  }

  /** A worker between its send and its next look at the limit, or gone for good. */
  predicate Over(pc: Pc) {
    !(|| pc.Top? || pc.Scan? || pc.Parked? || pc.Draining? || pc.Claiming? || pc.Rejected?
      || pc.Returning? || pc.Rewaking? || pc.Baton? || pc.Taken?)
  }

  function Overrunning(c: Config, pcs: map<Tid, Pc>): set<Tid> {
    set t | t in c.workers && t in pcs && Over(pcs[t])
  }

  ghost predicate RequestBudget(c: Config, s: State) {
    && Roles(c, s.pcs)
    && (c.maxRequests > 0 ==> s.sent <= c.maxRequests - 1 + |Overrunning(c, s.pcs)|)
  }

  lemma RolesMove(c: Config, pcs: map<Tid, Pc>, t: Tid, pc: Pc)
    requires Roles(c, pcs) && t in pcs && WorkerPc(pc) == WorkerPc(pcs[t])
    ensures Roles(c, pcs[t := pc])
  {
  }

  lemma OverrunMove(c: Config, pcs: map<Tid, Pc>, t: Tid, pc: Pc)
    requires Roles(c, pcs) && t in pcs && (Over(pcs[t]) ==> Over(pc))
    ensures |Overrunning(c, pcs[t := pc])| >= |Overrunning(c, pcs)|
    ensures t in c.workers && !Over(pcs[t]) && Over(pc) ==> |Overrunning(c, pcs[t := pc])| == |Overrunning(c, pcs)| + 1
  {
    hide Over;
    var before, after := Overrunning(c, pcs), Overrunning(c, pcs[t := pc]);
    if t in c.workers && !Over(pcs[t]) && Over(pc) {
      assert after == before + {t};
    } else {
      assert after == before;
    }
  }

  /** A step on which a thread stays in its role and does not slip under the limit unchecked. */
  predicate StaysOver(from: Pc, to: Pc) {
    WorkerPc(from) == WorkerPc(to) && (Over(from) ==> Over(to))
  }

  lemma RequestsMove(c: Config, s: State, t: Tid, s1: State, pc: Pc)
    requires RequestBudget(c, s) && t in s.pcs && s1.pcs == s.pcs && s1.sent == s.sent
    requires StaysOver(s.pcs[t], pc)
    ensures RequestBudget(c, Move(s1, t, pc))
  {
    hide Roles, Overrunning, Over, WorkerPc;
    RolesMove(c, s.pcs, t, pc);
    OverrunMove(c, s.pcs, t, pc);
  }

  lemma RequestsSend(c: Config, s: State, t: Tid)
    requires RequestBudget(c, s) && t in s.pcs && s.pcs[t].Taken?
    ensures RequestBudget(c, Works(c, s, t, Send))
  {
    hide Overrunning;
    RolesMove(c, s.pcs, t, Sent(s.pcs[t].r));
    OverrunMove(c, s.pcs, t, Sent(s.pcs[t].r));
    hide Roles;
  }

  lemma RequestsCheck(c: Config, s: State, t: Tid)
    requires RequestBudget(c, s) && t in s.pcs && s.pcs[t].Checking?
    ensures RequestBudget(c, Works(c, s, t, Check))
  {
    hide Roles, Overrunning;
    if c.maxRequests > 0 && s.sent >= c.maxRequests {
      RolesMove(c, s.pcs, t, StopClose);
      OverrunMove(c, s.pcs, t, StopClose);
    } else {
      RolesMove(c, s.pcs, t, Top);
    }
  }

  lemma RequestsLater(c: Config, s: State, t: Tid, timer: Tid, due: Time)
    requires RequestBudget(c, s) && t in s.pcs && CanWork(c, s, s.pcs[t], RetryLater(timer, due))
    ensures RequestBudget(c, Works(c, s, t, RetryLater(timer, due)))
  {
    hide Overrunning;
    var r := s.pcs[t].r;
    var mid := s.pcs[t := Releasing(r, false)];
    RolesMove(c, s.pcs, t, Releasing(r, false));
    OverrunMove(c, s.pcs, t, Releasing(r, false));
    assert Overrunning(c, mid[timer := Waiting(r, due)]) == Overrunning(c, mid) by { OverrunSpawn(c, mid, timer, Waiting(r, due)); }
  }

  lemma OverrunSpawn(c: Config, pcs: map<Tid, Pc>, n: Tid, pc: Pc)
    requires n !in c.workers
    ensures Overrunning(c, pcs[n := pc]) == Overrunning(c, pcs)
  {
  }

  lemma PopStaysOver(c: Config, s: State, pc: Pc, p: PopStep)
    requires CanPop(c, s, pc, p)
    ensures StaysOver(pc, PopTo(s, pc, p))
  {
    hide Soonest, NoneReady, Ready;
  }

  lemma WorkStaysOver(c: Config, s: State, pc: Pc, w: WorkStep)
    requires CanWork(c, s, pc, w) && !w.Check?
    ensures StaysOver(pc, WorkTo(c, s, pc, w))
  {
    hide MayRetry, Accepts;
  }

  lemma SideStaysOver(c: Config, s: State, pc: Pc, o: SideStep)
    requires CanSide(c, s, pc, o)
    ensures StaysOver(pc, SideTo(c, s, pc, o))
  {
    hide Accepts, Outstanding;
  }

  /** Steps that leave the counters alone. */
  ghost predicate Uncounted(s: State, s1: State) {
    s1.pcs == s.pcs && s1.sent == s.sent && s1.retries == s.retries && s1.fetches == s.fetches
  }

  lemma TakeUncounted(s: State, t: Tid, r: Req)
    ensures Uncounted(s, Pop(s, t, r))
  {
  }

  lemma PushUncounted(s: State, r: Req)
    ensures Uncounted(s, Push(s, r)) && Moved(s, Push(s, r), r)
  {
  }

  lemma AcceptUncounted(c: Config, s: State, t: Tid, r: Req)
    ensures Uncounted(s, Accept(c, s, t, r))
  {
  }

  lemma DoneUncounted(s: State, r: Req, live: bool)
    ensures Uncounted(s, Done(s, r, live))
  {
  }

  lemma PopUncounted(c: Config, s: State, t: Tid, pc: Pc, p: PopStep)
    requires CanPop(c, s, pc, p)
    ensures Uncounted(s, PopEffect(c, s, t, pc, p))
  {
    hide Soonest, NoneReady, Ready, Pop, Push;
    match p
    case Take(r) => TakeUncounted(s, t, r);
    case Drain(r) => TakeUncounted(s, t, r);
    case PushBack => PushUncounted(s, pc.r);
    case _ =>
  }

  lemma WorkUncounted(c: Config, s: State, t: Tid, pc: Pc, w: WorkStep)
    requires CanWork(c, s, pc, w) && !w.Send? && !w.RetryNow? && !w.RetryLater?
    ensures Uncounted(s, WorkEffect(c, s, t, pc, w))
  {
    hide MayRetry, Accepts, Push, Accept, Done;
    match w
    case RequeuePush => PushUncounted(s, pc.r);
    case AddLink(child) => AcceptUncounted(c, s, t, child);
    case LinkPush => PushUncounted(s, pc.child);
    case Release => DoneUncounted(s, pc.r, pc.live);
    case _ =>
  }

  lemma SideUncounted(c: Config, s: State, t: Tid, pc: Pc, o: SideStep)
    requires CanSide(c, s, pc, o)
    ensures Uncounted(s, SideEffect(c, s, t, pc, o))
  {
    hide Accepts, Push, Accept;
    match o
    case AddSeed(r) => AcceptUncounted(c, s, t, r);
    case SeedPush => PushUncounted(s, pc.r);
    case FirePush => PushUncounted(s, pc.r);
    case _ =>
  }

  lemma RequestsInPop(c: Config, s: State, t: Tid, p: PopStep)
    requires RequestBudget(c, s) && t in s.pcs && CanPop(c, s, s.pcs[t], p)
    ensures RequestBudget(c, Pops(c, s, t, p))
  {
    PopStaysOver(c, s, s.pcs[t], p);
    PopUncounted(c, s, t, s.pcs[t], p);
    hide RequestBudget, StaysOver, CanPop, PopTo, PopEffect, Move;
    RequestsMove(c, s, t, PopEffect(c, s, t, s.pcs[t], p), PopTo(s, s.pcs[t], p));
  }

  lemma RequestsInWork(c: Config, s: State, t: Tid, w: WorkStep)
    requires RequestBudget(c, s) && t in s.pcs && CanWork(c, s, s.pcs[t], w)
    ensures RequestBudget(c, Works(c, s, t, w))
  {
    hide RequestBudget, StaysOver, MayRetry, Accepts, WorkTo, WorkEffect, Move;
    match w
    case Send => RequestsSend(c, s, t);
    case Check => RequestsCheck(c, s, t);
    case RetryLater(timer, due) => RequestsLater(c, s, t, timer, due);
    case RetryNow => RequestsRetry(c, s, t);
    case _ =>
      WorkStaysOver(c, s, s.pcs[t], w);
      WorkUncounted(c, s, t, s.pcs[t], w);
      RequestsMove(c, s, t, WorkEffect(c, s, t, s.pcs[t], w), WorkTo(c, s, s.pcs[t], w));
  }

  lemma RequestsRetry(c: Config, s: State, t: Tid)
    requires RequestBudget(c, s) && t in s.pcs && CanWork(c, s, s.pcs[t], RetryNow)
    ensures RequestBudget(c, Works(c, s, t, RetryNow))
  {
    hide RequestBudget;
    RequestsMove(c, s, t, WorkEffect(c, s, t, s.pcs[t], RetryNow), Requeue(s.pcs[t].r));
  }

  lemma RequestsAside(c: Config, s: State, t: Tid, o: SideStep)
    requires RequestBudget(c, s) && t in s.pcs && CanSide(c, s, s.pcs[t], o)
    ensures RequestBudget(c, Sides(c, s, t, o))
  {
    SideStaysOver(c, s, s.pcs[t], o);
    SideUncounted(c, s, t, s.pcs[t], o);
    hide RequestBudget, StaysOver, CanSide, SideTo, SideEffect, Move;
    RequestsMove(c, s, t, SideEffect(c, s, t, s.pcs[t], o), SideTo(c, s, s.pcs[t], o));
  }

  lemma RequestsStep(c: Config, s: State, a: Action)
    requires RequestBudget(c, s) && Enabled(c, s, a)
    ensures RequestBudget(c, Apply(c, s, a))
  {
    hide Pops, Works, Sides, CanPop, CanWork, CanSide, Roles, Overrunning;
    match a
    case InPop(t, p) => RequestsInPop(c, s, t, p);
    case InWork(t, w) => RequestsInWork(c, s, t, w);
    case Aside(t, o) => RequestsAside(c, s, t, o);
    case Wake(t) => RequestsMove(c, s, t, s.(notify := true), AfterWake(s.pcs[t]));
    case _ =>
  }

  /** What the tally comes to: at most one request over the limit for each worker but the first. */
  lemma RequestLimit(c: Config, s: State)
    requires RequestBudget(c, s) && c.maxRequests > 0
    ensures s.sent <= c.maxRequests + |c.workers| - 1
  {
    assert Overrunning(c, s.pcs) <= c.workers;
    SubsetIsSmaller(Overrunning(c, s.pcs), c.workers);
  }

  // ---- Fetches of one request ----

  /** A thread that has fetched r since r was last put in hand. */
  predicate Past(pc: Pc, r: Req) {
    (pc.Sent? || pc.Parsing? || pc.LinkClaimed? || pc.LinkWake? || (pc.Releasing? && pc.live)) && pc.r == r
  }

  /** The attempt r is entitled to has been made. */
  ghost predicate Spent(s: State, r: Req) {
    && r in s.place
    && (s.place[r].Finished? || (s.place[r].Held? && s.place[r].t in s.pcs && Past(s.pcs[s.place[r].t], r)))
  }

  ghost predicate FetchBudget(c: Config, s: State) {
    forall r :: RetryCount(s, r) <= c.maxRetriesOf(r) && Fetches(s, r) <= RetryCount(s, r) + if Spent(s, r) then 1 else 0
  }

  /** Nothing is fetched or retried, and no attempt is handed back. */
  lemma FetchesKept(c: Config, s: State, s1: State)
    requires FetchBudget(c, s) && s1.retries == s.retries && s1.fetches == s.fetches
    requires forall r | Spent(s, r) :: Spent(s1, r)
    ensures FetchBudget(c, s1)
  {
    hide Spent;
    forall r
      ensures RetryCount(s1, r) <= c.maxRetriesOf(r) && Fetches(s1, r) <= RetryCount(s1, r) + if Spent(s1, r) then 1 else 0
    {
      assert RetryCount(s1, r) == RetryCount(s, r) && Fetches(s1, r) == Fetches(s, r);
    }
  }

  /** `t` goes on; no request past its fetch changes place. */
  lemma SpentMove(s: State, t: Tid, s1: State, pc: Pc)
    requires t in s.pcs && s1.pcs == s.pcs && KeepsPast(s.pcs[t], pc)
    requires forall x | Spent(s, x) :: x in s1.place && s1.place[x] == s.place[x]
    ensures forall x | Spent(s, x) :: Spent(Move(s1, t, pc), x)
  {
    hide Past;
  }

  /** `t` finishes a request. */
  lemma SpentFinish(s: State, t: Tid, s1: State, r: Req)
    requires t in s.pcs && s1.pcs == s.pcs && s.pcs[t].Releasing? && s.pcs[t].r == r
    requires if s.pcs[t].live then s1.place == s.place[r := Finished] else s1.place == s.place
    ensures forall x | Spent(s, x) :: Spent(Move(s1, t, Checking), x)
  {
  }

  /** A thread that carries a request it is not past has not fetched it since. */
  lemma Unspent(s: State, t: Tid, r: Req)
    requires Placed(s.queue, s.place, s.pcs) && CarriedBy(s.pcs, r, t) && !Past(s.pcs[t], r)
    ensures !Spent(s, r)
  {
    CarriedIsPlaced(s, r, t);
  }

  /** A thread keeps its attempts as made on its way from `from` to `to`. */
  ghost predicate KeepsPast(from: Pc, to: Pc) {
    forall x | Past(from, x) :: Past(to, x)
  }

  lemma PopPast(c: Config, s: State, pc: Pc, p: PopStep)
    requires CanPop(c, s, pc, p)
    ensures KeepsPast(pc, PopTo(s, pc, p))
  {
    hide Soonest, NoneReady, Ready;
  }

  lemma WorkPast(c: Config, s: State, pc: Pc, w: WorkStep)
    requires CanWork(c, s, pc, w) && !w.RetryNow? && !w.RetryLater? && !w.Release?
    ensures KeepsPast(pc, WorkTo(c, s, pc, w))
  {
    hide MayRetry, Accepts;
  }

  lemma SidePast(c: Config, s: State, pc: Pc, o: SideStep)
    requires CanSide(c, s, pc, o)
    ensures KeepsPast(pc, SideTo(c, s, pc, o))
  {
    hide Accepts, Outstanding;
  }

  lemma FetchesMove(c: Config, s: State, t: Tid, s1: State, pc: Pc)
    requires FetchBudget(c, s) && t in s.pcs && Uncounted(s, s1) && KeepsPast(s.pcs[t], pc)
    requires forall x | Spent(s, x) :: x in s1.place && s1.place[x] == s.place[x]
    ensures FetchBudget(c, Move(s1, t, pc))
  {
    SpentMove(s, t, s1, pc);
    hide FetchBudget, Spent, KeepsPast;
    FetchesKept(c, s, Move(s1, t, pc));
  }

  /** Which request a step takes from, or puts in, its place. */
  ghost predicate Moved(s: State, s1: State, r: Req) {
    forall x | x != r && x in s.place :: x in s1.place && s1.place[x] == s.place[x]
  }

  lemma FetchesMoveOne(c: Config, s: State, t: Tid, s1: State, pc: Pc, r: Req)
    requires FetchBudget(c, s) && t in s.pcs && Uncounted(s, s1) && KeepsPast(s.pcs[t], pc)
    requires Moved(s, s1, r) && !Spent(s, r)
    ensures FetchBudget(c, Move(s1, t, pc))
  {
    hide FetchBudget, Spent, KeepsPast, Uncounted, Moved, Move;
    SpentElsewhere(s, s1, r);
    FetchesMove(c, s, t, s1, pc);
  }

  lemma SpentElsewhere(s: State, s1: State, r: Req)
    requires Moved(s, s1, r) && !Spent(s, r)
    ensures forall x | Spent(s, x) :: x in s1.place && s1.place[x] == s.place[x]
  {
  }

  lemma QueuedUnspent(s: State, r: Req)
    requires Placed(s.queue, s.place, s.pcs) && r in s.queue
    ensures !Spent(s, r)
  {
  }

  /** What a thread gives up without forgetting an attempt, it has not fetched. */
  lemma GivenUnspent(s: State, t: Tid, pc: Pc, r: Req)
    requires Placed(s.queue, s.place, s.pcs) && t in s.pcs && GivesUp(s.pcs[t], pc, r) && KeepsPast(s.pcs[t], pc)
    ensures !Spent(s, r)
  {
    hide Placed;
    assert Past(pc, r) ==> r in Carries(pc);
    Unspent(s, t, r);
  }

  lemma FetchesPush(c: Config, s: State, t: Tid, r: Req, pc: Pc)
    requires Conserved(c, s) && FetchBudget(c, s) && t in s.pcs && GivesUp(s.pcs[t], pc, r) && KeepsPast(s.pcs[t], pc)
    ensures FetchBudget(c, Move(Push(s, r), t, pc))
  {
    hide FetchBudget, GivesUp, KeepsPast, Spent, Placed, Uncounted, Moved, Push, Move;
    GivenUnspent(s, t, pc, r);
    PushUncounted(s, r);
    FetchesMoveOne(c, s, t, Push(s, r), pc, r);
  }

  lemma FetchesPop(c: Config, s: State, t: Tid, r: Req, pc: Pc)
    requires Conserved(c, s) && FetchBudget(c, s) && t in s.pcs && r in s.queue && KeepsPast(s.pcs[t], pc)
    ensures FetchBudget(c, Move(Pop(s, t, r), t, pc))
  {
    QueuedUnspent(s, r);
    hide KeepsPast, Spent, FetchBudget, Conserved;
    FetchesMoveOne(c, s, t, Pop(s, t, r), pc, r);
  }

  lemma FetchesAccept(c: Config, s: State, t: Tid, r: Req, pc: Pc)
    requires Conserved(c, s) && FetchBudget(c, s) && t in s.pcs && Accepts(c, s, r) && KeepsPast(s.pcs[t], pc)
    ensures FetchBudget(c, Move(Accept(c, s, t, r), t, pc))
  {
    Unaccepted(c, s, r);
    hide KeepsPast, Spent, FetchBudget, Conserved;
    FetchesMoveOne(c, s, t, Accept(c, s, t, r), pc, r);
  }

  lemma FetchesInPop(c: Config, s: State, t: Tid, p: PopStep)
    requires Conserved(c, s) && FetchBudget(c, s) && t in s.pcs && CanPop(c, s, s.pcs[t], p)
    ensures FetchBudget(c, Pops(c, s, t, p))
  {
    var pc := s.pcs[t];
    hide Conserved, FetchBudget, KeepsPast, GivesUp, SameLoad, Uncounted, PopTo, Soonest, NoneReady, Ready, Move, Pop, Push;
    PopPast(c, s, pc, p);
    var to := PopTo(s, pc, p);
    match p
    case Take(r) => FetchesPop(c, s, t, r, to);
    case Drain(r) => FetchesPop(c, s, t, r, to);
    case PushBack => PopLoad(c, s, pc, p); FetchesPush(c, s, t, pc.r, to);
    case _ => PopUncounted(c, s, t, pc, p); FetchesStay(c, s, t, PopEffect(c, s, t, pc, p), to);
  }

  lemma FetchesStay(c: Config, s: State, t: Tid, s1: State, pc: Pc)
    requires FetchBudget(c, s) && t in s.pcs && Uncounted(s, s1) && KeepsPast(s.pcs[t], pc) && s1.place == s.place
    ensures FetchBudget(c, Move(s1, t, pc))
  {
    hide FetchBudget, KeepsPast, Uncounted;
    FetchesMove(c, s, t, s1, pc);
  }

  lemma FetchesAside(c: Config, s: State, t: Tid, o: SideStep)
    requires Conserved(c, s) && FetchBudget(c, s) && t in s.pcs && CanSide(c, s, s.pcs[t], o)
    ensures FetchBudget(c, Sides(c, s, t, o))
  {
    var pc := s.pcs[t];
    hide Conserved, FetchBudget, KeepsPast, GivesUp, SameLoad, Uncounted, SideTo, Move, Push, Accept, Outstanding;
    SidePast(c, s, pc, o);
    var to := SideTo(c, s, pc, o);
    match o
    case AddSeed(r) => FetchesAccept(c, s, t, r, to);
    case SeedPush => SideLoad(c, s, pc, o); FetchesPush(c, s, t, pc.r, to);
    case FirePush => SideLoad(c, s, pc, o); FetchesPush(c, s, t, pc.r, to);
    case Abandon => FetchesAbandon(c, s, t, to);
    case _ => SideUncounted(c, s, t, pc, o); FetchesStay(c, s, t, SideEffect(c, s, t, pc, o), to);
  }

  lemma FetchesAbandon(c: Config, s: State, t: Tid, to: Pc)
    requires Conserved(c, s) && FetchBudget(c, s) && t in s.pcs && s.pcs[t].Waiting? && KeepsPast(s.pcs[t], to)
    ensures FetchBudget(c, Move(s.(place := s.place[s.pcs[t].r := Dropped]), t, to))
  {
    hide FetchBudget, KeepsPast;
    Unspent(s, t, s.pcs[t].r);
    hide Conserved, Spent;
    FetchesMoveOne(c, s, t, s.(place := s.place[s.pcs[t].r := Dropped]), to, s.pcs[t].r);
  }

  lemma Unaccepted(c: Config, s: State, r: Req)
    requires Deduped(c, s.seen, s.place) && Accepts(c, s, r)
    ensures !Spent(s, r)
  {
  }

  lemma FetchesSend(c: Config, s: State, t: Tid)
    requires Conserved(c, s) && FetchBudget(c, s) && t in s.pcs && s.pcs[t].Taken?
    ensures FetchBudget(c, Works(c, s, t, Send))
  {
    var r, s1 := s.pcs[t].r, Works(c, s, t, Send);
    hide Placed;
    Unspent(s, t, r);
    CarriedIsPlaced(s, r, t);
    forall x
      ensures RetryCount(s1, x) <= c.maxRetriesOf(x) && Fetches(s1, x) <= RetryCount(s1, x) + if Spent(s1, x) then 1 else 0
    {
      assert RetryCount(s, x) <= c.maxRetriesOf(x) && Fetches(s, x) <= RetryCount(s, x) + if Spent(s, x) then 1 else 0;
    }
  }

  /** A retry: the attempt just made is charged to the retry count. */
  lemma FetchesRetry(c: Config, s: State, t: Tid, s1: State, r: Req)
    requires FetchBudget(c, s) && MayRetry(c, s, r)
    requires s1.fetches == s.fetches && s1.retries == s.retries[r := RetryCount(s, r) + 1]
    requires forall x | x != r && Spent(s, x) :: Spent(s1, x)
    ensures FetchBudget(c, s1)
  {
    hide Spent;
    forall x
      ensures RetryCount(s1, x) <= c.maxRetriesOf(x) && Fetches(s1, x) <= RetryCount(s1, x) + if Spent(s1, x) then 1 else 0
    {
      assert RetryCount(s, x) <= c.maxRetriesOf(x) && Fetches(s, x) <= RetryCount(s, x) + if Spent(s, x) then 1 else 0;
    }
  }

  lemma FetchesRetryNow(c: Config, s: State, t: Tid)
    requires FetchBudget(c, s) && t in s.pcs && CanWork(c, s, s.pcs[t], RetryNow)
    ensures FetchBudget(c, Works(c, s, t, RetryNow))
  {
    var r, s1 := s.pcs[t].r, Works(c, s, t, RetryNow);
    assert forall x | x != r && Spent(s, x) :: Spent(s1, x);
    hide FetchBudget, Spent;
    FetchesRetry(c, s, t, s1, r);
  }

  lemma FetchesRetryLater(c: Config, s: State, t: Tid, timer: Tid, due: Time)
    requires FetchBudget(c, s) && t in s.pcs && CanWork(c, s, s.pcs[t], RetryLater(timer, due))
    ensures FetchBudget(c, Works(c, s, t, RetryLater(timer, due)))
  {
    var r, s1 := s.pcs[t].r, Works(c, s, t, RetryLater(timer, due));
    assert forall x | x != r && Spent(s, x) :: Spent(s1, x);
    hide FetchBudget, Spent;
    FetchesRetry(c, s, t, s1, r);
  }

  lemma FetchesRelease(c: Config, s: State, t: Tid)
    requires FetchBudget(c, s) && t in s.pcs && s.pcs[t].Releasing?
    ensures FetchBudget(c, Works(c, s, t, Release))
  {
    hide FetchBudget;
    SpentFinish(s, t, Done(s, s.pcs[t].r, s.pcs[t].live), s.pcs[t].r);
    FetchesKept(c, s, Works(c, s, t, Release));
  }

  lemma FetchesInWork(c: Config, s: State, t: Tid, w: WorkStep)
    requires Conserved(c, s) && FetchBudget(c, s) && t in s.pcs && CanWork(c, s, s.pcs[t], w)
    ensures FetchBudget(c, Works(c, s, t, w))
  {
    var pc, to := s.pcs[t], WorkTo(c, s, s.pcs[t], w);
    hide Conserved, FetchBudget, KeepsPast, GivesUp, SameLoad, Uncounted, WorkTo, Move, Push, Accept, Accepts, Done, MayRetry;
    match w
    case Send => FetchesSend(c, s, t);
    case RetryNow => FetchesRetryNow(c, s, t);
    case RetryLater(timer, due) => FetchesRetryLater(c, s, t, timer, due);
    case Release => FetchesRelease(c, s, t);
    case AddLink(child) => WorkPast(c, s, pc, w); FetchesAccept(c, s, t, child, to);
    case LinkPush => WorkPast(c, s, pc, w); LinkGivesUp(c, s, t); FetchesPush(c, s, t, pc.child, to);
    case RequeuePush => WorkPast(c, s, pc, w); WorkLoad(c, s, pc, w); FetchesPush(c, s, t, pc.r, to);
    case _ => WorkPast(c, s, pc, w); WorkUncounted(c, s, t, pc, w); FetchesStay(c, s, t, WorkEffect(c, s, t, pc, w), to);
  }

  lemma LinkGivesUp(c: Config, s: State, t: Tid)
    requires Conserved(c, s) && t in s.pcs && s.pcs[t].LinkClaimed?
    ensures GivesUp(s.pcs[t], WorkTo(c, s, s.pcs[t], LinkPush), s.pcs[t].child)
  {
    hide Placed;
    var r, child := s.pcs[t].r, s.pcs[t].child;
    assert r != child && {r, child} - {child} == {r};
  }

  lemma FetchesWake(c: Config, s: State, t: Tid)
    requires FetchBudget(c, s) && t in s.pcs && OwesWake(s.pcs[t])
    ensures FetchBudget(c, Apply(c, s, Wake(t)))
  {
    hide FetchBudget;
    FetchesStay(c, s, t, s.(notify := true), AfterWake(s.pcs[t]));
  }

  lemma FetchesStep(c: Config, s: State, a: Action)
    requires Conserved(c, s) && FetchBudget(c, s) && Enabled(c, s, a)
    ensures FetchBudget(c, Apply(c, s, a))
  {
    hide Pops, Works, Sides, CanPop, CanWork, CanSide, Conserved, FetchBudget;
    match a
    case InPop(t, p) => FetchesInPop(c, s, t, p);
    case InWork(t, w) => FetchesInWork(c, s, t, w);
    case Aside(t, o) => FetchesAside(c, s, t, o);
    case Wake(t) => FetchesWake(c, s, t);
    case _ => FetchesKept(c, s, Apply(c, s, a));
  }
}
