/** What holds in every state that any interleaving of a crawl can reach
    (internal/engine/frontier.go, scheduler.go, engine.go). */
module CrawlRuns {
  import opened Wrappers
  import opened Crawl
  import opened CrawlSafety
  import opened CrawlCompletion
  import Budget = CrawlBudget
  import Wakeup = CrawlWakeup

  ghost predicate Reachable(c: Config, s: State) {
    exists s0, run :: Init(c, s0) && Runs(c, s0, run, s)
  }

  ghost predicate Sound(c: Config, s: State) {
    Accounted(c, s) && Budget.RequestBudget(c, s) && Budget.FetchBudget(c, s) && Wakeup.Awaited(c, s)
  }

  lemma SoundStep(c: Config, s: State, a: Action)
    requires Sound(c, s) && Enabled(c, s, a)
    ensures Sound(c, Apply(c, s, a))
  {
    hide Apply, Enabled, Registered, Conserved, Budget.RequestBudget, Budget.FetchBudget, Wakeup.Awaited;
    AccountedStep(c, s, a);
    Budget.RequestsStep(c, s, a);
    Budget.FetchesStep(c, s, a);
    Wakeup.AwaitedStep(c, s, a);
  }

  lemma {:induction false} SoundRuns(c: Config, s: State, run: seq<Action>, s1: State)
    requires Sound(c, s) && Runs(c, s, run, s1)
    ensures Sound(c, s1)
    decreases |run|
  {
    hide Sound, Apply, Enabled;
    if run != [] {
      SoundStep(c, s, run[0]);
      SoundRuns(c, Apply(c, s, run[0]), run[1..], s1);
    }
  }

  lemma InitSound(c: Config, s: State)
    requires Init(c, s)
    ensures Sound(c, s) && Unerased(s.erased, s.pcs)
  {
    hide Budget.RequestBudget, Budget.FetchBudget, Wakeup.Awaited;
    assert Timers(s.pcs) == {};
    forall t | t in s.pcs
      ensures Carries(s.pcs[t]) == {} && InHand(s.pcs[t]) == None
    {
    }
    InitBudgets(c, s);
  }

  lemma InitBudgets(c: Config, s: State)
    requires Init(c, s)
    ensures Budget.RequestBudget(c, s) && Budget.FetchBudget(c, s) && Wakeup.Awaited(c, s)
  {
    assert Budget.Overrunning(c, s.pcs) == {};
  }

  lemma ReachableSound(c: Config, s: State)
    requires Reachable(c, s)
    ensures Sound(c, s)
  {
    hide Sound, Init, Runs;
    var s0, run :| Init(c, s0) && Runs(c, s0, run, s);
    InitSound(c, s0);
    SoundRuns(c, s0, run, s);
  }

  // ---- Conservation ----

  /** Every accepted request is in exactly one place: queued once, carried by exactly one thread,
      or done with. */
  lemma OnePlaceEach(c: Config, s: State, r: Req)
    requires Reachable(c, s) && r in s.place
    ensures match s.place[r]
            case Queued => s.queue[r] == 1 && forall t :: !CarriedBy(s.pcs, r, t)
            case Held(t) => s.queue[r] == 0 && forall x :: CarriedBy(s.pcs, r, x) <==> x == t
            case _ => s.queue[r] == 0 && forall t :: !CarriedBy(s.pcs, r, t)
  {
    ReachableSound(c, s);
    hide Reachable, Deduped, LinksApart, Registered, Carries, Budget.RequestBudget, Budget.FetchBudget, Wakeup.Awaited;
    assert forall t :: HeldBy(s.place, r, t) <==> CarriedBy(s.pcs, r, t);
  }

  /** A request that was accepted is never forgotten. */
  lemma {:induction false} AcceptedStays(c: Config, s: State, run: seq<Action>, s1: State)
    requires Runs(c, s, run, s1)
    ensures s.place.Keys <= s1.place.Keys
    decreases |run|
  {
    hide Apply, Enabled;
    if run != [] {
      KeysStay(c, s, run[0]);
      AcceptedStays(c, Apply(c, s, run[0]), run[1..], s1);
    }
  }

  lemma KeysStay(c: Config, s: State, a: Action)
    requires Enabled(c, s, a)
    ensures s.place.Keys <= Apply(c, s, a).place.Keys
  {
    hide CanPop, CanWork, CanSide, PopEffect, WorkEffect, SideEffect, PopTo, WorkTo, SideTo;
    match a
    case InPop(t, p) => PopKeys(c, s, t, s.pcs[t], p);
    case InWork(t, w) => WorkKeys(c, s, t, s.pcs[t], w);
    case Aside(t, o) => SideKeys(c, s, t, s.pcs[t], o);
    case _ =>
  }

  lemma PopKeys(c: Config, s: State, t: Tid, pc: Pc, p: PopStep)
    requires CanPop(c, s, pc, p)
    ensures s.place.Keys <= PopEffect(c, s, t, pc, p).place.Keys
  {
    hide Soonest, NoneReady, Ready;
  }

  lemma WorkKeys(c: Config, s: State, t: Tid, pc: Pc, w: WorkStep)
    requires CanWork(c, s, pc, w)
    ensures s.place.Keys <= WorkEffect(c, s, t, pc, w).place.Keys
  {
    hide MayRetry, Accepts;
  }

  lemma SideKeys(c: Config, s: State, t: Tid, pc: Pc, o: SideStep)
    requires CanSide(c, s, pc, o)
    ensures s.place.Keys <= SideEffect(c, s, t, pc, o).place.Keys
  {
    hide Accepts;
  }

  /** No canonical URL is accepted twice, and nothing is accepted too deep. */
  lemma NoUrlTwice(c: Config, s: State, r: Req, x: Req)
    requires Reachable(c, s) && r in s.place && x in s.place
    ensures c.depthOf(r) <= c.maxDepth
    ensures c.urlOf(r) == c.urlOf(x) ==> r == x
  {
    ReachableSound(c, s);
    hide Reachable, Placed, LinksApart, Registered, Budget.RequestBudget, Budget.FetchBudget, Wakeup.Awaited;
  }

  // ---- Budgets ----

  /** Each request is fetched at most once more than it may be retried. */
  lemma FetchedAtMost(c: Config, s: State, r: Req)
    requires Reachable(c, s)
    ensures Fetches(s, r) <= c.maxRetriesOf(r) + 1
  {
    ReachableSound(c, s);
    hide Reachable, Accounted, Budget.RequestBudget, Budget.Spent, Wakeup.Awaited;
    assert RetryCount(s, r) <= c.maxRetriesOf(r) && Fetches(s, r) <= RetryCount(s, r) + if Budget.Spent(s, r) then 1 else 0;
  }

  /** Under a limit of M requests, C workers send at most M + C - 1. */
  lemma SentAtMost(c: Config, s: State)
    requires Reachable(c, s) && c.maxRequests > 0
    ensures s.sent <= c.maxRequests + |c.workers| - 1
  {
    ReachableSound(c, s);
    hide Reachable, Accounted, Budget.RequestBudget, Budget.FetchBudget, Wakeup.Awaited;
    Budget.RequestLimit(c, s);
  }

  // ---- Wakeups ----

  /** While the crawl runs and a request is queued, a wakeup is waiting to be received, or some
      thread is about to scan, owes a wakeup, is bringing a request back, or sleeps on a timer
      that goes off before any queued request becomes ready. */
  lemma NoLostWakeup(c: Config, s: State)
    requires Reachable(c, s) && !s.closed && !s.cancelled && s.queue != multiset{}
    ensures s.notify || exists t :: Wakeup.AttendedBy(c, s, t)
  {
    ReachableSound(c, s);
    hide Reachable, Accounted, Budget.RequestBudget, Budget.FetchBudget, Wakeup.AttendedBy;
  }

  /** A request that is ready is not slept past: a token waits, or a thread attends to the queue and
      can move now. */
  lemma ReadyIsAttended(c: Config, s: State, r: Req)
    requires Reachable(c, s) && !s.closed && !s.cancelled && r in s.queue && Ready(c, s, r)
    ensures s.notify || exists t :: Wakeup.AttendedBy(c, s, t) && Wakeup.CanMove(c, s, t)
  {
    ReachableSound(c, s);
    hide Reachable, Accounted, Budget.RequestBudget, Budget.FetchBudget, Wakeup.CanMove, Wakeup.AttendedBy, Wakeup.Awaited;
    Wakeup.ReadyIsAttended(c, s, r);
  }

  // ---- Completion ----

  /** With nothing outstanding and no retry pending, the crawl is complete exactly when no thread
      is in one of the three windows. */
  lemma Completion(c: Config, s: State)
    requires Reachable(c, s) && Outstanding(s) == 0 && s.pending == 0
    ensures Settled(s) <==> forall t | t in s.pcs :: !Unseen(s, s.pcs[t])
  {
    ReachableSound(c, s);
    hide Reachable, Accounted, Budget.RequestBudget, Budget.FetchBudget, Unseen, Settled, Outstanding, Wakeup.Awaited;
    CompletionIsAFact(c, s);
  }

  ghost predicate OrderlyRun(c: Config, s: State, run: seq<Action>)
    decreases |run|
  {
    run == [] || (Enabled(c, s, run[0]) && Orderly(s, run[0]) && OrderlyRun(c, Apply(c, s, run[0]), run[1..]))
  }

  lemma {:induction false} OrderlyKeeps(c: Config, s: State, run: seq<Action>, s1: State)
    requires Unerased(s.erased, s.pcs) && Runs(c, s, run, s1) && OrderlyRun(c, s, run)
    ensures Unerased(s1.erased, s1.pcs)
    decreases |run|
  {
    hide Unerased, Apply, Enabled, Orderly;
    if run != [] {
      UnerasedStep(c, s, run[0]);
      OrderlyKeeps(c, Apply(c, s, run[0]), run[1..], s1);
    }
  }

  /** When no retry is popped again before its earlier holder's Done, no claim has just failed and
      no seed is half added, nothing outstanding means complete. */
  lemma OrderlyCompletion(c: Config, s0: State, run: seq<Action>, s: State)
    requires Init(c, s0) && Runs(c, s0, run, s) && OrderlyRun(c, s0, run)
    requires Outstanding(s) == 0 && s.pending == 0
    requires forall t | t in s.pcs :: !s.pcs[t].Returning? && !s.pcs[t].SeedClaimed?
    ensures Settled(s)
  {
    hide Init, Runs, OrderlyRun, Settled, InHand, Outstanding;
    assert Reachable(c, s);
    InitSound(c, s0);
    OrderlyKeeps(c, s0, run, s);
    hide Sound, Reachable;
    forall t | t in s.pcs
      ensures !Unseen(s, s.pcs[t])
    {
      if InHand(s.pcs[t]).Some? {
        assert HeldInHand(s.pcs, InHand(s.pcs[t]).value, t);
      }
    }
    Completion(c, s);
  }

  /** Neither a retry timer runs out nor a seed is added. */
  predicate Undisturbed(run: seq<Action>) {
    forall i | 0 <= i < |run| :: !(run[i].Aside? && (run[i].o.TimerGone? || run[i].o.AddSeed?))
  }

  lemma PendingStep(c: Config, s: State, a: Action)
    requires Enabled(c, s, a) && !(a.Aside? && a.o.TimerGone?)
    ensures s.pending <= Apply(c, s, a).pending
  {
    hide CanPop, CanWork, CanSide, PopEffect, WorkEffect, SideEffect, PopTo, WorkTo, SideTo;
    match a
    case InPop(t, p) => PopPending(c, s, t, s.pcs[t], p);
    case InWork(t, w) => WorkPending(c, s, t, s.pcs[t], w);
    case Aside(t, o) => SidePending(c, s, t, s.pcs[t], o);
    case _ =>
  }

  lemma PopPending(c: Config, s: State, t: Tid, pc: Pc, p: PopStep)
    requires CanPop(c, s, pc, p)
    ensures PopEffect(c, s, t, pc, p).pending == s.pending
  {
    hide Soonest, NoneReady, Ready;
  }

  lemma WorkPending(c: Config, s: State, t: Tid, pc: Pc, w: WorkStep)
    requires CanWork(c, s, pc, w)
    ensures s.pending <= WorkEffect(c, s, t, pc, w).pending
  {
    hide MayRetry, Accepts;
  }

  lemma SidePending(c: Config, s: State, t: Tid, pc: Pc, o: SideStep)
    requires CanSide(c, s, pc, o) && !o.TimerGone?
    ensures SideEffect(c, s, t, pc, o).pending == s.pending
  {
    hide Accepts;
  }

  lemma {:induction false} PendingGrows(c: Config, s: State, run: seq<Action>, s1: State)
    requires Runs(c, s, run, s1) && Undisturbed(run)
    ensures s.pending <= s1.pending
    decreases |run|
  {
    hide Apply, Enabled;
    if run != [] {
      assert !(run[0].Aside? && run[0].o.TimerGone?);
      PendingStep(c, s, run[0]);
      assert forall i | 0 <= i < |run[1..]| :: run[1..][i] == run[i + 1];
      PendingGrows(c, Apply(c, s, run[0]), run[1..], s1);
    }
  }

  lemma {:induction false} SettledRuns(c: Config, s: State, run: seq<Action>, s1: State)
    requires Sound(c, s) && Settled(s) && Runs(c, s, run, s1) && Undisturbed(run)
    ensures Settled(s1)
    decreases |run|
  {
    hide Apply, Enabled, Settled;
    if run != [] {
      assert !(run[0].Aside? && run[0].o.AddSeed?);
      SettledStep(c, s, run[0]);
      SoundStep(c, s, run[0]);
      hide Sound;
      assert forall i | 0 <= i < |run[1..]| :: run[1..][i] == run[i + 1];
      SettledRuns(c, Apply(c, s, run[0]), run[1..], s1);
    }
  }

  /** The monitor's two reads, apart as they are, report a fact when no timer runs out and no seed
      arrives between them and no thread was in a window at the first: the crawl is complete at
      the second read, and from then on. */
  lemma MonitorReadsAFact(c: Config, s: State, run: seq<Action>, s1: State)
    requires Reachable(c, s) && Runs(c, s, run, s1) && Undisturbed(run)
    requires Outstanding(s) == 0 && s1.pending == 0
    requires forall t | t in s.pcs :: !Unseen(s, s.pcs[t])
    ensures Settled(s) && Settled(s1)
  {
    ReachableSound(c, s);
    PendingGrows(c, s, run, s1);
    assert s.pending >= 0;
    hide Sound, Reachable, Settled, Unseen, Outstanding;
    Completion(c, s);
    SettledRuns(c, s, run, s1);
  }

  // ---- The monitor's verdict ----

  /** The monitor is between its reads, and the first found nothing. */
  predicate ReadNothing(pc: Pc) {
    pc.MonRead? && pc.outstanding == 0
  }

  /** No retry is popped again before its earlier holder's Done; when a monitor reads that nothing is
      outstanding, no claim has just failed and no seed is half added; no timer runs out between its
      two reads, and no seed comes between them or once it has made up its mind. */
  ghost predicate Calm(s: State, a: Action) {
    && Orderly(s, a)
    && (a.Aside? && a.o.ReadOutstanding? && Outstanding(s) == 0 ==>
          forall t | t in s.pcs :: !s.pcs[t].Returning? && !s.pcs[t].SeedClaimed?)
    && (a.Aside? && a.o.TimerGone? ==> forall t | t in s.pcs :: !ReadNothing(s.pcs[t]))
    && (a.Aside? && a.o.AddSeed? ==> forall t | t in s.pcs :: !ReadNothing(s.pcs[t]) && !s.pcs[t].MonClosing?)
  }

  ghost predicate CalmRun(c: Config, s: State, run: seq<Action>)
    decreases |run|
  {
    run == [] || (Enabled(c, s, run[0]) && Calm(s, run[0]) && CalmRun(c, Apply(c, s, run[0]), run[1..]))
  }

  /** What a monitor thinks at `pc` is so. */
  ghost predicate Justified(s: State, pc: Pc) {
    && (ReadNothing(pc) ==> s.pending > 0 || Settled(s))
    && (pc.MonClosing? ==> Settled(s))
  }

  ghost predicate MonitorsRight(s: State) {
    forall t | t in s.pcs :: Justified(s, s.pcs[t])
  }

  predicate Suspects(pc: Pc) {
    ReadNothing(pc) || pc.MonClosing?
  }

  lemma PopSuspectsNot(c: Config, s: State, pc: Pc, p: PopStep)
    requires CanPop(c, s, pc, p)
    ensures !Suspects(PopTo(s, pc, p))
  {
    hide Ready, NoneReady, Soonest;
  }

  lemma WorkSuspectsNot(c: Config, s: State, pc: Pc, w: WorkStep)
    requires CanWork(c, s, pc, w)
    ensures !Suspects(WorkTo(c, s, pc, w))
  {
    hide MayRetry, Accepts;
  }

  lemma WakeSuspectsNot(pc: Pc)
    requires OwesWake(pc)
    ensures !Suspects(AfterWake(pc))
  {
  }

  lemma SideSuspects(c: Config, s: State, pc: Pc, o: SideStep)
    requires CanSide(c, s, pc, o) && Suspects(SideTo(c, s, pc, o))
    ensures (o.ReadOutstanding? && Outstanding(s) == 0) || (o.ReadPending? && ReadNothing(pc) && s.pending == 0)
  {
    hide Accepts, Outstanding;
  }

  lemma WorkPcs(c: Config, s: State, t: Tid, pc: Pc, w: WorkStep)
    requires CanWork(c, s, pc, w)
    ensures WorkEffect(c, s, t, pc, w).pcs == s.pcs
  {
    hide MayRetry, Accepts, Push, Accept, Done;
    if !w.Send? && !w.RetryNow? && !w.RetryLater? {
      Budget.WorkUncounted(c, s, t, pc, w);
    }
  }

  /** Only a monitor's own reads make it suspect. */
  lemma SuspectsBefore(c: Config, s: State, a: Action, t: Tid)
    requires Enabled(c, s, a) && t in Apply(c, s, a).pcs && Suspects(Apply(c, s, a).pcs[t])
    ensures || (t in s.pcs && s.pcs[t] == Apply(c, s, a).pcs[t])
            || (a == Aside(t, ReadOutstanding) && Outstanding(s) == 0)
            || (a == Aside(t, ReadPending) && t in s.pcs && ReadNothing(s.pcs[t]) && s.pending == 0)
  {
    hide CanPop, CanWork, CanSide, PopEffect, WorkEffect, SideEffect, PopTo, WorkTo, SideTo, Outstanding;
    match a
    case InPop(x, p) =>
      PopSuspectsNot(c, s, s.pcs[x], p);
      Budget.PopUncounted(c, s, x, s.pcs[x], p);
    case InWork(x, w) =>
      WorkSuspectsNot(c, s, s.pcs[x], w);
      WorkPcs(c, s, x, s.pcs[x], w);
    case Aside(x, o) =>
      Budget.SideUncounted(c, s, x, s.pcs[x], o);
      if x == t {
        SideSuspects(c, s, s.pcs[t], o);
      }
    case Wake(x) => WakeSuspectsNot(s.pcs[x]);
    case _ =>
  }

  lemma NothingOut(c: Config, s: State)
    requires Sound(c, s) && Unerased(s.erased, s.pcs) && Outstanding(s) == 0
    requires forall t | t in s.pcs :: !s.pcs[t].Returning? && !s.pcs[t].SeedClaimed?
    ensures s.pending > 0 || Settled(s)
  {
    hide Budget.RequestBudget, Budget.FetchBudget, Wakeup.Awaited, Accounted, Settled, InHand, Outstanding;
    forall t | t in s.pcs
      ensures !Unseen(s, s.pcs[t])
    {
      if InHand(s.pcs[t]).Some? {
        assert HeldInHand(s.pcs, InHand(s.pcs[t]).value, t);
      }
    }
    PendingIsNat(c, s);
    if s.pending == 0 {
      CompletionIsAFact(c, s);
    }
  }

  lemma PendingIsNat(c: Config, s: State)
    requires Accounted(c, s)
    ensures s.pending >= 0
  {
  }

  lemma MonitorsStep(c: Config, s: State, a: Action)
    requires Sound(c, s) && Unerased(s.erased, s.pcs) && MonitorsRight(s) && Enabled(c, s, a) && Calm(s, a)
    ensures MonitorsRight(Apply(c, s, a))
  {
    hide Sound, Unerased, Apply, Enabled, Settled, Outstanding, Orderly;
    var s1 := Apply(c, s, a);
    forall t | t in s1.pcs
      ensures Justified(s1, s1.pcs[t])
    {
      if Suspects(s1.pcs[t]) {
        SuspectsBefore(c, s, a, t);
        if a == Aside(t, ReadOutstanding) && Outstanding(s) == 0 {
          NothingOut(c, s);
          LooksOnly(c, s, t, ReadOutstanding);
          ReadsMove(c, s, t);
        } else if a == Aside(t, ReadPending) && t in s.pcs && ReadNothing(s.pcs[t]) && s.pending == 0 {
          assert Justified(s, s.pcs[t]);
          LooksOnly(c, s, t, ReadPending);
        } else {
          assert Justified(s, s.pcs[t]);
          Stays(c, s, a, t);
        }
      }
    }
  }

  lemma LooksOnly(c: Config, s: State, t: Tid, o: SideStep)
    requires Enabled(c, s, Aside(t, o)) && (o.ReadOutstanding? || o.ReadPending?)
    ensures Apply(c, s, Aside(t, o)).pending == s.pending
    ensures Settled(s) ==> Settled(Apply(c, s, Aside(t, o)))
  {
    hide Outstanding;
  }

  lemma ReadsMove(c: Config, s: State, t: Tid)
    requires Enabled(c, s, Aside(t, ReadOutstanding))
    ensures var s1 := Apply(c, s, Aside(t, ReadOutstanding)); t in s1.pcs && s1.pcs[t].MonRead?
  {
    hide Outstanding;
  }

  /** What a monitor was right to think stays so in a calm step. */
  lemma Stays(c: Config, s: State, a: Action, t: Tid)
    requires Sound(c, s) && Enabled(c, s, a) && Calm(s, a) && t in s.pcs && Suspects(s.pcs[t]) && Justified(s, s.pcs[t])
    ensures Justified(Apply(c, s, a), s.pcs[t])
  {
    hide Apply, Enabled, Settled, Outstanding, Orderly, Sound;
    assert !(a.Aside? && a.o.AddSeed?);
    if Settled(s) {
      SoundIsAccounted(c, s);
      SettledStep(c, s, a);
    } else {
      PendingStep(c, s, a);
    }
  }

  lemma SoundIsAccounted(c: Config, s: State)
    requires Sound(c, s)
    ensures Accounted(c, s)
  {
  }

  lemma {:induction false} MonitorsRuns(c: Config, s: State, run: seq<Action>, s1: State)
    requires Sound(c, s) && Unerased(s.erased, s.pcs) && MonitorsRight(s) && Runs(c, s, run, s1) && CalmRun(c, s, run)
    ensures MonitorsRight(s1)
    decreases |run|
  {
    hide Sound, Unerased, MonitorsRight, Apply, Enabled;
    if run != [] {
      CalmIsOrderly(s, run[0]);
      MonitorsStep(c, s, run[0]);
      SoundStep(c, s, run[0]);
      SoundIsAccounted(c, s);
      UnerasedStep(c, s, run[0]);
      MonitorsRuns(c, Apply(c, s, run[0]), run[1..], s1);
    }
  }

  lemma CalmIsOrderly(s: State, a: Action)
    requires Calm(s, a)
    ensures Orderly(s, a)
  {
  }

  /** In a calm run, a monitor that is about to close the frontier does so on a complete crawl. */
  lemma MonitorClosesWhenComplete(c: Config, s0: State, run: seq<Action>, s: State, m: Tid)
    requires Init(c, s0) && Runs(c, s0, run, s) && CalmRun(c, s0, run)
    requires m in s.pcs && s.pcs[m].MonClosing?
    ensures Settled(s)
  {
    hide Init, Runs, CalmRun, Settled, Sound;
    InitSound(c, s0);
    NobodySuspects(c, s0);
    MonitorsRuns(c, s0, run, s);
  }

  lemma NobodySuspects(c: Config, s: State)
    requires Init(c, s)
    ensures MonitorsRight(s)
  {
    hide Settled;
    forall t | t in s.pcs
      ensures !Suspects(s.pcs[t])
    {
    }
  }

  // ---- The limit stops a crawl, and nothing sooner ----

  predicate LimitReached(c: Config, s: State) {
    c.maxRequests > 0 && s.sent >= c.maxRequests
  }

  predicate Stopping(pc: Pc) {
    pc.StopClose? || pc.StopCancel?
  }

  ghost predicate StopsJustified(c: Config, s: State) {
    forall t | t in s.pcs :: Stopping(s.pcs[t]) ==> LimitReached(c, s)
  }

  lemma PopStopsNot(c: Config, s: State, pc: Pc, p: PopStep)
    requires CanPop(c, s, pc, p)
    ensures !Stopping(PopTo(s, pc, p))
  {
    hide Ready, NoneReady, Soonest;
  }

  lemma WorkStops(c: Config, s: State, pc: Pc, w: WorkStep)
    requires CanWork(c, s, pc, w) && Stopping(WorkTo(c, s, pc, w))
    ensures (w.Check? && LimitReached(c, s)) || pc.StopClose?
  {
    hide MayRetry, Accepts;
  }

  lemma SideStopsNot(c: Config, s: State, pc: Pc, o: SideStep)
    requires CanSide(c, s, pc, o)
    ensures !Stopping(SideTo(c, s, pc, o))
  {
    hide Accepts, Outstanding;
  }

  lemma WakeStopsNot(pc: Pc)
    requires OwesWake(pc)
    ensures !Stopping(AfterWake(pc))
  {
  }

  /** A worker is stopping only if it was, or because the limit is reached. */
  lemma StopsBefore(c: Config, s: State, a: Action, t: Tid)
    requires Enabled(c, s, a) && t in Apply(c, s, a).pcs && Stopping(Apply(c, s, a).pcs[t])
    ensures (t in s.pcs && Stopping(s.pcs[t])) || LimitReached(c, s)
  {
    hide CanPop, CanWork, CanSide, PopEffect, WorkEffect, SideEffect, PopTo, WorkTo, SideTo, LimitReached;
    match a
    case InPop(x, p) =>
      PopStopsNot(c, s, s.pcs[x], p);
      Budget.PopUncounted(c, s, x, s.pcs[x], p);
    case InWork(x, w) =>
      WorkPcs(c, s, x, s.pcs[x], w);
      if x == t && Stopping(WorkTo(c, s, s.pcs[x], w)) {
        WorkStops(c, s, s.pcs[x], w);
      }
    case Aside(x, o) =>
      SideStopsNot(c, s, s.pcs[x], o);
      Budget.SideUncounted(c, s, x, s.pcs[x], o);
    case Wake(x) => WakeStopsNot(s.pcs[x]);
    case _ =>
  }

  lemma WorkSent(c: Config, s: State, t: Tid, pc: Pc, w: WorkStep)
    requires CanWork(c, s, pc, w)
    ensures s.sent <= WorkEffect(c, s, t, pc, w).sent
  {
    hide MayRetry, Accepts, Push, Accept, Done;
    if !w.Send? && !w.RetryNow? && !w.RetryLater? {
      Budget.WorkUncounted(c, s, t, pc, w);
    }
  }

  lemma SentStep(c: Config, s: State, a: Action)
    requires Enabled(c, s, a)
    ensures s.sent <= Apply(c, s, a).sent
  {
    hide CanPop, CanWork, CanSide, PopEffect, WorkEffect, SideEffect, PopTo, WorkTo, SideTo;
    match a
    case InPop(x, p) => Budget.PopUncounted(c, s, x, s.pcs[x], p);
    case InWork(x, w) => WorkSent(c, s, x, s.pcs[x], w);
    case Aside(x, o) => Budget.SideUncounted(c, s, x, s.pcs[x], o);
    case _ =>
  }

  /** Somebody else closes the frontier: a caller of Stop, or the monitor. */
  predicate Closes(a: Action) {
    a.StopFromOutside? || (a.Aside? && a.o.MonitorStops?)
  }

  lemma PopCloses(c: Config, s: State, t: Tid, pc: Pc, p: PopStep)
    requires CanPop(c, s, pc, p)
    ensures PopEffect(c, s, t, pc, p).closed == s.closed
  {
    hide Ready, NoneReady, Soonest;
  }

  lemma WorkCloses(c: Config, s: State, t: Tid, pc: Pc, w: WorkStep)
    requires CanWork(c, s, pc, w)
    ensures WorkEffect(c, s, t, pc, w).closed ==> s.closed || pc.StopClose?
  {
    hide MayRetry, Accepts;
  }

  lemma SideCloses(c: Config, s: State, t: Tid, pc: Pc, o: SideStep)
    requires CanSide(c, s, pc, o) && !o.MonitorStops?
    ensures SideEffect(c, s, t, pc, o).closed == s.closed
  {
    hide Accepts;
  }

  lemma ClosesBefore(c: Config, s: State, a: Action)
    requires Enabled(c, s, a) && !Closes(a) && Apply(c, s, a).closed
    ensures s.closed || exists t :: t in s.pcs && s.pcs[t].StopClose?
  {
    hide CanPop, CanWork, CanSide, PopEffect, WorkEffect, SideEffect, PopTo, WorkTo, SideTo;
    match a
    case InPop(x, p) => PopCloses(c, s, x, s.pcs[x], p);
    case InWork(x, w) => WorkCloses(c, s, x, s.pcs[x], w);
    case Aside(x, o) => SideCloses(c, s, x, s.pcs[x], o);
    case _ =>
  }

  lemma StopsStep(c: Config, s: State, a: Action)
    requires Enabled(c, s, a) && StopsJustified(c, s)
    ensures StopsJustified(c, Apply(c, s, a))
    ensures !Closes(a) && Apply(c, s, a).closed ==> s.closed || LimitReached(c, Apply(c, s, a))
    ensures LimitReached(c, s) ==> LimitReached(c, Apply(c, s, a))
  {
    hide Apply, Enabled, Stopping;
    SentStep(c, s, a);
    var s1 := Apply(c, s, a);
    forall t | t in s1.pcs && Stopping(s1.pcs[t])
      ensures LimitReached(c, s1)
    {
      StopsBefore(c, s, a, t);
    }
    if !Closes(a) && s1.closed {
      ClosesBefore(c, s, a);
      if !s.closed {
        var t :| t in s.pcs && s.pcs[t].StopClose?;
        StopCloseStops(s.pcs[t]);
      }
    }
  }

  lemma StopCloseStops(pc: Pc)
    ensures pc.StopClose? ==> Stopping(pc)
  {
  }

  lemma {:induction false} StopsRuns(c: Config, s: State, run: seq<Action>, s1: State)
    requires StopsJustified(c, s) && Runs(c, s, run, s1) && (s.closed ==> LimitReached(c, s))
    ensures StopsJustified(c, s1)
    ensures (forall i | 0 <= i < |run| :: !Closes(run[i])) && s1.closed ==> LimitReached(c, s1)
    decreases |run|
  {
    hide Apply, Enabled, StopsJustified, LimitReached;
    if run != [] {
      StopsStep(c, s, run[0]);
      if Closes(run[0]) {
        JustifiedRuns(c, Apply(c, s, run[0]), run[1..], s1);
      } else {
        StopsRuns(c, Apply(c, s, run[0]), run[1..], s1);
        assert forall i | 0 <= i < |run[1..]| :: run[1..][i] == run[i + 1];
      }
    }
  }

  lemma {:induction false} JustifiedRuns(c: Config, s: State, run: seq<Action>, s1: State)
    requires StopsJustified(c, s) && Runs(c, s, run, s1)
    ensures StopsJustified(c, s1)
    decreases |run|
  {
    hide Apply, Enabled, StopsJustified;
    if run != [] {
      StopsStep(c, s, run[0]);
      JustifiedRuns(c, Apply(c, s, run[0]), run[1..], s1);
    }
  }

  /** Over every run: a worker sets about stopping the crawl only when there is a limit and that many
      were sent; and a frontier that neither a caller of Stop nor the monitor closed is closed only
      then. */
  lemma StopsAtTheLimit(c: Config, s0: State, run: seq<Action>, s: State)
    requires Init(c, s0) && Runs(c, s0, run, s)
    ensures forall t | t in s.pcs && (s.pcs[t].StopClose? || s.pcs[t].StopCancel?) :: c.maxRequests > 0 && s.sent >= c.maxRequests
    ensures s.closed && (forall i | 0 <= i < |run| :: !run[i].StopFromOutside? && !(run[i].Aside? && run[i].o.MonitorStops?))
            ==> c.maxRequests > 0 && s.sent >= c.maxRequests
  {
    hide Runs;
    NobodyStops(c, s0);
    StopsRuns(c, s0, run, s);
  }

  lemma NobodyStops(c: Config, s: State)
    requires Init(c, s)
    ensures StopsJustified(c, s) && !s.closed
  {
    forall t | t in s.pcs
      ensures !Stopping(s.pcs[t])
    {
    }
  }

  // ---- A closed frontier ----

  lemma PopDrains(c: Config, s: State, t: Tid, pc: Pc, p: PopStep)
    requires CanPop(c, s, pc, p) && s.closed
    ensures PopEffect(c, s, t, pc, p).queue <= s.queue
  {
    hide Ready, NoneReady, Soonest;
  }

  lemma WorkDrains(c: Config, s: State, t: Tid, pc: Pc, w: WorkStep)
    requires CanWork(c, s, pc, w) && s.closed
    ensures WorkEffect(c, s, t, pc, w).queue <= s.queue && WorkEffect(c, s, t, pc, w).closed
  {
    hide MayRetry, Accepts;
  }

  lemma SideDrains(c: Config, s: State, t: Tid, pc: Pc, o: SideStep)
    requires CanSide(c, s, pc, o) && s.closed
    ensures SideEffect(c, s, t, pc, o).queue <= s.queue && SideEffect(c, s, t, pc, o).closed
  {
    hide Accepts;
  }

  lemma DrainsStep(c: Config, s: State, a: Action)
    requires Enabled(c, s, a) && s.closed
    ensures Apply(c, s, a).closed && Apply(c, s, a).queue <= s.queue
  {
    hide CanPop, CanWork, CanSide, PopEffect, WorkEffect, SideEffect, PopTo, WorkTo, SideTo;
    match a
    case InPop(x, p) =>
      PopDrains(c, s, x, s.pcs[x], p);
      PopCloses(c, s, x, s.pcs[x], p);
    case InWork(x, w) => WorkDrains(c, s, x, s.pcs[x], w);
    case Aside(x, o) => SideDrains(c, s, x, s.pcs[x], o);
    case _ =>
  }

  /** A closed frontier stays closed, and nothing is queued any more. */
  lemma {:induction false} ClosedOnlyDrains(c: Config, s: State, run: seq<Action>, s1: State)
    requires Runs(c, s, run, s1) && s.closed
    ensures s1.closed && s1.queue <= s.queue
    decreases |run|
  {
    hide Apply, Enabled;
    if run != [] {
      DrainsStep(c, s, run[0]);
      ClosedOnlyDrains(c, Apply(c, s, run[0]), run[1..], s1);
    }
  }

  // ---- Claims on one domain ----

  lemma PopReadyAt(c: Config, s: State, t: Tid, pc: Pc, p: PopStep, d: Domain)
    requires CanPop(c, s, pc, p) && d in s.readyAt
    ensures var s1 := PopEffect(c, s, t, pc, p); d in s1.readyAt && s.readyAt[d] <= s1.readyAt[d] && s1.now == s.now
  {
    hide NoneReady, Soonest;
  }

  lemma WorkReadyAt(c: Config, s: State, t: Tid, pc: Pc, w: WorkStep)
    requires CanWork(c, s, pc, w)
    ensures WorkEffect(c, s, t, pc, w).readyAt == s.readyAt && WorkEffect(c, s, t, pc, w).now == s.now
  {
    hide MayRetry, Accepts, Push, Accept, Done;
    match w
    case RequeuePush => PushTime(s, pc.r);
    case AddLink(child) => AcceptTime(c, s, t, child);
    case LinkPush => PushTime(s, pc.child);
    case Release => DoneTime(s, pc.r, pc.live);
    case _ =>
  }

  lemma PushTime(s: State, r: Req)
    ensures Push(s, r).readyAt == s.readyAt && Push(s, r).now == s.now
  {
  }

  lemma AcceptTime(c: Config, s: State, t: Tid, r: Req)
    ensures Accept(c, s, t, r).readyAt == s.readyAt && Accept(c, s, t, r).now == s.now
  {
  }

  lemma DoneTime(s: State, r: Req, live: bool)
    ensures Done(s, r, live).readyAt == s.readyAt && Done(s, r, live).now == s.now
  {
  }

  lemma SideReadyAt(c: Config, s: State, t: Tid, pc: Pc, o: SideStep)
    requires CanSide(c, s, pc, o)
    ensures SideEffect(c, s, t, pc, o).readyAt == s.readyAt && SideEffect(c, s, t, pc, o).now == s.now
  {
    hide Accepts, Push, Accept;
    match o
    case AddSeed(r) => AcceptTime(c, s, t, r);
    case SeedPush => PushTime(s, pc.r);
    case FirePush => PushTime(s, pc.r);
    case _ =>
  }

  lemma ReadyAtStep(c: Config, s: State, a: Action, d: Domain)
    requires Enabled(c, s, a) && d in s.readyAt
    ensures d in Apply(c, s, a).readyAt && s.readyAt[d] <= Apply(c, s, a).readyAt[d]
  {
    hide CanPop, CanWork, CanSide, PopEffect, WorkEffect, SideEffect, PopTo, WorkTo, SideTo;
    match a
    case InPop(x, p) => PopReadyAt(c, s, x, s.pcs[x], p, d);
    case InWork(x, w) => WorkReadyAt(c, s, x, s.pcs[x], w);
    case Aside(x, o) => SideReadyAt(c, s, x, s.pcs[x], o);
    case _ =>
  }

  lemma {:induction false} ReadyAtGrows(c: Config, s: State, run: seq<Action>, s1: State, d: Domain)
    requires Runs(c, s, run, s1) && d in s.readyAt
    ensures d in s1.readyAt && s.readyAt[d] <= s1.readyAt[d]
    decreases |run|
  {
    hide Apply, Enabled;
    if run != [] {
      ReadyAtStep(c, s, run[0], d);
      ReadyAtGrows(c, Apply(c, s, run[0]), run[1..], s1, d);
    }
  }

  /** Two claims on one domain, whoever makes them and whatever happens in between, are a delay
      apart. */
  lemma ClaimsAreSpaced(c: Config, s: State, t: Tid, run: seq<Action>, s1: State, x: Tid)
    requires Enabled(c, s, InPop(t, ClaimOk)) && Runs(c, Apply(c, s, InPop(t, ClaimOk)), run, s1)
    requires Enabled(c, s1, InPop(x, ClaimOk)) && c.domainOf(s.pcs[t].r) == c.domainOf(s1.pcs[x].r)
    ensures s1.now >= s.now + c.delay
  {
    var d := c.domainOf(s.pcs[t].r);
    assert Apply(c, s, InPop(t, ClaimOk)).readyAt[d] == s.now + c.delay;
    ReadyAtGrows(c, Apply(c, s, InPop(t, ClaimOk)), run, s1, d);
  }

  // ---- How often the monitor looked ----

  /** How many pairs of reads in a row found nothing, after one more step. */
  function NextIdle(s: State, a: Action, m: Tid, k: nat): nat {
    if a == Aside(m, ReadPending) then
      if m in s.pcs && s.pcs[m].MonRead? && s.pcs[m].outstanding == 0 && s.pending == 0 then k + 1 else 0
    else k
  }

  ghost function IdleReads(c: Config, s: State, run: seq<Action>, m: Tid, k: nat): nat
    decreases |run|
  {
    if run == [] || !Enabled(c, s, run[0]) then k
    else IdleReads(c, Apply(c, s, run[0]), run[1..], m, NextIdle(s, run[0], m, k))
  }

  predicate Counts(pc: Pc, k: nat) {
    match pc
    case MonIdle(streak) => streak == k
    case MonRead(streak, _) => streak == k
    case MonClosing => k >= 3
    case MonDone => true
    case _ => false
  }

  lemma CountsAlone(c: Config, s: State, pc: Pc, k: nat)
    requires Counts(pc, k)
    ensures !OwesWake(pc) && (forall p :: !CanPop(c, s, pc, p)) && forall w :: !CanWork(c, s, pc, w)
  {
    hide Ready, NoneReady, Soonest, MayRetry, Accepts;
  }

  lemma CountsSide(c: Config, s: State, m: Tid, k: nat, o: SideStep)
    requires m in s.pcs && CanSide(c, s, s.pcs[m], o) && Counts(s.pcs[m], k)
    ensures Counts(SideTo(c, s, s.pcs[m], o), NextIdle(s, Aside(m, o), m, k))
  {
    hide Accepts, Outstanding;
  }

  lemma CountsStep(c: Config, s: State, a: Action, m: Tid, k: nat)
    requires Enabled(c, s, a) && m in s.pcs && Counts(s.pcs[m], k)
    ensures m in Apply(c, s, a).pcs && Counts(Apply(c, s, a).pcs[m], NextIdle(s, a, m, k))
  {
    hide CanPop, CanWork, CanSide, PopEffect, WorkEffect, SideEffect, PopTo, WorkTo, SideTo, Counts;
    CountsAlone(c, s, s.pcs[m], k);
    match a
    case InPop(x, p) => Budget.PopUncounted(c, s, x, s.pcs[x], p);
    case InWork(x, w) =>
      WorkPcs(c, s, x, s.pcs[x], w);
      NewTimer(c, s, s.pcs[x], w);
    case Aside(x, o) =>
      Budget.SideUncounted(c, s, x, s.pcs[x], o);
      if x == m {
        CountsSide(c, s, m, k, o);
      }
    case _ =>
  }

  lemma NewTimer(c: Config, s: State, pc: Pc, w: WorkStep)
    requires CanWork(c, s, pc, w)
    ensures w.RetryLater? ==> w.timer !in s.pcs
  {
    hide MayRetry, Accepts;
  }

  lemma {:induction false} CountsRuns(c: Config, s: State, run: seq<Action>, s1: State, m: Tid, k: nat)
    requires Runs(c, s, run, s1) && m in s.pcs && Counts(s.pcs[m], k)
    ensures m in s1.pcs && Counts(s1.pcs[m], IdleReads(c, s, run, m, k))
    decreases |run|
  {
    hide Apply, Enabled, Counts, NextIdle;
    if run != [] {
      CountsStep(c, s, run[0], m, k);
      CountsRuns(c, Apply(c, s, run[0]), run[1..], s1, m, NextIdle(s, run[0], m, k));
    }
  }

  /** A monitor closes the frontier only when its last three pairs of reads, one after the other, found
      nothing: a pair that found something starts the count anew. */
  lemma ThreeIdleReads(c: Config, s0: State, run: seq<Action>, s: State, m: Tid)
    requires Init(c, s0) && Runs(c, s0, run, s) && m in s0.pcs && s0.pcs[m] == MonIdle(0)
    requires m in s.pcs && s.pcs[m].MonClosing?
    ensures IdleReads(c, s0, run, m, 0) >= 3
  {
    hide Runs, IdleReads;
    CountsRuns(c, s0, run, s, m, 0);
  }

  // ---- Retry timers ----

  /** The time has come, or nobody is waiting any more. */
  predicate Due(s: State, due: Time) {
    due <= s.now || s.cancelled
  }

  lemma PopDue(c: Config, s: State, t: Tid, pc: Pc, p: PopStep, due: Time)
    requires CanPop(c, s, pc, p)
    ensures Due(PopEffect(c, s, t, pc, p), due) == Due(s, due)
  {
    hide Ready, NoneReady, Soonest;
  }

  lemma WorkDue(c: Config, s: State, t: Tid, pc: Pc, w: WorkStep, due: Time)
    requires CanWork(c, s, pc, w)
    ensures Due(s, due) ==> Due(WorkEffect(c, s, t, pc, w), due)
  {
    hide MayRetry, Accepts;
  }

  lemma SideDue(c: Config, s: State, t: Tid, pc: Pc, o: SideStep, due: Time)
    requires CanSide(c, s, pc, o)
    ensures Due(s, due) ==> Due(SideEffect(c, s, t, pc, o), due)
  {
    hide Accepts;
  }

  lemma DueStep(c: Config, s: State, a: Action, due: Time)
    requires Enabled(c, s, a) && Due(s, due)
    ensures Due(Apply(c, s, a), due)
  {
    hide CanPop, CanWork, CanSide, PopEffect, WorkEffect, SideEffect, PopTo, WorkTo, SideTo;
    match a
    case InPop(x, p) => PopDue(c, s, x, s.pcs[x], p, due);
    case InWork(x, w) => WorkDue(c, s, x, s.pcs[x], w, due);
    case Aside(x, o) => SideDue(c, s, x, s.pcs[x], o, due);
    case _ =>
  }

  lemma WaitingAlone(c: Config, s: State, pc: Pc)
    requires pc.Waiting?
    ensures !OwesWake(pc) && (forall p :: !CanPop(c, s, pc, p)) && forall w :: !CanWork(c, s, pc, w)
    ensures forall o | CanSide(c, s, pc, o) :: Due(s, pc.due)
  {
    hide Ready, NoneReady, Soonest, MayRetry, Accepts;
  }

  lemma WaitingStep(c: Config, s: State, a: Action, t: Tid)
    requires Enabled(c, s, a) && t in s.pcs && s.pcs[t].Waiting? && !Due(s, s.pcs[t].due)
    ensures t in Apply(c, s, a).pcs && Apply(c, s, a).pcs[t] == s.pcs[t]
  {
    hide CanPop, CanWork, CanSide, PopEffect, WorkEffect, SideEffect, PopTo, WorkTo, SideTo;
    WaitingAlone(c, s, s.pcs[t]);
    match a
    case InPop(x, p) => Budget.PopUncounted(c, s, x, s.pcs[x], p);
    case InWork(x, w) =>
      WorkPcs(c, s, x, s.pcs[x], w);
      NewTimer(c, s, s.pcs[x], w);
    case Aside(x, o) => Budget.SideUncounted(c, s, x, s.pcs[x], o);
    case _ =>
  }

  lemma {:induction false} DueRuns(c: Config, s: State, run: seq<Action>, s1: State, due: Time)
    requires Runs(c, s, run, s1) && Due(s, due)
    ensures Due(s1, due)
    decreases |run|
  {
    hide Apply, Enabled, Due;
    if run != [] {
      DueStep(c, s, run[0], due);
      DueRuns(c, Apply(c, s, run[0]), run[1..], s1, due);
    }
  }

  /** Over every run: a retry timer goes on waiting until its time has come or the crawl is
      cancelled. */
  lemma {:induction false} TimerWaits(c: Config, s: State, run: seq<Action>, s1: State, t: Tid)
    requires Runs(c, s, run, s1) && t in s.pcs && s.pcs[t].Waiting?
    ensures s.pcs[t].due <= s1.now || s1.cancelled || (t in s1.pcs && s1.pcs[t] == s.pcs[t])
    decreases |run|
  {
    hide Apply, Enabled;
    if Due(s, s.pcs[t].due) {
      DueRuns(c, s, run, s1, s.pcs[t].due);
    } else if run != [] {
      WaitingStep(c, s, run[0], t);
      TimerWaits(c, Apply(c, s, run[0]), run[1..], s1, t);
    }
  }
}
