/** When the crawl may be called complete. `Outstanding() == 0` with no pending retry means that
    every accepted request is settled, except in three windows, and each is a real state of the
    code (internal/engine/frontier.go, scheduler.go). */
module CrawlCompletion {
  import opened Wrappers
  import opened Crawl
  import opened CrawlSafety

  // ---- The in-flight set ----

  /** The request a thread holds with an entry of its own in the in-flight set. */
  function InHand(pc: Pc): Option<Req> {
    if || pc.Claiming? || pc.Rejected? || pc.Baton? || pc.Taken? || pc.Sent? || pc.Parsing?
       || pc.LinkClaimed? || pc.LinkWake? || pc.Requeue? || (pc.Releasing? && pc.live)
    then Some(pc.r) else None
  }

  /** The request a thread will still call Done for. */
  function WillRelease(pc: Pc): Option<Req> {
    if pc.RetryWake? || pc.Releasing? then Some(pc.r) else InHand(pc)
  }

  predicate IsTimer(pc: Pc) {
    pc.Waiting? || pc.Firing? || pc.FiredWake? || pc.FiredDone?
  }

  /** A thread takes nothing in hand and forgets no Done on its way from `from` to `to`. */
  predicate KeepsHands(from: Pc, to: Pc) {
    && (InHand(to) == None || InHand(to) == InHand(from))
    && (WillRelease(from) == None || WillRelease(to) == WillRelease(from))
    && IsTimer(from) == IsTimer(to)
  }

  ghost predicate HeldInHand(pcs: map<Tid, Pc>, r: Req, t: Tid) {
    t in pcs && InHand(pcs[t]) == Some(r)
  }

  ghost predicate ToRelease(pcs: map<Tid, Pc>, r: Req, t: Tid) {
    t in pcs && WillRelease(pcs[t]) == Some(r)
  }

  /** A request in some worker's hand is in flight unless another holder's Done deleted its
      entry, and every entry is one that somebody will delete. */
  ghost predicate Registered(inFlight: set<Req>, erased: set<Req>, pcs: map<Tid, Pc>) {
    && (forall r, t :: HeldInHand(pcs, r, t) ==> r in inFlight || r in erased)
    && (forall r | r in inFlight :: exists t :: ToRelease(pcs, r, t))
  }

  lemma RegisteredMove(inFlight: set<Req>, erased: set<Req>, pcs: map<Tid, Pc>, t: Tid, pc: Pc)
    requires Registered(inFlight, erased, pcs) && t in pcs
    requires InHand(pc) == None || InHand(pc) == InHand(pcs[t])
    requires WillRelease(pcs[t]) == None || WillRelease(pc) == WillRelease(pcs[t])
    ensures Registered(inFlight, erased, pcs[t := pc])
  {
    var pcs1 := pcs[t := pc];
    forall r, x | HeldInHand(pcs1, r, x)
      ensures r in inFlight || r in erased
    {
      assert HeldInHand(pcs, r, x);
    }
    forall r | r in inFlight
      ensures exists x :: ToRelease(pcs1, r, x)
    {
      var x :| ToRelease(pcs, r, x);
      assert ToRelease(pcs1, r, x);
    }
  }

  /** A fresh entry for a request taken from the queue. */
  lemma RegisteredPop(inFlight: set<Req>, erased: set<Req>, pcs: map<Tid, Pc>, t: Tid, r: Req, pc: Pc)
    requires Registered(inFlight, erased, pcs) && t in pcs && WillRelease(pcs[t]) == None
    requires InHand(pc) == WillRelease(pc) == Some(r)
    ensures Registered(inFlight + {r}, erased - {r}, pcs[t := pc])
  {
    var pcs1 := pcs[t := pc];
    forall y, x | HeldInHand(pcs1, y, x)
      ensures y in inFlight + {r} || y in erased - {r}
    {
      assert x != t ==> HeldInHand(pcs, y, x);
    }
    forall y | y in inFlight + {r}
      ensures exists x :: ToRelease(pcs1, y, x)
    {
      if y == r {
        assert ToRelease(pcs1, y, t);
      } else {
        var x :| ToRelease(pcs, y, x);
        assert ToRelease(pcs1, y, x);
      }
    }
  }

  /** Done: the entry goes, and whoever else has the request in hand is left without one. */
  lemma RegisteredDone(inFlight: set<Req>, erased: set<Req>, pcs: map<Tid, Pc>, t: Tid, r: Req, pc: Pc, lost: set<Req>)
    requires Registered(inFlight, erased, pcs) && t in pcs
    requires InHand(pc) == None && WillRelease(pcs[t]) == Some(r)
    requires forall x | x != t && HeldInHand(pcs, r, x) :: r in lost
    ensures Registered(inFlight - {r}, erased + lost, pcs[t := pc])
  {
    var pcs1 := pcs[t := pc];
    forall y, x | HeldInHand(pcs1, y, x)
      ensures y in inFlight - {r} || y in erased + lost
    {
      assert x != t && HeldInHand(pcs, y, x);
    }
    forall y | y in inFlight - {r}
      ensures exists x :: ToRelease(pcs1, y, x)
    {
      var x :| ToRelease(pcs, y, x);
      assert ToRelease(pcs1, y, x);
    }
  }

  // ---- Retries waiting out a backoff ----

  function Timers(pcs: map<Tid, Pc>): set<Tid> {
    set t | t in pcs && IsTimer(pcs[t])
  }

  lemma TimersMove(pcs: map<Tid, Pc>, t: Tid, pc: Pc)
    requires t in pcs
    ensures var before, after := |Timers(pcs)|, |Timers(pcs[t := pc])|;
            after == before + (if IsTimer(pc) then 1 else 0) - (if IsTimer(pcs[t]) then 1 else 0)
  {
    hide IsTimer;
    var x := set y | y in pcs && y != t && IsTimer(pcs[y]);
    assert Timers(pcs) == if IsTimer(pcs[t]) then x + {t} else x;
    var pcs1 := pcs[t := pc];
    assert forall y | y in pcs && y != t :: pcs1[y] == pcs[y];
    assert Timers(pcs1) == if IsTimer(pc) then x + {t} else x;
  }

  lemma TimersSpawn(pcs: map<Tid, Pc>, n: Tid, pc: Pc)
    requires n !in pcs && IsTimer(pc)
    ensures |Timers(pcs[n := pc])| == |Timers(pcs)| + 1
  {
    assert Timers(pcs[n := pc]) == Timers(pcs) + {n};
  }

  // ---- Together ----

  ghost predicate Accounted(c: Config, s: State) {
    && Conserved(c, s)
    && Registered(s.inFlight, s.erased, s.pcs)
    && s.pending == |Timers(s.pcs)|
  }

  /** A step that leaves the in-flight set and the count of retries alone. */
  lemma AccountedMove(c: Config, s: State, t: Tid, s1: State, pc: Pc)
    requires Accounted(c, s) && t in s.pcs && KeepsHands(s.pcs[t], pc) && Conserved(c, Move(s1, t, pc))
    requires s1.inFlight == s.inFlight && s1.erased == s.erased && s1.pending == s.pending && s1.pcs == s.pcs
    ensures Accounted(c, Move(s1, t, pc))
  {
    hide Conserved, Registered, Timers;
    RegisteredMove(s.inFlight, s.erased, s.pcs, t, pc);
    TimersMove(s.pcs, t, pc);
  }

  lemma PopHands(c: Config, s: State, pc: Pc, p: PopStep)
    requires CanPop(c, s, pc, p) && !p.Take? && !p.Drain? && !p.Reject?
    ensures KeepsHands(pc, PopTo(s, pc, p))
  {
    hide Soonest, NoneReady, Ready;
  }

  lemma WorkHands(c: Config, s: State, pc: Pc, w: WorkStep)
    requires CanWork(c, s, pc, w) && !w.Release?
    ensures KeepsHands(pc, WorkTo(c, s, pc, w))
  {
    hide MayRetry, Accepts;
  }

  lemma SideHands(c: Config, s: State, pc: Pc, o: SideStep)
    requires CanSide(c, s, pc, o) && !o.TimerGone?
    ensures KeepsHands(pc, SideTo(c, s, pc, o))
  {
    hide Accepts, Outstanding;
  }

  lemma AccountedPop(c: Config, s: State, t: Tid, r: Req, pc: Pc)
    requires Accounted(c, s) && t in s.pcs && r in s.queue
    requires (s.pcs[t].Scan? && pc.Claiming? && pc.r == r) || (s.pcs[t].Draining? && pc == Taken(r))
    ensures Accounted(c, Move(Pop(s, t, r), t, pc))
  {
    hide Registered, Conserved, Timers;
    assert Conserved(c, s);
    ConservedPop(c, s, t, r, pc);
    RegisteredPop(s.inFlight, s.erased, s.pcs, t, r, pc);
    TimersMove(s.pcs, t, pc);
  }

  /** Only one thread has a request in hand. */
  lemma OneHand(s: State, r: Req, t: Tid, x: Tid)
    requires Placed(s.queue, s.place, s.pcs) && HeldInHand(s.pcs, r, x) && CarriedBy(s.pcs, r, t)
    ensures x == t
  {
    assert CarriedBy(s.pcs, r, x);
    CarriedIsPlaced(s, r, t);
    CarriedIsPlaced(s, r, x);
  }

  lemma AccountedReject(c: Config, s: State, t: Tid)
    requires Accounted(c, s) && t in s.pcs && s.pcs[t].Rejected?
    ensures Accounted(c, Pops(c, s, t, Reject))
  {
    hide Registered, Placed;
    ConservedInPop(c, s, t, Reject);
    var r := s.pcs[t].r;
    assert CarriedBy(s.pcs, r, t);
    forall x | HeldInHand(s.pcs, r, x)
      ensures x == t
    {
      OneHand(s, r, t, x);
    }
    RegisteredDone(s.inFlight, s.erased, s.pcs, t, r, Returning(r), {});
    assert s.erased + {} == s.erased;
    TimersMove(s.pcs, t, Returning(r));
  }

  lemma AccountedRelease(c: Config, s: State, t: Tid)
    requires Accounted(c, s) && t in s.pcs && s.pcs[t].Releasing?
    ensures Accounted(c, Works(c, s, t, Release))
  {
    hide Registered, Placed;
    ConservedInWork(c, s, t, Release);
    var r, live := s.pcs[t].r, s.pcs[t].live;
    var lost := if !live && r in s.place && s.place[r].Held? then {r} else {};
    forall x | x != t && HeldInHand(s.pcs, r, x)
      ensures r in lost
    {
      assert CarriedBy(s.pcs, r, x);
      CarriedIsPlaced(s, r, x);
      if live {
        assert CarriedBy(s.pcs, r, t);
        OneHand(s, r, t, x);
      }
    }
    RegisteredDone(s.inFlight, s.erased, s.pcs, t, r, Checking, lost);
    assert s.erased + lost == Works(c, s, t, Release).erased;
    TimersMove(s.pcs, t, Checking);
  }

  lemma AccountedSpawn(c: Config, s: State, t: Tid, timer: Tid, due: Time)
    requires Accounted(c, s) && t in s.pcs && CanWork(c, s, s.pcs[t], RetryLater(timer, due))
    ensures Accounted(c, Works(c, s, t, RetryLater(timer, due)))
  {
    hide Registered, Placed;
    ConservedInWork(c, s, t, RetryLater(timer, due));
    var r := s.pcs[t].r;
    var mid := s.pcs[t := Releasing(r, false)];
    RegisteredMove(s.inFlight, s.erased, s.pcs, t, Releasing(r, false));
    RegisteredSpawn(s.inFlight, s.erased, mid, timer, Waiting(r, due));
    TimersMove(s.pcs, t, Releasing(r, false));
    TimersSpawn(mid, timer, Waiting(r, due));
  }

  lemma RegisteredSpawn(inFlight: set<Req>, erased: set<Req>, pcs: map<Tid, Pc>, n: Tid, pc: Pc)
    requires Registered(inFlight, erased, pcs) && n !in pcs && InHand(pc) == None
    ensures Registered(inFlight, erased, pcs[n := pc])
  {
    var pcs1 := pcs[n := pc];
    forall r, x | HeldInHand(pcs1, r, x)
      ensures r in inFlight || r in erased
    {
      assert HeldInHand(pcs, r, x);
    }
    forall r | r in inFlight
      ensures exists x :: ToRelease(pcs1, r, x)
    {
      var x :| ToRelease(pcs, r, x);
      assert ToRelease(pcs1, r, x);
    }
  }

  lemma AccountedInPop(c: Config, s: State, t: Tid, p: PopStep)
    requires Accounted(c, s) && t in s.pcs && CanPop(c, s, s.pcs[t], p)
    ensures Accounted(c, Pops(c, s, t, p))
  {
    hide Conserved, Accounted, Soonest, NoneReady, KeepsHands, Push, Pop, Move;
    var pc, to := s.pcs[t], PopTo(s, s.pcs[t], p);
    match p
    case Take(r) => AccountedPop(c, s, t, r, to);
    case Drain(r) => AccountedPop(c, s, t, r, to);
    case Reject => AccountedReject(c, s, t);
    case _ => AccountedQuietPop(c, s, t, p);
  }

  lemma AccountedQuietPop(c: Config, s: State, t: Tid, p: PopStep)
    requires Accounted(c, s) && t in s.pcs && CanPop(c, s, s.pcs[t], p)
    requires !p.Take? && !p.Drain? && !p.Reject?
    ensures Accounted(c, Pops(c, s, t, p))
  {
    hide Conserved, Soonest, NoneReady, KeepsHands, Registered, Timers, PopTo, Pop;
    ConservedInPop(c, s, t, p);
    PopHands(c, s, s.pcs[t], p);
    AccountedMove(c, s, t, PopEffect(c, s, t, s.pcs[t], p), PopTo(s, s.pcs[t], p));
  }

  lemma AccountedInWork(c: Config, s: State, t: Tid, w: WorkStep)
    requires Accounted(c, s) && t in s.pcs && CanWork(c, s, s.pcs[t], w)
    ensures Accounted(c, Works(c, s, t, w))
  {
    hide Conserved, Accounted, KeepsHands, Works;
    match w
    case RetryLater(timer, due) => AccountedSpawn(c, s, t, timer, due);
    case Release => AccountedRelease(c, s, t);
    case _ => AccountedQuietWork(c, s, t, w);
  }

  lemma AccountedQuietWork(c: Config, s: State, t: Tid, w: WorkStep)
    requires Accounted(c, s) && t in s.pcs && CanWork(c, s, s.pcs[t], w) && !w.RetryLater? && !w.Release?
    ensures Accounted(c, Works(c, s, t, w))
  {
    hide Conserved, MayRetry, Accepts, KeepsHands, Registered, Timers, WorkTo, Done;
    ConservedInWork(c, s, t, w);
    WorkHands(c, s, s.pcs[t], w);
    AccountedMove(c, s, t, WorkEffect(c, s, t, s.pcs[t], w), WorkTo(c, s, s.pcs[t], w));
  }

  lemma AccountedGone(c: Config, s: State, t: Tid)
    requires Accounted(c, s) && t in s.pcs && s.pcs[t].FiredDone?
    ensures Accounted(c, Sides(c, s, t, TimerGone))
  {
    hide Conserved, Registered, Timers;
    assert Conserved(c, s);
    ConservedAside(c, s, t, TimerGone);
    RegisteredMove(s.inFlight, s.erased, s.pcs, t, Gone);
    TimersMove(s.pcs, t, Gone);
  }

  lemma AccountedAside(c: Config, s: State, t: Tid, o: SideStep)
    requires Accounted(c, s) && t in s.pcs && CanSide(c, s, s.pcs[t], o)
    ensures Accounted(c, Sides(c, s, t, o))
  {
    hide Conserved, Accepts, KeepsHands, Registered, Timers, SideTo;
    if o.TimerGone? {
      AccountedGone(c, s, t);
    } else {
      ConservedAside(c, s, t, o);
      SideHands(c, s, s.pcs[t], o);
      AccountedMove(c, s, t, SideEffect(c, s, t, s.pcs[t], o), SideTo(c, s, s.pcs[t], o));
    }
  }

  lemma AccountedWake(c: Config, s: State, t: Tid)
    requires Accounted(c, s) && t in s.pcs && OwesWake(s.pcs[t])
    ensures Accounted(c, Apply(c, s, Wake(t)))
  {
    hide Conserved, Registered, Timers;
    ConservedStep(c, s, Wake(t));
    AccountedMove(c, s, t, s.(notify := true), AfterWake(s.pcs[t]));
  }

  lemma AccountedStep(c: Config, s: State, a: Action)
    requires Accounted(c, s) && Enabled(c, s, a)
    ensures Accounted(c, Apply(c, s, a))
  {
    hide Pops, Works, Sides, CanPop, CanWork, CanSide, Conserved, Registered, Timers;
    match a
    case InPop(t, p) => AccountedInPop(c, s, t, p);
    case InWork(t, w) => AccountedInWork(c, s, t, w);
    case Aside(t, o) => AccountedAside(c, s, t, o);
    case Wake(t) => AccountedWake(c, s, t);
    case _ => ConservedStep(c, s, a);
  }

  // ---- Completion ----

  /** Every accepted request is finished, or abandoned to shutdown. */
  ghost predicate Settled(s: State) {
    forall r | r in s.place :: s.place[r].Finished? || s.place[r].Dropped?
  }

  /** A thread holds a request that no counter knows of: between Done and Push of a failed claim,
      between marking a seed's URL and pushing it, or in a worker whose entry in the in-flight set
      an earlier holder's Done deleted. */
  predicate Unseen(s: State, pc: Pc) {
    pc.Returning? || pc.SeedClaimed? || (InHand(pc).Some? && InHand(pc).value in s.erased)
  }

  lemma NothingOutstanding(c: Config, s: State)
    requires Accounted(c, s) && Outstanding(s) == 0 && s.pending == 0
    ensures s.queue == multiset{} && s.inFlight == {} && forall t | t in s.pcs :: !IsTimer(s.pcs[t])
  {
    hide Conserved, Registered, IsTimer;
    assert Timers(s.pcs) == {};
    assert forall t | t in s.pcs :: IsTimer(s.pcs[t]) ==> t in Timers(s.pcs);
  }

  lemma CarriersAre(pc: Pc)
    requires Carries(pc) != {} && InHand(pc) == None && !IsTimer(pc)
    ensures pc.Returning? || pc.SeedClaimed?
  {
  }

  lemma UnseenCarries(s: State, pc: Pc) returns (r: Req)
    requires Unseen(s, pc)
    ensures r in Carries(pc)
  {
    r := pc.r;
  }

  /** With nothing outstanding and no retry pending, the crawl is complete exactly when no thread
      is in one of the three windows. */
  lemma CompletionIsAFact(c: Config, s: State)
    requires Accounted(c, s) && Outstanding(s) == 0 && s.pending == 0
    ensures Settled(s) <==> forall t | t in s.pcs :: !Unseen(s, s.pcs[t])
  {
    NothingOutstanding(c, s);
    if forall t | t in s.pcs :: !Unseen(s, s.pcs[t]) {
      forall r | r in s.place
        ensures s.place[r].Finished? || s.place[r].Dropped?
      {
        if s.place[r].Held? {
          HolderIsUnseen(c, s, r, s.place[r].t);
        }
      }
    } else {
      var t :| t in s.pcs && Unseen(s, s.pcs[t]);
      hide Placed, Unseen, Registered;
      var r := UnseenCarries(s, s.pcs[t]);
      CarriedIsPlaced(s, r, t);
    }
  }

  lemma HolderIsUnseen(c: Config, s: State, r: Req, t: Tid)
    requires Accounted(c, s) && s.inFlight == {} && HeldBy(s.place, r, t)
    requires forall x | x in s.pcs :: !IsTimer(s.pcs[x])
    ensures t in s.pcs && Unseen(s, s.pcs[t])
  {
    hide Carries, InHand;
    assert CarriedBy(s.pcs, r, t);
    if InHand(s.pcs[t]) == None {
      CarriersAre(s.pcs[t]);
    } else {
      assert HeldInHand(s.pcs, InHand(s.pcs[t]).value, t);
    }
  }

  // ---- Runs in which no Done deletes another holder's entry ----

  /** `t` is about to call Done for a request that another worker has popped since. */
  ghost predicate Deletes(s: State, t: Tid) {
    && t in s.pcs && s.pcs[t].Releasing? && !s.pcs[t].live
    && exists x :: HeldInHand(s.pcs, s.pcs[t].r, x)
  }

  ghost predicate Orderly(s: State, a: Action) {
    !(a.InWork? && a.w.Release? && Deletes(s, a.t))
  }

  ghost predicate Unerased(erased: set<Req>, pcs: map<Tid, Pc>) {
    forall r, t :: HeldInHand(pcs, r, t) ==> r !in erased
  }

  lemma UnerasedMove(erased: set<Req>, pcs: map<Tid, Pc>, t: Tid, pc: Pc)
    requires Unerased(erased, pcs) && t in pcs && (InHand(pc) == None || InHand(pc) == InHand(pcs[t]))
    ensures Unerased(erased, pcs[t := pc])
  {
    hide InHand;
    var pcs1 := pcs[t := pc];
    forall r, x | HeldInHand(pcs1, r, x)
      ensures r !in erased
    {
      assert HeldInHand(pcs, r, x);
    }
  }

  lemma UnerasedPop(erased: set<Req>, pcs: map<Tid, Pc>, t: Tid, pc: Pc, r: Req)
    requires Unerased(erased, pcs) && t in pcs && InHand(pc) == Some(r)
    ensures Unerased(erased - {r}, pcs[t := pc])
  {
    hide InHand;
    var pcs1 := pcs[t := pc];
    forall y, x | HeldInHand(pcs1, y, x)
      ensures y !in erased - {r}
    {
      assert x != t ==> HeldInHand(pcs, y, x);
    }
  }

  lemma UnerasedRelease(s: State, t: Tid)
    requires Unerased(s.erased, s.pcs) && t in s.pcs && s.pcs[t].Releasing? && !Deletes(s, t)
    ensures Unerased(Done(s, s.pcs[t].r, s.pcs[t].live).erased, s.pcs[t := Checking])
  {
    var r, erased1, pcs1 := s.pcs[t].r, Done(s, s.pcs[t].r, s.pcs[t].live).erased, s.pcs[t := Checking];
    forall y, x | HeldInHand(pcs1, y, x)
      ensures y !in erased1
    {
      assert HeldInHand(s.pcs, y, x);
    }
  }

  lemma UnerasedInPop(c: Config, s: State, t: Tid, p: PopStep)
    requires Unerased(s.erased, s.pcs) && t in s.pcs && CanPop(c, s, s.pcs[t], p)
    ensures Unerased(Pops(c, s, t, p).erased, Pops(c, s, t, p).pcs)
  {
    hide Unerased, Soonest, NoneReady, Ready;
    match p
    case Take(r) => UnerasedPop(s.erased, s.pcs, t, PopTo(s, s.pcs[t], p), r);
    case Drain(r) => UnerasedPop(s.erased, s.pcs, t, Taken(r), r);
    case Reject => UnerasedMove(s.erased, s.pcs, t, Returning(s.pcs[t].r));
    case _ =>
      PopHands(c, s, s.pcs[t], p);
      UnerasedMove(s.erased, s.pcs, t, PopTo(s, s.pcs[t], p));
  }

  lemma UnerasedInWork(c: Config, s: State, t: Tid, w: WorkStep)
    requires Unerased(s.erased, s.pcs) && t in s.pcs && CanWork(c, s, s.pcs[t], w)
    requires w.Release? ==> !Deletes(s, t)
    ensures Unerased(Works(c, s, t, w).erased, Works(c, s, t, w).pcs)
  {
    hide Unerased, MayRetry, Accepts;
    match w
    case Release => UnerasedRelease(s, t);
    case RetryLater(timer, due) =>
      UnerasedMove(s.erased, s.pcs, t, Releasing(s.pcs[t].r, false));
      UnerasedSpawn(s.erased, s.pcs[t := Releasing(s.pcs[t].r, false)], timer, Waiting(s.pcs[t].r, due));
    case _ =>
      WorkHands(c, s, s.pcs[t], w);
      hide InHand, WorkTo, Done;
      UnerasedMove(s.erased, s.pcs, t, WorkTo(c, s, s.pcs[t], w));
  }

  lemma UnerasedSpawn(erased: set<Req>, pcs: map<Tid, Pc>, n: Tid, pc: Pc)
    requires Unerased(erased, pcs) && InHand(pc) == None
    ensures Unerased(erased, pcs[n := pc])
  {
    hide InHand;
    var pcs1 := pcs[n := pc];
    forall r, x | HeldInHand(pcs1, r, x)
      ensures r !in erased
    {
      assert HeldInHand(pcs, r, x);
    }
  }

  lemma UnerasedAside(c: Config, s: State, t: Tid, o: SideStep)
    requires Unerased(s.erased, s.pcs) && t in s.pcs && CanSide(c, s, s.pcs[t], o)
    ensures Unerased(Sides(c, s, t, o).erased, Sides(c, s, t, o).pcs)
  {
    hide Unerased, Accepts, Outstanding;
    if !o.TimerGone? {
      SideHands(c, s, s.pcs[t], o);
    }
    UnerasedMove(s.erased, s.pcs, t, SideTo(c, s, s.pcs[t], o));
  }

  lemma UnerasedStep(c: Config, s: State, a: Action)
    requires Unerased(s.erased, s.pcs) && Enabled(c, s, a) && Orderly(s, a)
    ensures Unerased(Apply(c, s, a).erased, Apply(c, s, a).pcs)
  {
    hide Pops, Works, Sides, CanPop, CanWork, CanSide, Unerased;
    match a
    case InPop(t, p) => UnerasedInPop(c, s, t, p);
    case InWork(t, w) => UnerasedInWork(c, s, t, w);
    case Aside(t, o) => UnerasedAside(c, s, t, o);
    case Wake(t) => UnerasedMove(s.erased, s.pcs, t, AfterWake(s.pcs[t]));
    case _ =>
  }

  // ---- Settled for good ----

  lemma SettledCarriesNothing(s: State, t: Tid)
    requires Placed(s.queue, s.place, s.pcs) && Settled(s) && t in s.pcs
    ensures Carries(s.pcs[t]) == {} && forall r :: r !in s.queue
  {
    forall r
      ensures r !in Carries(s.pcs[t])
    {
      if r in Carries(s.pcs[t]) {
        assert CarriedBy(s.pcs, r, t);
        CarriedIsPlaced(s, r, t);
      }
    }
  }

  /** Once settled, the crawl stays settled unless somebody adds a seed. */
  lemma SettledStep(c: Config, s: State, a: Action)
    requires Conserved(c, s) && Settled(s) && Enabled(c, s, a) && !(a.Aside? && a.o.AddSeed?)
    ensures Settled(Apply(c, s, a))
  {
    assert Apply(c, s, a).place == s.place by {
      hide Placed, Settled, Deduped, LinksApart;
      match a
      case InPop(t, p) => SettledCarriesNothing(s, t); SettledInPop(c, s, t, p);
      case InWork(t, w) => SettledCarriesNothing(s, t); SettledInWork(c, s, t, w);
      case Aside(t, o) => SettledCarriesNothing(s, t); SettledAside(c, s, t, o);
      case _ =>
    }
  }

  lemma SettledInPop(c: Config, s: State, t: Tid, p: PopStep)
    requires t in s.pcs && Carries(s.pcs[t]) == {} && (forall r :: r !in s.queue) && CanPop(c, s, s.pcs[t], p)
    ensures Pops(c, s, t, p).place == s.place
  {
    hide Soonest, NoneReady, Ready;
  }

  lemma SettledInWork(c: Config, s: State, t: Tid, w: WorkStep)
    requires t in s.pcs && Carries(s.pcs[t]) == {} && CanWork(c, s, s.pcs[t], w)
    ensures Works(c, s, t, w).place == s.place
  {
    hide MayRetry, Accepts, Accept, Push;
    WorksPlace(c, s, t, w);
  }

  lemma WorksPlace(c: Config, s: State, t: Tid, w: WorkStep)
    requires t in s.pcs && CanWork(c, s, s.pcs[t], w)
    ensures Works(c, s, t, w).place == WorkEffect(c, s, t, s.pcs[t], w).place
  {
    hide CanWork, WorkEffect, WorkTo;
  }

  lemma SettledAside(c: Config, s: State, t: Tid, o: SideStep)
    requires t in s.pcs && Carries(s.pcs[t]) == {} && CanSide(c, s, s.pcs[t], o) && !o.AddSeed?
    ensures Sides(c, s, t, o).place == s.place
  {
    hide Accepts, Outstanding;
  }
}
