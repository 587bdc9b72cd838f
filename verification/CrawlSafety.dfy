/** What every interleaving of a crawl keeps: each accepted request is in exactly one place, no
    canonical URL is accepted twice, the in-flight set names only requests somebody will release,
    and retries and fetches stay within their bounds (internal/engine/frontier.go, scheduler.go,
    engine.go). */
module CrawlSafety {
  import opened Crawl

  // ---- Conservation ----

  /** The requests whose live claim a thread at `pc` carries. */
  function Carries(pc: Pc): set<Req> {
    match pc
    case Claiming(r, _) => {r}
    case Rejected(r) => {r}
    case Returning(r) => {r}
    case Baton(r) => {r}
    case Taken(r) => {r}
    case Sent(r) => {r}
    case Parsing(r) => {r}
    case LinkClaimed(r, child) => {r, child}
    case LinkWake(r) => {r}
    case Requeue(r) => {r}
    case Releasing(r, live) => if live then {r} else {}
    case SeedClaimed(r) => {r}
    case Waiting(r, _) => {r}
    case Firing(r) => {r}
    case _ => {}
  }

  ghost predicate HeldBy(place: map<Req, Place>, r: Req, t: Tid) {
    r in place && place[r] == Held(t)
  }

  ghost predicate CarriedBy(pcs: map<Tid, Pc>, r: Req, t: Tid) {
    t in pcs && r in Carries(pcs[t])
  }

  /** The history of places agrees with the queue and with what the threads carry. */
  ghost predicate Placed(queue: multiset<Req>, place: map<Req, Place>, pcs: map<Tid, Pc>) {
    && (forall r :: r in queue <==> r in place && place[r] == Queued)
    && (forall r :: queue[r] <= 1)
    && (forall r, t :: HeldBy(place, r, t) <==> CarriedBy(pcs, r, t))
  }

  lemma PlacedMove(queue: multiset<Req>, place: map<Req, Place>, pcs: map<Tid, Pc>, t: Tid, pc: Pc)
    requires Placed(queue, place, pcs) && t in pcs && Carries(pc) == Carries(pcs[t])
    ensures Placed(queue, place, pcs[t := pc])
  {
    var pcs1 := pcs[t := pc];
    forall r, x
      ensures CarriedBy(pcs1, r, x) <==> CarriedBy(pcs, r, x)
    {
    }
  }

  /** A request leaves the thread that carried it for the queue, or for good. */
  lemma PlacedGive(queue: multiset<Req>, place: map<Req, Place>, pcs: map<Tid, Pc>, t: Tid, r: Req, pc: Pc, to: Place)
    requires Placed(queue, place, pcs) && t in pcs
    requires r in Carries(pcs[t]) && Carries(pc) == Carries(pcs[t]) - {r} && !to.Held?
    ensures Placed(if to == Queued then queue + multiset{r} else queue, place[r := to], pcs[t := pc])
  {
    assert HeldBy(place, r, t) by { assert CarriedBy(pcs, r, t); }
    var p1, pcs1 := place[r := to], pcs[t := pc];
    forall x, y
      ensures HeldBy(p1, x, y) <==> CarriedBy(pcs1, x, y)
    {
      assert HeldBy(place, x, y) <==> CarriedBy(pcs, x, y);
      assert HeldBy(place, r, y) <==> CarriedBy(pcs, r, y);
    }
  }

  lemma PlacedPop(queue: multiset<Req>, place: map<Req, Place>, pcs: map<Tid, Pc>, t: Tid, r: Req, pc: Pc)
    requires Placed(queue, place, pcs) && t in pcs && r in queue
    requires Carries(pcs[t]) == {} && Carries(pc) == {r}
    ensures Placed(queue - multiset{r}, place[r := Held(t)], pcs[t := pc])
  {
    var p1, pcs1 := place[r := Held(t)], pcs[t := pc];
    forall x, y
      ensures HeldBy(p1, x, y) <==> CarriedBy(pcs1, x, y)
    {
      assert HeldBy(place, x, y) <==> CarriedBy(pcs, x, y);
    }
  }

  lemma PlacedAccept(queue: multiset<Req>, place: map<Req, Place>, pcs: map<Tid, Pc>, t: Tid, r: Req, pc: Pc)
    requires Placed(queue, place, pcs) && t in pcs && r !in place
    requires Carries(pc) == Carries(pcs[t]) + {r}
    ensures Placed(queue, place[r := Held(t)], pcs[t := pc])
  {
    var p1, pcs1 := place[r := Held(t)], pcs[t := pc];
    forall x, y
      ensures HeldBy(p1, x, y) <==> CarriedBy(pcs1, x, y)
    {
      assert HeldBy(place, x, y) <==> CarriedBy(pcs, x, y);
    }
  }

  /** A worker hands a request to a timer thread that begins there. */
  lemma PlacedHand(queue: multiset<Req>, place: map<Req, Place>, pcs: map<Tid, Pc>, t: Tid, r: Req, pc: Pc, n: Tid, npc: Pc)
    requires Placed(queue, place, pcs) && t in pcs && n !in pcs
    requires Carries(pcs[t]) == {r} && Carries(pc) == {} && Carries(npc) == {r}
    ensures Placed(queue, place[r := Held(n)], pcs[t := pc][n := npc])
  {
    assert HeldBy(place, r, t) by { assert CarriedBy(pcs, r, t); }
    var p1, pcs1 := place[r := Held(n)], pcs[t := pc][n := npc];
    forall x, y
      ensures HeldBy(p1, x, y) <==> CarriedBy(pcs1, x, y)
    {
      assert HeldBy(place, x, y) <==> CarriedBy(pcs, x, y);
      assert HeldBy(place, r, y) <==> CarriedBy(pcs, r, y);
    }
  }

  /** Accepted requests have their URL marked, each its own, and are not too deep. */
  ghost predicate Deduped(c: Config, seen: set<Url>, place: map<Req, Place>) {
    && (forall r | r in place :: c.urlOf(r) in seen && c.depthOf(r) <= c.maxDepth)
    && (forall r, x | r in place && x in place :: c.urlOf(r) == c.urlOf(x) ==> r == x)
  }

  ghost predicate LinksApart(pcs: map<Tid, Pc>) {
    forall t | t in pcs :: pcs[t].LinkClaimed? ==> pcs[t].r != pcs[t].child
  }

  ghost predicate Conserved(c: Config, s: State) {
    Placed(s.queue, s.place, s.pcs) && Deduped(c, s.seen, s.place) && LinksApart(s.pcs)
  }

  /** A thread gives up r, and nothing else, on its way from `from` to `to`. */
  predicate GivesUp(from: Pc, to: Pc, r: Req) {
    r in Carries(from) && Carries(to) == Carries(from) - {r} && !to.LinkClaimed?
  }

  lemma ConservedPush(c: Config, s: State, t: Tid, r: Req, pc: Pc)
    requires Conserved(c, s) && t in s.pcs && GivesUp(s.pcs[t], pc, r)
    ensures Conserved(c, Move(Push(s, r), t, pc))
  {
    hide Placed;
    CarriedIsPlaced(s, r, t);
    PlacedGive(s.queue, s.place, s.pcs, t, r, pc, if s.closed then Dropped else Queued);
  }

  lemma CarriedIsPlaced(s: State, r: Req, t: Tid)
    requires Placed(s.queue, s.place, s.pcs) && CarriedBy(s.pcs, r, t)
    ensures HeldBy(s.place, r, t)
  {
  }

  lemma ConservedPop(c: Config, s: State, t: Tid, r: Req, pc: Pc)
    requires Conserved(c, s) && t in s.pcs && r in s.queue
    requires (s.pcs[t].Scan? && pc.Claiming? && pc.r == r) || (s.pcs[t].Draining? && pc == Taken(r))
    ensures Conserved(c, Move(Pop(s, t, r), t, pc))
  {
    assert r in s.place;
    hide Placed;
    PlacedPop(s.queue, s.place, s.pcs, t, r, pc);
    DedupedAgain(c, s.seen, s.place, r, Held(t));
    hide Deduped;
    LinksMove(s.pcs, t, pc);
  }

  lemma DedupedAgain(c: Config, seen: set<Url>, place: map<Req, Place>, r: Req, to: Place)
    requires Deduped(c, seen, place) && r in place
    ensures Deduped(c, seen, place[r := to])
  {
  }

  lemma DedupedAccept(c: Config, s: State, r: Req, to: Place)
    requires Deduped(c, s.seen, s.place) && Accepts(c, s, r)
    ensures r !in s.place && Deduped(c, s.seen + {c.urlOf(r)}, s.place[r := to])
  {
  }

  lemma ConservedAccept(c: Config, s: State, t: Tid, r: Req, pc: Pc)
    requires Conserved(c, s) && t in s.pcs && Accepts(c, s, r)
    requires (s.pcs[t].SeedIdle? && pc == SeedClaimed(r)) || (s.pcs[t].Parsing? && pc == LinkClaimed(s.pcs[t].r, r))
    ensures Conserved(c, Move(Accept(c, s, t, r), t, pc))
  {
    hide Placed;
    DedupedAccept(c, s, r, Held(t));
    hide Deduped;
    PlacedAccept(s.queue, s.place, s.pcs, t, r, pc);
    if pc.LinkClaimed? {
      CarriedIsPlaced(s, pc.r, t);
    }
  }

  lemma ConservedDone(c: Config, s: State, t: Tid, r: Req, live: bool)
    requires Conserved(c, s) && t in s.pcs && s.pcs[t] == Releasing(r, live)
    ensures Conserved(c, Move(Done(s, r, live), t, Checking))
  {
    hide Placed;
    if live {
      CarriedIsPlaced(s, r, t);
      PlacedGive(s.queue, s.place, s.pcs, t, r, Checking, Finished);
    } else {
      PlacedMove(s.queue, s.place, s.pcs, t, Checking);
    }
  }

  lemma LinksMove(pcs: map<Tid, Pc>, t: Tid, pc: Pc)
    requires LinksApart(pcs) && !pc.LinkClaimed?
    ensures LinksApart(pcs[t := pc])
  {
  }

  lemma ConservedHand(c: Config, s: State, t: Tid, timer: Tid, due: Time)
    requires Conserved(c, s) && t in s.pcs && CanWork(c, s, s.pcs[t], RetryLater(timer, due))
    ensures Conserved(c, Works(c, s, t, RetryLater(timer, due)))
  {
    hide Placed;
    var r := s.pcs[t].r;
    CarriedIsPlaced(s, r, t);
    PlacedHand(s.queue, s.place, s.pcs, t, r, Releasing(r, false), timer, Waiting(r, due));
  }

  lemma ConservedLink(c: Config, s: State, t: Tid, pc: Pc)
    requires Conserved(c, s) && t in s.pcs && s.pcs[t].LinkClaimed? && (pc == LinkWake(s.pcs[t].r) || pc == Parsing(s.pcs[t].r))
    ensures Conserved(c, Move(Push(s, s.pcs[t].child), t, pc))
  {
    hide Placed;
    var r, child := s.pcs[t].r, s.pcs[t].child;
    assert r != child && {r, child} - {child} == {r};
    ConservedPush(c, s, t, child, pc);
  }

  lemma ConservedAbandon(c: Config, s: State, t: Tid)
    requires Conserved(c, s) && t in s.pcs && s.pcs[t].Waiting?
    ensures Conserved(c, Move(s.(place := s.place[s.pcs[t].r := Dropped]), t, FiredDone))
  {
    hide Placed;
    CarriedIsPlaced(s, s.pcs[t].r, t);
    PlacedGive(s.queue, s.place, s.pcs, t, s.pcs[t].r, FiredDone, Dropped);
  }

  /** A thread goes on with exactly the claims it carried. */
  predicate SameLoad(from: Pc, to: Pc) {
    Carries(from) == Carries(to) && !to.LinkClaimed?
  }

  /** A step that leaves every claim where it is. */
  lemma ConservedMove(c: Config, s: State, t: Tid, s1: State, pc: Pc)
    requires Conserved(c, s) && t in s.pcs && SameLoad(s.pcs[t], pc)
    requires s1.queue == s.queue && s1.place == s.place && s1.seen == s.seen && s1.pcs == s.pcs
    ensures Conserved(c, Move(s1, t, pc))
  {
    hide Placed;
    PlacedMove(s.queue, s.place, s.pcs, t, pc);
    LinksMove(s.pcs, t, pc);
  }

  lemma PopLoad(c: Config, s: State, pc: Pc, p: PopStep)
    requires CanPop(c, s, pc, p) && !p.Take? && !p.Drain?
    ensures if p.PushBack? then GivesUp(pc, PopTo(s, pc, p), pc.r) else SameLoad(pc, PopTo(s, pc, p))
  {
    hide Soonest, NoneReady, Ready;
  }

  lemma WorkLoad(c: Config, s: State, pc: Pc, w: WorkStep)
    requires CanWork(c, s, pc, w) && !w.RetryLater? && !w.AddLink? && !w.LinkPush? && !w.Release?
    ensures if w.RequeuePush? then GivesUp(pc, WorkTo(c, s, pc, w), pc.r) else SameLoad(pc, WorkTo(c, s, pc, w))
  {
    hide MayRetry, Accepts;
  }

  lemma SideLoad(c: Config, s: State, pc: Pc, o: SideStep)
    requires CanSide(c, s, pc, o) && !o.AddSeed? && !o.Abandon?
    ensures if o.SeedPush? || o.FirePush? then GivesUp(pc, SideTo(c, s, pc, o), pc.r) else SameLoad(pc, SideTo(c, s, pc, o))
  {
    hide Accepts, Outstanding;
  }

  lemma ConservedInPop(c: Config, s: State, t: Tid, p: PopStep)
    requires Conserved(c, s) && t in s.pcs && CanPop(c, s, s.pcs[t], p)
    ensures Conserved(c, Pops(c, s, t, p))
  {
    hide Conserved, Soonest, NoneReady, Push, Pop, PopTo, SameLoad, GivesUp, Move;
    var pc, to := s.pcs[t], PopTo(s, s.pcs[t], p);
    match p
    case Take(r) => assert to.Claiming? && to.r == r by { TakeTo(s, pc, r); } ConservedPop(c, s, t, r, to);
    case Drain(r) => assert to == Taken(r) by { TakeTo(s, pc, r); } ConservedPop(c, s, t, r, to);
    case PushBack => PopLoad(c, s, pc, p); ConservedPush(c, s, t, pc.r, to);
    case _ => PopLoad(c, s, pc, p); ConservedMove(c, s, t, PopEffect(c, s, t, pc, p), to);
  }

  lemma TakeTo(s: State, pc: Pc, r: Req)
    ensures PopTo(s, pc, Take(r)).Claiming? && PopTo(s, pc, Take(r)).r == r && PopTo(s, pc, Drain(r)) == Taken(r)
  {
  }

  lemma ConservedInWork(c: Config, s: State, t: Tid, w: WorkStep)
    requires Conserved(c, s) && t in s.pcs && CanWork(c, s, s.pcs[t], w)
    ensures Conserved(c, Works(c, s, t, w))
  {
    hide Conserved, Accepts, MayRetry, Push, Accept, Done, SameLoad, GivesUp, Move;
    var pc, to := s.pcs[t], WorkTo(c, s, s.pcs[t], w);
    match w
    case RetryLater(timer, due) => ConservedHand(c, s, t, timer, due);
    case AddLink(child) => ConservedAccept(c, s, t, child, to);
    case LinkPush => ConservedLink(c, s, t, to);
    case Release => ConservedDone(c, s, t, pc.r, pc.live);
    case RequeuePush => WorkLoad(c, s, pc, w); ConservedPush(c, s, t, pc.r, to);
    case _ => WorkLoad(c, s, pc, w); ConservedMove(c, s, t, WorkEffect(c, s, t, pc, w), to);
  }

  lemma ConservedAside(c: Config, s: State, t: Tid, o: SideStep)
    requires Conserved(c, s) && t in s.pcs && CanSide(c, s, s.pcs[t], o)
    ensures Conserved(c, Sides(c, s, t, o))
  {
    hide Conserved, Accepts, Outstanding, Push, Accept, SameLoad, GivesUp, Move;
    var pc, to := s.pcs[t], SideTo(c, s, s.pcs[t], o);
    match o
    case AddSeed(r) => ConservedAccept(c, s, t, r, to);
    case Abandon => ConservedAbandon(c, s, t);
    case SeedPush => SideLoad(c, s, pc, o); ConservedPush(c, s, t, pc.r, to);
    case FirePush => SideLoad(c, s, pc, o); ConservedPush(c, s, t, pc.r, to);
    case _ => SideLoad(c, s, pc, o); ConservedMove(c, s, t, SideEffect(c, s, t, pc, o), to);
  }

  lemma ConservedWake(c: Config, s: State, t: Tid)
    requires Conserved(c, s) && t in s.pcs && OwesWake(s.pcs[t])
    ensures Conserved(c, Apply(c, s, Wake(t)))
  {
    hide Placed;
    ConservedMove(c, s, t, s.(notify := true), AfterWake(s.pcs[t]));
  }

  lemma ConservedElse(c: Config, s: State, s1: State)
    requires Conserved(c, s)
    requires s1.queue == s.queue && s1.place == s.place && s1.pcs == s.pcs && s1.seen == s.seen
    ensures Conserved(c, s1)
  {
    hide Placed;
  }

  /** Every step conserves. */
  lemma ConservedStep(c: Config, s: State, a: Action)
    requires Conserved(c, s) && Enabled(c, s, a)
    ensures Conserved(c, Apply(c, s, a))
  {
    hide Conserved, Pops, Works, Sides, CanPop, CanWork, CanSide;
    match a
    case InPop(t, p) => ConservedInPop(c, s, t, p);
    case InWork(t, w) => ConservedInWork(c, s, t, w);
    case Aside(t, o) => ConservedAside(c, s, t, o);
    case Wake(t) => ConservedWake(c, s, t);
    case _ => ConservedElse(c, s, Apply(c, s, a));
  }
}
