/** The crawl as interleaved steps: workers, seed callers, retry timers, the idle monitor and a
    caller of Stop share the frontier's queue, its in-flight set, its one-slot wakeup channel and
    the scheduler's counters (internal/engine/frontier.go, scheduler.go, engine.go).

    A step is what one thread does between two points where another may run: one critical
    section, one atomic counter, one channel operation. The windows the code leaves open are
    program points of their own. */
module Crawl {
  import opened Wrappers

  type Req = nat       // a request, by identity
  type Url = nat       // a canonical URL
  type Domain = nat
  type Tid = nat
  type Time = int

  /** What never changes during a crawl. */
  datatype Config = Config(
    workers: set<Tid>,
    maxRequests: nat,             // 0: no limit
    maxDepth: int,
    delay: nat,                   // politeness, per domain
    urlOf: Req -> Url,
    domainOf: Req -> Domain,
    depthOf: Req -> int,
    maxRetriesOf: Req -> nat)

  /** Where a thread is. */
  datatype Pc =
    // a worker, in `worker` and `PopReady`
    | Top                                     // head of the loop, perhaps paused
    | Scan                                    // about to lock the frontier and scan
    | Parked(deadline: Option<Time>)          // in the select, with a timer or without
    | Draining                                // saw the frontier closed, about to TryPop
    | Claiming(r: Req, remaining: nat)        // took r, `remaining` left behind, about to Claim
    | Rejected(r: Req)                        // Claim failed, about to Done
    | Returning(r: Req)                       // Done has run, Push has not: r is in neither place
    | Rewaking                                // pushed back, owes a wakeup
    | Baton(r: Req)                           // Claim succeeded, owes a wakeup for what is left
    // a worker, in `processRequest`
    | Taken(r: Req)
    | Sent(r: Req)                            // counted as sent, the fetch is running
    | Parsing(r: Req)
    | LinkClaimed(r: Req, child: Req)         // child's URL is marked, Push has not run
    | LinkWake(r: Req)                        // child pushed, owes a wakeup
    | Requeue(r: Req)                         // failed, to be retried at once
    | RetryWake(r: Req)                       // pushed for retry, owes a wakeup
    | Releasing(r: Req, live: bool)           // about to Done; not live once handed on
    | Checking                                // about to test the request limit
    | StopClose | StopCancel | Exited
    // a caller of AddRequest outside the crawl
    | SeedIdle | SeedClaimed(r: Req) | SeedWake
    // a retry timer
    | Waiting(r: Req, due: Time) | Firing(r: Req) | FiredWake | FiredDone | Gone
    // the idle monitor
    | MonIdle(streak: nat) | MonRead(streak: nat, outstanding: nat) | MonClosing | MonDone

  /** Where the one live claim to a request is. */
  datatype Place = Queued | Held(t: Tid) | Finished | Dropped

  datatype State = State(
    queue: multiset<Req>,
    inFlight: set<Req>,
    closed: bool,
    cancelled: bool,
    notify: bool,                 // the wakeup channel's one slot
    now: Time,
    readyAt: map<Domain, Time>,   // a domain not listed is ready
    seen: set<Url>,
    pending: int,                 // pendingRetries
    sent: nat,                    // RequestsSent
    retries: map<Req, nat>,       // RetryCount
    fetches: map<Req, nat>,       // history: calls to Fetch
    place: map<Req, Place>,       // history: every accepted request
    erased: set<Req>,             // history: held requests whose entry another holder's Done deleted
    pcs: map<Tid, Pc>)

  /** Steps inside PopReady. */
  datatype PopStep =
    | BeginPop | Take(r: Req) | Park(deadline: Option<Time>)
    | SeeClosed | Drain(r: Req) | DrainNothing
    | UnparkClosed | UnparkNotify | UnparkTimer | CtxExit
    | ClaimOk | ClaimFail | Reject | PushBack

  /** Steps of processRequest and of the rest of the worker's loop. */
  datatype WorkStep =
    | Send | Skip | FetchOk | FetchFail
    | RetryNow | RequeuePush | RetryLater(timer: Tid, due: Time)
    | AddLink(child: Req) | LinkPush | EndParse
    | Release | Check | Close | StopLost | Cancel

  /** Steps of seed callers, retry timers and the idle monitor. */
  datatype SideStep =
    | AddSeed(r: Req) | SeedPush
    | Fire | FirePush | Abandon | TimerGone
    | ReadOutstanding | ReadPending | MonitorStops

  datatype Action =
    | InPop(t: Tid, p: PopStep) | InWork(t: Tid, w: WorkStep) | Aside(t: Tid, o: SideStep)
    | Wake(t: Tid)
    | StopFromOutside | CancelFromOutside | Tick(d: nat)

  // ---- Reading the state ----

  function ReadyAt(c: Config, s: State, r: Req): Time {
    if c.domainOf(r) in s.readyAt then s.readyAt[c.domainOf(r)] else s.now
  }

  predicate Ready(c: Config, s: State, r: Req) {
    ReadyAt(c, s, r) <= s.now
  }

  ghost predicate NoneReady(c: Config, s: State) {
    forall r | r in s.queue :: !Ready(c, s, r)
  }

  function Outstanding(s: State): nat {
    |s.queue| + |s.inFlight|
  }

  /** A deadline the scan may compute: the least delay over the queue, none when it is empty. */
  ghost predicate Soonest(c: Config, s: State, d: Option<Time>) {
    match d
    case None => s.queue == multiset{}
    case Some(at) =>
      && (exists r :: r in s.queue && ReadyAt(c, s, r) == at)
      && (forall r | r in s.queue :: at <= ReadyAt(c, s, r))
  }

  function RetryCount(s: State, r: Req): nat {
    if r in s.retries then s.retries[r] else 0
  }

  function Fetches(s: State, r: Req): nat {
    if r in s.fetches then s.fetches[r] else 0
  }

  // ---- Steps ----

  /** AddRequest accepts a request whose depth is in range and whose URL nobody has marked. The
      robots and domain filters may refuse any request; a refusal changes nothing here. */
  predicate Accepts(c: Config, s: State, r: Req) {
    c.depthOf(r) <= c.maxDepth && c.urlOf(r) !in s.seen
  }

  predicate OwesWake(pc: Pc) {
    pc.Rewaking? || pc.Baton? || pc.LinkWake? || pc.RetryWake? || pc.SeedWake? || pc.FiredWake?
  }

  function AfterWake(pc: Pc): Pc
    requires OwesWake(pc)
  {
    match pc
    case Rewaking => Scan
    case Baton(r) => Taken(r)
    case LinkWake(r) => Parsing(r)
    case RetryWake(r) => Releasing(r, false)
    case SeedWake => SeedIdle
    case FiredWake => FiredDone
  }

  ghost predicate CanPop(c: Config, s: State, pc: Pc, p: PopStep) {
    match p
    case BeginPop => pc.Top?
    case Take(r) => pc.Scan? && r in s.queue && Ready(c, s, r)
    case Park(d) => pc.Scan? && NoneReady(c, s) && !s.closed && Soonest(c, s, d)
    case SeeClosed => pc.Scan? && NoneReady(c, s) && s.closed
    case Drain(r) => pc.Draining? && r in s.queue
    case DrainNothing => pc.Draining? && s.queue == multiset{}
    case UnparkClosed => pc.Parked? && s.closed
    case UnparkNotify => pc.Parked? && s.notify
    case UnparkTimer => pc.Parked? && pc.deadline.Some? && pc.deadline.value <= s.now
    case CtxExit => (pc.Parked? || pc.Top?) && s.cancelled
    case ClaimOk => pc.Claiming? && Ready(c, s, pc.r)
    case ClaimFail => pc.Claiming? && !Ready(c, s, pc.r)
    case Reject => pc.Rejected?
    case PushBack => pc.Returning?
  }

  predicate MayRetry(c: Config, s: State, r: Req) {
    RetryCount(s, r) < c.maxRetriesOf(r)
  }

  predicate CanWork(c: Config, s: State, pc: Pc, w: WorkStep) {
    match w
    case Send => pc.Taken?
    case Skip => pc.Taken?                 // no fetcher of that type, or the circuit is open
    case FetchOk => pc.Sent?
    case FetchFail => pc.Sent?
    case RetryNow => pc.Sent? && MayRetry(c, s, pc.r)
    case RequeuePush => pc.Requeue?
    case RetryLater(timer, due) =>
      pc.Sent? && MayRetry(c, s, pc.r) && timer !in s.pcs && timer !in c.workers && s.now < due
    case AddLink(child) => pc.Parsing? && Accepts(c, s, child) && c.depthOf(child) == c.depthOf(pc.r) + 1
    case LinkPush => pc.LinkClaimed?
    case EndParse => pc.Parsing?
    case Release => pc.Releasing?
    case Check => pc.Checking?
    case Close => pc.StopClose?
    case StopLost => pc.StopClose?         // somebody else is already stopping
    case Cancel => pc.StopCancel?
  }

  predicate CanSide(c: Config, s: State, pc: Pc, o: SideStep) {
    match o
    case AddSeed(r) => pc.SeedIdle? && Accepts(c, s, r)
    case SeedPush => pc.SeedClaimed?
    case Fire => pc.Waiting? && pc.due <= s.now
    case FirePush => pc.Firing?
    case Abandon => pc.Waiting? && s.cancelled
    case TimerGone => pc.FiredDone?
    case ReadOutstanding => pc.MonIdle?
    case ReadPending => pc.MonRead?
    case MonitorStops => pc.MonClosing? || (pc.MonIdle? && s.cancelled)
  }

  ghost predicate Enabled(c: Config, s: State, a: Action) {
    match a
    case InPop(t, p) => t in s.pcs && CanPop(c, s, s.pcs[t], p)
    case InWork(t, w) => t in s.pcs && CanWork(c, s, s.pcs[t], w)
    case Aside(t, o) => t in s.pcs && CanSide(c, s, s.pcs[t], o)
    case Wake(t) => t in s.pcs && OwesWake(s.pcs[t])
    case StopFromOutside => true
    case CancelFromOutside => s.closed
    case Tick(_) => true
  }

  function Move(s: State, t: Tid, pc: Pc): State {
    s.(pcs := s.pcs[t := pc])
  }

  // What happens to the shared state

  /** `Frontier.Push`: a closed frontier drops the request without a word. */
  function Push(s: State, r: Req): State {
    if s.closed then s.(place := s.place[r := Dropped])
    else s.(queue := s.queue + multiset{r}, place := s.place[r := Queued])
  }

  /** Taking a queued request: out of the queue and into the in-flight set under one lock. */
  function Pop(s: State, t: Tid, r: Req): State {
    s.(queue := s.queue - multiset{r}, inFlight := s.inFlight + {r},
       place := s.place[r := Held(t)], erased := s.erased - {r})
  }

  function Accept(c: Config, s: State, t: Tid, r: Req): State {
    s.(seen := s.seen + {c.urlOf(r)}, place := s.place[r := Held(t)])
  }

  /** `Frontier.Done`: the entry goes, whoever else may hold the request by now. */
  function Done(s: State, r: Req, live: bool): State {
    var heldElsewhere := !live && r in s.place && s.place[r].Held?;
    s.(inFlight := s.inFlight - {r},
       place := if live then s.place[r := Finished] else s.place,
       erased := if heldElsewhere then s.erased + {r} else s.erased)
  }

  function PopEffect(c: Config, s: State, t: Tid, pc: Pc, p: PopStep): State
    requires p.ClaimOk? ==> pc.Claiming?
    requires p.Reject? ==> pc.Rejected?
    requires p.PushBack? ==> pc.Returning?
  {
    match p
    case Take(r) => Pop(s, t, r)
    case Drain(r) => Pop(s, t, r)
    case UnparkNotify => s.(notify := false)
    case ClaimOk => s.(readyAt := s.readyAt[c.domainOf(pc.r) := s.now + c.delay])
    case Reject => s.(inFlight := s.inFlight - {pc.r})
    case PushBack => Push(s, pc.r)
    case _ => s
  }

  function WorkEffect(c: Config, s: State, t: Tid, pc: Pc, w: WorkStep): State
    requires CanWork(c, s, pc, w)
  {
    match w
    case Send => s.(sent := s.sent + 1, fetches := s.fetches[pc.r := Fetches(s, pc.r) + 1])
    case RetryNow => s.(retries := s.retries[pc.r := RetryCount(s, pc.r) + 1])
    case RequeuePush => Push(s, pc.r)
    case RetryLater(timer, due) =>
      s.(retries := s.retries[pc.r := RetryCount(s, pc.r) + 1], pending := s.pending + 1,
         place := s.place[pc.r := Held(timer)])
    case AddLink(child) => Accept(c, s, t, child)
    case LinkPush => Push(s, pc.child)
    case Release => Done(s, pc.r, pc.live)
    case Close => s.(closed := true)
    case Cancel => s.(cancelled := true)
    case _ => s
  }

  function SideEffect(c: Config, s: State, t: Tid, pc: Pc, o: SideStep): State
    requires CanSide(c, s, pc, o)
  {
    match o
    case AddSeed(r) => Accept(c, s, t, r)
    case SeedPush => Push(s, pc.r)
    case FirePush => Push(s, pc.r)
    case Abandon => s.(place := s.place[pc.r := Dropped])
    case TimerGone => s.(pending := s.pending - 1)
    case MonitorStops => s.(closed := true)
    case _ => s
  }

  // Where the thread goes

  function PopTo(s: State, pc: Pc, p: PopStep): Pc
    requires p.ClaimOk? || p.ClaimFail? ==> pc.Claiming?
    requires p.Reject? ==> pc.Rejected?
  {
    match p
    case BeginPop => Scan
    case Take(r) => Claiming(r, |s.queue - multiset{r}|)
    case Park(d) => Parked(d)
    case SeeClosed => Draining
    case Drain(r) => Taken(r)
    case DrainNothing => Exited
    case UnparkClosed => Scan
    case UnparkNotify => Scan
    case UnparkTimer => Scan
    case CtxExit => Exited
    case ClaimOk => if pc.remaining > 0 then Baton(pc.r) else Taken(pc.r)
    case ClaimFail => Rejected(pc.r)
    case Reject => Returning(pc.r)
    case PushBack => if s.closed then Scan else Rewaking
  }

  function WorkTo(c: Config, s: State, pc: Pc, w: WorkStep): Pc
    requires CanWork(c, s, pc, w)
  {
    match w
    case Send => Sent(pc.r)
    case Skip => Releasing(pc.r, true)
    case FetchOk => Parsing(pc.r)
    case FetchFail => Releasing(pc.r, true)
    case RetryNow => Requeue(pc.r)
    case RequeuePush => if s.closed then Releasing(pc.r, false) else RetryWake(pc.r)
    case RetryLater(_, _) => Releasing(pc.r, false)
    case AddLink(child) => LinkClaimed(pc.r, child)
    case LinkPush => if s.closed then Parsing(pc.r) else LinkWake(pc.r)
    case EndParse => Releasing(pc.r, true)
    case Release => Checking
    case Check => if c.maxRequests > 0 && s.sent >= c.maxRequests then StopClose else Top
    case Close => StopCancel
    case StopLost => Exited
    case Cancel => Exited
  }

  function SideTo(c: Config, s: State, pc: Pc, o: SideStep): Pc
    requires CanSide(c, s, pc, o)
  {
    match o
    case AddSeed(r) => SeedClaimed(r)
    case SeedPush => if s.closed then SeedIdle else SeedWake
    case Fire => Firing(pc.r)
    case FirePush => if s.closed then FiredDone else FiredWake
    case Abandon => FiredDone
    case TimerGone => Gone
    case ReadOutstanding => MonRead(pc.streak, Outstanding(s))
    case ReadPending =>
      if pc.outstanding != 0 || s.pending != 0 then MonIdle(0)
      else if pc.streak + 1 >= 3 then MonClosing else MonIdle(pc.streak + 1)
    case MonitorStops => MonDone
  }

  ghost function Pops(c: Config, s: State, t: Tid, p: PopStep): State
    requires t in s.pcs && CanPop(c, s, s.pcs[t], p)
  {
    Move(PopEffect(c, s, t, s.pcs[t], p), t, PopTo(s, s.pcs[t], p))
  }

  function Works(c: Config, s: State, t: Tid, w: WorkStep): State
    requires t in s.pcs && CanWork(c, s, s.pcs[t], w)
  {
    var s1 := Move(WorkEffect(c, s, t, s.pcs[t], w), t, WorkTo(c, s, s.pcs[t], w));
    if w.RetryLater? then Move(s1, w.timer, Waiting(s.pcs[t].r, w.due)) else s1
  }

  function Sides(c: Config, s: State, t: Tid, o: SideStep): State
    requires t in s.pcs && CanSide(c, s, s.pcs[t], o)
  {
    Move(SideEffect(c, s, t, s.pcs[t], o), t, SideTo(c, s, s.pcs[t], o))
  }

  ghost function Apply(c: Config, s: State, a: Action): State
    requires Enabled(c, s, a)
  {
    match a
    case InPop(t, p) => Pops(c, s, t, p)
    case InWork(t, w) => Works(c, s, t, w)
    case Aside(t, o) => Sides(c, s, t, o)
    case Wake(t) => Move(s, t, AfterWake(s.pcs[t])).(notify := true)
    case StopFromOutside => s.(closed := true)
    case CancelFromOutside => s.(cancelled := true)
    case Tick(d) => s.(now := s.now + d)
  }

  /** A worker that finds nothing ready always has a deadline to park with. */
  lemma SoonestExists(c: Config, s: State)
    ensures exists d :: Soonest(c, s, d)
  {
    if s.queue == multiset{} {
      assert Soonest(c, s, None);
    } else {
      var r := Earliest(c, s, s.queue);
      assert Soonest(c, s, Some(ReadyAt(c, s, r)));
    }
  }

  lemma {:induction false} Earliest(c: Config, s: State, q: multiset<Req>) returns (r: Req)
    requires q != multiset{}
    ensures r in q && forall x | x in q :: ReadyAt(c, s, r) <= ReadyAt(c, s, x)
    decreases |q|
  {
    var x :| x in q;
    var rest := q - multiset{x};
    if rest == multiset{} {
      assert forall z | z in q :: z == x || z in rest;
      r := x;
    } else {
      var y := Earliest(c, s, rest);
      assert forall z | z in q :: z == x || z in rest;
      r := if ReadyAt(c, s, x) <= ReadyAt(c, s, y) then x else y;
    }
  }

  // ---- Runs ----

  ghost predicate Init(c: Config, s: State) {
    && s.queue == multiset{} && s.inFlight == {} && !s.closed && !s.cancelled && !s.notify
    && s.readyAt == map[] && s.seen == {} && s.pending == 0 && s.sent == 0
    && s.retries == map[] && s.fetches == map[] && s.place == map[] && s.erased == {}
    && c.workers <= s.pcs.Keys
    && (forall t | t in c.workers :: s.pcs[t] == Top)
    && (forall t | t in s.pcs && t !in c.workers :: s.pcs[t] == SeedIdle || s.pcs[t] == MonIdle(0))
  }

  /** `run` leads from `s` to `s'`. */
  ghost predicate Runs(c: Config, s: State, run: seq<Action>, s': State)
    decreases |run|
  {
    if run == [] then s == s'
    else Enabled(c, s, run[0]) && Runs(c, Apply(c, s, run[0]), run[1..], s')
  }
}
