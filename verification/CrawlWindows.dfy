/** Three runs of the code as it is, in which the idle monitor's idea of completion is wrong
    (internal/engine/frontier.go, scheduler.go). */
module CrawlWindows {
  import opened Crawl
  import opened CrawlCompletion
  import opened CrawlRuns

  lemma {:induction false} RunsSnoc(c: Config, s0: State, run: seq<Action>, s: State, a: Action)
    requires Runs(c, s0, run, s) && Enabled(c, s, a)
    ensures Runs(c, s0, run + [a], Apply(c, s, a))
    decreases |run|
  {
    hide Enabled, Apply;
    if run == [] {
      assert run + [a] == [a];
      assert Runs(c, Apply(c, s, a), [], Apply(c, s, a));
    } else {
      RunsSnoc(c, Apply(c, s0, run[0]), run[1..], s, a);
      assert (run + [a])[1..] == run[1..] + [a];
    }
  }

  lemma Reach(c: Config, s: State, a: Action, s1: State)
    requires Reachable(c, s) && Enabled(c, s, a) && Apply(c, s, a) == s1
    ensures Reachable(c, s1)
  {
    hide Enabled, Apply, Init, Runs;
    var s0, run :| Init(c, s0) && Runs(c, s0, run, s);
    RunsSnoc(c, s0, run, s, a);
  }

  lemma ByPop(c: Config, s: State, t: Tid, p: PopStep) returns (s1: State)
    requires Reachable(c, s) && t in s.pcs && CanPop(c, s, s.pcs[t], p)
    ensures Reachable(c, s1) && s1 == Move(PopEffect(c, s, t, s.pcs[t], p), t, PopTo(s, s.pcs[t], p))
  {
    hide Reachable, CanPop;
    s1 := Pops(c, s, t, p);
    Reach(c, s, InPop(t, p), s1);
  }

  lemma ByWork(c: Config, s: State, t: Tid, w: WorkStep) returns (s1: State)
    requires Reachable(c, s) && t in s.pcs && CanWork(c, s, s.pcs[t], w)
    ensures Reachable(c, s1) && s1 == Works(c, s, t, w)
  {
    hide Reachable, CanWork, Works;
    s1 := Works(c, s, t, w);
    Reach(c, s, InWork(t, w), s1);
  }

  lemma BySide(c: Config, s: State, t: Tid, o: SideStep) returns (s1: State)
    requires Reachable(c, s) && t in s.pcs && CanSide(c, s, s.pcs[t], o)
    ensures Reachable(c, s1) && s1 == Move(SideEffect(c, s, t, s.pcs[t], o), t, SideTo(c, s, s.pcs[t], o))
  {
    hide Reachable, CanSide;
    s1 := Sides(c, s, t, o);
    Reach(c, s, Aside(t, o), s1);
  }

  lemma ByWake(c: Config, s: State, t: Tid) returns (s1: State)
    requires Reachable(c, s) && t in s.pcs && OwesWake(s.pcs[t])
    ensures Reachable(c, s1) && s1 == Move(s, t, AfterWake(s.pcs[t])).(notify := true)
  {
    hide Reachable;
    s1 := Move(s, t, AfterWake(s.pcs[t])).(notify := true);
    Reach(c, s, Wake(t), s1);
  }

  /** Two workers 0 and 1, a seed caller 2, the monitor 3, and requests that may be retried once. */
  function TwoWorkers(): Config {
    Config({0, 1}, 0, 0, 0, r => r, r => 0, r => 0, r => 1)
  }

  function AtStart(): State {
    State(multiset{}, {}, false, false, false, 0, map[], {}, 0, 0, map[], map[], map[], {},
          map[0 := Top, 1 := Top, 2 := SeedIdle, 3 := MonIdle(0)])
  }

  lemma StartIsReachable()
    ensures Reachable(TwoWorkers(), AtStart())
  {
    assert Init(TwoWorkers(), AtStart());
    assert Runs(TwoWorkers(), AtStart(), [], AtStart());
  }

  lemma Seed(c: Config, s: State, t: Tid, r: Req) returns (s1: State)
    requires Reachable(c, s) && t in s.pcs && s.pcs[t] == SeedIdle && Accepts(c, s, r) && !s.closed
    ensures Reachable(c, s1)
    ensures s1 == s.(seen := s.seen + {c.urlOf(r)}, queue := s.queue + multiset{r}, notify := true,
                     place := s.place[r := Queued])
  {
    hide Reachable;
    var a := Claim(c, s, t, r);
    var b := BySide(c, a, t, SeedPush);
    s1 := ByWake(c, b, t);
    assert s1.pcs == s.pcs;
    assert s1.place == s.place[r := Queued];
  }

  lemma Claim(c: Config, s: State, t: Tid, r: Req) returns (s1: State)
    requires Reachable(c, s) && t in s.pcs && s.pcs[t] == SeedIdle && Accepts(c, s, r)
    ensures Reachable(c, s1)
    ensures s1 == s.(seen := s.seen + {c.urlOf(r)}, place := s.place[r := Held(t)], pcs := s.pcs[t := SeedClaimed(r)])
  {
    hide Reachable, Accepts;
    s1 := BySide(c, s, t, AddSeed(r));
  }

  /** Worker t takes the only queued request. */
  lemma TakeOnly(c: Config, s: State, t: Tid, r: Req) returns (s1: State)
    requires Reachable(c, s) && t in s.pcs && s.pcs[t] == Top && s.queue == multiset{r} && Ready(c, s, r)
    ensures Reachable(c, s1)
    ensures s1 == s.(queue := multiset{}, inFlight := s.inFlight + {r}, erased := s.erased - {r},
                     place := s.place[r := Held(t)], pcs := s.pcs[t := Claiming(r, 0)])
  {
    hide Reachable, Soonest, NoneReady;
    var a := ByPop(c, s, t, BeginPop);
    s1 := ByPop(c, a, t, Take(r));
    assert s.queue - multiset{r} == multiset{};
    assert s1.pcs == s.pcs[t := Claiming(r, 0)];
  }

  /** It claims the request's domain and starts to fetch. */
  lemma Fetch(c: Config, s: State, t: Tid, r: Req) returns (s1: State)
    requires Reachable(c, s) && t in s.pcs && s.pcs[t] == Claiming(r, 0) && Ready(c, s, r)
    ensures Reachable(c, s1)
    ensures s1 == s.(readyAt := s.readyAt[c.domainOf(r) := s.now + c.delay], sent := s.sent + 1,
                     fetches := s.fetches[r := Fetches(s, r) + 1], pcs := s.pcs[t := Sent(r)])
  {
    hide Reachable, Soonest, NoneReady;
    var a := ByPop(c, s, t, ClaimOk);
    s1 := ByWork(c, a, t, Send);
    assert s1.pcs == s.pcs[t := Sent(r)];
  }

  /** The fetch fails; t pushes the request for an immediate retry and is about to call Done. */
  lemma Retry(c: Config, s: State, t: Tid, r: Req) returns (s1: State)
    requires Reachable(c, s) && t in s.pcs && s.pcs[t] == Sent(r) && MayRetry(c, s, r) && !s.closed
    ensures Reachable(c, s1)
    ensures s1 == s.(queue := s.queue + multiset{r}, notify := true, retries := s.retries[r := RetryCount(s, r) + 1],
                     place := s.place[r := Queued], pcs := s.pcs[t := Releasing(r, false)])
  {
    hide Reachable;
    var a := ByWork(c, s, t, RetryNow);
    var b := ByWork(c, a, t, RequeuePush);
    s1 := ByWake(c, b, t);
    assert s1.pcs == s.pcs[t := Releasing(r, false)];
  }

  /** One poll of the monitor that finds nothing. */
  lemma Poll(c: Config, s: State, m: Tid, k: nat) returns (s1: State)
    requires Reachable(c, s) && m in s.pcs && s.pcs[m] == MonIdle(k) && Outstanding(s) == 0 && s.pending == 0
    ensures Reachable(c, s1)
    ensures s1 == s.(pcs := s.pcs[m := if k + 1 >= 3 then MonClosing else MonIdle(k + 1)])
  {
    hide Reachable, Accepts, Outstanding;
    var a := BySide(c, s, m, ReadOutstanding);
    s1 := BySide(c, a, m, ReadPending);
    assert s1.pcs == s.pcs[m := if k + 1 >= 3 then MonClosing else MonIdle(k + 1)];
  }

  /** Three polls of an idle crawl, and the frontier is closed. */
  lemma ThreePolls(c: Config, s: State, m: Tid) returns (s1: State)
    requires Reachable(c, s) && m in s.pcs && s.pcs[m] == MonIdle(0) && Outstanding(s) == 0 && s.pending == 0
    ensures Reachable(c, s1) && s1 == s.(closed := true, pcs := s.pcs[m := MonDone])
  {
    hide Reachable, Outstanding;
    var a := Poll(c, s, m, 0);
    SameOut(s, a);
    var b := Poll(c, a, m, 1);
    SameOut(a, b);
    var d := Poll(c, b, m, 2);
    s1 := BySide(c, d, m, MonitorStops);
    assert s1.pcs == s.pcs[m := MonDone];
  }

  lemma SameOut(s: State, s1: State)
    requires s1.queue == s.queue && s1.inFlight == s.inFlight
    ensures Outstanding(s1) == Outstanding(s)
  {
  }

  /** A retry timer runs its course. */
  lemma Fires(c: Config, s: State, t: Tid, r: Req) returns (s1: State)
    requires Reachable(c, s) && t in s.pcs && s.pcs[t] == Waiting(r, s.now) && !s.closed
    ensures Reachable(c, s1)
    ensures s1 == s.(queue := s.queue + multiset{r}, notify := true, pending := s.pending - 1,
                     place := s.place[r := Queued], pcs := s.pcs[t := Gone])
  {
    hide Reachable, Accepts, Outstanding;
    var a := BySide(c, s, t, Fire);
    var b := BySide(c, a, t, FirePush);
    var d := ByWake(c, b, t);
    s1 := BySide(c, d, t, TimerGone);
    assert s1.pcs == s.pcs[t := Gone];
  }

  /** Done for a request that another thread holds by now. */
  lemma Late(c: Config, s: State, t: Tid, r: Req) returns (s1: State)
    requires Reachable(c, s) && t in s.pcs && s.pcs[t] == Releasing(r, false) && r in s.place && s.place[r].Held?
    ensures Reachable(c, s1)
    ensures s1 == s.(inFlight := s.inFlight - {r}, erased := s.erased + {r}, pcs := s.pcs[t := Checking])
  {
    hide Reachable;
    s1 := ByWork(c, s, t, Release);
  }

  /** The fetch fails and a timer takes the request over. */
  lemma Backoff(c: Config, s: State, t: Tid, r: Req, n: Tid) returns (s1: State)
    requires Reachable(c, s) && t in s.pcs && s.pcs[t] == Sent(r) && MayRetry(c, s, r) && n !in s.pcs && n !in c.workers
    ensures Reachable(c, s1)
    ensures s1 == s.(retries := s.retries[r := RetryCount(s, r) + 1], pending := s.pending + 1, place := s.place[r := Held(n)],
                     pcs := s.pcs[t := Releasing(r, false)][n := Waiting(r, s.now + 1)])
  {
    hide Reachable, RetryCount;
    s1 := ByWork(c, s, t, RetryLater(n, s.now + 1));
  }

  /** Where the two workers and the monitor are. */
  predicate Threads(s: State, w0: Pc, w1: Pc, m: Pc) {
    0 in s.pcs && s.pcs[0] == w0 && 1 in s.pcs && s.pcs[1] == w1 && 3 in s.pcs && s.pcs[3] == m
  }

  lemma Seeded() returns (s: State)
    ensures Reachable(TwoWorkers(), s) && !s.closed && s.pending == 0 && s.now == 0
    ensures s.queue == multiset{0} && s.inFlight == {} && s.readyAt == map[] && s.retries == map[]
    ensures Threads(s, Top, Top, MonIdle(0)) && 9 !in s.pcs
  {
    hide Reachable;
    StartIsReachable();
    assert Threads(AtStart(), Top, Top, MonIdle(0)) && 9 !in AtStart().pcs && AtStart().pcs[2] == SeedIdle;
    s := Seed(TwoWorkers(), AtStart(), 2, 0);
    assert s.queue == multiset{0};
  }

  lemma SeedTaken() returns (s: State)
    ensures Reachable(TwoWorkers(), s) && !s.closed && s.pending == 0 && s.now == 0
    ensures s.queue == multiset{} && s.inFlight == {0} && s.readyAt == map[] && s.retries == map[]
    ensures Threads(s, Claiming(0, 0), Top, MonIdle(0)) && 9 !in s.pcs
  {
    hide Reachable;
    var a := Seeded();
    s := TakeOnly(TwoWorkers(), a, 0, 0);
    assert s.inFlight == {0};
  }

  /** Worker 0 fetches the seed. */
  lemma FirstFetch() returns (s: State)
    ensures Reachable(TwoWorkers(), s) && !s.closed && s.pending == 0 && s.now == 0
    ensures s.queue == multiset{} && s.inFlight == {0} && Ready(TwoWorkers(), s, 0) && MayRetry(TwoWorkers(), s, 0)
    ensures Threads(s, Sent(0), Top, MonIdle(0)) && 9 !in s.pcs
  {
    hide Reachable;
    var a := SeedTaken();
    s := Fetch(TwoWorkers(), a, 0, 0);
  }

  /** Any two workers: t's fetch has failed, x takes the retry before t's Done. */
  lemma Overtaken(c: Config, s: State, t: Tid, x: Tid, r: Req) returns (s1: State)
    requires Reachable(c, s) && t in s.pcs && s.pcs[t] == Sent(r) && x in s.pcs && s.pcs[x] == Top && x != t
    requires s.queue == multiset{} && !s.closed && MayRetry(c, s, r) && Ready(c, s, r)
    ensures Reachable(c, s1) && !s1.closed && s1.queue == multiset{} && s1.pending == s.pending && s1.inFlight == s.inFlight + {r}
    ensures s1.pcs == s.pcs[t := Releasing(r, false)][x := Sent(r)] && r in s1.place && s1.place[r] == Held(x)
  {
    hide Reachable;
    var a := Retry(c, s, t, r);
    assert a.queue == multiset{r} && Ready(c, a, r);
    hide MayRetry, RetryCount;
    var b := TakeOnly(c, a, x, r);
    assert Ready(c, b, r);
    hide Ready;
    var d := Fetch(c, b, x, r);
    hide Fetches;
    s1 := d;
    assert b.inFlight == s.inFlight + {r};
  }

  lemma BothHold() returns (s: State)
    ensures Reachable(TwoWorkers(), s) && s.queue == multiset{} && s.inFlight == {0} && s.pending == 0 && !s.closed
    ensures Threads(s, Releasing(0, false), Sent(0), MonIdle(0)) && 0 in s.place && s.place[0] == Held(1)
  {
    hide Reachable, TwoWorkers, MayRetry, Ready;
    var a := FirstFetch();
    s := Overtaken(TwoWorkers(), a, 0, 1, 0);
    assert s.inFlight == {0};
  }

  /** Worker 0's late Done deletes the entry under which worker 1 holds the same request. */
  lemma LateDone() returns (s: State)
    ensures Reachable(TwoWorkers(), s) && s.queue == multiset{} && s.inFlight == {} && s.pending == 0 && !s.closed
    ensures Threads(s, Checking, Sent(0), MonIdle(0)) && 0 in s.place && s.place[0] == Held(1)
  {
    hide Reachable, TwoWorkers;
    var a := BothHold();
    s := Late(TwoWorkers(), a, 0, 0);
    OnlyOne(a.inFlight);
  }

  lemma OnlyOne(x: set<Req>)
    ensures x == {0} ==> x - {0} == {}
  {
  }

  /** The monitor closes the frontier while a worker is in the middle of a fetch. */
  lemma FalseCompletion() returns (s: State)
    ensures Reachable(TwoWorkers(), s) && s.closed && 3 in s.pcs && s.pcs[3] == MonDone
    ensures 1 in s.pcs && s.pcs[1] == Sent(0) && !Settled(s)
  {
    hide Reachable, TwoWorkers, Outstanding;
    var a := LateDone();
    NothingHeld(a);
    s := ThreePolls(TwoWorkers(), a, 3);
    assert 0 in s.place && s.place[0] == Held(1);
  }

  lemma NothingHeld(s: State)
    requires s.queue == multiset{} && s.inFlight == {}
    ensures Outstanding(s) == 0
  {
  }

  /** t leaves a failed request to the timer n and lets go of it. */
  lemma LeftToTimer(c: Config, s: State, t: Tid, r: Req, n: Tid) returns (s1: State)
    requires Reachable(c, s) && t in s.pcs && s.pcs[t] == Sent(r) && MayRetry(c, s, r) && n !in s.pcs && n !in c.workers && n != t
    ensures Reachable(c, s1) && s1.now == s.now && s1.closed == s.closed && s1.queue == s.queue
    ensures s1.pending == s.pending + 1 && s1.inFlight == s.inFlight - {r}
    ensures s1.pcs == s.pcs[t := Checking][n := Waiting(r, s.now + 1)]
  {
    hide Reachable;
    var a := Backoff(c, s, t, r, n);
    hide MayRetry, RetryCount;
    s1 := Late(c, a, t, r);
  }

  lemma Read(c: Config, s: State, m: Tid, k: nat) returns (s1: State)
    requires Reachable(c, s) && m in s.pcs && s.pcs[m] == MonIdle(k)
    ensures Reachable(c, s1) && s1 == s.(pcs := s.pcs[m := MonRead(k, Outstanding(s))])
  {
    hide Reachable, Outstanding, Accepts;
    s1 := BySide(c, s, m, ReadOutstanding);
  }

  lemma NoneOut(s: State)
    requires s.queue == multiset{} && s.inFlight == {0} - {0}
    ensures Outstanding(s) == 0
  {
    assert s.inFlight == {};
  }

  lemma Later(c: Config, s: State, d: nat) returns (s1: State)
    requires Reachable(c, s)
    ensures Reachable(c, s1) && s1 == s.(now := s.now + d)
  {
    hide Reachable;
    s1 := s.(now := s.now + d);
    Reach(c, s, Tick(d), s1);
  }

  /** Worker 0 leaves the seed to a retry timer. */
  lemma BackedOff() returns (s: State)
    ensures Reachable(TwoWorkers(), s) && !s.closed && s.pending == 1 && s.now == 0 && s.queue == multiset{} && Outstanding(s) == 0
    ensures Threads(s, Checking, Top, MonIdle(0)) && 9 in s.pcs && s.pcs[9] == Waiting(0, 1)
  {
    hide Reachable, Outstanding, MayRetry, Ready, TwoWorkers;
    var a := FirstFetch();
    NineIsFree();
    s := LeftToTimer(TwoWorkers(), a, 0, 0, 9);
    NoneOut(s);
  }

  lemma NineIsFree()
    ensures 9 !in TwoWorkers().workers
  {
  }

  /** The monitor reads that nothing is outstanding; then the timer is due. */
  lemma HalfRead() returns (s: State)
    ensures Reachable(TwoWorkers(), s) && !s.closed && s.pending == 1 && s.now == 1 && s.queue == multiset{}
    ensures Threads(s, Checking, Top, MonRead(0, 0)) && 9 in s.pcs && s.pcs[9] == Waiting(0, 1)
  {
    hide Reachable, Outstanding, TwoWorkers;
    var a := BackedOff();
    var b := Read(TwoWorkers(), a, 3, 0);
    s := Later(TwoWorkers(), b, 1);
  }

  /** The monitor reads no outstanding request while a retry waits, and no pending retry once it
      is queued again, and so counts the crawl as idle with a request in the queue. */
  lemma TornRead() returns (s: State)
    ensures Reachable(TwoWorkers(), s) && s.queue == multiset{0} && !s.closed
    ensures 3 in s.pcs && s.pcs[3] == MonIdle(1)
  {
    hide Reachable;
    var c := TwoWorkers();
    var a := HalfRead();
    var b := Fires(c, a, 9, 0);
    s := BySide(c, b, 3, ReadPending);
    assert multiset{} + multiset{0 as Req} == multiset{0};
  }
}
