/** What a crawl can always do next: serve a ready request to its end, follow a link, take a failed
    request back, stop at its limit (internal/engine/frontier.go, scheduler.go, engine.go). */
module CrawlProgress {
  import opened Wrappers
  import opened Crawl
  import opened CrawlWindows

  /** Some run leads from one state to the other. */
  ghost predicate Leads(c: Config, s: State, s1: State) {
    exists run :: Runs(c, s, run, s1)
  }

  lemma Stays(c: Config, s: State)
    ensures Leads(c, s, s)
  {
    assert Runs(c, s, [], s);
  }

  lemma Then(c: Config, s: State, s1: State, a: Action)
    requires Leads(c, s, s1) && Enabled(c, s1, a)
    ensures Leads(c, s, Apply(c, s1, a))
  {
    hide Enabled, Apply, Runs;
    var run :| Runs(c, s, run, s1);
    RunsSnoc(c, s, run, s1, a);
  }

  lemma LeadsOn(c: Config, s: State, s1: State, s2: State)
    requires Leads(c, s, s1) && Leads(c, s1, s2)
    ensures Leads(c, s, s2)
  {
    hide Runs;
    var run1 :| Runs(c, s, run1, s1);
    var run2 :| Runs(c, s1, run2, s2);
    RunsOn(c, s, run1, s1, run2, s2);
  }

  lemma {:induction false} RunsOn(c: Config, s: State, run1: seq<Action>, s1: State, run2: seq<Action>, s2: State)
    requires Runs(c, s, run1, s1) && Runs(c, s1, run2, s2)
    ensures Runs(c, s, run1 + run2, s2)
    decreases |run1|
  {
    hide Enabled, Apply;
    if run1 == [] {
      assert run1 + run2 == run2;
    } else {
      RunsOn(c, Apply(c, s, run1[0]), run1[1..], s1, run2, s2);
      assert (run1 + run2)[1..] == run1[1..] + run2;
    }
  }

  lemma ThenPop(c: Config, s: State, s1: State, t: Tid, p: PopStep) returns (s2: State)
    requires Leads(c, s, s1) && t in s1.pcs && CanPop(c, s1, s1.pcs[t], p)
    ensures Leads(c, s, s2) && s2 == Move(PopEffect(c, s1, t, s1.pcs[t], p), t, PopTo(s1, s1.pcs[t], p))
  {
    hide Leads, CanPop;
    s2 := Pops(c, s1, t, p);
    Then(c, s, s1, InPop(t, p));
  }

  lemma ThenWork(c: Config, s: State, s1: State, t: Tid, w: WorkStep) returns (s2: State)
    requires Leads(c, s, s1) && t in s1.pcs && CanWork(c, s1, s1.pcs[t], w) && !w.RetryLater?
    ensures Leads(c, s, s2) && s2 == Move(WorkEffect(c, s1, t, s1.pcs[t], w), t, WorkTo(c, s1, s1.pcs[t], w))
  {
    hide Leads, CanWork;
    s2 := Works(c, s1, t, w);
    Then(c, s, s1, InWork(t, w));
  }

  lemma ThenWake(c: Config, s: State, s1: State, t: Tid) returns (s2: State)
    requires Leads(c, s, s1) && t in s1.pcs && OwesWake(s1.pcs[t])
    ensures Leads(c, s, s2) && s2 == Move(s1, t, AfterWake(s1.pcs[t])).(notify := true)
  {
    hide Leads;
    s2 := Move(s1, t, AfterWake(s1.pcs[t])).(notify := true);
    Then(c, s, s1, Wake(t));
  }

  lemma PicksIt(c: Config, s: State, t: Tid, r: Req) returns (s1: State)
    requires t in s.pcs && s.pcs[t] == Top && r in s.queue && Ready(c, s, r)
    ensures Leads(c, s, s1)
    ensures s1 == s.(queue := s.queue - multiset{r}, inFlight := s.inFlight + {r}, erased := s.erased - {r},
                     place := s.place[r := Held(t)], pcs := s.pcs[t := Claiming(r, |s.queue - multiset{r}|)])
  {
    hide Leads, Soonest, NoneReady;
    Stays(c, s);
    var a := ThenPop(c, s, s, t, BeginPop);
    assert Ready(c, a, r);
    hide Ready;
    s1 := ThenPop(c, s, a, t, Take(r));
    assert s1.pcs == s.pcs[t := Claiming(r, |s.queue - multiset{r}|)];
  }

  lemma ClaimsIt(c: Config, s: State, t: Tid, r: Req, left: nat) returns (s1: State)
    requires t in s.pcs && s.pcs[t] == Claiming(r, left) && Ready(c, s, r)
    ensures Leads(c, s, s1)
    ensures s1 == s.(readyAt := s.readyAt[c.domainOf(r) := s.now + c.delay], notify := s.notify || left > 0, pcs := s.pcs[t := Taken(r)])
  {
    hide Leads, Soonest, NoneReady, Ready;
    Stays(c, s);
    s1 := ThenPop(c, s, s, t, ClaimOk);
    if left > 0 {
      s1 := ThenWake(c, s, s1, t);
    }
    assert s1.pcs == s.pcs[t := Taken(r)];
  }

  /** A worker at the head of its loop takes a ready request and claims its domain; when others are
      left behind in the queue it wakes somebody for them. */
  lemma TakesIt(c: Config, s: State, t: Tid, r: Req) returns (s1: State)
    requires t in s.pcs && s.pcs[t] == Top && r in s.queue && Ready(c, s, r)
    ensures Leads(c, s, s1)
    ensures s1 == s.(queue := s.queue - multiset{r}, inFlight := s.inFlight + {r}, erased := s.erased - {r},
                     place := s.place[r := Held(t)], readyAt := s.readyAt[c.domainOf(r) := s.now + c.delay],
                     notify := s.notify || s.queue != multiset{r}, pcs := s.pcs[t := Taken(r)])
  {
    hide Leads;
    var a := PicksIt(c, s, t, r);
    LeftBehind(s.queue, r);
    s1 := ClaimsIt(c, a, t, r, |s.queue - multiset{r}|);
    LeadsOn(c, s, a, s1);
    assert s1.pcs == s.pcs[t := Taken(r)];
  }

  lemma LeftBehind(q: multiset<Req>, r: Req)
    requires r in q
    ensures |q - multiset{r}| > 0 <==> q != multiset{r}
  {
    assert q == (q - multiset{r}) + multiset{r};
  }

  /** It sends the request and the page comes back. */
  lemma FetchesIt(c: Config, s: State, t: Tid, r: Req) returns (s1: State)
    requires t in s.pcs && s.pcs[t] == Taken(r)
    ensures Leads(c, s, s1)
    ensures s1 == s.(sent := s.sent + 1, fetches := s.fetches[r := Fetches(s, r) + 1], pcs := s.pcs[t := Parsing(r)])
  {
    hide Leads;
    Stays(c, s);
    var a := ThenWork(c, s, s, t, Send);
    s1 := ThenWork(c, s, a, t, FetchOk);
    assert s1.pcs == s.pcs[t := Parsing(r)];
  }

  /** A link of the page that is not too deep and new is queued, and somebody is woken for it. */
  lemma FollowsLink(c: Config, s: State, t: Tid, r: Req, child: Req) returns (s1: State)
    requires t in s.pcs && s.pcs[t] == Parsing(r) && !s.closed
    requires c.depthOf(child) == c.depthOf(r) + 1 && c.depthOf(child) <= c.maxDepth && c.urlOf(child) !in s.seen
    ensures Leads(c, s, s1)
    ensures s1 == s.(seen := s.seen + {c.urlOf(child)}, queue := s.queue + multiset{child}, place := s.place[child := Queued],
                     notify := true)
  {
    hide Leads;
    Stays(c, s);
    var a := ThenWork(c, s, s, t, AddLink(child));
    var b := ThenWork(c, s, a, t, LinkPush);
    s1 := ThenWake(c, s, b, t);
    assert s1.pcs == s.pcs && s1.place == s.place[child := Queued];
  }

  /** Done with its links, it lets the request go and, below the limit, is back at the head of its
      loop. */
  lemma FinishesIt(c: Config, s: State, t: Tid, r: Req) returns (s1: State)
    requires t in s.pcs && s.pcs[t] == Parsing(r) && (c.maxRequests == 0 || s.sent < c.maxRequests)
    ensures Leads(c, s, s1)
    ensures s1 == s.(inFlight := s.inFlight - {r}, place := s.place[r := Finished], pcs := s.pcs[t := Top])
  {
    hide Leads;
    Stays(c, s);
    var a := ThenWork(c, s, s, t, EndParse);
    var b := ThenWork(c, s, a, t, Release);
    s1 := ThenWork(c, s, b, t, Check);
    assert s1.pcs == s.pcs[t := Top];
  }

  lemma SeesThrough(c: Config, s: State, t: Tid, r: Req) returns (s1: State)
    requires t in s.pcs && s.pcs[t] == Taken(r) && (c.maxRequests == 0 || s.sent + 1 < c.maxRequests)
    ensures Leads(c, s, s1)
    ensures s1 == s.(sent := s.sent + 1, fetches := s.fetches[r := Fetches(s, r) + 1], inFlight := s.inFlight - {r},
                     place := s.place[r := Finished], pcs := s.pcs[t := Top])
  {
    hide Leads, Fetches;
    var a := FetchesIt(c, s, t, r);
    s1 := FinishesIt(c, a, t, r);
    LeadsOn(c, s, a, s1);
    assert s1.pcs == s.pcs[t := Top];
  }

  /** The whole round: in every state, a worker at the head of its loop can see a ready request through
      to its end, with the request counted, fetched once, finished, and in nobody's hands. */
  lemma ServesRequest(c: Config, s: State, t: Tid, r: Req) returns (s1: State)
    requires t in s.pcs && s.pcs[t] == Top && r in s.queue && Ready(c, s, r)
    requires c.maxRequests == 0 || s.sent + 1 < c.maxRequests
    ensures Leads(c, s, s1)
    ensures s1 == s.(queue := s.queue - multiset{r}, inFlight := s.inFlight - {r}, erased := s.erased - {r},
                     sent := s.sent + 1, fetches := s.fetches[r := Fetches(s, r) + 1], place := s.place[r := Finished],
                     readyAt := s.readyAt[c.domainOf(r) := s.now + c.delay], notify := s.notify || s.queue != multiset{r})
  {
    hide Leads, Ready;
    var a := TakesIt(c, s, t, r);
    SameFetches(s, a, r);
    hide Fetches;
    s1 := SeesThrough(c, a, t, r);
    LeadsOn(c, s, a, s1);
    Restored(s.pcs, t, Taken(r), Top);
    PutAway(s, t, r);
  }

  lemma SameFetches(s: State, s1: State, r: Req)
    requires s1.fetches == s.fetches
    ensures Fetches(s1, r) == Fetches(s, r)
  {
  }

  lemma Restored(pcs: map<Tid, Pc>, t: Tid, pc: Pc, was: Pc)
    requires t in pcs && pcs[t] == was
    ensures pcs[t := pc][t := was] == pcs
  {
  }

  lemma PutAway(s: State, t: Tid, r: Req)
    ensures s.inFlight + {r} - {r} == s.inFlight - {r}
    ensures s.place[r := Held(t)][r := Finished] == s.place[r := Finished]
  {
  }

  lemma Requeues(c: Config, s: State, t: Tid, r: Req) returns (s1: State)
    requires t in s.pcs && s.pcs[t] == Sent(r) && !s.closed && RetryCount(s, r) < c.maxRetriesOf(r)
    ensures Leads(c, s, s1)
    ensures s1 == s.(queue := s.queue + multiset{r}, retries := s.retries[r := RetryCount(s, r) + 1],
                     place := s.place[r := Queued], notify := true, pcs := s.pcs[t := Releasing(r, false)])
  {
    hide Leads, RetryCount;
    Stays(c, s);
    var a := ThenWork(c, s, s, t, RetryNow);
    var b := ThenWork(c, s, a, t, RequeuePush);
    s1 := ThenWake(c, s, b, t);
    assert s1.pcs == s.pcs[t := Releasing(r, false)];
  }

  /** A fetch that failed and may be retried at once puts its request back. */
  lemma TakesBack(c: Config, s: State, t: Tid, r: Req) returns (s1: State)
    requires t in s.pcs && s.pcs[t] == Sent(r) && !s.closed && RetryCount(s, r) < c.maxRetriesOf(r)
    ensures Leads(c, s, s1)
    ensures s1 == s.(queue := s.queue + multiset{r}, inFlight := s.inFlight - {r}, retries := s.retries[r := RetryCount(s, r) + 1],
                     place := s.place[r := Queued], notify := true, pcs := s.pcs[t := Checking])
  {
    hide Leads, RetryCount;
    var a := Requeues(c, s, t, r);
    Stays(c, a);
    s1 := ThenWork(c, a, a, t, Release);
    LeadsOn(c, s, a, s1);
    assert s1.pcs == s.pcs[t := Checking];
  }

  /** At the limit a worker closes the frontier, cancels the crawl, and leaves. */
  lemma StopsCrawl(c: Config, s: State, t: Tid) returns (s1: State)
    requires t in s.pcs && s.pcs[t] == Checking && c.maxRequests > 0 && s.sent >= c.maxRequests
    ensures Leads(c, s, s1)
    ensures s1 == s.(closed := true, cancelled := true, pcs := s.pcs[t := Exited])
  {
    hide Leads;
    Stays(c, s);
    var a := ThenWork(c, s, s, t, Check);
    var b := ThenWork(c, s, a, t, Close);
    s1 := ThenWork(c, s, b, t, Cancel);
    assert s1.pcs == s.pcs[t := Exited];
  }

  /** A worker that finds a closed frontier with nothing ready takes what is left without a claim. */
  lemma DrainsOne(c: Config, s: State, t: Tid, r: Req) returns (s1: State)
    requires t in s.pcs && s.pcs[t] == Pc.Scan && s.closed && r in s.queue && NoneReady(c, s)
    ensures Leads(c, s, s1)
    ensures s1 == s.(queue := s.queue - multiset{r}, inFlight := s.inFlight + {r}, erased := s.erased - {r},
                     place := s.place[r := Held(t)], pcs := s.pcs[t := Taken(r)])
  {
    hide Leads, NoneReady;
    Stays(c, s);
    var a := ThenPop(c, s, s, t, SeeClosed);
    s1 := ThenPop(c, s, a, t, Drain(r));
    assert s1.pcs == s.pcs[t := Taken(r)];
  }

  /** A request that is not to be sent, its circuit being open or no fetcher being there, is let go
      without one. */
  lemma SkipsIt(c: Config, s: State, t: Tid, r: Req) returns (s1: State)
    requires t in s.pcs && s.pcs[t] == Taken(r)
    ensures Leads(c, s, s1)
    ensures s1 == s.(inFlight := s.inFlight - {r}, place := s.place[r := Finished], pcs := s.pcs[t := Checking])
  {
    hide Leads;
    Stays(c, s);
    var a := ThenWork(c, s, s, t, Skip);
    s1 := ThenWork(c, s, a, t, Release);
    assert s1.pcs == s.pcs[t := Checking];
  }

  /** A fetch that failed for good is let go, and no page is read. */
  lemma GivesUp(c: Config, s: State, t: Tid, r: Req) returns (s1: State)
    requires t in s.pcs && s.pcs[t] == Sent(r)
    ensures Leads(c, s, s1)
    ensures s1 == s.(inFlight := s.inFlight - {r}, place := s.place[r := Finished], pcs := s.pcs[t := Checking])
  {
    hide Leads;
    Stays(c, s);
    var a := ThenWork(c, s, s, t, FetchFail);
    s1 := ThenWork(c, s, a, t, Release);
    assert s1.pcs == s.pcs[t := Checking];
  }

  lemma Rejects(c: Config, s: State, t: Tid, r: Req, left: nat) returns (s1: State)
    requires t in s.pcs && s.pcs[t] == Claiming(r, left) && !Ready(c, s, r)
    ensures Leads(c, s, s1)
    ensures s1 == s.(inFlight := s.inFlight - {r}, pcs := s.pcs[t := Returning(r)])
  {
    hide Leads, Soonest, NoneReady, Ready;
    Stays(c, s);
    var a := ThenPop(c, s, s, t, ClaimFail);
    s1 := ThenPop(c, s, a, t, Reject);
    assert s1.pcs == s.pcs[t := Returning(r)];
  }

  /** A claim that fails brings its request back to the queue, and somebody is woken for it; then the
      worker looks again. */
  lemma BringsBack(c: Config, s: State, t: Tid, r: Req, left: nat) returns (s1: State)
    requires t in s.pcs && s.pcs[t] == Claiming(r, left) && !Ready(c, s, r) && !s.closed
    ensures Leads(c, s, s1)
    ensures s1 == s.(queue := s.queue + multiset{r}, inFlight := s.inFlight - {r}, place := s.place[r := Queued],
                     notify := true, pcs := s.pcs[t := Pc.Scan])
  {
    hide Leads, Ready;
    var a := Rejects(c, s, t, r, left);
    Stays(c, a);
    var b := ThenPop(c, a, a, t, PushBack);
    s1 := ThenWake(c, a, b, t);
    LeadsOn(c, s, a, s1);
    assert s1.pcs == s.pcs[t := Pc.Scan];
  }

  /** With nothing ready a worker sleeps until the first request is, and then looks again. */
  lemma SleepsAndLooks(c: Config, s: State, t: Tid, at: Time) returns (s1: State)
    requires t in s.pcs && s.pcs[t] == Pc.Scan && NoneReady(c, s) && !s.closed && Soonest(c, s, Some(at)) && s.now <= at
    ensures Leads(c, s, s1) && s1 == s.(now := at)
  {
    hide Leads, NoneReady, Soonest;
    Stays(c, s);
    var a := ThenPop(c, s, s, t, Park(Some(at)));
    Then(c, s, a, Tick(at - s.now));
    var b := a.(now := at);
    s1 := ThenPop(c, s, b, t, UnparkTimer);
    assert s1.pcs == s.pcs;
  }

  /** Once cancelled, a worker that sleeps or is at the head of its loop leaves; and one that finds a
      closed frontier empty leaves too. */
  lemma Leaves(c: Config, s: State, t: Tid) returns (s1: State)
    requires t in s.pcs
    requires || (s.cancelled && (s.pcs[t] == Top || s.pcs[t].Parked?))
             || (s.closed && s.queue == multiset{} && s.pcs[t] == Pc.Scan)
    ensures Leads(c, s, s1) && s1 == s.(pcs := s.pcs[t := Exited])
  {
    hide Leads, Soonest;
    Stays(c, s);
    if s.pcs[t].Scan? {
      var a := ThenPop(c, s, s, t, SeeClosed);
      s1 := ThenPop(c, s, a, t, DrainNothing);
    } else {
      s1 := ThenPop(c, s, s, t, CtxExit);
    }
    assert s1.pcs == s.pcs[t := Exited];
  }
}
