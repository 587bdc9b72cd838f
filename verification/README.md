# ScrapeGoat: what the crawler promises, proved

A Dafny model of ScrapeGoat, a web crawler written in Go, and proofs of what its comments and tests
say it is for: that every citation it issues can be checked, that its crawl loop loses and repeats
nothing, that a failing site is left alone, that a recorded crawl replays as it went, and that its
filters do what they say. Where the code falls short of its own comments, the shortfall is proved
too: a concrete run or input, beside the condition under which the promise holds, which is exact but
where the last section says so.

`dafny verify dfyconfig.toml` checks everything.

## How the files fit together

**Evidence grounding** (`internal/provenance/assertion.go`). `Utf8` decodes and encodes characters
as sections 3 and 4 of RFC 3629 have it. `Folding` is letter case, and what can be found in the
folded copy of a page that was cut. `Tokens` says what the projection reads at one offset as a
function of the bytes from there on, and proves for every kind of lookahead when a cut of the page
leaves the token as it was. `Elements` says what keeps the elements that are dropped whole.
`Projection` renders tokens into bytes with a source range each, and says which cuts are read as
the page is. `Normalising` relates that rendering to the one a claim gets. `Citation` has the three
searches, the public check, and the theorem that the second accepts what the first issue.
`Pages` says what all of that is for, without saying how: what a tag, a comment, a dropped element
and a reference look like, and what a page written from them renders to. `Grounding` holds the loops
and the objects of the source, each equal to those functions, slices out of range included. `Limits`
shows the edges.

**The crawl protocol** (`frontier.go`, `scheduler.go`, `AddRequest` and `Stop` in `engine.go`).
`Crawl` is a state machine: workers, seed callers, retry timers, the idle monitor and an outside
caller of `Stop` take steps in any order, and a step is what one thread does between two points
where another may run. Two tables say where a thread goes (`PopTo`, `WorkTo`, `SideTo`) and what
happens to the shared state (`PopEffect`, `WorkEffect`, `SideEffect`). `place`, `fetches` and
`erased` are history: they record what the code does not. `CrawlSafety`, `CrawlCompletion`,
`CrawlBudget` and `CrawlWakeup` each prove one invariant step by step, `CrawlRuns` states what
follows for every reachable state and over every run, `CrawlProgress` what a crawl can always do
next, and `CrawlWindows` gives runs in which the idle monitor is wrong. `FrontierObject` has the frontier as an object with its lock: each critical section takes
exactly one step of the protocol.

**Circuit breaker and throttler** (`backoff.go`, `throttle.go`). `Breaker` and `Throttle` prove
their classes against the history of calls on them. Time is an integer on one clock that does not
go back.

**Record and replay** (`internal/fetchlog`). `ObjectStore` is the content-addressed store over a map
of files, `Ledger` the bytes of the index file, `Replay` the recorder and the player.

**Filters** (`robots.go` in two packages, `bloom.go`, `dedup.go`, `derive.go`, `composite.go`):
`Wildcards`, `RobotsFiles`, `RobotsText`, `Bloom`, `Urls`, `Items`. `RobotsText` spells out agents
and keys and tells from the lines of a file alone what is enforced.

## What is taken as given

- The table of names behind `html.UnescapeString` and the folding of one character behind
  `bytes.ToLower` are two functions, together the `Library`; the scan that finds a reference is
  concrete, and so is the folding of a whole page, ill-formed bytes included.
- Hash functions, the JSON encoding of a ledger entry and `net.ParseIP` are functions too. What is
  asked of them is written in the hypotheses: digests are 64 hexadecimal digits and do not collide
  on the bodies of the run; an encoded entry reads back, holds no line break, and no part of it cut
  short reads as anything; nor does a part of it, or all of it, with another entry behind it in the
  same line.
- Pages, robots files and URLs are bytes. Letter case and white space in robots files and the case
  of hosts are ASCII.

## Where code and comments part

- `internal/provenance/assertion.go:554-558` takes the offset of a closing tag in the folded copy
  for its offset in the page, so that an element may end before its closing tag. A cut is then read
  as the page is if and only if each element dropped inside it still has its closing tag in the
  folded copy of the cut, or ends with its opening tag (`Projection.TokensOfCut`); on
  `Limits.FoldedElementMisses` it is not, and a citation is issued that the check refuses.
- The same offset may lie beyond the end: `Limits.BrokenScriptPanics` has a page at which the search
  slices out of range, `Limits.IssuedSpanPanics` one at which only the check of an issued span does,
  and `Projection.CutPanics` says exactly when.
- `internal/engine/frontier.go:292-296` and `scheduler.go:139-154` call the completion test a fact.
  `CrawlRuns.Completion` says exactly when it is: when no thread is in one of three windows.
  `CrawlWindows.FalseCompletion` reaches a closed frontier with a fetch running.
- `internal/engine/backoff.go:92-93` says the breaker keeps domains by the throttler's LRU discipline;
  it keeps the last arrivals (`Breaker.OrderIsLastArrivals`), and goes the way of a table by
  recency exactly as long as whichever domain has to go is also the one least recently called
  (`Breaker.SameAsLruExactly`).
- `internal/fetchlog/store.go:103-105` says an object already present is identical by construction;
  a damaged one is reported stored and stays damaged (`ObjectStore.StoredComesBack`).
- `internal/engine/robots.go:297-299` lets the last user-agent line of a group decide, so that rules
  addressed to this crawler first and to another agent last are not enforced
  (`RobotsFiles.NamedFirstIsIgnored`); `RobotsFiles.EnforcedExactly` says on which files nothing is
  lost.
- `internal/engine/robots.go:349-372` takes each part at its first occurrence also before a final
  `$`, which refuses paths that section 2.2.3 of RFC 9309 has match (`Wildcards.AnchoredMiss`).
- `internal/parser/derive.go:44-61` numbers each rule's values from zero, and
  `internal/parser/xpath.go:50-56` names only the selector in the method, so that rules with one
  selector and different attributes on one field come out interleaved (`Items.RulesInterleave`),
  unless no rule but the last has several values (`Items.RulesKeepOrder`).
- `internal/fetchlog/index.go:124-131` has a torn last line cost nothing but itself; so it does until
  something is appended, which is then lost with it (`Ledger.AppendAfterCrash`).

## Model

| member | source | states |
|---|---|---|
| Utf8.DecodeEncoded | internal/provenance/assertion.go:376-378 | every Unicode scalar value decodes from its own encoding with the right length, whatever follows it |
| Utf8.EncodeDecoded | internal/provenance/assertion.go:376-389 | a well-formed sequence is the encoding of what it decodes to, so copying bytes and encoding runes agree |
| Utf8.DecodePrefix | internal/provenance/assertion.go:376-378 | a character is decoded alike from a slice that is cut anywhere at or after its end |
| Search.IndexOfPrefix | internal/provenance/assertion.go:555-563 | cutting a haystack keeps the first occurrence when it is wholly inside and otherwise leaves none |
| Tokens.SkipTagCut | internal/provenance/assertion.go:570-600 | a comment or tag ends at the same place in a slice that holds its end, and is no tag in a slice that does not, quotes included |
| Tokens.SkipElementCut | internal/provenance/assertion.go:542-566 | the same for an element skipped with its contents, on every page and however folding moves things: it ends in the slice where it ended if the slice holds its end and, in its folded copy, its closing tag; otherwise it is not skipped |
| Tokens.SkipElementByName | internal/provenance/assertion.go:543-551 | at most one name opens at an offset, so the order of the names is immaterial |
| Tokens.DecodeEntityCut | internal/provenance/assertion.go:629-661 | the same for a character reference and its bounded lookahead |
| Tokens.StepCut | internal/provenance/assertion.go:428-534 | one token of the page, in either mode, is read alike from a slice that holds it whole if and only if it is kept: for a dropped element, that its closing tag is found in the folded copy of the slice or that its opening tag ends where it does; for any other token, always |
| Tokens.MarkupEndsWithGt | internal/provenance/assertion.go:542-600 | whatever markup is dropped ends with its own closing angle bracket |
| Projection.ProjectShape | internal/provenance/assertion.go:403-534 | each rendered byte has a proper source range inside the page, ranges never go backwards, and blanks are single and never at an end |
| Projection.TokensOfCut | internal/provenance/assertion.go:428-534 | cutting a page where tokens begin and end and reading the cut gives exactly those tokens, moved, if and only if all of them are kept |
| Projection.EveryCutReadsAlike | internal/provenance/assertion.go:428-534 | every cut of a page between tokens is read as the page is if and only if each token of the page is kept by its own bytes |
| Projection.CutPanics | internal/provenance/assertion.go:542-566 | reading a cut whose tokens are kept slices out of range if and only if some element in it, dropped or not, has its closing tag in the folded copy too close to the end of the cut |
| Normalising.ProjectKeepTags | internal/provenance/assertion.go:361-534 | on bytes without a decodable reference, keeping tags, the projection is the normalised claim |
| Normalising.NormaliseSpaceTwice | internal/provenance/assertion.go:361-393 | normalising is idempotent, on ill-formed UTF-8 as well |
| Normalising.NormalisedEnds | internal/provenance/assertion.go:361-393 | a normalised claim neither begins nor ends with a blank and has no two in a row |
| Normalising.ReferenceMisses | internal/provenance/assertion.go:629-661 | text with a reference in it renders to something else than it normalises to, in both modes; a reference to an ampersand is asked to stand for one of them and to shrink, any other may stand for anything |
| Citation.FirstAlignedIs | internal/provenance/assertion.go:311-333 | the search gives the least occurrence that begins and ends on a character boundary, or says that there is none |
| Citation.CutRenders | internal/provenance/assertion.go:403-534 | cutting the page by the source map of a match that keeps its tokens, and projecting the cut, gives the match back if and only if the match is whole |
| Citation.AlignedIsWhole | internal/provenance/assertion.go:325-333 | when references stand for one character each, a match on character boundaries is whole |
| Citation.VerbatimHit | internal/provenance/assertion.go:266-274 | a span found verbatim holds the claim, and passes the check if and only if the claim is more than white space and spells out no reference; then the check does not panic |
| Citation.CitationIsExact | internal/provenance/assertion.go:266-303 | whichever search hit: the span lies inside the page; a verbatim one passes exactly when the claim is no blank and has no reference; a rendered one that keeps its tokens gives the claim back in the mode that hit exactly when the match is whole, and passes exactly when it is whole or the other mode gives the claim back, which takes a `<` in the cut |
| Citation.EveryCitationChecks | internal/provenance/assertion.go:266-303 | every span issued for a non-blank claim without a reference of its own, in a page whose references are one character each, is accepted by the public check from its bytes alone if the cut keeps the elements dropped inside it, which it always does unless markup was dropped; the check of a hit with markup dropped slices out of range exactly as `CutPanics` says, and no other check does |
| Citation.SafePagesCheck | internal/provenance/assertion.go:266-303 | on a page of UTF-8 whose characters keep their lengths under folding, or with no element to drop, all of that holds of every such claim, and neither the search nor the check slices out of range |
| Citation.ProjectionIsLocal | internal/provenance/assertion.go:428-661 | projecting a cut at token boundaries that keeps its tokens gives the matching stretch of the whole projection, up to a blank at either end |
| Pages.TagIs | internal/provenance/assertion.go:579-600 | a tag ends at a byte if and only if that is a `>` and all before it is bytes that are neither quotes nor `>` and stretches from a quote to the next one like it |
| Pages.NoTagIs | internal/provenance/assertion.go:579-600 | and there is none if and only if no byte is such an end |
| Pages.CommentIs | internal/provenance/assertion.go:571-578 | a comment ends with the first `-->` behind its `<!--`, and there is none without one |
| Pages.ElementIs | internal/provenance/assertion.go:542-566 | an element is dropped if and only if one of the eight names opens there, in any case and with nothing glued to it, and it ends with the first `>` behind the offset of the first closing tag in the folded copy |
| Pages.ReferenceIs | internal/provenance/assertion.go:629-661 | a reference is decoded if and only if its semicolon comes within 34 bytes with no white space, `&` or `;` before it and the library knows all of it |
| Pages.PageProjects | internal/provenance/assertion.go:428-534 | every page written from text, tags, comments, dropped elements and references projects, with markup dropped, to its text with references read and a blank for each mark, white space normalised; with markup kept, to what stands there with its references read |
| Pages.NormalisingKeepsWords | internal/provenance/assertion.go:361-393 | normalising words with any white space between and around them gives the words with one blank between each two |
| Pages.VisibleIsFound | internal/provenance/assertion.go:266-303 | a claim that stands in what a reader sees of a page, on character boundaries, is found |
| Grounding.IndexAligned | internal/provenance/assertion.go:311-323 | the loop over occurrences returns the first aligned one |
| Grounding.SkipTag | internal/provenance/assertion.go:570-600 | the scan with its quote state ends where the tokens say, which `Pages.TagIs` and `Pages.CommentIs` tell from the bytes alone |
| Grounding.SkipElement | internal/provenance/assertion.go:542-566 | the loop over names skips what the tokens say, over the folded copy, and slices out of range exactly when they say so |
| Grounding.DecodeEntity | internal/provenance/assertion.go:629-661 | the bounded scan for the semicolon decodes what the tokens say |
| Grounding.NormaliseClaim | internal/provenance/assertion.go:361-393 | the loop with its inSpace flag and final trim computes the normalised claim |
| Grounding.BuildProjection | internal/provenance/assertion.go:428-534 | the loop that appends to three arrays builds the projection with its source map, for every page and mode, unless a slice runs out of range |
| Grounding.Builder.EmitToken | internal/provenance/assertion.go:440-530 | one pass of the loop appends exactly what the token at hand renders to and moves past it, or panics exactly when an element does |
| Grounding.EvidenceIndex.Locate | internal/provenance/assertion.go:266-303 | with lazily built and cached projections, the answer is that of the three searches in order; it panics exactly when the last search is reached and an element runs out of range |
| Grounding.EvidenceIndex.Ground | internal/provenance/assertion.go:339-357 | a located claim gets its span and keeps its confidence, any other is marked unsupported at confidence zero; under the hypotheses of either theorem a validated span passes the public check |
| Limits.VerbatimReferenceMisses | internal/provenance/assertion.go:270-274 | a claim that spells out a reference is found verbatim and fails the check |
| Limits.HalfReferenceMisses | internal/provenance/assertion.go:284-300 | a claim equal to half of what one reference stands for is found and fails the check |
| Limits.FoldedElementMisses | internal/provenance/assertion.go:554-558 | in a page of valid UTF-8 without references, four Kelvin signs in an element shift its end; the claim is found across it and the bytes cited fail the check |
| Limits.FoldedElementIsNotKept | internal/provenance/assertion.go:554-558 | the cut of that citation does not keep the element |
| Limits.BrokenScriptPanics | internal/provenance/assertion.go:554-566 | an ill-formed byte in a script that ends the page moves the offset beyond the end, and locating any claim not found before slices out of range |
| Limits.IssuedSpanPanics | internal/provenance/assertion.go:273-303 | in a page at which nothing slices out of range, two ill-formed bytes in an opening tag make the check of an issued span do so |
| Elements.ClosingTagIsFoldedLength | internal/provenance/assertion.go:552-558 | the offset the code has for a closing tag is the folded length of what lies before the tag, so it is right if and only if folding keeps that length |
| Folding.FoundInCut | internal/provenance/assertion.go:552-558 | what is spelled in ASCII is found in the folded copy of a slice where it is found in that of the page, or not at all, characters cut in two and ill-formed bytes included |
| Elements.KeptByOwnLength | internal/provenance/assertion.go:552-566 | an element whose own bytes keep their total length under folding is kept by every slice that holds it, whatever else is on the page |
| Elements.KeptLengthsFoldInPlace | internal/provenance/assertion.go:552-558 | in a page of UTF-8 whose characters keep their lengths, ASCII folding as ASCII, a closing tag is found in every slice where folding ASCII alone has it |
| Elements.NothingDroppedFoldsInPlace | internal/provenance/assertion.go:543-551 | so is a page in which none of the dropped elements begins |
| Elements.InPlaceIsKept | internal/provenance/assertion.go:552-566 | where closing tags are found so, every slice keeps every element it holds |
| Elements.NeverPanics | internal/provenance/assertion.go:542-566 | and no slice behind an element is out of range |
| Crawl.SoonestExists | internal/engine/frontier.go:161-175 | a scan that finds nothing ready always has a deadline to park with, or an empty queue |
| CrawlSafety.ConservedStep | internal/engine/frontier.go:74-84 | every step of every thread keeps each accepted request in exactly one place, URLs distinct and depths in range |
| CrawlCompletion.AccountedStep | internal/engine/frontier.go:246-284 | every step keeps a request in some hand in the in-flight set unless another holder's Done deleted it, every entry one that somebody will delete, and the retry counter equal to the timers alive |
| CrawlCompletion.CompletionIsAFact | internal/engine/scheduler.go:152-160 | with nothing outstanding and no retry pending, all accepted requests are settled if and only if no thread holds one that no counter sees |
| CrawlCompletion.UnerasedStep | internal/engine/scheduler.go:207-208 | unless a Done overtakes the second holder of a retried request, no request in hand has lost its entry |
| CrawlCompletion.SettledStep | internal/engine/engine.go:334-371 | once all requests are settled nothing but a new seed unsettles them |
| CrawlBudget.RequestsStep | internal/engine/scheduler.go:214-220 | every step keeps the sends within the limit less one plus the workers between their send and their next look at it |
| CrawlBudget.FetchesStep | internal/engine/scheduler.go:677-719 | every step keeps each request's fetches within its retries, plus one once the current attempt is made |
| CrawlWakeup.AwaitedStep | internal/engine/frontier.go:148-237 | every step leaves a non-empty queue attended |
| CrawlWakeup.AwaitedPush | internal/engine/frontier.go:74-122 | a push leaves the queue attended if the pusher goes on to owe a wakeup or the frontier was closed |
| CrawlWakeup.WorkIdles | internal/engine/frontier.go:74-122 | a worker that has pushed a link or a request to retry owes a wakeup unless the frontier was closed |
| CrawlWakeup.SideIdles | internal/engine/frontier.go:74-122 | so does a caller that has pushed a seed and a timer that has pushed a retry |
| CrawlRuns.ReachableSound | internal/engine/scheduler.go:139-221 | all of these invariants hold in every state some interleaving reaches |
| CrawlRuns.OnePlaceEach | internal/engine/frontier.go:148-198 | in every reachable state an accepted request is queued once and carried by nobody, or carried by exactly one thread and not queued, or settled |
| CrawlRuns.AcceptedStays | internal/engine/engine.go:362-367 | no run forgets a request it accepted |
| CrawlRuns.NoUrlTwice | internal/engine/engine.go:338-364 | no canonical URL is accepted twice and nothing is accepted beyond the maximum depth |
| CrawlRuns.FetchedAtMost | internal/engine/scheduler.go:684-686 | no request is fetched more than MaxRetries + 1 times |
| CrawlRuns.SentAtMost | internal/engine/scheduler.go:214-220 | under a limit of M requests, C workers send at most M + C - 1 |
| CrawlRuns.StopsAtTheLimit | internal/engine/scheduler.go:214-220 | over every run, a worker sets about stopping the crawl only when there is a limit and that many were sent, and a frontier that neither a caller of Stop nor the monitor closed is closed only then |
| CrawlRuns.ClaimsAreSpaced | internal/engine/frontier.go:184-197 | over every run, two claims on one domain, whoever makes them, are the politeness delay apart |
| CrawlRuns.ClosedOnlyDrains | internal/engine/frontier.go:74-84 | a closed frontier stays closed, and nothing is queued any more |
| CrawlRuns.TimerWaits | internal/engine/scheduler.go:730-748 | over every run, a retry timer waits until its time has come or the crawl is cancelled |
| CrawlRuns.NoLostWakeup | internal/engine/frontier.go:66-122 | while the crawl runs and a request is queued, a token waits, or a thread is about to scan, owes a wakeup, is bringing a request back, or sleeps on a timer due no later than any queued request is ready |
| CrawlRuns.ReadyIsAttended | internal/engine/frontier.go:221-236 | while a queued request is ready, a token waits or a thread that attends to the queue can take a step of its own towards a scan now |
| CrawlRuns.Completion | internal/engine/frontier.go:292-296 | in every reachable state with nothing outstanding and no retry pending, complete if and only if no thread is in a window |
| CrawlRuns.OrderlyCompletion | internal/engine/scheduler.go:139-167 | in a run where no retry is popped again before its earlier Done, with no claim just failed and no seed half added, nothing outstanding means complete |
| CrawlRuns.MonitorReadsAFact | internal/engine/scheduler.go:152-153 | the monitor's two separate reads report a fact when no timer ran out and no seed came between them and no thread was in a window at the first |
| CrawlRuns.MonitorClosesWhenComplete | internal/engine/scheduler.go:139-167 | over whole runs: if no retry is popped again before its earlier Done, no claim has just failed and no seed is half added when a monitor reads that nothing is outstanding, no timer runs out between its two reads, and no seed comes between them or after its verdict, then a monitor that sets about closing the frontier does so on a complete crawl |
| CrawlRuns.ThreeIdleReads | internal/engine/scheduler.go:139-167 | a monitor closes the frontier only after three pairs of reads in a row that found nothing; a pair that finds something starts the count anew |
| CrawlProgress.ServesRequest | internal/engine/scheduler.go:170-221 | in every state, a worker at the head of its loop can see a ready request through: taken, claimed, sent and fetched once, finished, out of everybody's hands, with all else as it was |
| CrawlProgress.FollowsLink | internal/engine/engine.go:334-371 | a link of a fetched page that is new and not too deep can be queued, and the worker goes on with the page |
| CrawlProgress.TakesBack | internal/engine/scheduler.go:677-719 | a failed fetch with a retry left can be queued again and let go of, with the retry counted |
| CrawlProgress.GivesUp | internal/engine/scheduler.go:281-289 | a fetch that failed for good is finished and no page is read |
| CrawlProgress.SkipsIt | internal/engine/scheduler.go:255-264 | a request that is not to be sent is finished without being counted |
| CrawlProgress.BringsBack | internal/engine/frontier.go:184-193 | a claim that fails brings its request back, wakes somebody, and the worker looks again |
| CrawlProgress.SleepsAndLooks | internal/engine/frontier.go:212-236 | with nothing ready a worker sleeps until the first request is, and looks again |
| CrawlProgress.StopsCrawl | internal/engine/scheduler.go:214-220 | at the limit a worker closes the frontier, cancels the crawl and leaves |
| CrawlProgress.DrainsOne | internal/engine/frontier.go:200-209 | a worker that finds a closed frontier with nothing ready takes what is left without a claim |
| CrawlProgress.Leaves | internal/engine/frontier.go:200-228 | a cancelled worker that sleeps or is at the head of its loop leaves, and so does one that finds a closed frontier empty |
| CrawlWindows.LateDone | internal/engine/scheduler.go:207-208 | a run in which a late Done deletes the entry under which another worker is fetching |
| CrawlWindows.FalseCompletion | internal/engine/scheduler.go:152-160 | a run in which the monitor closes the frontier while a worker is in the middle of a fetch |
| CrawlWindows.TornRead | internal/engine/scheduler.go:152-160 | a run in which the monitor counts the crawl as idle with a request in the queue |
| FrontierObject.Frontier.Push | internal/engine/frontier.go:74-84 | the critical section is the protocol's push: a closed frontier drops the request |
| FrontierObject.Frontier.Scan | internal/engine/frontier.go:158-175 | the loop finds the first ready entry of the best priority and the shortest wait among the others |
| FrontierObject.Frontier.PopReadyOnce | internal/engine/frontier.go:154-212 | one locked pass takes exactly one step of the protocol: the ready request of the best priority, or parking until the first is due, or seeing the frontier closed |
| FrontierObject.Frontier.TryPop | internal/engine/frontier.go:246-257 | a drain step: a request of the best priority, ready or not, or none from an empty queue |
| FrontierObject.Frontier.Done | internal/engine/frontier.go:277-284 | the protocol's Done, which deletes the entry whoever holds the request |
| FrontierObject.Frontier.Outstanding | internal/engine/frontier.go:292-296 | queued and in flight, as the protocol counts them |
| FrontierObject.Frontier.Close | internal/engine/frontier.go:305-313 | closes once and leaves the queue |
| Breaker.CircuitTellsHistory | internal/engine/backoff.go:124-211 | a circuit is closed exactly while the failures since the last success are below the threshold, half-open exactly while a probe is out, and opened at its last failure |
| Breaker.HalfOpenIsProbing | internal/engine/backoff.go:164-169 | a half-open circuit has a probe out and refuses everything: the branch for the other case is dead |
| Breaker.AllowsWhen | internal/engine/backoff.go:144-172 | a request is let through if and only if the history is not tripped, or nothing was let through since the last failure and that is a cooldown ago |
| Breaker.ProbesAreSpaced | internal/engine/backoff.go:154-169 | two requests let through while the circuit was not closed have a failure between them and are a cooldown apart |
| Breaker.ProbesAreFew | internal/engine/backoff.go:154-169 | a stretch of time T sees at most T / cooldown + 1 of them |
| Breaker.CircuitBreaker.Get | internal/engine/backoff.go:124-137 | finds or makes the domain's circuit, evicting in order of arrival, and leaves every other domain's record |
| Breaker.CircuitBreaker.Allow | internal/engine/backoff.go:144-172 | the answer goes on the domain's record and the table stays the replay of the records |
| Breaker.CircuitBreaker.RecordSuccess | internal/engine/backoff.go:176-188 | a success goes on record and the table stays the replay of the records |
| Breaker.CircuitBreaker.RecordFailure | internal/engine/backoff.go:192-211 | a failure goes on record, and the state returned is open exactly when the record is tripped |
| Breaker.OrderIsLastArrivals | internal/engine/backoff.go:124-137 | after any calls the table holds the last maxSize arrivals, in order of arrival |
| Breaker.KeptWhileFewArrive | internal/engine/backoff.go:124-137 | a domain has its circuit if and only if fewer than maxSize arrivals came after one of its own |
| Breaker.SameAsLruExactly | internal/engine/backoff.go:92-93 | at every point of a run the table holds circuits of the same domains as a least-recently-used one if and only if, at each arrival in a full table, the domain that arrived first is the one least recently called |
| Breaker.BusyDomainIsEvicted | internal/engine/backoff.go:128-132 | in a full table of any size the domain that arrived first goes at the next arrival, whatever calls on those in the table came in between |
| Throttle.ListIsRecent | internal/engine/throttle.go:81-107 | the limiters kept are those of the most recently touched domains, as many as there is room for |
| Throttle.KeptWhileFewOthers | internal/engine/throttle.go:90-103 | a limiter is discarded only after maxSize other domains were touched since its own last touch |
| Throttle.Politeness | internal/engine/throttle.go:112-127 | two claims on a domain closer than the delay have at least maxSize other domains touched between them |
| Throttle.KeptExactly | internal/engine/throttle.go:81-107 | a domain has its limiter if and only if fewer than maxSize other domains were touched since it was |
| Throttle.WaitTells | internal/engine/throttle.go:152-169 | how long a domain waits, from the calls alone: what is left of the delay since its last claim when that is younger than the delay and its limiter was kept all along, and nothing otherwise |
| Throttle.OldClaimsBindNot | internal/engine/throttle.go:112-117 | with every claim older than the delay a domain does not wait, and one that waits has a younger claim |
| Throttle.WaitTouched | internal/engine/throttle.go:152-169 | looking does not change how long a domain waits |
| Throttle.Throttler.LimiterFor | internal/engine/throttle.go:81-107 | moves the domain to the front or makes it a limiter, evicting from the back |
| Throttle.Throttler.Allow | internal/engine/throttle.go:112-117 | grants if and only if no claim in the history binds the domain, and the state stays the replay of the calls |
| Throttle.Throttler.Reserve | internal/engine/throttle.go:152-169 | reports what is left of the delay since the claim that binds the domain, 0 when none does, spends nothing, and counts as a touch |
| ObjectStore.ClaimedRel | internal/fetchlog/store.go:68-73 | the audit reads off an object's path the digest it was made from |
| ObjectStore.RelInjective | internal/fetchlog/store.go:63-73 | different digests have different paths |
| ObjectStore.RelShape | internal/fetchlog/store.go:63-66 | a path is the first two digits, a slash, and the others |
| ObjectStore.StoredKeeps | internal/fetchlog/store.go:99-141 | storing keeps an intact store intact and changes no answer about other digests |
| ObjectStore.StoredComesBack | internal/fetchlog/store.go:99-105 | what was just stored comes back if and only if the object was absent or what lay there still hashed to its address |
| ObjectStore.StoredRoundTrip | internal/fetchlog/store.go:99-170 | in an intact store it always comes back, the same body unless two collide |
| ObjectStore.AnswersTellPuts | internal/fetchlog/store.go:99-170 | in a fresh store a digest is answered with the first body put that has it, and is not found when none has; nothing is ever corrupt |
| ObjectStore.CrashInPut | internal/fetchlog/store.go:111-138 | a crash before the rename changes no answer, and the audit reports the temporary file it leaves |
| ObjectStore.Store.Put | internal/fetchlog/store.go:99-141 | the files afterwards, with an object already there left alone |
| ObjectStore.Store.Get | internal/fetchlog/store.go:148-170 | found, absent or corrupt, by what the files hold |
| ObjectStore.Store.Verify | internal/fetchlog/store.go:219-264 | passes if and only if every file holds what its path says |
| Ledger.CrashPrefix | internal/fetchlog/index.go:197-226 | whatever byte a crash stops at, what is read back is the entries that were whole, in order, and nothing else |
| Ledger.ReadWritten | internal/fetchlog/index.go:141-226 | without a crash everything is read back |
| Ledger.ReopenAfterCrash | internal/fetchlog/index.go:84-136 | reopening resumes numbering above every entry that survived, and those are numbered without gap or repeat |
| Ledger.SortChangesNothing | internal/fetchlog/index.go:228 | sorting what was read by number, however ties are broken, changes nothing |
| Ledger.ReadAppended | internal/fetchlog/index.go:84-104 | a ledger cut at any byte and appended to reads back as what was left and what was appended, or, when a line lost its break, as the unbroken lines alone |
| Ledger.AppendAfterCrash | internal/fetchlog/index.go:84-104 | so what is appended after a crash is read, and nothing that survived is lost, if and only if the file was empty or ended in a line break |
| Ledger.AppendDestroys | internal/fetchlog/index.go:84-104 | an entry that lacked only its break is read back until something is appended, and never after |
| Ledger.CarriageReturn | internal/fetchlog/index.go:206-216 | a carriage return before a line break is no part of the line |
| Ledger.BlankLine | internal/fetchlog/index.go:206-216 | empty lines are passed over |
| Ledger.LastNumberIsHighest | internal/fetchlog/index.go:107-136 | the last number is the highest among the entries |
| Ledger.LastSeq | internal/fetchlog/index.go:107-136 | the loop finds the highest number among the entries that read back |
| Ledger.Log.Append | internal/fetchlog/index.go:141-164 | one encoded line with the next number at the end of the file, or nothing once closed |
| Replay.AttemptIdInjective | internal/fetchlog/fetcher.go:64 | methods without a space make different counters for different method and URL pairs |
| Replay.CountersAreApart | internal/fetchlog/fetcher.go:67-75 | then a counter counts the calls on one method and URL |
| Replay.LookupFinds | internal/fetchlog/fetcher.go:196-199 | looking up a call's key finds what that call wrote: no two calls share a key |
| Replay.ReplayEqualsRecording | internal/fetchlog/fetcher.go:78-287 | for any interleaving of calls, the attempt a call drew is answered with that call's outcome: a response is the recorded one if and only if its address survives parsing and printing, an error has the recorded text and verdict |
| Replay.PastTheRecording | internal/fetchlog/fetcher.go:219-236 | an attempt beyond the recording is answered as the first |
| Replay.NothingRecorded | internal/fetchlog/fetcher.go:219-236 | a method and URL no call of which ended has no recording |
| Replay.ReplayFromDisk | internal/fetchlog/fetcher.go:185-207 | the same from the bytes of the ledger |
| Replay.ReplayAfterCrash | internal/fetchlog/fetcher.go:185-252 | after a crash at any byte of the ledger, every call whose entry is whole still plays back as it went |
| Replay.Recorder.Begin | internal/fetchlog/fetcher.go:67-79 | a call draws the number of calls begun before it on its counter |
| Replay.Recorder.End | internal/fetchlog/fetcher.go:81-137 | body to the store, then one line to the ledger: log and store stay those of the run |
| Replay.Index | internal/fetchlog/fetcher.go:196-199 | the map holds for each key what a search of the entries finds |
| Replay.Player.Fetch | internal/fetchlog/fetcher.go:210-252 | the n-th call on a counter is answered with attempt n of what was recorded |
| Wildcards.GreedyIsLeast | internal/engine/robots.go:353-366 | taking each part at its first occurrence reaches the least end any choice reaches, or fails when none reaches any |
| Wildcards.WildcardIsLeast | internal/engine/robots.go:349-372 | the loop arrives at the end of the shortest beginning of the path that the pattern spells |
| Wildcards.AcceptsUnanchored | internal/engine/robots.go:325-346 | without a final `$` a path is accepted if and only if the pattern is not empty and spells some beginning of it |
| Wildcards.AcceptsAnchored | internal/engine/robots.go:325-372 | with a final `$` it is accepted if and only if the pattern spells the whole path and nothing shorter |
| Wildcards.AnchoredMiss | internal/engine/robots.go:368-370 | a path that a `$` pattern spells and the code refuses |
| Wildcards.MatchWildcard | internal/engine/robots.go:349-372 | the loop computes that end and compares it when anchored |
| RobotsFiles.LinesAgree | internal/engine/robots.go:278-296 | trimming before or after dropping a comment, and folding before or after trimming, come to the same: both readers read every line alike |
| RobotsFiles.ReadersAgree | internal/provenance/robots.go:101-185 | on every file the enforced rules are, in order, the non-empty rules of exactly the reported groups whose last agent is `*` or contains `scrapegoat`, and the sitemaps agree but for empty ones |
| RobotsFiles.EnforcedExactly | internal/engine/robots.go:267-321 | on every file the rules enforced are all the rules addressed to this crawler if and only if each group that names it names it last or has none of those rules |
| RobotsFiles.GatheredIsAddressed | internal/engine/robots.go:297-320 | the same for any list of groups, and never more is gathered than addressed |
| RobotsFiles.OneAgentEach | internal/provenance/robots.go:129-146 | when every group names one agent, the rules enforced are the rules addressed to this crawler |
| RobotsFiles.NamedFirstIsIgnored | internal/engine/robots.go:297-303 | a file of three lines that names this crawler first and any other agent last: its path is reported as ours and not enforced |
| RobotsText.FieldReads | internal/engine/robots.go:278-296 | a field is read as its key, in small letters, and its value, whatever white space stands in its four places and whatever comment behind it, by both readers |
| RobotsText.NoFieldReads | internal/engine/robots.go:278-296 | a line without a colon before its comment says nothing |
| RobotsText.EnforcedLines | internal/engine/robots.go:297-320 | on every file the rules enforced are, in order, the paths of exactly the lines whose nearest user-agent line before them is a star alone or holds `scrapegoat` in any case; the sitemaps are those of every sitemap line |
| RobotsText.FileReads | internal/provenance/robots.go:101-166 | a file written from groups of agents and rules is reported as those groups |
| RobotsText.FileEnforced | internal/engine/robots.go:297-320 | of such a file exactly the rules of the groups whose last agent is a star or holds our name are enforced |
| RobotsText.IsAllowed | internal/engine/robots.go:98-117 | the loops let a path through if and only if some allow rule accepts it or no disallow rule does |
| RobotsText.RefusedExactly | internal/engine/robots.go:98-117 | on every file a path is refused if and only if some disallow line that is ours accepts it and no allow line that is ours does |
| RobotsFiles.ParseRobotsTxt | internal/engine/robots.go:267-321 | the loop gathers what the enforcing reader is said to gather, which `RobotsText.EnforcedLines` tells from the lines |
| RobotsFiles.ParseRobots | internal/provenance/robots.go:101-166 | the loop gathers what the reporting reader is said to gather |
| Bloom.ClearsOne | internal/engine/bloom.go:146-148 | `x &= x - 1` clears exactly one set bit of a 64-bit word |
| Bloom.PopCount | internal/engine/bloom.go:143-151 | the loop counts the set bits |
| Bloom.AddedHas | internal/engine/bloom.go:58-69 | adding sets the URL's bits, loses none, touches none beyond the sized ones, and sets at most one new bit a hash |
| Bloom.PositionIs | internal/engine/bloom.go:62-67 | the bits of a URL are its two hashes in turn, the first and each time the second on top in wrapping 64 bits, each modulo the number of bits |
| Bloom.FoundExactly | internal/engine/bloom.go:73-85 | a URL is found if and only if each of its bits is one of some URL that was added: so much for false positives |
| Bloom.HoldsAdd | internal/engine/bloom.go:58-69 | every URL added is found, nothing is set beyond the sized bits, no bit is set that no URL added hashes to, and set bits are accounted for by hashes |
| Bloom.PopulationIsBounded | internal/engine/bloom.go:95-105 | the set bits number at most the bits there are and at most the hashes computed |
| Bloom.BloomFilter.SetBits | internal/engine/bloom.go:95-105 | the loop over the words counts the set bits, within those bounds |
| Bloom.BloomFilter.Add | internal/engine/bloom.go:58-69 | words are or-ed in place, in bounds, with positions in wrapping 64-bit arithmetic |
| Bloom.BloomFilter.Contains | internal/engine/bloom.go:73-85 | true exactly when all the URL's bits are set, that is, each is one of some URL added; always for a URL that was added |
| Bloom.BloomDeduplicator.MarkIfUnseen | internal/engine/bloom.go:218-229 | whatever is called new here an exact set would call new too; what was ever offered is never new again |
| Urls.UnescapeEscape | internal/engine/dedup.go:156-160 | escaping and unescaping a query part gives it back |
| Urls.PrintedPairsParse | internal/engine/dedup.go:153-162 | pairs printed and parsed again are the same pairs in the same order |
| Urls.UnescapeReads | internal/engine/dedup.go:145-150 | a query part spelled from bytes, pluses and percent codes of two digits in either case is read as what they stand for |
| Urls.UnescapeFails | internal/engine/dedup.go:145-150 | it is refused if and only if some percent sign lacks its two digits |
| Urls.SegmentReads | internal/engine/dedup.go:145-150 | a segment is cut at its first equals sign; an empty one, one with a semicolon and one that is refused are dropped |
| Urls.QueryReads | internal/engine/dedup.go:145-150 | a query is its segments between ampersands, in order |
| Urls.QueryKeepsPairs | internal/engine/dedup.go:145-163 | the canonical query holds the same pairs as the query |
| Urls.QueryUnordered | internal/engine/dedup.go:145-163 | queries with the same pairs, however ordered and escaped, have one canonical form |
| Urls.CanonicalizeQuery | internal/engine/dedup.go:145-163 | the loops over sorted keys and sorted values print that form |
| Urls.SortedAscends | internal/engine/dedup.go:145-163 | the keys, and the values of a key, come in ascending order |
| Urls.HostTwice | internal/engine/dedup.go:136-142 | a default port once dropped is not looked for again, for IPv6 literals and hosts with several colons too |
| Urls.BracketsStay | internal/engine/dedup.go:136-142 | an IPv6 literal on the default port of http or https keeps its brackets and loses the port |
| Urls.PathEnds | internal/engine/dedup.go:165-173 | a canonical path is the root or ends in no slash, and is its own canonical form |
| Urls.CanonicalTwice | internal/engine/dedup.go:108-176 | canonicalising a parsed URL twice is canonicalising it once |
| Urls.ClaimedAsOne | internal/engine/dedup.go:108-176 | two URLs have one canonical form if and only if their schemes agree up to case, their user information agrees, their hosts agree up to case and the port of the scheme, their paths up to slashes at the end, and their query pairs in any order |
| Urls.CanonicalUnordered | internal/engine/dedup.go:108-176 | URLs that differ in the order of their query pairs are claimed as one |
| Urls.Deduplicator.MarkIfUnseen | internal/engine/dedup.go:54-66 | new exactly when nothing with its key was offered before |
| Items.ItemRestoresRule | internal/parser/derive.go:96-152 | in whatever order a rule's claims come back, its field holds the values in the order they matched, bare when there is one |
| Items.ItemField | internal/parser/derive.go:96-152 | any field holds the values of exactly its claims, in order of their index: alone when there is one, as texts when all are, as values otherwise |
| Items.RulesInterleave | internal/parser/derive.go:44-61 | any number of rules with one selector on one field: none shadows another, and the field holds the first values of all of them, then the second values, and so on |
| Items.RulesKeepOrder | internal/parser/derive.go:96-152 | sorting leaves the claims in the order of the rules if and only if no rule but the last with values has more than one |
| Items.ItemKeepsOrder | internal/parser/derive.go:96-152 | when the values are all different, the field holds them rule after rule under exactly that condition |
| Items.OneMethodEach | internal/parser/composite.go:125-137 | what is left names for each field the last method that claimed it, and loses no field |
| Items.DropTwice | internal/parser/composite.go:125-137 | dropping twice is dropping once |
| Items.LaterWins | internal/parser/composite.go:62-117 | a later derivation with methods of its own takes every field it claims and leaves the rest as the earlier ones had it |
| Items.DropShadowedLoop | internal/parser/composite.go:125-137 | the two loops keep exactly those |
| Items.ItemFromAssertions | internal/parser/derive.go:96-152 | grouping, sorting and collapsing build that item, and none from no assertions |

## Left out

- Citation.EveryCitationChecks: a span that does not keep its tokens may pass the check all the same, when what is left of the element renders to nothing; `Projection.TokensOfCut` is exact on the tokens.
- Grounding.EvidenceIndex.Locate: nothing is said of an index that is used again after a panic.
- Tokens.DecodeEntityCut: the table of reference names is a parameter, so nothing is said of which names exist.
- CrawlRuns.NoLostWakeup: readiness is a time per domain that a claim moves on; a limiter evicted by the throttler becomes ready sooner than a sleeper knows, and that is not part of the statement.
- CrawlRuns.SentAtMost: bounds sends from zero; a resumed crawl starts its count anew.
- FrontierObject.Frontier.PopReadyOnce: the queue is a sequence and the order in which `container/heap` keeps equal priorities is not modelled; the result is a request of the best priority.
- Throttle.Politeness: tokens of `rate.Limiter` at burst one are the time of the last claim, on the clock of the calls; the code reads an injected clock for the wait and the system clock for the claim.
- Replay.ReplayEqualsRecording: writes do not fail, and header maps that are nil and empty are the same; times are integers, so the encoding of a time in JSON is not modelled.
- Ledger.CrashPrefix: lines longer than the scanner's buffer of 8 MB are not modelled.
- ObjectStore.Store.Verify: files are regular files; the refusal of links is not modelled.
- Urls.CanonicalTwice: parsing and printing the whole URL is the library's; `RawPath` and percent-encoding in paths are not modelled.
- RobotsFiles.ReadersAgree: crawl delays are floating point and not modelled, and white space and letter case are ASCII.
- Bloom.PopulationIsBounded: the sizing of a filter and the estimate made from the count are floating point.
- Pausing a crawl: a worker at the head of its loop may stay there, which covers a pause, but the gate that `Resume` swaps is not modelled.
- `Frontier.Pop` without a gate, `Snapshot`, `RestoreAll` and the checkpoint: not modelled; requests in backoff are in neither half of a snapshot.
- `backoffFor`: a capped power of two and a random draw, which would add only easy members.
- Robots caching and fetching, AI agent summaries: direct lookups and counts.
- HTTP, TLS, browser, proxies, storage encodings, extraction by selectors and the servers: input, output and libraries.
