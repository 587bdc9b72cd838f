/** Recording a crawl's fetches and playing them back (internal/fetchlog/fetcher.go): whatever the
    interleaving of the calls, the n-th replayed call on a method and URL has the outcome of the
    n-th recorded one. */
module Replay {
  import opened Utf8
  import opened Wrappers
  import opened ObjectStore
  import opened Ledger

  // ---- What a fetch comes to ----

  datatype Response = Response(status: int, headers: Headers, finalUrl: string, body: seq<byte>, fetchedAt: int, duration: int)

  /** A fetch error says what status it met and whether to retry; any other error does not. */
  datatype Verdict = Verdict(status: int, retryable: bool)

  datatype Outcome = Got(r: Response) | Failed(text: string, verdict: Option<Verdict>)

  datatype Reply =
    | Serves(r: Response)
    | Refuses(text: string, verdict: Verdict)
    | NoRecording
    | Broken                       // the log holds no such body, or no such address

  /** The hash of bodies, and an address parsed and printed again. */
  datatype World = World(hash: seq<byte> -> string, reprint: string -> Option<string>)

  // ---- Calls, interleaved ----

  /** A call begins by drawing its attempt number; it ends by writing its outcome to the log. In
      between, others begin and end. */
  datatype Step =
    | Begins(verb: string, url: string, at: int)
    | Ends(call: nat, outcome: Outcome, took: int)   // `call` is the place of its Begins

  function AttemptId(verb: string, url: string): string {
    verb + " " + url
  }

  predicate SpaceFree(s: string) {
    ' ' !in s
  }

  lemma AttemptIdInjective(v: string, u: string, v1: string, u1: string)
    requires SpaceFree(v) && SpaceFree(v1) && AttemptId(v, u) == AttemptId(v1, u1)
    ensures v == v1 && u == u1
  {
    var a, b := AttemptId(v, u), AttemptId(v1, u1);
    assert a[|v|] == ' ' && b[|v1|] == ' ';
    assert forall i | 0 <= i < |v| :: a[i] == v[i];
    assert forall i | 0 <= i < |v1| :: b[i] == v1[i];
    assert |v| == |v1|;
    assert a[..|v|] == v && b[..|v1|] == v1;
    assert a[|v| + 1..] == u && b[|v1| + 1..] == u1;
  }

  /** How many calls drew a number from the counter `id`. */
  function Begun(run: seq<Step>, id: string): nat {
    if run == [] then 0
    else
      var last := run[|run| - 1];
      Begun(run[..|run| - 1], id) + if last.Begins? && AttemptId(last.verb, last.url) == id then 1 else 0
  }

  /** How many calls were made on a method and URL. */
  function Calls(run: seq<Step>, verb: string, url: string): nat {
    if run == [] then 0
    else
      var last := run[|run| - 1];
      Calls(run[..|run| - 1], verb, url) + if last.Begins? && last.verb == verb && last.url == url then 1 else 0
  }

  /** With methods that contain no space, a counter counts the calls on one method and URL. */
  lemma {:induction false} CountersAreApart(run: seq<Step>, verb: string, url: string)
    requires SpaceFree(verb) && forall i | 0 <= i < |run| && run[i].Begins? :: SpaceFree(run[i].verb)
    ensures Begun(run, AttemptId(verb, url)) == Calls(run, verb, url)
    decreases |run|
  {
    if run != [] {
      var n, last := |run| - 1, run[|run| - 1];
      assert forall i | 0 <= i < n && run[..n][i].Begins? :: SpaceFree(run[i].verb);
      CountersAreApart(run[..n], verb, url);
      if last.Begins? && AttemptId(last.verb, last.url) == AttemptId(verb, url) {
        AttemptIdInjective(last.verb, last.url, verb, url);
      }
    }
  }

  /** Every Ends names a call that began before it, and no call ends twice. */
  ghost predicate WellFormed(run: seq<Step>) {
    && (forall j | 0 <= j < |run| && run[j].Ends? :: run[j].call < j && run[run[j].call].Begins?)
    && (forall i, j | 0 <= i < j < |run| && run[i].Ends? && run[j].Ends? :: run[i].call != run[j].call)
  }

  // ---- Recording ----

  function EntryOf(w: World, verb: string, url: string, attempt: nat, start: int, outcome: Outcome, took: int, number: nat): Entry {
    match outcome
    case Failed(text, verdict) =>
      var v := if verdict.Some? then verdict.value else Verdict(0, false);
      Entry(number, verb, url, attempt, "", v.status, map[], "", text, v.retryable, start, took)
    case Got(r) =>
      Entry(number, verb, url, attempt, w.hash(r.body), r.status, r.headers, r.finalUrl, "", false, r.fetchedAt, r.duration)
  }

  /** The entry that run[j], the end of a call, writes. */
  function EntryAt(w: World, run: seq<Step>, j: nat, number: nat): Entry
    requires j < |run| && run[j].Ends? && run[j].call < j && run[run[j].call].Begins?
  {
    var b := run[run[j].call];
    EntryOf(w, b.verb, b.url, Begun(run[..run[j].call], AttemptId(b.verb, b.url)), b.at, run[j].outcome, run[j].took, number)
  }

  /** The log a run leaves. */
  ghost function Recorded(w: World, run: seq<Step>): seq<Entry>
    requires WellFormed(run)
  {
    if run == [] then []
    else
      var before := Recorded(w, run[..|run| - 1]);
      if run[|run| - 1].Begins? then before else before + [EntryAt(w, run, |run| - 1, |before| + 1)]
  }

  /** The bodies a run leaves. */
  function Kept(w: World, run: seq<Step>): map<string, seq<byte>> {
    if run == [] then map[]
    else
      var before, last := Kept(w, run[..|run| - 1]), run[|run| - 1];
      if last.Ends? && last.outcome.Got? then Stored(w.hash, before, last.outcome.r.body) else before
  }

  // ---- Playing back ----

  /** The entry kept for a key when a map is filled in order: the last. */
  function Lookup(es: seq<Entry>, verb: string, url: string, attempt: nat): Option<Entry> {
    if es == [] then None
    else
      var e := es[|es| - 1];
      if e.verb == verb && e.url == url && e.attempt == attempt then Some(e)
      else Lookup(es[..|es| - 1], verb, url, attempt)
  }

  /** A player asked for an attempt that was not recorded falls back to the first. */
  function Chosen(es: seq<Entry>, verb: string, url: string, attempt: nat): Option<Entry> {
    match Lookup(es, verb, url, attempt)
    case Some(e) => Some(e)
    case None => Lookup(es, verb, url, 0)
  }

  function Answered(w: World, files: map<string, seq<byte>>, e: Entry): Reply {
    if e.err != "" then Refuses(e.err, Verdict(e.status, e.retryable))
    else match Answer(w.hash, files, e.digest)
      case Found(body) => Rebuilt(w, e, body)
      case _ => Broken
  }

  function Rebuilt(w: World, e: Entry, body: seq<byte>): Reply {
    match w.reprint(if e.finalUrl == "" then e.url else e.finalUrl)
    case None => Broken
    case Some(u) => Serves(Response(e.status, e.headers, u, body, e.fetchedAt, e.duration))
  }

  function Play(w: World, es: seq<Entry>, files: map<string, seq<byte>>, verb: string, url: string, attempt: nat): Reply {
    match Chosen(es, verb, url, attempt)
    case None => NoRecording
    case Some(e) => Answered(w, files, e)
  }

  // ---- The recording holds each call's outcome under its own key ----

  lemma Prefix(run: seq<Step>)
    requires WellFormed(run) && run != []
    ensures WellFormed(run[..|run| - 1])
  {
    var p := run[..|run| - 1];
    forall j | 0 <= j < |p| && p[j].Ends?
      ensures p[j].call < j && p[p[j].call].Begins?
    {
      assert p[j] == run[j] && p[p[j].call] == run[run[j].call];
    }
  }

  lemma {:induction false} BegunGrows(run: seq<Step>, n: nat, id: string)
    requires n <= |run|
    ensures Begun(run[..n], id) <= Begun(run, id)
    decreases |run|
  {
    if n < |run| {
      assert run[..|run| - 1][..n] == run[..n];
      BegunGrows(run[..|run| - 1], n, id);
    } else {
      assert run[..n] == run;
    }
  }

  /** Two calls on the same counter draw different attempts. */
  lemma AttemptsDiffer(run: seq<Step>, i: nat, k: nat, id: string)
    requires i < k <= |run| && run[i].Begins? && AttemptId(run[i].verb, run[i].url) == id
    ensures Begun(run[..i], id) < Begun(run[..k], id)
  {
    assert run[..i + 1][..i] == run[..i];
    assert Begun(run[..i + 1], id) == Begun(run[..i], id) + 1;
    BegunGrows(run[..k], i + 1, id);
    assert run[..k][..i + 1] == run[..i + 1];
  }

  predicate Keyed(e: Entry, verb: string, url: string, attempt: nat) {
    e.verb == verb && e.url == url && e.attempt == attempt
  }

  lemma KeyAt(w: World, run: seq<Step>, j: nat, number: nat)
    requires WellFormed(run) && j < |run| && run[j].Ends?
    ensures var b := run[run[j].call]; Keyed(EntryAt(w, run, j, number), b.verb, b.url, Drawn(run, j))
  {
  }

  /** Two calls that ended wrote entries with different keys. */
  lemma KeysDiffer(w: World, run: seq<Step>, i: nat, j: nat, m: nat, n: nat)
    requires WellFormed(run) && i < |run| && j < |run| && i != j && run[i].Ends? && run[j].Ends?
    ensures var e, f := EntryAt(w, run, i, m), EntryAt(w, run, j, n); !Keyed(e, f.verb, f.url, f.attempt)
  {
    hide EntryAt, Begun;
    var p, q := run[i].call, run[j].call;
    assert p != q;
    KeyAt(w, run, i, m);
    KeyAt(w, run, j, n);
    if run[p].verb == run[q].verb && run[p].url == run[q].url {
      if p < q {
        AttemptsDiffer(run, p, q, AttemptId(run[p].verb, run[p].url));
      } else {
        AttemptsDiffer(run, q, p, AttemptId(run[p].verb, run[p].url));
      }
    }
  }

  lemma EntryAtPrefix(w: World, run: seq<Step>, j: nat, n: nat, number: nat)
    requires WellFormed(run) && j < n <= |run| && run[j].Ends?
    ensures run[..n][j] == run[j] && run[..n][run[j].call] == run[run[j].call]
    ensures EntryAt(w, run[..n], j, number) == EntryAt(w, run, j, number)
  {
    assert run[..n][..run[j].call] == run[..run[j].call];
  }

  /** The attempt that run[j]'s call drew. */
  function Drawn(run: seq<Step>, j: nat): nat
    requires j < |run| && run[j].Ends? && run[j].call < j && run[run[j].call].Begins?
  {
    var b := run[run[j].call];
    Begun(run[..run[j].call], AttemptId(b.verb, b.url))
  }

  lemma DrawnPrefix(run: seq<Step>, j: nat, n: nat)
    requires WellFormed(run) && j < n <= |run| && run[j].Ends?
    ensures Drawn(run[..n], j) == Drawn(run, j)
  {
    assert run[..n][..run[j].call] == run[..run[j].call];
  }

  lemma RecordedSnoc(w: World, run: seq<Step>)
    requires WellFormed(run) && run != [] && WellFormed(run[..|run| - 1])
    ensures var before := Recorded(w, run[..|run| - 1]);
            Recorded(w, run) == if run[|run| - 1].Begins? then before else before + [EntryAt(w, run, |run| - 1, |before| + 1)]
  {
  }

  lemma LookupSnoc(es: seq<Entry>, e: Entry, verb: string, url: string, attempt: nat)
    ensures Lookup(es + [e], verb, url, attempt) == if Keyed(e, verb, url, attempt) then Some(e) else Lookup(es, verb, url, attempt)
  {
    assert (es + [e])[..|es|] == es;
  }

  /** Looking up the key of a call that ended finds what that call wrote. */
  lemma {:induction false} LookupFinds(w: World, run: seq<Step>, j: nat) returns (number: nat)
    requires WellFormed(run) && j < |run| && run[j].Ends?
    ensures var b := run[run[j].call];
            Lookup(Recorded(w, run), b.verb, b.url, Drawn(run, j)) == Some(EntryAt(w, run, j, number))
    decreases |run|
  {
    hide Begun, EntryAt, Recorded, Lookup, Drawn;
    var b, n := run[run[j].call], |run| - 1;
    Prefix(run);
    RecordedSnoc(w, run);
    var before := Recorded(w, run[..n]);
    if j == n {
      number := |before| + 1;
      KeyAt(w, run, j, number);
      LookupSnoc(before, EntryAt(w, run, j, number), b.verb, b.url, Drawn(run, j));
    } else {
      number := LookupFinds(w, run[..n], j);
      EntryAtPrefix(w, run, j, n, number);
      DrawnPrefix(run, j, n);
      if run[n].Ends? {
        KeysDiffer(w, run, n, j, |before| + 1, number);
        KeyAt(w, run, j, number);
        LookupSnoc(before, EntryAt(w, run, n, |before| + 1), b.verb, b.url, Drawn(run, j));
      }
    }
  }

  /** Nothing is found for an attempt no call drew, or whose call never ended. */
  lemma {:induction false} LookupMisses(w: World, run: seq<Step>, verb: string, url: string, attempt: nat)
    requires WellFormed(run)
    requires forall j | 0 <= j < |run| && run[j].Ends? :: !Keyed(EntryAt(w, run, j, 0), verb, url, attempt)
    ensures Lookup(Recorded(w, run), verb, url, attempt) == None
    decreases |run|
  {
    if run != [] {
      var n := |run| - 1;
      Prefix(run);
      var before := Recorded(w, run[..n]);
      forall j | 0 <= j < n && run[..n][j].Ends?
        ensures !Keyed(EntryAt(w, run[..n], j, 0), verb, url, attempt)
      {
        EntryAtPrefix(w, run, j, n, 0);
      }
      LookupMisses(w, run[..n], verb, url, attempt);
      if run[n].Ends? {
        KeyAt(w, run, n, 0);
        KeyAt(w, run, n, |before| + 1);
        LookupSnoc(before, EntryAt(w, run, n, |before| + 1), verb, url, attempt);
      }
    }
  }

  // ---- The bodies are there ----

  ghost predicate NoCollisions(w: World, run: seq<Step>) {
    forall i, b | 0 <= i < |run| && run[i].Ends? && run[i].outcome.Got? && w.hash(b) == w.hash(run[i].outcome.r.body) ::
      b == run[i].outcome.r.body
  }

  lemma {:induction false} KeptIntact(w: World, run: seq<Step>)
    requires Hashes(w.hash)
    ensures Intact(w.hash, Kept(w, run))
    decreases |run|
  {
    if run != [] {
      var n := |run| - 1;
      KeptIntact(w, run[..n]);
      if run[n].Ends? && run[n].outcome.Got? {
        StoredKeeps(w.hash, Kept(w, run[..n]), run[n].outcome.r.body, w.hash([]));
      }
    }
  }

  lemma {:induction false} KeptFinds(w: World, run: seq<Step>, j: nat)
    requires Hashes(w.hash) && NoCollisions(w, run)
    requires j < |run| && run[j].Ends? && run[j].outcome.Got?
    ensures Answer(w.hash, Kept(w, run), w.hash(run[j].outcome.r.body)) == Found(run[j].outcome.r.body)
    decreases |run|
  {
    hide IsDigest, Stored, Answer, Intact;
    var n, body := |run| - 1, run[j].outcome.r.body;
    KeptIntact(w, run[..n]);
    if j == n {
      StoredRoundTrip(w.hash, Kept(w, run[..n]), body);
    } else {
      assert run[..n][j] == run[j];
      KeptFinds(w, run[..n], j);
      if run[n].Ends? && run[n].outcome.Got? {
        StoredKeeps(w.hash, Kept(w, run[..n]), run[n].outcome.r.body, w.hash(body));
      }
    }
  }

  // ---- Replay equals recording ----

  /** What a recorded outcome becomes when played back: the same, except that a response without a
      final address gets the one asked for, printed anew, and that an error without a text is not
      told from a success without a body. */
  function Replayed(w: World, url: string, o: Outcome): Reply {
    match o
    case Failed(text, verdict) =>
      if text == "" then Broken else Refuses(text, if verdict.Some? then verdict.value else Verdict(0, false))
    case Got(r) =>
      match w.reprint(if r.finalUrl == "" then url else r.finalUrl)
      case None => Broken
      case Some(u) => Serves(r.(finalUrl := u))
  }

  lemma NoEmptyPath(w: World, files: map<string, seq<byte>>)
    requires Hashes(w.hash) && Intact(w.hash, files)
    ensures "" !in files
  {
    forall p | p in files
      ensures p != ""
    {
      assert IsDigest(w.hash(files[p]));
    }
  }

  lemma AnsweredIs(w: World, run: seq<Step>, j: nat, number: nat)
    requires Hashes(w.hash) && NoCollisions(w, run) && WellFormed(run) && j < |run| && run[j].Ends?
    ensures Answered(w, Kept(w, run), EntryAt(w, run, j, number)) == Replayed(w, run[run[j].call].url, run[j].outcome)
  {
    if run[j].outcome.Got? {
      KeptFinds(w, run, j);
    } else if run[j].outcome.text == "" {
      KeptIntact(w, run);
      NoEmptyPath(w, Kept(w, run));
    }
  }

  /** For any interleaving: the call that drew attempt n on a method and URL, once it has ended,
      is what attempt n on them is answered with; a response is the very one recorded exactly when
      its address survives being parsed and printed. */
  lemma ReplayEqualsRecording(w: World, run: seq<Step>, j: nat)
    requires Hashes(w.hash) && NoCollisions(w, run) && WellFormed(run) && j < |run| && run[j].Ends?
    ensures var b := run[run[j].call];
            Play(w, Recorded(w, run), Kept(w, run), b.verb, b.url, Drawn(run, j)) == Replayed(w, b.url, run[j].outcome)
    ensures run[j].outcome.Got? ==>
              var b, r := run[run[j].call], run[j].outcome.r;
              Play(w, Recorded(w, run), Kept(w, run), b.verb, b.url, Drawn(run, j)) == Serves(r)
              <==> w.reprint(if r.finalUrl == "" then b.url else r.finalUrl) == Some(r.finalUrl)
    ensures run[j].outcome.Failed? && run[j].outcome.text != "" ==>
              var b, o := run[run[j].call], run[j].outcome;
              Play(w, Recorded(w, run), Kept(w, run), b.verb, b.url, Drawn(run, j))
              == Refuses(o.text, if o.verdict == None then Verdict(0, false) else o.verdict.value)
  {
    hide EntryAt, Recorded, Kept, Answered, NoCollisions, Hashes, Drawn, Lookup;
    var number := LookupFinds(w, run, j);
    AnsweredIs(w, run, j, number);
  }

  /** A replay that calls more often than the recording did gets the first call's outcome again. */
  lemma PastTheRecording(w: World, run: seq<Step>, verb: string, url: string, attempt: nat)
    requires WellFormed(run) && attempt >= Begun(run, AttemptId(verb, url))
    ensures Play(w, Recorded(w, run), Kept(w, run), verb, url, attempt) == Play(w, Recorded(w, run), Kept(w, run), verb, url, 0)
  {
    hide EntryAt, Recorded, Kept, Answered, Begun, Lookup;
    forall j | 0 <= j < |run| && run[j].Ends?
      ensures !Keyed(EntryAt(w, run, j, 0), verb, url, attempt)
    {
      KeyAt(w, run, j, 0);
      AttemptsDiffer(run, run[j].call, |run|, AttemptId(run[run[j].call].verb, run[run[j].call].url));
      assert run[..|run|] == run;
    }
    LookupMisses(w, run, verb, url, attempt);
  }

  /** What was never called, or never came back, is not made up. */
  lemma NothingRecorded(w: World, run: seq<Step>, verb: string, url: string, attempt: nat)
    requires WellFormed(run)
    requires forall j | 0 <= j < |run| && run[j].Ends? :: run[run[j].call].verb != verb || run[run[j].call].url != url
    ensures Play(w, Recorded(w, run), Kept(w, run), verb, url, attempt) == NoRecording
  {
    hide EntryAt, Recorded, Kept, Answered, Begun, Lookup;
    forall j, n: nat | 0 <= j < |run| && run[j].Ends?
      ensures !Keyed(EntryAt(w, run, j, 0), verb, url, n)
    {
      KeyAt(w, run, j, 0);
    }
    LookupMisses(w, run, verb, url, attempt);
    LookupMisses(w, run, verb, url, 0);
  }

  /** The same from the bytes of the ledger on disk. */
  lemma ReplayFromDisk(w: World, c: Codec, run: seq<Step>, j: nat)
    requires Hashes(w.hash) && NoCollisions(w, run) && WellFormed(run) && j < |run| && run[j].Ends?
    requires AllCode(c, Recorded(w, run))
    ensures var b := run[run[j].call];
            Play(w, Read(c, Written(c, Recorded(w, run))), Kept(w, run), b.verb, b.url, Drawn(run, j)) == Replayed(w, b.url, run[j].outcome)
  {
    hide Play, Recorded, Kept, Drawn, Replayed, Read, Written, NoCollisions;
    ReadWritten(c, Recorded(w, run));
    ReplayEqualsRecording(w, run, j);
  }

  lemma {:induction false} LookupPrefix(es: seq<Entry>, n: nat, verb: string, url: string, attempt: nat)
    requires Numbered(es, 0) && n <= |es|
    requires var e := Lookup(es, verb, url, attempt); e.Some? && e.value.number <= n
    ensures Lookup(es[..n], verb, url, attempt) == Lookup(es, verb, url, attempt)
    decreases |es|
  {
    if n < |es| {
      assert es[..|es| - 1][..n] == es[..n];
      LookupPrefix(es[..|es| - 1], n, verb, url, attempt);
    } else {
      assert es[..n] == es;
    }
  }

  /** After a crash that cut the ledger at any byte, every call whose entry is whole still plays
      back as it went. */
  lemma ReplayAfterCrash(w: World, c: Codec, run: seq<Step>, j: nat, k: nat) returns (number: nat)
    requires Hashes(w.hash) && NoCollisions(w, run) && WellFormed(run) && j < |run| && run[j].Ends?
    requires AllCode(c, Recorded(w, run)) && k <= |Written(c, Recorded(w, run))|
    ensures 0 < number <= |Recorded(w, run)| && Recorded(w, run)[number - 1] == EntryAt(w, run, j, number)
    ensures var b, left := run[run[j].call], Read(c, Written(c, Recorded(w, run))[..k]);
            number <= Survivors(c, Recorded(w, run), k) ==>
              Play(w, left, Kept(w, run), b.verb, b.url, Drawn(run, j)) == Replayed(w, b.url, run[j].outcome)
  {
    hide EntryAt, Recorded, Kept, Replayed, Answered, NoCollisions, Hashes, Drawn, Lookup, Read, Written, Survivors;
    number := LookupFinds(w, run, j);
    var es, b := Recorded(w, run), run[run[j].call];
    RecordedNumbers(w, run);
    NumberAt(w, run, j, number);
    LookupIn(es, b.verb, b.url, Drawn(run, j));
    CrashPrefix(c, es, k);
    if number <= Survivors(c, es, k) {
      LookupPrefix(es, Survivors(c, es, k), b.verb, b.url, Drawn(run, j));
      AnsweredIs(w, run, j, number);
    }
  }

  lemma {:induction false} LookupIn(es: seq<Entry>, verb: string, url: string, attempt: nat)
    requires Numbered(es, 0) && Lookup(es, verb, url, attempt).Some?
    ensures var e := Lookup(es, verb, url, attempt).value; 0 < e.number <= |es| && es[e.number - 1] == e
    decreases |es|
  {
    var e := es[|es| - 1];
    if !Keyed(e, verb, url, attempt) {
      LookupIn(es[..|es| - 1], verb, url, attempt);
    }
  }

  // ---- The recorder ----

  lemma {:induction false} RecordedNumbers(w: World, run: seq<Step>)
    requires WellFormed(run)
    ensures Numbered(Recorded(w, run), 0)
    decreases |run|
  {
    hide EntryAt;
    if run != [] {
      var n := |run| - 1;
      Prefix(run);
      RecordedNumbers(w, run[..n]);
      if run[n].Ends? {
        assert EntryAt(w, run, n, |Recorded(w, run[..n])| + 1).number == |Recorded(w, run[..n])| + 1 by { NumberAt(w, run, n, |Recorded(w, run[..n])| + 1); }
      }
    }
  }

  lemma NumberAt(w: World, run: seq<Step>, j: nat, number: nat)
    requires WellFormed(run) && j < |run| && run[j].Ends?
    ensures EntryAt(w, run, j, number).number == number
  {
  }

  /** One call in progress: what Fetch holds between drawing its attempt and writing its entry. */
  datatype InProgress = InProgress(verb: string, url: string, attempt: nat, start: int)

  class Recorder {
    const world: World
    const store: Store
    const log: Log
    var attempts: map<string, nat>
    ghost var run: seq<Step>

    ghost predicate Valid()
      reads this, store, log
    {
      && store.hash == world.hash && !log.closed
      && WellFormed(run)
      && (forall id :: (if id in attempts then attempts[id] else 0) == Begun(run, id))
      && store.files == Kept(world, run)
      && log.file == Written(log.codec, Recorded(world, run)) && log.number == |Recorded(world, run)|
    }

    /** A recorder on a fresh log. */
    constructor (world: World, codec: Codec)
      ensures Valid() && run == [] && this.world == world && log.codec == codec && fresh(store) && fresh(log)
    {
      this.world := world;
      store := new Store(world.hash);
      log := new Log(codec, []);
      attempts, run := map[], [];
    }

    /** The first half of Fetch: the call draws its attempt number. */
    method Begin(verb: string, url: string, now: int) returns (call: InProgress)
      requires Valid()
      modifies this
      ensures Valid() && run == old(run) + [Begins(verb, url, now)]
      ensures call == InProgress(verb, url, Begun(old(run), AttemptId(verb, url)), now)
    {
      var id := AttemptId(verb, url);
      var n := if id in attempts then attempts[id] else 0;
      attempts := attempts[id := n + 1];
      BeginRun(world, run, Begins(verb, url, now));
      run := run + [Begins(verb, url, now)];
      return InProgress(verb, url, n, now);
    }

    /** What is written of an outcome; the body goes to the store first. */
    method Compose(call: InProgress, outcome: Outcome, now: int) returns (entry: Entry)
      requires store.hash == world.hash
      modifies store
      ensures entry == EntryOf(world, call.verb, call.url, call.attempt, call.start, outcome, now - call.start, 0)
      ensures store.files == if outcome.Got? then Stored(world.hash, old(store.files), outcome.r.body) else old(store.files)
    {
      match outcome {
        case Failed(text, verdict) =>
          var v := if verdict.Some? then verdict.value else Verdict(0, false);
          entry := Entry(0, call.verb, call.url, call.attempt, "", v.status, map[], "", text, v.retryable, call.start, now - call.start);
        case Got(r) =>
          var digest := store.Put(r.body);
          entry := Entry(0, call.verb, call.url, call.attempt, digest, r.status, r.headers, r.finalUrl, "", false, r.fetchedAt, r.duration);
      }
    }

    /** The second half: the inner fetcher has answered, and the outcome is written down. */
    method End(call: InProgress, outcome: Outcome, now: int, ghost from: nat)
      requires Valid()
      requires from < |run| && run[from] == Begins(call.verb, call.url, call.start)
      requires call.attempt == Begun(run[..from], AttemptId(call.verb, call.url))
      requires forall j | 0 <= j < |run| && run[j].Ends? :: run[j].call != from
      modifies this, store, log
      ensures Valid() && run == old(run) + [Ends(from, outcome, now - call.start)]
    {
      hide WellFormed, Recorded, Kept, Begun, EntryAt, EntryOf, Written, Stored;
      ghost var step := Ends(from, outcome, now - call.start);
      ghost var e := EntryAt(world, run + [step], |run|, |Recorded(world, run)| + 1);
      EndWellFormed(run, step);
      EndRecorded(world, run, step);
      EndKept(world, run, step);
      EndBegun(run, step);
      NumberedEntry(world, call.verb, call.url, call.attempt, call.start, outcome, now - call.start, |Recorded(world, run)| + 1);
      WrittenSnoc(log.codec, Recorded(world, run), e);
      var entry := Compose(call, outcome, now);
      var ok := log.Append(entry);
      run := run + [step];
    }
  }

  lemma NumberedEntry(w: World, verb: string, url: string, attempt: nat, start: int, outcome: Outcome, took: int, number: nat)
    ensures EntryOf(w, verb, url, attempt, start, outcome, took, 0).(number := number) == EntryOf(w, verb, url, attempt, start, outcome, took, number)
  {
  }

  lemma BeginRun(w: World, run: seq<Step>, b: Step)
    requires WellFormed(run) && b.Begins?
    ensures var run1 := run + [b];
            && WellFormed(run1) && Recorded(w, run1) == Recorded(w, run) && Kept(w, run1) == Kept(w, run)
            && forall id :: Begun(run1, id) == Begun(run, id) + if id == AttemptId(b.verb, b.url) then 1 else 0
  {
    assert (run + [b])[..|run|] == run;
  }

  lemma EndWellFormed(run: seq<Step>, e: Step)
    requires WellFormed(run) && e.Ends? && e.call < |run| && run[e.call].Begins?
    requires forall j | 0 <= j < |run| && run[j].Ends? :: run[j].call != e.call
    ensures WellFormed(run + [e])
  {
  }

  lemma EndRecorded(w: World, run: seq<Step>, e: Step)
    requires WellFormed(run) && WellFormed(run + [e]) && e.Ends? && e.call < |run| && run[e.call].Begins?
    ensures (run + [e])[e.call].Begins?
    ensures var run1, b, n := run + [e], run[e.call], |Recorded(w, run)| + 1;
            && EntryAt(w, run1, |run|, n) == EntryOf(w, b.verb, b.url, Begun(run[..e.call], AttemptId(b.verb, b.url)), b.at, e.outcome, e.took, n)
            && Recorded(w, run1) == Recorded(w, run) + [EntryAt(w, run1, |run|, n)]
  {
    hide EntryOf, Begun;
    var run1 := run + [e];
    assert run1[..|run|] == run && run1[..e.call] == run[..e.call];
  }

  lemma EndKept(w: World, run: seq<Step>, e: Step)
    requires e.Ends?
    ensures Kept(w, run + [e]) == if e.outcome.Got? then Stored(w.hash, Kept(w, run), e.outcome.r.body) else Kept(w, run)
  {
    assert (run + [e])[..|run|] == run;
  }

  lemma EndBegun(run: seq<Step>, e: Step)
    requires e.Ends?
    ensures forall id :: Begun(run + [e], id) == Begun(run, id)
  {
    assert (run + [e])[..|run|] == run;
  }

  // ---- The player ----

  datatype Key = Key(verb: string, url: string, attempt: nat)

  /** The map holds, for each key, what a search of the entries would find. */
  ghost predicate Indexed(index: map<Key, Entry>, es: seq<Entry>) {
    forall k: Key :: (if k in index then Some(index[k]) else None) == Lookup(es, k.verb, k.url, k.attempt)
  }

  method Index(es: seq<Entry>) returns (index: map<Key, Entry>)
    ensures Indexed(index, es)
  {
    index := map[];
    for i := 0 to |es|
      invariant Indexed(index, es[..i])
    {
      var e := es[i];
      assert es[..i + 1] == es[..i] + [e];
      forall k: Key
        ensures Lookup(es[..i + 1], k.verb, k.url, k.attempt) == if k == Key(e.verb, e.url, e.attempt) then Some(e) else Lookup(es[..i], k.verb, k.url, k.attempt)
      {
        LookupSnoc(es[..i], e, k.verb, k.url, k.attempt);
      }
      index := index[Key(e.verb, e.url, e.attempt) := e];
    }
    assert es[..|es|] == es;
  }

  class Player {
    const world: World
    const store: Store
    const entries: map<Key, Entry>
    var attempts: map<string, nat>
    ghost const recorded: seq<Entry>
    ghost var asked: seq<Step>

    ghost predicate Valid()
      reads this, store
    {
      && store.hash == world.hash
      && Indexed(entries, recorded)
      && forall id :: (if id in attempts then attempts[id] else 0) == Begun(asked, id)
    }

    /** A player for the entries read from a log. */
    constructor (world: World, store: Store, es: seq<Entry>)
      requires store.hash == world.hash
      ensures Valid() && asked == [] && recorded == es && this.world == world && this.store == store
    {
      this.world, this.store, recorded := world, store, es;
      attempts, asked := map[], [];
      var index := Index(es);
      entries := index;
    }

    /** Serves the next attempt on the method and URL from the log. */
    method Fetch(verb: string, url: string) returns (reply: Reply)
      requires Valid()
      modifies this
      ensures Valid() && asked == old(asked) + [Begins(verb, url, 0)]
      ensures reply == Play(world, recorded, store.files, verb, url, Begun(old(asked), AttemptId(verb, url)))
    {
      var id := AttemptId(verb, url);
      var attempt := if id in attempts then attempts[id] else 0;
      attempts := attempts[id := attempt + 1];
      assert (asked + [Begins(verb, url, 0)])[..|asked|] == asked;
      asked := asked + [Begins(verb, url, 0)];

      var entry: Entry;
      if Key(verb, url, attempt) in entries {
        entry := entries[Key(verb, url, attempt)];
      } else if Key(verb, url, 0) in entries {
        entry := entries[Key(verb, url, 0)];
      } else {
        return NoRecording;
      }
      if entry.err != "" {
        return Refuses(entry.err, Verdict(entry.status, entry.retryable));
      }
      var got := store.Get(entry.digest);
      if !got.Found? {
        return Broken;
      }
      return Rebuilt(world, entry, got.body);
    }
  }
}
