/** The append-only ledger of fetch attempts, as the bytes of its file: one encoded entry a line
    (internal/fetchlog/index.go). The encoding is a parameter. */
module Ledger {
  import opened Utf8
  import opened Wrappers

  type Body = seq<byte>
  type Headers = map<string, seq<string>>

  datatype Entry = Entry(
    number: nat,                 // Seq
    verb: string,                // Method
    url: string,
    attempt: nat,
    digest: string,
    status: int,
    headers: Headers,
    finalUrl: string,
    err: string,
    retryable: bool,
    fetchedAt: int,
    duration: int)

  datatype Codec = Codec(enc: Entry -> Body, dec: Body -> Option<Entry>)

  const LF: byte := 10
  const CR: byte := 13

  /** What a JSON object on one line gives: it reads back, holds no line break, and no part of it
      cut short reads as anything. */
  ghost predicate Codes(c: Codec, e: Entry) {
    && c.dec(c.enc(e)) == Some(e)
    && c.enc(e) != []
    && (forall i | 0 <= i < |c.enc(e)| :: c.enc(e)[i] != LF && c.enc(e)[i] != CR)
    && (forall k | 0 < k < |c.enc(e)| :: c.dec(c.enc(e)[..k]) == None)
  }

  ghost predicate AllCode(c: Codec, es: seq<Entry>) {
    forall i | 0 <= i < |es| :: Codes(c, es[i])
  }

  /** The file after appending es to an empty one. */
  function Written(c: Codec, es: seq<Entry>): Body {
    if es == [] then [] else c.enc(es[0]) + [LF] + Written(c, es[1..])
  }

  function FirstBreak(b: Body): nat {
    if b == [] || b[0] == LF then 0 else 1 + FirstBreak(b[1..])
  }

  lemma {:induction false} FirstBreakBound(b: Body)
    ensures FirstBreak(b) <= |b|
    ensures FirstBreak(b) < |b| ==> b[FirstBreak(b)] == LF
  {
    if b != [] && b[0] != LF {
      FirstBreakBound(b[1..]);
    }
  }

  function WithoutCR(line: Body): Body {
    if line != [] && line[|line| - 1] == CR then line[..|line| - 1] else line
  }

  /** The lines a scanner sees: a last one without a break counts, an empty last one does not. */
  function Lines(b: Body): seq<Body>
    decreases |b|
  {
    if b == [] then []
    else
      FirstBreakBound(b);
      var n := FirstBreak(b);
      [WithoutCR(b[..n])] + if n < |b| then Lines(b[n + 1..]) else []
  }

  /** The entries up to the first line that does not decode. */
  function Entries(c: Codec, lines: seq<Body>): seq<Entry> {
    if lines == [] then []
    else if lines[0] == [] then Entries(c, lines[1..])
    else match c.dec(lines[0])
      case None => []
      case Some(e) => [e] + Entries(c, lines[1..])
  }

  /** What is read back from the bytes of a file. */
  function Read(c: Codec, file: Body): seq<Entry> {
    Entries(c, Lines(file))
  }

  // ---- What a crash leaves ----

  /** How many of es are whole in the first k bytes; the last may lack its line break. */
  function Survivors(c: Codec, es: seq<Entry>, k: nat): nat {
    if es == [] || k < |c.enc(es[0])| then 0
    else if k <= |c.enc(es[0])| + 1 then 1
    else 1 + Survivors(c, es[1..], k - |c.enc(es[0])| - 1)
  }

  lemma {:induction false} BreakAfter(a: Body, rest: Body)
    requires forall i | 0 <= i < |a| :: a[i] != LF
    ensures rest == [] || rest[0] == LF ==> FirstBreak(a + rest) == |a|
  {
    if a == [] {
      assert a + rest == rest;
    } else {
      assert (a + rest)[1..] == a[1..] + rest;
      BreakAfter(a[1..], rest);
    }
  }

  /** A line, its break, and what follows. */
  lemma LinesCons(a: Body, rest: Body)
    requires forall i | 0 <= i < |a| :: a[i] != LF && a[i] != CR
    ensures Lines(a + [LF] + rest) == [a] + Lines(rest)
    ensures a != [] ==> Lines(a) == [a]
  {
    var b := a + [LF] + rest;
    assert b == a + ([LF] + rest);
    BreakAfter(a, [LF] + rest);
    FirstBreakBound(b);
    assert b[..|a|] == a && b[|a| + 1..] == rest;
    BreakAfter(a, []);
    assert a + [] == a;
    FirstBreakBound(a);
    assert a[..|a|] == a;
  }

  lemma EntriesCons(c: Codec, e: Entry, lines: seq<Body>)
    requires Codes(c, e)
    ensures Entries(c, [c.enc(e)] + lines) == [e] + Entries(c, lines)
  {
    assert ([c.enc(e)] + lines)[1..] == lines;
  }

  /** Whatever byte a crash stops at, what is read back is the entries that were whole, in order,
      and nothing else. */
  lemma {:induction false} CrashPrefix(c: Codec, es: seq<Entry>, k: nat)
    requires AllCode(c, es) && k <= |Written(c, es)|
    ensures Survivors(c, es, k) <= |es|
    ensures Read(c, Written(c, es)[..k]) == es[..Survivors(c, es, k)]
    decreases |es|
  {
    hide Read, Codes;
    if es != [] {
      var n := |c.enc(es[0])|;
      if k < n {
        CutLine(c, es[0], k);
        assert Written(c, es)[..k] == c.enc(es[0])[..k];
      } else if k <= n + 1 {
        CutAfter(c, es, k);
      } else {
        assert AllCode(c, es[1..]);
        CrashPrefix(c, es[1..], k - n - 1);
        CutLater(c, es, k);
      }
    } else {
      ReadWritten(c, es);
    }
  }

  lemma CutAfter(c: Codec, es: seq<Entry>, k: nat)
    requires es != [] && Codes(c, es[0]) && |c.enc(es[0])| <= k <= |c.enc(es[0])| + 1
    ensures Read(c, Written(c, es)[..k]) == es[..1]
  {
    var line := c.enc(es[0]);
    LinesCons(line, []);
    EntriesCons(c, es[0], []);
    assert line + [LF] + [] == line + [LF] && [line] + [] == [line];
    assert Written(c, es)[..k] == if k == |line| then line else line + [LF];
  }

  lemma CutLater(c: Codec, es: seq<Entry>, k: nat)
    requires es != [] && Codes(c, es[0]) && |c.enc(es[0])| + 1 < k <= |Written(c, es)|
    requires var m := k - |c.enc(es[0])| - 1; var n := Survivors(c, es[1..], m);
             n <= |es| - 1 && Read(c, Written(c, es[1..])[..m]) == es[1..][..n]
    ensures Read(c, Written(c, es)[..k]) == es[..Survivors(c, es, k)]
  {
    hide Lines, Entries, Codes;
    var line, m := c.enc(es[0]), k - |c.enc(es[0])| - 1;
    var part := Written(c, es[1..])[..m];
    ReadCons(c, es[0], part);
    assert Written(c, es)[..k] == line + [LF] + part;
    assert es[..1 + Survivors(c, es[1..], m)] == [es[0]] + es[1..][..Survivors(c, es[1..], m)];
  }

  lemma ReadCons(c: Codec, e: Entry, rest: Body)
    requires Codes(c, e)
    ensures Read(c, c.enc(e) + [LF] + rest) == [e] + Read(c, rest)
  {
    LinesCons(c.enc(e), rest);
    EntriesCons(c, e, Lines(rest));
  }

  lemma CutLine(c: Codec, e: Entry, k: nat)
    requires Codes(c, e) && k < |c.enc(e)|
    ensures Read(c, c.enc(e)[..k]) == []
  {
    var part := c.enc(e)[..k];
    if k > 0 {
      LinesCons(part, []);
      assert c.dec(part) == None;
    }
  }

  /** Without a crash, everything is read back. */
  lemma {:induction false} ReadWritten(c: Codec, es: seq<Entry>)
    requires AllCode(c, es)
    ensures Read(c, Written(c, es)) == es
    decreases |es|
  {
    if es != [] {
      assert Codes(c, es[0]) && AllCode(c, es[1..]);
      ReadWritten(c, es[1..]);
      LinesCons(c.enc(es[0]), Written(c, es[1..]));
      EntriesCons(c, es[0], Lines(Written(c, es[1..])));
    }
  }

  // ---- Lines that others wrote ----

  /** A line may end with a carriage return besides its break; it is no part of the line. */
  lemma CarriageReturn(a: Body, rest: Body)
    requires forall i | 0 <= i < |a| :: a[i] != LF
    ensures Lines(a + [CR, LF] + rest) == [a] + Lines(rest)
  {
    var b := a + [CR, LF] + rest;
    assert b == (a + [CR]) + ([LF] + rest);
    BreakAfter(a + [CR], [LF] + rest);
    FirstBreakBound(b);
    assert b[..|a| + 1] == a + [CR] && b[|a| + 2..] == rest;
    assert (a + [CR])[..|a|] == a;
  }

  /** Lines with nothing on them are passed over. */
  lemma BlankLine(c: Codec, rest: Body)
    ensures Read(c, [LF] + rest) == Read(c, rest) && Read(c, [CR, LF] + rest) == Read(c, rest)
  {
    LinesCons([], rest);
    assert [] + [LF] + rest == [LF] + rest && [] + [CR, LF] + rest == [CR, LF] + rest;
    CarriageReturn([], rest);
    assert ([[]] + Lines(rest))[1..] == Lines(rest);
  }

  // ---- Numbers ----

  /** The entries are numbered on from `base`, one by one. */
  predicate Numbered(es: seq<Entry>, base: nat) {
    forall i | 0 <= i < |es| :: es[i].number == base + i + 1
  }

  /** Sorting what was read by number, however ties are broken, changes nothing. */
  lemma {:induction false} SortChangesNothing(es: seq<Entry>, sorted: seq<Entry>, base: nat)
    requires Numbered(es, base) && multiset(sorted) == multiset(es)
    requires forall i, j | 0 <= i < j < |sorted| :: sorted[i].number <= sorted[j].number
    ensures sorted == es
    decreases |es|
  {
    if es == [] {
      assert |multiset(sorted)| == 0;
    } else {
      assert |multiset(sorted)| == |multiset(es)|;
      assert es[0] in multiset(sorted) && sorted[0] in multiset(es);
      assert sorted[0] == es[0];
      TailOf(sorted);
      TailOf(es);
      SortChangesNothing(es[1..], sorted[1..], base + 1);
    }
  }

  function LastNumber(es: seq<Entry>): nat {
    if es == [] then 0
    else
      var last := LastNumber(es[..|es| - 1]);
      if es[|es| - 1].number > last then es[|es| - 1].number else last
  }

  /** The last number is the highest there is, and 0 without entries. */
  lemma {:induction false} LastNumberIsHighest(es: seq<Entry>)
    ensures forall i | 0 <= i < |es| :: es[i].number <= LastNumber(es)
    ensures LastNumber(es) == 0 || exists i :: 0 <= i < |es| && es[i].number == LastNumber(es)
  {
    if es != [] {
      var before := es[..|es| - 1];
      LastNumberIsHighest(before);
      assert forall i | 0 <= i < |before| :: before[i] == es[i];
      if LastNumber(es) != 0 && LastNumber(es) == LastNumber(before) {
        var i :| 0 <= i < |before| && before[i].number == LastNumber(before);
        assert es[i].number == LastNumber(es);
      } else if LastNumber(es) != 0 {
        assert es[|es| - 1].number == LastNumber(es);
      }
    }
  }

  lemma {:induction false} LastNumberIs(es: seq<Entry>)
    requires Numbered(es, 0)
    ensures LastNumber(es) == |es|
  {
    if es != [] {
      LastNumberIs(es[..|es| - 1]);
    }
  }

  /** Reopening after a crash goes on numbering above every entry that survived, and what survived
      is numbered without gap or repeat. */
  lemma ReopenAfterCrash(c: Codec, es: seq<Entry>, k: nat)
    requires AllCode(c, es) && Numbered(es, 0) && k <= |Written(c, es)|
    ensures var left := Read(c, Written(c, es)[..k]);
            Numbered(left, 0) && LastNumber(left) == |left| && forall i | 0 <= i < |left| :: left[i].number < LastNumber(left) + 1
  {
    CrashPrefix(c, es, k);
    LastNumberIs(es[..Survivors(c, es, k)]);
  }

  // ---- Appending after a crash ----

  /** What JSON keeps of two objects in one line: nothing that begins with a piece of the first,
      or with all of it, and goes on with the second reads as an entry. */
  ghost predicate Apart(c: Codec, e: Entry, next: Entry) {
    forall k | 0 < k <= |c.enc(e)| :: c.dec(c.enc(e)[..k] + c.enc(next)) == None
  }

  ghost predicate AllApart(c: Codec, es: seq<Entry>, next: Entry) {
    forall i | 0 <= i < |es| :: Apart(c, es[i], next)
  }

  /** The file is empty or ends with a line break. */
  predicate AtBreak(file: Body) {
    file == [] || file[|file| - 1] == LF
  }

  /** How many of es have their line break in the first k bytes. */
  function Terminated(c: Codec, es: seq<Entry>, k: nat): nat {
    if es == [] || k <= |c.enc(es[0])| then 0 else 1 + Terminated(c, es[1..], k - |c.enc(es[0])| - 1)
  }

  lemma {:induction false} TerminatedSurvive(c: Codec, es: seq<Entry>, k: nat)
    ensures Terminated(c, es, k) <= Survivors(c, es, k) <= |es|
    decreases |es|
  {
    if es != [] && k > |c.enc(es[0])| {
      TerminatedSurvive(c, es[1..], k - |c.enc(es[0])| - 1);
    }
  }

  /** An entry glued to what the cut left of a line is lost with all that follows. */
  lemma Glued(c: Codec, e: Entry, k: nat, more: seq<Entry>)
    requires more != [] && Codes(c, e) && Codes(c, more[0]) && Apart(c, e, more[0]) && 0 < k <= |c.enc(e)|
    ensures Read(c, c.enc(e)[..k] + Written(c, more)) == []
    ensures !AtBreak(c.enc(e)[..k])
  {
    var glued := c.enc(e)[..k] + c.enc(more[0]);
    assert c.enc(e)[..k] + Written(c, more) == glued + [LF] + Written(c, more[1..]);
    LinesCons(glued, Written(c, more[1..]));
  }

  lemma AtBreakLater(line: Body, rest: Body)
    ensures AtBreak(line + [LF] + rest) <==> AtBreak(rest)
  {
  }

  /** What a ledger reads back that was cut at any byte and appended to: everything, or only the
      lines that had their break. */
  lemma {:induction false} ReadAppended(c: Codec, es: seq<Entry>, k: nat, more: seq<Entry>)
    requires AllCode(c, es) && AllCode(c, more) && more != [] && AllApart(c, es, more[0]) && k <= |Written(c, es)|
    ensures Terminated(c, es, k) <= |es|
    ensures var cut := Written(c, es)[..k];
            Read(c, cut + Written(c, more)) == if AtBreak(cut) then Read(c, cut) + more else es[..Terminated(c, es, k)]
    decreases |es|
  {
    hide Read, Codes, Apart, AtBreak;
    if k == 0 {
      EmptyReads(c);
      ReadWritten(c, more);
      assert Written(c, es)[..0] + Written(c, more) == Written(c, more);
    } else if k <= |c.enc(es[0])| {
      Glued(c, es[0], k, more);
      assert Written(c, es)[..k] == c.enc(es[0])[..k];
    } else {
      var m := k - |c.enc(es[0])| - 1;
      TerminatedSurvive(c, es[1..], m);
      assert es[..1 + Terminated(c, es[1..], m)] == [es[0]] + es[1..][..Terminated(c, es[1..], m)];
      ReadAppended(c, es[1..], m, more);
      AppendedLater(c, es, k, more);
    }
  }

  lemma AppendedLater(c: Codec, es: seq<Entry>, k: nat, more: seq<Entry>)
    requires es != [] && Codes(c, es[0]) && |c.enc(es[0])| < k <= |Written(c, es)|
    ensures var part := Written(c, es[1..])[..k - |c.enc(es[0])| - 1];
            var cut := Written(c, es)[..k];
            && Read(c, cut) == [es[0]] + Read(c, part) && (AtBreak(cut) <==> AtBreak(part))
            && Read(c, cut + Written(c, more)) == [es[0]] + Read(c, part + Written(c, more))
  {
    hide Read, Codes, AtBreak;
    var line, part := c.enc(es[0]), Written(c, es[1..])[..k - |c.enc(es[0])| - 1];
    ReadCons(c, es[0], part);
    ReadCons(c, es[0], part + Written(c, more));
    AtBreakLater(line, part);
    assert Written(c, es)[..k] == line + [LF] + part;
    assert line + [LF] + part + Written(c, more) == line + [LF] + (part + Written(c, more));
  }

  lemma EmptyReads(c: Codec)
    ensures Read(c, []) == [] && AtBreak([])
  {
  }

  /** What is appended to a ledger reopened after a crash is read back after what the crash left if
      and only if the crash left no line without its break. */
  lemma AppendAfterCrash(c: Codec, es: seq<Entry>, k: nat, more: seq<Entry>)
    requires AllCode(c, es) && AllCode(c, more) && more != [] && AllApart(c, es, more[0]) && k <= |Written(c, es)|
    ensures var cut := Written(c, es)[..k];
            Read(c, cut + Written(c, more)) == Read(c, cut) + more <==> AtBreak(cut)
  {
    hide Read, Written, Codes, Apart, AtBreak;
    ReadAppended(c, es, k, more);
    CrashPrefix(c, es, k);
    TerminatedSurvive(c, es, k);
  }

  /** An entry that lacked nothing but its break was read back until something was appended. */
  lemma AppendDestroys(c: Codec, e: Entry, more: seq<Entry>)
    requires Codes(c, e) && AllCode(c, more) && more != [] && Apart(c, e, more[0])
    ensures Read(c, c.enc(e)) == [e] && Read(c, c.enc(e) + Written(c, more)) == []
  {
    hide Read, Apart, AtBreak;
    var line := c.enc(e);
    assert line[..|line|] == line && [e][..1] == [e];
    CutAfter(c, [e], |line|);
    assert Written(c, [e])[..|line|] == line;
    Glued(c, e, |line|, more);
  }

  // ---- The log ----

  lemma {:induction false} WrittenSnoc(c: Codec, es: seq<Entry>, e: Entry)
    ensures Written(c, es + [e]) == Written(c, es) + c.enc(e) + [LF]
  {
    if es == [] {
      assert es + [e] == [e];
      assert Written(c, [e][1..]) == [];
    } else {
      assert (es + [e])[1..] == es[1..] + [e];
      WrittenSnoc(c, es[1..], e);
    }
  }

  method LastSeq(c: Codec, file: Body) returns (last: nat)
    ensures last == LastNumber(Read(c, file))
  {
    last := 0;
    var lines := Lines(file);
    ghost var all := Read(c, file);
    ghost var seen: seq<Entry> := [];
    for i := 0 to |lines|
      invariant all == seen + Entries(c, lines[i..])
      invariant last == LastNumber(seen)
    {
      assert lines[i..][1..] == lines[i + 1..];
      if lines[i] != [] {
        match c.dec(lines[i]) {
          case None =>
            assert all == seen;
            return;
          case Some(e) =>
            assert seen + ([e] + Entries(c, lines[i + 1..])) == (seen + [e]) + Entries(c, lines[i + 1..]);
            seen := seen + [e];
            if e.number > last {
              last := e.number;
            }
        }
      }
    }
    assert all == seen;
  }

  class Log {
    var file: Body
    var number: nat
    var closed: bool
    const codec: Codec

    /** Opens a ledger that already holds `file`. */
    constructor (codec: Codec, file: Body)
      ensures this.codec == codec && this.file == file && !closed && number == LastNumber(Read(codec, file))
    {
      this.codec, this.file, this.closed := codec, file, false;
      new;
      number := LastSeq(codec, file);
    }

    method Append(e: Entry) returns (ok: bool)
      modifies this`file, this`number
      ensures ok == !closed
      ensures ok ==> number == old(number) + 1 && file == old(file) + codec.enc(e.(number := number)) + [LF]
      ensures !ok ==> number == old(number) && file == old(file)
    {
      if closed {
        return false;
      }
      number := number + 1;
      file := file + codec.enc(e.(number := number)) + [LF];
      return true;
    }

    method Close()
      modifies this`closed
      ensures closed
    {
      closed := true;
    }
  }
}
