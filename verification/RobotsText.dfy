/** Robots files as their authors write them: how a line is read whatever stands around it, which
    lines of a file are enforced, and what groups are reported of a file written group by group. The
    agents and keys are spelled out here (internal/engine/robots.go, internal/provenance/robots.go). */
module RobotsText {
  import opened Search
  import opened Folding
  import opened Tokens
  import opened Wildcards
  import opened RobotsFiles

  // ---- A line ----

  predicate White(s: Bytes) {
    forall i | 0 <= i < |s| :: s[i] == 0x20 || 0x09 <= s[i] <= 0x0D
  }

  /** Nothing to trim at either end. */
  predicate Solid(s: Bytes) {
    s == [] || (!White(s[..1]) && !White(s[|s| - 1..]))
  }

  lemma {:induction false} TrimLeftOff(pad: Bytes, s: Bytes)
    requires White(pad) && (s == [] || !IsSpaceByte(s[0]))
    ensures TrimLeft(pad + s) == s
  {
    if pad == [] {
      assert pad + s == s;
    } else {
      assert (pad + s)[1..] == pad[1..] + s;
      TrimLeftOff(pad[1..], s);
    }
  }

  lemma {:induction false} TrimRightOff(s: Bytes, pad: Bytes)
    requires White(pad) && (s == [] || !IsSpaceByte(s[|s| - 1]))
    ensures TrimRight(s + pad) == s
  {
    if pad == [] {
      assert s + pad == s;
    } else {
      assert (s + pad)[..|s + pad| - 1] == s + pad[..|pad| - 1];
      TrimRightOff(s, pad[..|pad| - 1]);
    }
  }

  /** Trimming takes off the white space and nothing else. */
  lemma TrimOff(pad: Bytes, s: Bytes, end: Bytes)
    requires White(pad) && Solid(s) && White(end)
    ensures Trim(pad + (s + end)) == s
  {
    SolidEnds(s);
    if s == [] {
      assert pad + (s + end) == (pad + end) + [];
      TrimLeftOff(pad + end, []);
    } else {
      TrimLeftOff(pad, s + end);
      TrimRightOff(s, end);
    }
  }

  lemma SolidEnds(s: Bytes)
    requires Solid(s)
    ensures s != [] ==> !IsSpaceByte(s[0]) && !IsSpaceByte(s[|s| - 1])
  {
    if s != [] {
      assert s[..1][0] == s[0] && s[|s| - 1..][0] == s[|s| - 1];
    }
  }

  /** What may stand in a key or a value: not at its ends white space, nowhere what ends it. */
  predicate IsKey(key: Bytes) {
    key != [] && Solid(key) && 0x3A !in key && 0x23 !in key
  }

  predicate IsValue(value: Bytes) {
    Solid(value) && 0x23 !in value
  }

  predicate IsComment(s: Bytes) {
    s == [] || s[0] == 0x23
  }

  /** A field with white space in all places and a comment behind it. */
  function FieldLine(pads: seq<Bytes>, key: Bytes, value: Bytes, comment: Bytes): Bytes
    requires |pads| == 4
  {
    pads[0] + (key + (pads[1] + ([0x3A] + (pads[2] + (value + (pads[3] + comment))))))
  }

  lemma BeforeComment(s: Bytes, comment: Bytes)
    requires 0x23 !in s && IsComment(comment)
    ensures BeforeHash(s + comment) == s
  {
    FindAfter(s, comment, HASH);
    assert (s + comment)[..|s|] == s;
  }

  /** The field without what is trimmed off. */
  function Core(pads: seq<Bytes>, key: Bytes, value: Bytes): Bytes
    requires |pads| == 4
  {
    (key + pads[1]) + ([0x3A] + if value == [] then [] else pads[2] + value)
  }

  function Tail(pads: seq<Bytes>, value: Bytes): Bytes
    requires |pads| == 4
  {
    if value == [] then pads[2] + pads[3] else pads[3]
  }

  ghost predicate IsField(pads: seq<Bytes>, key: Bytes, value: Bytes) {
    |pads| == 4 && (forall i | 0 <= i < 4 :: White(pads[i])) && IsKey(key) && IsValue(value)
  }

  lemma FieldIsText(pads: seq<Bytes>, key: Bytes, value: Bytes, comment: Bytes)
    requires |pads| == 4
    ensures FieldLine(pads, key, value, comment) == (pads[0] + (Core(pads, key, value) + Tail(pads, value))) + comment
  {
  }

  lemma FieldTrimmed(pads: seq<Bytes>, key: Bytes, value: Bytes, comment: Bytes)
    requires IsField(pads, key, value) && IsComment(comment)
    ensures Trim(BeforeHash(FieldLine(pads, key, value, comment))) == Core(pads, key, value)
  {
    hide Trim, BeforeHash, White, Solid, Core, Tail, FieldLine;
    FieldIsText(pads, key, value, comment);
    PadsAreWhite(pads);
    FieldIsSolid(pads, key, value);
    BeforeComment(pads[0] + (Core(pads, key, value) + Tail(pads, value)), comment);
    TrimOff(pads[0], Core(pads, key, value), Tail(pads, value));
  }

  lemma CoreReads(pads: seq<Bytes>, key: Bytes, value: Bytes)
    requires IsField(pads, key, value)
    ensures Classified(Core(pads, key, value), false) == Field(Lower(key), value)
  {
    hide Trim, White, Solid, Find, Lower;
    var left, rest := key + pads[1], if value == [] then [] else pads[2] + value;
    PadsAreWhite(pads);
    NoColonIn(key, pads[1]);
    CutAtColon(left, rest);
    KeyTrimmed(key, pads[1]);
    ValueTrimmed(pads[2], value);
  }

  lemma CutAtColon(left: Bytes, rest: Bytes)
    requires 0x3A !in left
    ensures Classified(left + ([0x3A] + rest), false) == Field(Lower(Trim(left)), Trim(rest))
  {
    hide Trim, Lower, Find;
    var line := left + ([COLON] + rest);
    FindAfter(left, [COLON] + rest, COLON);
    assert line[..|left|] == left && line[|left| + 1..] == rest;
  }

  lemma KeyTrimmed(key: Bytes, pad: Bytes)
    requires Solid(key) && White(pad)
    ensures Trim(key + pad) == key
  {
    hide Trim, White, Solid;
    NothingWhite();
    TrimOff([], key, pad);
    assert [] + (key + pad) == key + pad;
  }

  lemma ValueTrimmed(pad: Bytes, value: Bytes)
    requires Solid(value) && White(pad)
    ensures Trim(if value == [] then [] else pad + value) == value
  {
    hide Trim, White, Solid;
    NothingWhite();
    if value == [] {
      TrimOff([], [], []);
      var none: Bytes := [];
      assert none + (none + none) == none;
    } else {
      TrimOff(pad, value, []);
      assert value + [] == value;
    }
  }

  lemma NoColonIn(key: Bytes, pad: Bytes)
    requires 0x3A !in key && White(pad)
    ensures 0x3A !in key + pad
  {
  }

  /** Whatever stands around it, a field is read as its key, in small letters, and its value. */
  lemma FieldReads(pads: seq<Bytes>, key: Bytes, value: Bytes, comment: Bytes)
    requires IsField(pads, key, value) && IsComment(comment)
    ensures EnforcedLine(FieldLine(pads, key, value, comment)) == Field(Lower(key), value)
    ensures ReportedLine(FieldLine(pads, key, value, comment)) == Field(Lower(key), value)
  {
    hide Trim, BeforeHash, Core, FieldLine, Classified;
    FieldTrimmed(pads, key, value, comment);
    CoreReads(pads, key, value);
    LinesAgree(FieldLine(pads, key, value, comment));
    ReadsTrimmed(FieldLine(pads, key, value, comment));
  }

  lemma ReadsTrimmed(raw: Bytes)
    ensures ReportedLine(raw) == Classified(Trim(BeforeHash(raw)), false)
  {
  }

  lemma NothingWhite()
    ensures White([]) && Solid([])
  {
  }

  lemma PadsAreWhite(pads: seq<Bytes>)
    requires |pads| == 4 && forall i | 0 <= i < 4 :: White(pads[i])
    ensures White(pads[0]) && White(pads[1]) && White(pads[2]) && White(pads[3]) && White(pads[2] + pads[3])
    ensures forall i | 0 <= i < 4 :: 0x23 !in pads[i] && 0x3A !in pads[i]
  {
    assert White(pads[0]) && White(pads[1]) && White(pads[2]) && White(pads[3]);
  }

  lemma FieldIsSolid(pads: seq<Bytes>, key: Bytes, value: Bytes)
    requires IsField(pads, key, value)
    ensures Solid(Core(pads, key, value)) && White(Tail(pads, value))
    ensures 0x23 !in pads[0] + (Core(pads, key, value) + Tail(pads, value))
  {
    PadsAreWhite(pads);
    var core := Core(pads, key, value);
    SolidEnds(key);
    SolidEnds(value);
    assert core[0] == key[0];
    assert core[|core| - 1] == if value == [] then COLON else value[|value| - 1];
  }

  /** A line without a colon before its comment says nothing. */
  lemma NoFieldReads(s: Bytes, comment: Bytes)
    requires 0x3A !in s && 0x23 !in s && IsComment(comment)
    ensures EnforcedLine(s + comment) == Blank && ReportedLine(s + comment) == Blank
  {
    BeforeComment(s, comment);
    LinesAgree(s + comment);
    TrimmedFrom(s);
    FindIs(Trim(s), COLON);
  }

  lemma TrimmedFrom(s: Bytes)
    ensures forall c | c in Trim(s) :: c in s
  {
    TrimLeftParts(s);
    TrimRightParts(TrimLeft(s));
  }

  // ---- Which lines are enforced ----

  /** The ten letters, in any case, somewhere in the name. */
  ghost predicate NamesUs(agent: Bytes) {
    exists k :: HasNameAt(agent, k)
  }

  predicate HasNameAt(agent: Bytes, k: int) {
    0 <= k <= |agent| - 10 && forall i | 0 <= i < 10 :: IsLetter(agent[k + i], "scrapegoat"[i])
  }

  /** The star alone, or a name with ours in it. */
  ghost predicate ForUs(agent: Bytes) {
    agent == [0x2A] || NamesUs(agent)
  }

  lemma OurLetters()
    ensures |OUR_NAME| == 10 && forall i | 0 <= i < 10 :: OUR_NAME[i] == "scrapegoat"[i] as int && 'a' <= "scrapegoat"[i] <= 'z'
    ensures EVERYONE == [0x2A]
  {
  }

  lemma NameMatches(agent: Bytes, k: int)
    ensures MatchAt(Lower(agent), OUR_NAME, k) <==> HasNameAt(agent, k)
  {
    hide OUR_NAME;
    OurLetters();
    if 0 <= k <= |agent| - 10 {
      var part := Lower(agent)[k..k + 10];
      assert forall i | 0 <= i < 10 :: part[i] == LowerByte(agent[k + i]);
      if part == OUR_NAME {
        forall i | 0 <= i < 10
          ensures IsLetter(agent[k + i], "scrapegoat"[i])
        {
          assert part[i] == OUR_NAME[i];
        }
      }
      if HasNameAt(agent, k) {
        forall i | 0 <= i < 10
          ensures part[i] == OUR_NAME[i]
        {
          assert IsLetter(agent[k + i], "scrapegoat"[i]);
        }
        assert part == OUR_NAME;
      }
    }
  }

  lemma OursIsForUs(agent: Bytes)
    ensures Ours(Lower(agent)) <==> ForUs(agent)
  {
    hide Index, MatchAt, HasNameAt, OUR_NAME, EVERYONE;
    OurLetters();
    var low := Lower(agent);
    IndexMatches(low, OUR_NAME);
    if k :| HasNameAt(agent, k) {
      NameMatches(agent, k);
      IndexLeast(low, OUR_NAME, k);
    }
    if Index(low, OUR_NAME) >= 0 {
      NameMatches(agent, Index(low, OUR_NAME));
    }
    StarIsStar(agent);
  }

  lemma StarIsStar(agent: Bytes)
    ensures Lower(agent) == [0x2A] <==> agent == [0x2A]
  {
    if Lower(agent) == [0x2A] {
      assert Lower(agent)[0] == LowerByte(agent[0]);
    }
  }

  predicate IsAgentLine(lines: seq<Bytes>, u: int) {
    0 <= u < |lines| && EnforcedLine(lines[u]).Field? && EnforcedLine(lines[u]).key == Ascii("user-agent")
  }

  /** `u` is the nearest user-agent line before line `i`. */
  ghost predicate Nearest(lines: seq<Bytes>, u: int, i: int) {
    u < i && IsAgentLine(lines, u) && forall n | u < n < i :: !IsAgentLine(lines, n)
  }

  /** The nearest user-agent line before line `i` is for us. */
  ghost predicate AreOurs(lines: seq<Bytes>, i: int) {
    exists u :: Nearest(lines, u, i) && ForUs(EnforcedLine(lines[u]).value)
  }

  /** Line `i` is a rule of this key with a path, and ours. */
  ghost predicate IsRule(lines: seq<Bytes>, i: int, key: Bytes) {
    && 0 <= i < |lines| && AreOurs(lines, i)
    && EnforcedLine(lines[i]).Field? && EnforcedLine(lines[i]).key == key && EnforcedLine(lines[i]).value != []
  }

  /** The paths of those lines, in order. */
  ghost function PathsOf(lines: seq<Bytes>, n: nat, key: Bytes): seq<Bytes>
    requires n <= |lines|
  {
    if n == 0 then [] else PathsOf(lines, n - 1, key) + if IsRule(lines, n - 1, key) then [EnforcedLine(lines[n - 1]).value] else []
  }

  lemma NearestNext(lines: seq<Bytes>, u: int, i: nat, i1: nat)
    requires i < |lines| && i1 == i + 1
    ensures Nearest(lines, u, i1) <==> if IsAgentLine(lines, i) then u == i else Nearest(lines, u, i)
  {
    hide IsAgentLine;
  }

  lemma AreOursNext(lines: seq<Bytes>, i: nat, i1: nat)
    requires i < |lines| && i1 == i + 1
    ensures AreOurs(lines, i1) <==> if IsAgentLine(lines, i) then ForUs(EnforcedLine(lines[i]).value) else AreOurs(lines, i)
  {
    hide ForUs, EnforcedLine;
    forall u
      ensures Nearest(lines, u, i1) <==> if IsAgentLine(lines, i) then u == i else Nearest(lines, u, i)
    {
      NearestNext(lines, u, i, i1);
    }
    if IsAgentLine(lines, i) {
      assert Nearest(lines, i, i1);
    }
  }

  /** What the lines of this key say, whoever they are for. */
  function SaidOf(lines: seq<Bytes>, n: nat, key: Bytes): seq<Bytes>
    requires n <= |lines|
  {
    if n == 0 then []
    else SaidOf(lines, n - 1, key) + if EnforcedLine(lines[n - 1]).Field? && EnforcedLine(lines[n - 1]).key == key then [EnforcedLine(lines[n - 1]).value] else []
  }

  /** On every file: the rules enforced are the paths, in order, of exactly the lines whose nearest
      user-agent line before them is a star alone or holds our name; and the sitemaps are those of
      every sitemap line. */
  lemma EnforcedLines(lines: seq<Bytes>)
    ensures Enforced(lines).disallowed == PathsOf(lines, |lines|, Ascii("disallow"))
    ensures Enforced(lines).allowed == PathsOf(lines, |lines|, Ascii("allow"))
    ensures Enforced(lines).sitemaps == SaidOf(lines, |lines|, Ascii("sitemap"))
  {
    EnforcedUpto(lines, |lines|);
    assert lines[..|lines|] == lines;
  }

  lemma {:induction false} EnforcedUpto(lines: seq<Bytes>, n: nat)
    requires n <= |lines|
    ensures var e := Enforced(lines[..n]);
            && (e.ours <==> AreOurs(lines, n))
            && e.disallowed == PathsOf(lines, n, Ascii("disallow"))
            && e.allowed == PathsOf(lines, n, Ascii("allow"))
            && e.sitemaps == SaidOf(lines, n, Ascii("sitemap"))
  {
    hide EnforcedLine, Enforced, AreOurs, Ours, ForUs;
    if n == 0 {
      EnforcedNothing();
      NobodyYet(lines);
    } else {
      EnforcedUpto(lines, n - 1);
      EnforcedSnoc(lines, n - 1);
      AreOursNext(lines, n - 1, n);
      OneLine(Enforced(lines[..n - 1]), EnforcedLine(lines[n - 1]));
    }
  }

  lemma NobodyYet(lines: seq<Bytes>)
    ensures !AreOurs(lines, 0)
  {
  }

  lemma OneLine(e: Rules, line: Line)
    ensures var e1 := Enforce(e, line);
            && e1.ours == (if line.Field? && line.key == Ascii("user-agent") then ForUs(line.value) else e.ours)
            && e1.disallowed == e.disallowed + (if line.Field? && line.key == Ascii("disallow") && e.ours && line.value != [] then [line.value] else [])
            && e1.allowed == e.allowed + (if line.Field? && line.key == Ascii("allow") && e.ours && line.value != [] then [line.value] else [])
            && e1.sitemaps == e.sitemaps + (if line.Field? && line.key == Ascii("sitemap") then [line.value] else [])
  {
    hide Ours, ForUs;
    KeysDiffer();
    if line.Field? {
      OursIsForUs(line.value);
    }
  }

  // ---- May a path be fetched? ----

  /** What IsAllowed says: an allow rule overrides every disallow rule, and the empty path is the
      root. */
  ghost predicate Allowed(rules: Rules, path: Bytes) {
    var p := if path == [] then [0x2F] else path;
    || (exists i :: 0 <= i < |rules.allowed| && Accepts(rules.allowed[i], p))
    || forall i | 0 <= i < |rules.disallowed| :: !Accepts(rules.disallowed[i], p)
  }

  method IsAllowed(rules: Rules, path: Bytes) returns (ok: bool)
    ensures ok <==> Allowed(rules, path)
  {
    hide Accepts;
    var p := if path == [] then [SLASH] else path;
    for i := 0 to |rules.allowed|
      invariant forall k | 0 <= k < i :: !Accepts(rules.allowed[k], p)
    {
      if Accepts(rules.allowed[i], p) {
        return true;
      }
    }
    for i := 0 to |rules.disallowed|
      invariant forall k | 0 <= k < i :: !Accepts(rules.disallowed[k], p)
    {
      if Accepts(rules.disallowed[i], p) {
        return false;
      }
    }
    return true;
  }

  lemma {:induction false} PathsAreRules(lines: seq<Bytes>, n: nat, key: Bytes, v: Bytes)
    requires n <= |lines|
    ensures v in PathsOf(lines, n, key) <==> exists i :: i < n && IsRule(lines, i, key) && EnforcedLine(lines[i]).value == v
  {
    hide EnforcedLine, AreOurs;
    if n > 0 {
      PathsAreRules(lines, n - 1, key, v);
      if IsRule(lines, n - 1, key) && EnforcedLine(lines[n - 1]).value == v {
        assert n - 1 < n && IsRule(lines, n - 1, key);
      }
    }
  }

  /** Line `i` is one of our rules of this key, and its pattern accepts the path. */
  ghost predicate Matches(lines: seq<Bytes>, i: int, key: Bytes, p: Bytes) {
    IsRule(lines, i, key) && Accepts(EnforcedLine(lines[i]).value, p)
  }

  lemma SomeMatches(lines: seq<Bytes>, key: Bytes, p: Bytes)
    ensures var vs := PathsOf(lines, |lines|, key);
            (exists i :: 0 <= i < |vs| && Accepts(vs[i], p)) <==> exists i :: Matches(lines, i, key, p)
  {
    hide EnforcedLine, AreOurs, Accepts, PathsOf;
    var vs := PathsOf(lines, |lines|, key);
    if i :| 0 <= i < |vs| && Accepts(vs[i], p) {
      PathsAreRules(lines, |lines|, key, vs[i]);
      var k :| k < |lines| && IsRule(lines, k, key) && EnforcedLine(lines[k]).value == vs[i];
      assert Matches(lines, k, key, p);
    }
    if k :| Matches(lines, k, key, p) {
      var v := EnforcedLine(lines[k]).value;
      PathsAreRules(lines, |lines|, key, v);
      assert v in vs;
      var i :| 0 <= i < |vs| && vs[i] == v;
      assert Accepts(vs[i], p);
    }
  }

  /** On every file: a path may not be fetched if and only if some disallow line of ours accepts it and
      no allow line of ours does. */
  lemma RefusedExactly(lines: seq<Bytes>, path: Bytes)
    ensures var p := if path == [] then [0x2F] else path;
            !Allowed(Enforced(lines), path)
            <==> (exists i :: Matches(lines, i, Ascii("disallow"), p)) && forall i :: !Matches(lines, i, Ascii("allow"), p)
  {
    hide Enforced, PathsOf, Matches, Accepts;
    EnforcedLines(lines);
    var p := if path == [] then [0x2F] else path;
    SomeMatches(lines, Ascii("disallow"), p);
    SomeMatches(lines, Ascii("allow"), p);
  }

  // ---- Files written group by group ----

  /** Some agents, and the rules for them. */
  datatype Section = Section(agents: seq<Bytes>, rules: seq<Rule>)

  datatype Rule = Rule(kind: Kind, path: Bytes)

  function AgentLines(agents: seq<Bytes>): seq<Bytes> {
    if agents == [] then [] else AgentLines(agents[..|agents| - 1]) + [WrittenLine(Ascii("User-agent"), agents[|agents| - 1])]
  }

  function RuleLine(r: Rule): Bytes {
    WrittenLine(if r.kind.Allowing? then Ascii("Allow") else Ascii("Disallow"), r.path)
  }

  function RuleLines(rules: seq<Rule>): seq<Bytes> {
    if rules == [] then [] else RuleLines(rules[..|rules| - 1]) + [RuleLine(rules[|rules| - 1])]
  }

  function FileOf(ss: seq<Section>): seq<Bytes> {
    if ss == [] then []
    else
      var s := ss[|ss| - 1];
      FileOf(ss[..|ss| - 1]) + AgentLines(s.agents) + RuleLines(s.rules)
  }

  function AllLower(agents: seq<Bytes>): seq<Bytes> {
    if agents == [] then [] else AllLower(agents[..|agents| - 1]) + [Lower(agents[|agents| - 1])]
  }

  function Paths(rules: seq<Rule>, kind: Kind): seq<Bytes> {
    if rules == [] then []
    else Paths(rules[..|rules| - 1], kind) + if rules[|rules| - 1].kind == kind then [rules[|rules| - 1].path] else []
  }

  function GroupOf(s: Section): Group {
    Group(AllLower(s.agents), Paths(s.rules, Allowing), Paths(s.rules, Disallowing))
  }

  function Groups(ss: seq<Section>): seq<Group> {
    if ss == [] then [] else Groups(ss[..|ss| - 1]) + [GroupOf(ss[|ss| - 1])]
  }

  /** Every section has an agent and a rule, all of them visible. */
  ghost predicate WellFormed(ss: seq<Section>) {
    forall i | 0 <= i < |ss| ::
      && ss[i].agents != [] && (forall k | 0 <= k < |ss[i].agents| :: Visible(ss[i].agents[k]))
      && ss[i].rules != [] && (forall k | 0 <= k < |ss[i].rules| :: Visible(ss[i].rules[k].path))
  }

  lemma ReportedMore(lines: seq<Bytes>, line: Bytes)
    ensures Reported(lines + [line]) == Include(Reported(lines), ReportedLine(line))
  {
    assert (lines + [line])[..|lines|] == lines;
  }

  lemma AgentLineReads(agent: Bytes)
    requires Visible(agent)
    ensures ReportedLine(WrittenLine(Ascii("User-agent"), agent)) == Field(USER_AGENT, agent)
  {
    hide EnforcedLine, ReportedLine;
    var key := Ascii("User-agent");
    assert Lower(key) == USER_AGENT && Visible(key) && COLON !in key;
    WrittenLineReads(key, agent);
    LinesAgree(WrittenLine(key, agent));
  }

  lemma RuleLineReads(r: Rule)
    requires Visible(r.path)
    ensures ReportedLine(RuleLine(r)) == Field(if r.kind.Allowing? then ALLOW else DISALLOW, r.path)
  {
    hide EnforcedLine, ReportedLine;
    var key := if r.kind.Allowing? then Ascii("Allow") else Ascii("Disallow");
    assert Lower(key) == (if r.kind.Allowing? then ALLOW else DISALLOW) && Visible(key) && COLON !in key;
    WrittenLineReads(key, r.path);
    LinesAgree(RuleLine(r));
  }

  lemma NextAgent(r: Report, agent: Bytes)
    ensures r.groups == [] || !r.lastWasUA ==>
              Include(r, Field(USER_AGENT, agent)) == Report(r.groups + [Group([Lower(agent)], [], [])], true, r.sitemaps)
    ensures r.groups != [] && r.lastWasUA ==>
              var n := |r.groups| - 1;
              Include(r, Field(USER_AGENT, agent))
              == Report(r.groups[..n] + [r.groups[n].(agents := r.groups[n].agents + [Lower(agent)])], true, r.sitemaps)
  {
    KeysDiffer();
    if r.groups != [] {
      var n := |r.groups| - 1;
      var g := r.groups[n].(agents := r.groups[n].agents + [Lower(agent)]);
      assert r.groups[n := g] == r.groups[..n] + [g];
    }
  }

  lemma {:induction false} AgentsReported(lines: seq<Bytes>, agents: seq<Bytes>)
    requires agents != [] && forall k | 0 <= k < |agents| :: Visible(agents[k])
    requires Reported(lines).groups == [] || !Reported(lines).lastWasUA
    ensures var r := Reported(lines);
            Reported(lines + AgentLines(agents)) == Report(r.groups + [Group(AllLower(agents), [], [])], true, r.sitemaps)
    decreases |agents|
  {
    hide Visible, Reported, ReportedLine, Include, WrittenLine;
    var before, agent := agents[..|agents| - 1], agents[|agents| - 1];
    var line := WrittenLine(Ascii("User-agent"), agent);
    AgentLineReads(agent);
    assert lines + AgentLines(agents) == (lines + AgentLines(before)) + [line];
    ReportedMore(lines + AgentLines(before), line);
    NextAgent(Reported(lines + AgentLines(before)), agent);
    if before == [] {
      assert lines + AgentLines(before) == lines;
      assert AllLower(agents) == [Lower(agent)];
    } else {
      AgentsReported(lines, before);
      var groups := Reported(lines).groups;
      LastReplaced(groups, Group(AllLower(before), [], []));
    }
  }

  lemma LastReplaced(groups: seq<Group>, g: Group)
    ensures (groups + [g])[..|groups|] == groups && (groups + [g])[|groups|] == g
  {
  }

  lemma {:induction false} RulesReported(lines: seq<Bytes>, groups: seq<Group>, g: Group, rules: seq<Rule>)
    requires forall k | 0 <= k < |rules| :: Visible(rules[k].path)
    requires Reported(lines).groups == groups + [g]
    ensures var r, r1 := Reported(lines), Reported(lines + RuleLines(rules));
            && r1.groups == groups + [Group(g.agents, g.allow + Paths(rules, Allowing), g.disallow + Paths(rules, Disallowing))]
            && r1.lastWasUA == (r.lastWasUA && rules == [])
    decreases |rules|
  {
    hide Visible, Reported, ReportedLine, RuleLine;
    if rules == [] {
      assert lines + RuleLines(rules) == lines;
      assert g.allow + [] == g.allow && g.disallow + [] == g.disallow;
    } else {
      var before, rule := rules[..|rules| - 1], rules[|rules| - 1];
      RulesReported(lines, groups, g, before);
      RuleLineReads(rule);
      assert lines + RuleLines(rules) == (lines + RuleLines(before)) + [RuleLine(rule)];
      ReportedMore(lines + RuleLines(before), RuleLine(rule));
      VisibleIsSomething(rule.path);
      var g0 := Group(g.agents, g.allow + Paths(before, Allowing), g.disallow + Paths(before, Disallowing));
      LastReplaced(groups, g0);
      NextRule(Reported(lines + RuleLines(before)), groups, rule);
      PathsMore(g, rules);
    }
  }

  lemma VisibleIsSomething(s: Bytes)
    requires Visible(s)
    ensures s != []
  {
  }

  lemma PathsMore(g: Group, rules: seq<Rule>)
    requires rules != []
    ensures var before, rule := rules[..|rules| - 1], rules[|rules| - 1];
            var g0 := Group(g.agents, g.allow + Paths(before, Allowing), g.disallow + Paths(before, Disallowing));
            Group(g.agents, g.allow + Paths(rules, Allowing), g.disallow + Paths(rules, Disallowing))
            == if rule.kind.Allowing? then g0.(allow := g0.allow + [rule.path]) else g0.(disallow := g0.disallow + [rule.path])
  {
    assert rules[|rules| - 1].kind == Allowing || rules[|rules| - 1].kind == Disallowing;
  }

  lemma NextRule(r: Report, groups: seq<Group>, rule: Rule)
    requires r.groups != [] && r.groups[..|r.groups| - 1] == groups && rule.path != []
    ensures var g := r.groups[|r.groups| - 1];
            var r1 := Include(r, Field(if rule.kind.Allowing? then ALLOW else DISALLOW, rule.path));
            && !r1.lastWasUA
            && r1.groups == groups + [if rule.kind.Allowing? then g.(allow := g.allow + [rule.path]) else g.(disallow := g.disallow + [rule.path])]
  {
    KeysDiffer();
  }

  /** A file written from sections reads back as those sections, agents in small letters: no two run
      together and none is split. */
  lemma {:induction false} FileReads(ss: seq<Section>)
    requires WellFormed(ss)
    ensures Reported(FileOf(ss)).groups == Groups(ss)
    ensures Reported(FileOf(ss)).groups == [] || !Reported(FileOf(ss)).lastWasUA
    decreases |ss|
  {
    hide Visible, ReportedLine, Include;
    if ss != [] {
      var before, s := ss[..|ss| - 1], ss[|ss| - 1];
      FileReads(before);
      hide Reported;
      var lines := FileOf(before);
      AgentsReported(lines, s.agents);
      RulesReported(lines + AgentLines(s.agents), Reported(lines).groups, Group(AllLower(s.agents), [], []), s.rules);
      assert [] + Paths(s.rules, Allowing) == Paths(s.rules, Allowing) && [] + Paths(s.rules, Disallowing) == Paths(s.rules, Disallowing);
    }
  }

  /** The paths of the sections whose last agent is for us. */
  ghost function PathsForUs(ss: seq<Section>, kind: Kind): seq<Bytes>
    requires WellFormed(ss)
  {
    if ss == [] then []
    else
      var s := ss[|ss| - 1];
      PathsForUs(ss[..|ss| - 1], kind) + if ForUs(s.agents[|s.agents| - 1]) then Paths(s.rules, kind) else []
  }

  lemma {:induction false} PathsAreVisible(rules: seq<Rule>, kind: Kind)
    requires forall k | 0 <= k < |rules| :: Visible(rules[k].path)
    ensures NonEmpty(Paths(rules, kind)) == Paths(rules, kind)
  {
    if rules == [] {
      EmptyRules();
    } else {
      var before, rule := rules[..|rules| - 1], rules[|rules| - 1];
      PathsAreVisible(before, kind);
      NonEmptySnoc(Paths(before, kind), rule.path);
      assert Paths(before, kind) + [] == Paths(before, kind);
    }
  }

  lemma {:induction false} AllLowerLast(agents: seq<Bytes>)
    requires agents != []
    ensures AllLower(agents) != [] && AllLower(agents)[|AllLower(agents)| - 1] == Lower(agents[|agents| - 1])
  {
  }

  lemma {:induction false} GatheredForUs(ss: seq<Section>, kind: Kind)
    requires WellFormed(ss)
    ensures Gathered(Groups(ss), kind) == PathsForUs(ss, kind)
    decreases |ss|
  {
    hide Visible, NonEmpty, ForUs, Ours;
    if ss != [] {
      var before, s := ss[..|ss| - 1], ss[|ss| - 1];
      GatheredForUs(before, kind);
      AllLowerLast(s.agents);
      OursIsForUs(s.agents[|s.agents| - 1]);
      PathsAreVisible(s.rules, kind);
      GatheredSnoc(Groups(before), GroupOf(s), kind);
    }
  }

  /** So of a file written from sections, the rules enforced are those of the sections whose last
      agent is a star or holds our name, and none of any other. */
  lemma FileEnforced(ss: seq<Section>)
    requires WellFormed(ss)
    ensures Enforced(FileOf(ss)).disallowed == PathsForUs(ss, Disallowing)
    ensures Enforced(FileOf(ss)).allowed == PathsForUs(ss, Allowing)
  {
    hide Enforced, Reported, Gathered, PathsForUs, WellFormed;
    FileReads(ss);
    ReadersAgree(FileOf(ss));
    GatheredForUs(ss, Disallowing);
    GatheredForUs(ss, Allowing);
  }
}
