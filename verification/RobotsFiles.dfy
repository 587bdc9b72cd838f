/** The two readers of robots.txt: the one that decides what this crawler may fetch
    (internal/engine/robots.go) and the one that reports what the file said to everyone
    (internal/provenance/robots.go). */
module RobotsFiles {
  import opened Utf8
  import opened Search
  import opened Tokens
  import opened Folding
  import opened Wildcards

  const HASH: byte := 0x23
  const NEW_LINE: byte := 0x0A

  // ---- One line ----

  function TrimLeft(s: Bytes): Bytes {
    if s != [] && IsSpaceByte(s[0]) then TrimLeft(s[1..]) else s
  }

  function TrimRight(s: Bytes): Bytes {
    if s != [] && IsSpaceByte(s[|s| - 1]) then TrimRight(s[..|s| - 1]) else s
  }

  function Trim(s: Bytes): Bytes {
    TrimRight(TrimLeft(s))
  }

  datatype Line = Blank | Field(key: Bytes, value: Bytes)

  function Classified(line: Bytes, foldFirst: bool): Line {
    FindIs(line, COLON);
    var n := Find(line, COLON);
    if line == [] || n == |line| then Blank
    else
      var key := if foldFirst then Trim(Lower(line[..n])) else Lower(Trim(line[..n]));
      Field(key, Trim(line[n + 1..]))
  }

  function BeforeHash(line: Bytes): Bytes {
    FindIs(line, HASH);
    line[..Find(line, HASH)]
  }

  /** The enforcing reader trims, drops a comment, and trims again. */
  function EnforcedLine(raw: Bytes): Line {
    var line := Trim(raw);
    Classified(if HASH in line then Trim(BeforeHash(line)) else line, true)
  }

  /** The reporting reader drops a comment, then trims. */
  function ReportedLine(raw: Bytes): Line {
    Classified(Trim(BeforeHash(raw)), false)
  }

  lemma {:induction false} TrimLeftParts(s: Bytes)
    ensures |TrimLeft(s)| <= |s| && TrimLeft(s) == s[|s| - |TrimLeft(s)|..]
    ensures forall i | 0 <= i < |s| - |TrimLeft(s)| :: IsSpaceByte(s[i])
    ensures TrimLeft(s) != [] ==> !IsSpaceByte(TrimLeft(s)[0])
  {
    if s != [] && IsSpaceByte(s[0]) {
      var rest := s[1..];
      TrimLeftParts(rest);
      var k := |rest| - |TrimLeft(rest)|;
      assert rest[k..] == s[k + 1..];
      assert forall i | 0 < i <= k :: s[i] == rest[i - 1];
    }
  }

  lemma {:induction false} TrimRightParts(s: Bytes)
    ensures |TrimRight(s)| <= |s| && TrimRight(s) == s[..|TrimRight(s)|]
    ensures forall i | |TrimRight(s)| <= i < |s| :: IsSpaceByte(s[i])
    ensures TrimRight(s) != [] ==> !IsSpaceByte(TrimRight(s)[|TrimRight(s)| - 1])
  {
    if s != [] && IsSpaceByte(s[|s| - 1]) {
      TrimRightParts(s[..|s| - 1]);
    }
  }

  lemma {:induction false} TrimLeftLower(s: Bytes)
    ensures TrimLeft(Lower(s)) == Lower(TrimLeft(s))
  {
    if s != [] && IsSpaceByte(s[0]) {
      assert Lower(s)[1..] == Lower(s[1..]);
      TrimLeftLower(s[1..]);
    }
  }

  lemma {:induction false} TrimRightLower(s: Bytes)
    ensures TrimRight(Lower(s)) == Lower(TrimRight(s))
  {
    if s != [] && IsSpaceByte(s[|s| - 1]) {
      assert Lower(s)[..|s| - 1] == Lower(s[..|s| - 1]);
      TrimRightLower(s[..|s| - 1]);
    }
  }

  /** Folding before trimming is folding after. */
  lemma TrimLower(s: Bytes)
    ensures Trim(Lower(s)) == Lower(Trim(s))
  {
    TrimLeftLower(s);
    TrimRightLower(TrimLeft(s));
  }

  lemma {:induction false} TrimLeftSnoc(s: Bytes, c: byte)
    requires IsSpaceByte(c)
    ensures TrimLeft(s + [c]) == if TrimLeft(s) == [] then [] else TrimLeft(s) + [c]
  {
    if s == [] {
      assert s + [c] == [c] && [c][1..] == [];
    } else if IsSpaceByte(s[0]) {
      assert (s + [c])[1..] == s[1..] + [c];
      TrimLeftSnoc(s[1..], c);
    }
  }

  lemma TrimSnoc(s: Bytes, c: byte)
    requires IsSpaceByte(c)
    ensures Trim(s + [c]) == Trim(s)
  {
    TrimLeftSnoc(s, c);
    if TrimLeft(s) != [] {
      assert (TrimLeft(s) + [c])[..|TrimLeft(s)|] == TrimLeft(s);
    }
  }

  lemma BeforeHashCons(c: byte, s: Bytes)
    requires c != HASH
    ensures BeforeHash([c] + s) == [c] + BeforeHash(s)
  {
    assert ([c] + s)[1..] == s;
    FindIs(s, HASH);
  }

  lemma BeforeHashSnoc(s: Bytes, c: byte)
    requires c != HASH
    ensures BeforeHash(s + [c]) == if HASH in s then BeforeHash(s) else s + [c]
  {
    FindIs(s, HASH);
    FindIs(s + [c], HASH);
    var n := Find(s, HASH);
    if HASH in s {
      assert s[..n] + s[n..] == s;
      assert n < |s|;
      assert s + [c] == s[..n] + (s[n..] + [c]);
      FindAfter(s[..n], s[n..] + [c], HASH);
    } else {
      FindAfter(s + [c], [], HASH);
      assert s + [c] + [] == s + [c];
    }
  }

  lemma {:induction false} CommentAfterLeft(s: Bytes)
    ensures Trim(BeforeHash(TrimLeft(s))) == Trim(BeforeHash(s))
  {
    if s != [] && IsSpaceByte(s[0]) {
      CommentAfterLeft(s[1..]);
      BeforeHashCons(s[0], s[1..]);
      assert s == [s[0]] + s[1..];
      assert ([s[0]] + BeforeHash(s[1..]))[1..] == BeforeHash(s[1..]);
    }
  }

  lemma {:induction false} CommentAfterRight(s: Bytes)
    ensures Trim(BeforeHash(TrimRight(s))) == Trim(BeforeHash(s))
  {
    if s != [] && IsSpaceByte(s[|s| - 1]) {
      var t, c := s[..|s| - 1], s[|s| - 1];
      CommentAfterRight(t);
      assert s == t + [c];
      BeforeHashSnoc(t, c);
      if HASH !in t {
        FindIs(t, HASH);
        assert t[..|t|] == t;
        TrimSnoc(t, c);
      }
    }
  }

  lemma TrimTwice(s: Bytes)
    ensures Trim(Trim(s)) == Trim(s)
  {
    TrimLeftParts(s);
    TrimRightParts(TrimLeft(s));
    var t := Trim(s);
    if t != [] {
      assert t[0] == TrimLeft(s)[0];
    }
  }

  /** The two readers read every line alike. */
  lemma LinesAgree(raw: Bytes)
    ensures EnforcedLine(raw) == ReportedLine(raw)
  {
    hide Trim, BeforeHash;
    var line := Trim(raw);
    CommentAfterTrim(raw);
    if HASH !in line {
      NoComment(line);
      TrimTwice(raw);
    }
    var text := Trim(BeforeHash(raw));
    TrimLower(text[..KeyEnd(text)]);
  }

  function KeyEnd(line: Bytes): nat
    ensures KeyEnd(line) <= |line|
  {
    FindIs(line, COLON);
    Find(line, COLON)
  }

  lemma NoComment(line: Bytes)
    requires HASH !in line
    ensures BeforeHash(line) == line
  {
    FindIs(line, HASH);
    assert line[..|line|] == line;
  }

  lemma CommentAfterTrim(raw: Bytes)
    ensures Trim(BeforeHash(Trim(raw))) == Trim(BeforeHash(raw))
  {
    CommentAfterLeft(raw);
    CommentAfterRight(TrimLeft(raw));
  }

  // ---- What each reader gathers ----

  const USER_AGENT: Bytes := Ascii("user-agent")
  const ALLOW: Bytes := Ascii("allow")
  const DISALLOW: Bytes := Ascii("disallow")
  const SITEMAP: Bytes := Ascii("sitemap")
  const EVERYONE: Bytes := [STAR]
  const OUR_NAME: Bytes := Ascii("scrapegoat")

  /** The agents whose rules this crawler follows. */
  predicate Ours(agent: Bytes) {
    agent == EVERYONE || Index(agent, OUR_NAME) >= 0
  }

  datatype Rules = Rules(ours: bool, allowed: seq<Bytes>, disallowed: seq<Bytes>, sitemaps: seq<Bytes>)

  function Enforce(r: Rules, line: Line): Rules {
    if line.Blank? then r
    else if line.key == USER_AGENT then r.(ours := Ours(Lower(line.value)))
    else if line.key == DISALLOW then (if r.ours && line.value != [] then r.(disallowed := r.disallowed + [line.value]) else r)
    else if line.key == ALLOW then (if r.ours && line.value != [] then r.(allowed := r.allowed + [line.value]) else r)
    else if line.key == SITEMAP then r.(sitemaps := r.sitemaps + [line.value])
    else r
  }

  function Enforced(lines: seq<Bytes>): Rules {
    if lines == [] then Rules(false, [], [], []) else Enforce(Enforced(lines[..|lines| - 1]), EnforcedLine(lines[|lines| - 1]))
  }

  datatype Group = Group(agents: seq<Bytes>, allow: seq<Bytes>, disallow: seq<Bytes>)

  datatype Report = Report(groups: seq<Group>, lastWasUA: bool, sitemaps: seq<Bytes>)

  function Include(r: Report, line: Line): Report {
    if line.Blank? then r
    else if line.key == USER_AGENT then
      var agent := Lower(line.value);
      if r.groups == [] || !r.lastWasUA then r.(groups := r.groups + [Group([agent], [], [])], lastWasUA := true)
      else
        var n := |r.groups| - 1;
        r.(groups := r.groups[n := r.groups[n].(agents := r.groups[n].agents + [agent])])
    else if line.key == SITEMAP then (if line.value != [] then r.(sitemaps := r.sitemaps + [line.value]) else r)
    else if r.groups == [] then r.(lastWasUA := false)
    else
      var n := |r.groups| - 1;
      var g := r.groups[n];
      var g1 :=
        if line.key == ALLOW && line.value != [] then g.(allow := g.allow + [line.value])
        else if line.key == DISALLOW then g.(disallow := g.disallow + [line.value])
        else g;
      r.(groups := r.groups[n := g1], lastWasUA := false)
  }

  function Reported(lines: seq<Bytes>): Report {
    if lines == [] then Report([], false, []) else Include(Reported(lines[..|lines| - 1]), ReportedLine(lines[|lines| - 1]))
  }

  // ---- They agree ----

  function NonEmpty(values: seq<Bytes>): seq<Bytes> {
    if values == [] then []
    else NonEmpty(values[..|values| - 1]) + if values[|values| - 1] != [] then [values[|values| - 1]] else []
  }

  predicate LastIsOurs(g: Group) {
    g.agents != [] && Ours(g.agents[|g.agents| - 1])
  }

  datatype Kind = Allowing | Disallowing

  function RulesOf(g: Group, kind: Kind): seq<Bytes> {
    NonEmpty(if kind.Allowing? then g.allow else g.disallow)
  }

  /** The rules of the groups whose last agent is one of ours, in order. */
  function Gathered(groups: seq<Group>, kind: Kind): seq<Bytes> {
    if groups == [] then []
    else Gathered(groups[..|groups| - 1], kind) + if LastIsOurs(groups[|groups| - 1]) then RulesOf(groups[|groups| - 1], kind) else []
  }

  ghost predicate Agree(e: Rules, r: Report) {
    && e.allowed == Gathered(r.groups, Allowing)
    && e.disallowed == Gathered(r.groups, Disallowing)
    && NonEmpty(e.sitemaps) == r.sitemaps
    && (forall i | 0 <= i < |r.groups| :: r.groups[i].agents != [])
    && (r.groups == [] ==> !e.ours)
    && (r.groups != [] ==> e.ours == LastIsOurs(r.groups[|r.groups| - 1]))
    && (r.lastWasUA ==> r.groups != [] && r.groups[|r.groups| - 1].allow == [] && r.groups[|r.groups| - 1].disallow == [])
  }

  lemma GatheredSnoc(groups: seq<Group>, g: Group, kind: Kind)
    ensures Gathered(groups + [g], kind) == Gathered(groups, kind) + if LastIsOurs(g) then RulesOf(g, kind) else []
  {
    assert (groups + [g])[..|groups|] == groups;
  }

  lemma NonEmptySnoc(values: seq<Bytes>, v: Bytes)
    ensures NonEmpty(values + [v]) == if v != [] then NonEmpty(values) + [v] else NonEmpty(values)
  {
    assert (values + [v])[..|values|] == values;
  }

  /** The last group is exchanged for one that gathers these rules more. */
  lemma GatheredLast(groups: seq<Group>, g: Group, kind: Kind)
    requires groups != []
    ensures var n := |groups| - 1;
            && groups[n := g] == groups[..n] + [g]
            && Gathered(groups, kind) == Gathered(groups[..n], kind) + (if LastIsOurs(groups[n]) then RulesOf(groups[n], kind) else [])
            && Gathered(groups[n := g], kind) == Gathered(groups[..n], kind) + if LastIsOurs(g) then RulesOf(g, kind) else []
  {
    var n := |groups| - 1;
    assert groups[n := g] == groups[..n] + [g];
    GatheredSnoc(groups[..n], g, kind);
  }

  lemma AgreeAgent(e: Rules, r: Report, line: Line)
    requires Agree(e, r) && line.Field? && line.key == USER_AGENT
    ensures Agree(Enforce(e, line), Include(r, line))
  {
    hide NonEmpty, Gathered, Ours;
    var agent := Lower(line.value);
    EmptyRules();
    if r.groups == [] || !r.lastWasUA {
      GatheredSnoc(r.groups, Group([agent], [], []), Allowing);
      GatheredSnoc(r.groups, Group([agent], [], []), Disallowing);
    } else {
      var n := |r.groups| - 1;
      var g := r.groups[n].(agents := r.groups[n].agents + [agent]);
      GatheredLast(r.groups, g, Allowing);
      GatheredLast(r.groups, g, Disallowing);
    }
  }

  lemma EmptyRules()
    ensures NonEmpty([]) == []
  {
  }

  /** A group with one rule more, as the reporting reader takes it down. */
  function WithRule(g: Group, line: Line): Group
    requires line.Field?
  {
    if line.key == ALLOW && line.value != [] then g.(allow := g.allow + [line.value])
    else if line.key == DISALLOW then g.(disallow := g.disallow + [line.value])
    else g
  }

  lemma RuleIncluded(r: Report, line: Line)
    requires line.Field? && (line.key == ALLOW || line.key == DISALLOW)
    ensures var n := |r.groups| - 1;
            Include(r, line) == if r.groups == [] then r.(lastWasUA := false)
                                else r.(groups := r.groups[n := WithRule(r.groups[n], line)], lastWasUA := false)
  {
    KeysDiffer();
  }

  lemma RuleEnforced(e: Rules, line: Line)
    requires line.Field? && (line.key == ALLOW || line.key == DISALLOW)
    ensures var more := if e.ours && line.value != [] then [line.value] else [];
            var e1 := Enforce(e, line);
            && e1.ours == e.ours && e1.sitemaps == e.sitemaps
            && e1.allowed == e.allowed + (if line.key == ALLOW then more else [])
            && e1.disallowed == e.disallowed + (if line.key == DISALLOW then more else [])
  {
    KeysDiffer();
  }

  /** What a rule adds to a group. */
  lemma RuleAdds(g: Group, line: Line)
    requires line.Field? && (line.key == ALLOW || line.key == DISALLOW)
    ensures var g1, more := WithRule(g, line), if line.value != [] then [line.value] else [];
            && g1.agents == g.agents
            && RulesOf(g1, Allowing) == RulesOf(g, Allowing) + (if line.key == ALLOW then more else [])
            && RulesOf(g1, Disallowing) == RulesOf(g, Disallowing) + (if line.key == DISALLOW then more else [])
  {
    hide NonEmpty;
    KeysDiffer();
    NonEmptySnoc(g.allow, line.value);
    NonEmptySnoc(g.disallow, line.value);
  }

  lemma AgreeRule(e: Rules, r: Report, line: Line)
    requires Agree(e, r) && line.Field? && (line.key == ALLOW || line.key == DISALLOW)
    ensures Agree(Enforce(e, line), Include(r, line))
  {
    hide NonEmpty, Gathered, Ours, Enforce, Include, RulesOf, WithRule;
    RuleIncluded(r, line);
    RuleEnforced(e, line);
    if r.groups != [] {
      var n := |r.groups| - 1;
      var g1 := WithRule(r.groups[n], line);
      RuleAdds(r.groups[n], line);
      GatheredLast(r.groups, g1, Allowing);
      GatheredLast(r.groups, g1, Disallowing);
    }
  }

  lemma KeysDiffer()
    ensures |USER_AGENT| == 10 && |ALLOW| == 5 && |DISALLOW| == 8 && |SITEMAP| == 7
  {
  }

  lemma AgreeOther(e: Rules, r: Report, line: Line)
    requires Agree(e, r) && (line.Field? ==> line.key != USER_AGENT && line.key != ALLOW && line.key != DISALLOW)
    ensures Agree(Enforce(e, line), Include(r, line))
  {
    hide NonEmpty, Gathered, Ours;
    if line.Field? && line.key == SITEMAP {
      NonEmptySnoc(e.sitemaps, line.value);
    } else if line.Field? && r.groups != [] {
      assert r.groups[|r.groups| - 1 := r.groups[|r.groups| - 1]] == r.groups;
    }
  }

  /** On every file, the rules enforced are those of exactly the reported groups whose last agent
      is `*` or contains `scrapegoat`, in order and without the empty ones; and the sitemaps are
      the same but for empty ones. */
  lemma {:induction false} ReadersAgree(lines: seq<Bytes>)
    ensures Agree(Enforced(lines), Reported(lines))
    decreases |lines|
  {
    hide Agree, Enforce, Include, EnforcedLine, ReportedLine;
    if lines == [] {
      AgreeAtStart();
    } else {
      var before, raw := lines[..|lines| - 1], lines[|lines| - 1];
      ReadersAgree(before);
      LinesAgree(raw);
      var line, e, r := EnforcedLine(raw), Enforced(before), Reported(before);
      if line.Field? && line.key == USER_AGENT {
        AgreeAgent(e, r, line);
      } else if line.Field? && (line.key == ALLOW || line.key == DISALLOW) {
        AgreeRule(e, r, line);
      } else {
        AgreeOther(e, r, line);
      }
    }
  }

  lemma AgreeAtStart()
    ensures Agree(Rules(false, [], [], []), Report([], false, []))
  {
  }

  // ---- The agents of a group ----

  predicate SomeIsOurs(g: Group) {
    exists a :: a in g.agents && Ours(a)
  }

  /** The rules addressed to us: of the groups any of whose agents is one of ours. */
  function Addressed(groups: seq<Group>, kind: Kind): seq<Bytes> {
    if groups == [] then []
    else Addressed(groups[..|groups| - 1], kind) + if SomeIsOurs(groups[|groups| - 1]) then RulesOf(groups[|groups| - 1], kind) else []
  }

  /** Whatever is addressed to us in the group is enforced, or there is nothing. */
  ghost predicate NothingLost(g: Group, kind: Kind) {
    SomeIsOurs(g) ==> LastIsOurs(g) || RulesOf(g, kind) == []
  }

  lemma LastIsSome(g: Group)
    ensures LastIsOurs(g) ==> SomeIsOurs(g)
  {
  }

  lemma Cancel(x: seq<Bytes>, y: seq<Bytes>, z: seq<Bytes>)
    ensures x + z == y + z <==> x == y
  {
    if x + z == y + z {
      assert |x| == |y|;
      assert (x + z)[..|x|] == x && (y + z)[..|y|] == y;
    }
  }

  /** The rules gathered are the rules addressed to us exactly when no group loses any. */
  lemma {:induction false} GatheredIsAddressed(groups: seq<Group>, kind: Kind)
    ensures |Gathered(groups, kind)| <= |Addressed(groups, kind)|
    ensures Gathered(groups, kind) == Addressed(groups, kind) <==> forall i | 0 <= i < |groups| :: NothingLost(groups[i], kind)
  {
    hide RulesOf, Ours;
    if groups != [] {
      var before, g := groups[..|groups| - 1], groups[|groups| - 1];
      GatheredIsAddressed(before, kind);
      LastIsSome(g);
      Cancel(Gathered(before, kind), Addressed(before, kind), RulesOf(g, kind));
      assert forall i | 0 <= i < |before| :: groups[i] == before[i];
      assert (forall i | 0 <= i < |groups| :: NothingLost(groups[i], kind)) <==>
             (forall i | 0 <= i < |before| :: NothingLost(before[i], kind)) && NothingLost(g, kind);
      assert Gathered(before, kind) + [] == Gathered(before, kind) && Addressed(before, kind) + [] == Addressed(before, kind);
    }
  }

  /** On every file, the rules enforced are the rules addressed to us exactly when every group that
      names us names us last, or has none of those rules. */
  lemma EnforcedExactly(lines: seq<Bytes>)
    ensures var groups := Reported(lines).groups;
            && (Enforced(lines).allowed == Addressed(groups, Allowing) <==> forall i | 0 <= i < |groups| :: NothingLost(groups[i], Allowing))
            && (Enforced(lines).disallowed == Addressed(groups, Disallowing) <==> forall i | 0 <= i < |groups| :: NothingLost(groups[i], Disallowing))
  {
    hide Enforced, Reported, Gathered, Addressed, NothingLost;
    ReadersAgree(lines);
    GatheredIsAddressed(Reported(lines).groups, Allowing);
    GatheredIsAddressed(Reported(lines).groups, Disallowing);
  }

  /** So on every file whose groups name one agent each. */
  lemma OneAgentEach(lines: seq<Bytes>)
    requires forall i | 0 <= i < |Reported(lines).groups| :: |Reported(lines).groups[i].agents| == 1
    ensures Enforced(lines).allowed == Addressed(Reported(lines).groups, Allowing)
    ensures Enforced(lines).disallowed == Addressed(Reported(lines).groups, Disallowing)
  {
    hide Enforced, Reported, Addressed, Ours, RulesOf;
    var groups := Reported(lines).groups;
    forall i, kind | 0 <= i < |groups|
      ensures NothingLost(groups[i], kind)
    {
      assert groups[i].agents == [groups[i].agents[0]];
    }
    EnforcedExactly(lines);
  }

  // ---- A file on which they are not ----

  /** A line as it is commonly written. */
  function WrittenLine(key: Bytes, value: Bytes): Bytes {
    key + ([COLON, 0x20] + value)
  }

  predicate Visible(s: Bytes) {
    s != [] && forall i | 0 <= i < |s| :: !IsSpaceByte(s[i]) && s[i] != HASH
  }

  lemma TrimVisibleEnds(s: Bytes)
    requires s != [] && !IsSpaceByte(s[0]) && !IsSpaceByte(s[|s| - 1])
    ensures Trim(s) == s
  {
  }

  lemma WrittenLineReads(key: Bytes, value: Bytes)
    requires Visible(key) && Visible(value) && COLON !in key
    ensures EnforcedLine(WrittenLine(key, value)) == Field(Lower(key), value)
  {
    hide Trim, BeforeHash, Find;
    var line := WrittenLine(key, value);
    LinesAgree(line);
    assert HASH !in line;
    NoComment(line);
    assert line[0] == key[0] && line[|line| - 1] == value[|value| - 1];
    TrimVisibleEnds(line);
    TrimVisibleEnds(key);
    TrimVisibleEnds(value);
    FindAfter(key, [COLON, 0x20] + value, COLON);
    assert line[..|key|] == key && line[|key| + 1..] == [0x20] + value;
    TrimAfterSpace(value);
  }

  lemma TrimAfterSpace(s: Bytes)
    ensures Trim([0x20] + s) == Trim(s)
  {
    assert ([0x20] + s)[1..] == s;
  }

  /** A group that names us first and somebody else last. */
  function NamedFirst(other: Bytes, path: Bytes): seq<Bytes> {
    [WrittenLine(Ascii("User-agent"), OUR_NAME), WrittenLine(Ascii("User-agent"), other), WrittenLine(Ascii("Disallow"), path)]
  }

  /** It is reported as ours, and nothing of it is enforced. */
  lemma NamedFirstIsIgnored(other: Bytes, path: Bytes)
    requires Visible(other) && Visible(path) && !Ours(Lower(other))
    ensures Enforced(NamedFirst(other, path)).disallowed == []
    ensures Addressed(Reported(NamedFirst(other, path)).groups, Disallowing) == [path]
  {
    hide Ours, EnforcedLine, ReportedLine, Enforced, Reported, Addressed, Gathered;
    var lines := NamedFirst(other, path);
    NamedFirstReads(other, path);
    FoldThree(lines);
    var g := Group([Lower(OUR_NAME), Lower(other)], [], [path]);
    NamedFirstGroups(other, path);
    OurNameIsOurs();
    OneGroup(g, path);
    ReadersAgree(lines);
    GatheredOne(g);
  }

  lemma NamedFirstReads(other: Bytes, path: Bytes)
    requires Visible(other) && Visible(path)
    ensures var lines := NamedFirst(other, path);
            && EnforcedLine(lines[0]) == ReportedLine(lines[0]) == Field(USER_AGENT, OUR_NAME)
            && EnforcedLine(lines[1]) == ReportedLine(lines[1]) == Field(USER_AGENT, other)
            && EnforcedLine(lines[2]) == ReportedLine(lines[2]) == Field(DISALLOW, path)
  {
    hide EnforcedLine, ReportedLine;
    var ua, dis := Ascii("User-agent"), Ascii("Disallow");
    assert Lower(ua) == USER_AGENT && Lower(dis) == DISALLOW;
    assert Visible(ua) && Visible(dis) && Visible(OUR_NAME) && COLON !in ua && COLON !in dis;
    WrittenLineReads(ua, OUR_NAME);
    WrittenLineReads(ua, other);
    WrittenLineReads(dis, path);
    LinesAgree(WrittenLine(ua, OUR_NAME));
    LinesAgree(WrittenLine(ua, other));
    LinesAgree(WrittenLine(dis, path));
  }

  lemma FoldThree(lines: seq<Bytes>)
    requires |lines| == 3
    ensures Reported(lines) == Include(Include(Include(Report([], false, []), ReportedLine(lines[0])), ReportedLine(lines[1])), ReportedLine(lines[2]))
  {
    hide ReportedLine, Include;
    assert lines[..2][..1] == lines[..1] && lines[..1][..0] == [];
    assert Reported(lines[..1]) == Include(Report([], false, []), ReportedLine(lines[0]));
    assert Reported(lines[..2]) == Include(Reported(lines[..1]), ReportedLine(lines[1]));
  }

  lemma NamedFirstGroups(other: Bytes, path: Bytes)
    ensures Include(Include(Include(Report([], false, []), Field(USER_AGENT, OUR_NAME)), Field(USER_AGENT, other)), Field(DISALLOW, path)).groups
            == [Group([Lower(OUR_NAME), Lower(other)], [], [path])]
  {
    KeysDiffer();
    assert [] + [path] == [path];
    assert [Lower(OUR_NAME)] + [Lower(other)] == [Lower(OUR_NAME), Lower(other)];
    var r1 := Include(Report([], false, []), Field(USER_AGENT, OUR_NAME));
    assert r1 == Report([Group([Lower(OUR_NAME)], [], [])], true, []);
    var r2 := Include(r1, Field(USER_AGENT, other));
    assert r2 == Report([Group([Lower(OUR_NAME), Lower(other)], [], [])], true, []);
  }

  lemma OneGroup(g: Group, path: Bytes)
    requires SomeIsOurs(g) && g.disallow == [path] && path != []
    ensures Addressed([g], Disallowing) == [path]
  {
    EmptyRules();
    NonEmptySnoc([], path);
    assert [] + [path] == [path];
    assert [g][..0] == [];
    assert Addressed([g], Disallowing) == Addressed([], Disallowing) + RulesOf(g, Disallowing);
  }

  lemma GatheredOne(g: Group)
    ensures !LastIsOurs(g) ==> Gathered([g], Disallowing) == []
  {
    assert [g][..0] == [];
  }

  lemma OurNameIsOurs()
    ensures Ours(Lower(OUR_NAME))
  {
    assert Lower(OUR_NAME) == OUR_NAME;
    assert OUR_NAME <= OUR_NAME;
  }

  // ---- The loops ----

  lemma EnforcedSnoc(lines: seq<Bytes>, i: nat)
    requires i < |lines|
    ensures Enforced(lines[..i + 1]) == Enforce(Enforced(lines[..i]), EnforcedLine(lines[i]))
  {
    assert lines[..i + 1][..i] == lines[..i];
  }

  lemma EnforcedNothing()
    ensures Enforced([]) == Rules(false, [], [], [])
  {
  }

  method ParseRobotsTxt(content: Bytes) returns (data: Rules)
    ensures data == Enforced(Split(content, NEW_LINE))
  {
    hide EnforcedLine, Ours, Split, Lower, Enforced;
    EnforcedNothing();
    var lines := Split(content, NEW_LINE);
    data := Rules(false, [], [], []);
    for i := 0 to |lines|
      invariant data == Enforced(lines[..i])
    {
      EnforcedSnoc(lines, i);
      var line := EnforcedLine(lines[i]);
      if line.Blank? {
        continue;
      }
      if line.key == USER_AGENT {
        data := data.(ours := Ours(Lower(line.value)));
      } else if line.key == DISALLOW {
        if data.ours && line.value != [] {
          data := data.(disallowed := data.disallowed + [line.value]);
        }
      } else if line.key == ALLOW {
        if data.ours && line.value != [] {
          data := data.(allowed := data.allowed + [line.value]);
        }
      } else if line.key == SITEMAP {
        data := data.(sitemaps := data.sitemaps + [line.value]);
      }
    }
    assert lines[..|lines|] == lines;
  }

  lemma NewGroup(groups: seq<Group>, agent: Bytes)
    ensures (groups + [Group([], [], [])])[|groups| := Group([] + [agent], [], [])] == groups + [Group([agent], [], [])]
  {
    assert [] + [agent] == [agent];
  }

  lemma ReportedSnoc(lines: seq<Bytes>, i: nat)
    requires i < |lines|
    ensures Reported(lines[..i + 1]) == Include(Reported(lines[..i]), ReportedLine(lines[i]))
  {
    assert lines[..i + 1][..i] == lines[..i];
  }

  /** One more line of the file. */
  method Read(report0: Report, line: Line) returns (report: Report)
    ensures report == Include(report0, line)
  {
    report := report0;
    if line.Blank? {
      return;
    }
    var groups := report.groups;
    if line.key == USER_AGENT {
      if groups == [] || !report.lastWasUA {
        groups := groups + [Group([], [], [])];
      }
      var n := |groups| - 1;
      groups := groups[n := groups[n].(agents := groups[n].agents + [Lower(line.value)])];
      NewGroup(report.groups, Lower(line.value));
      return report.(groups := groups, lastWasUA := true);
    }
    if line.key == SITEMAP {
      if line.value != [] {
        report := report.(sitemaps := report.sitemaps + [line.value]);
      }
      return;
    }
    report := report.(lastWasUA := false);
    if groups == [] {
      return;
    }
    var n := |groups| - 1;
    if line.key == ALLOW {
      if line.value != [] {
        groups := groups[n := groups[n].(allow := groups[n].allow + [line.value])];
      }
    } else if line.key == DISALLOW {
      groups := groups[n := groups[n].(disallow := groups[n].disallow + [line.value])];
    }
    assert report.groups[n := report.groups[n]] == report.groups;
    report := report.(groups := groups);
  }

  method ParseRobots(content: Bytes) returns (report: Report)
    ensures report == Reported(Split(content, NEW_LINE))
  {
    hide Include, ReportedLine, Split;
    var lines := Split(content, NEW_LINE);
    report := Report([], false, []);
    for i := 0 to |lines|
      invariant report == Reported(lines[..i])
    {
      ReportedSnoc(lines, i);
      var line := ReportedLine(lines[i]);
      report := Read(report, line);
    }
    assert lines[..|lines|] == lines;
  }
}
