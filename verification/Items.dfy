/** From assertions to the item a consumer sees: which derivation wins a field, and how several
    claims on one field become a list (internal/parser/derive.go, composite.go). */
module Items {
  import opened Wrappers

  datatype Value = Text(text: string) | Other(id: nat)

  datatype Assertion = Assertion(field: string, value: Value, index: nat, how: string)

  // ---- What one rule claims ----

  /** valueAssertions: one claim for each matched value, numbered in order. */
  function Claims(field: string, how: string, values: seq<string>): (r: seq<Assertion>)
    ensures |r| == |values|
    ensures forall i | 0 <= i < |values| :: r[i] == Assertion(field, Text(values[i]), i, how)
  {
    seq(|values|, i requires 0 <= i < |values| => Assertion(field, Text(values[i]), i, how))
  }

  // ---- The projection ----

  datatype FieldValue = Single(v: Value) | Texts(texts: seq<string>) | Values(values: seq<Value>)

  function Group(all: seq<Assertion>, field: string): seq<Assertion> {
    if all == [] then []
    else Group(all[..|all| - 1], field) + if all[|all| - 1].field == field then [all[|all| - 1]] else []
  }

  /** A stable sort by index: each claim goes after those that do not exceed it. */
  function Insert(sorted: seq<Assertion>, a: Assertion): seq<Assertion> {
    if sorted != [] && sorted[|sorted| - 1].index > a.index then Insert(sorted[..|sorted| - 1], a) + [sorted[|sorted| - 1]]
    else sorted + [a]
  }

  function Sorted(group: seq<Assertion>): seq<Assertion> {
    if group == [] then [] else Insert(Sorted(group[..|group| - 1]), group[|group| - 1])
  }

  function TextsOf(group: seq<Assertion>): Option<seq<string>> {
    if group == [] then Some([])
    else match TextsOf(group[..|group| - 1])
      case Some(ts) => if group[|group| - 1].value.Text? then Some(ts + [group[|group| - 1].value.text]) else None
      case None => None
  }

  function ValuesOf(group: seq<Assertion>): seq<Value> {
    if group == [] then [] else ValuesOf(group[..|group| - 1]) + [group[|group| - 1].value]
  }

  function Collapsed(group: seq<Assertion>): FieldValue
    requires group != []
  {
    if |group| == 1 then Single(group[0].value)
    else
      var s := Sorted(group);
      match TextsOf(s)
      case Some(ts) => Texts(ts)
      case None => Values(ValuesOf(s))
  }

  lemma GroupSnoc(all: seq<Assertion>, a: Assertion, field: string)
    ensures Group(all + [a], field) == Group(all, field) + if a.field == field then [a] else []
  {
    assert (all + [a])[..|all|] == all;
  }

  lemma TextsSnoc(group: seq<Assertion>, a: Assertion)
    ensures TextsOf(group + [a]) == if TextsOf(group).Some? && a.value.Text? then Some(TextsOf(group).value + [a.value.text]) else None
  {
    assert (group + [a])[..|group|] == group;
  }

  lemma ValuesSnoc(group: seq<Assertion>, a: Assertion)
    ensures ValuesOf(group + [a]) == ValuesOf(group) + [a.value]
  {
    assert (group + [a])[..|group|] == group;
  }

  function Fields(all: seq<Assertion>): set<string> {
    set a | a in all :: a.field
  }

  lemma {:induction false} GroupOf(all: seq<Assertion>, field: string)
    ensures Group(all, field) != [] <==> field in Fields(all)
    ensures forall a | a in Group(all, field) :: a in all && a.field == field
  {
    if all != [] {
      var before, last := all[..|all| - 1], all[|all| - 1];
      GroupOf(before, field);
      assert all == before + [last];
      assert Fields(all) == Fields(before) + {last.field};
    }
  }

  /** ItemFromAssertions, as a map from the claimed fields. */
  function Item(all: seq<Assertion>): (item: map<string, FieldValue>)
    ensures item.Keys == Fields(all)
  {
    map f | f in Fields(all) :: (GroupOf(all, f); Collapsed(Group(all, f)))
  }

  // ---- The projection undoes the numbering ----

  predicate Ascending(s: seq<Assertion>) {
    forall i, j | 0 <= i < j < |s| :: s[i].index <= s[j].index
  }

  lemma {:induction false} InsertSorts(sorted: seq<Assertion>, a: Assertion)
    requires Ascending(sorted)
    ensures Ascending(Insert(sorted, a)) && multiset(Insert(sorted, a)) == multiset(sorted) + multiset{a}
  {
    if sorted != [] {
      var before, last := sorted[..|sorted| - 1], sorted[|sorted| - 1];
      assert sorted == before + [last];
      if last.index > a.index {
        InsertSorts(before, a);
        hide Insert;
        NoneExceeds(before, a, Insert(before, a), last);
        AscendingSnoc(Insert(before, a), last);
      } else {
        AscendingSnoc(sorted, a);
      }
    }
  }

  lemma AscendingSnoc(s: seq<Assertion>, a: Assertion)
    requires Ascending(s) && forall i | 0 <= i < |s| :: s[i].index <= a.index
    ensures Ascending(s + [a])
  {
  }

  lemma NoneExceeds(before: seq<Assertion>, a: Assertion, s: seq<Assertion>, last: Assertion)
    requires multiset(s) == multiset(before) + multiset{a} && a.index <= last.index
    requires forall i | 0 <= i < |before| :: before[i].index <= last.index
    ensures forall i | 0 <= i < |s| :: s[i].index <= last.index
  {
    forall i | 0 <= i < |s|
      ensures s[i].index <= last.index
    {
      assert s[i] in multiset(s);
    }
  }

  lemma {:induction false} SortedSorts(group: seq<Assertion>)
    ensures Ascending(Sorted(group)) && multiset(Sorted(group)) == multiset(group)
  {
    if group != [] {
      SortedSorts(group[..|group| - 1]);
      InsertSorts(Sorted(group[..|group| - 1]), group[|group| - 1]);
      assert group == group[..|group| - 1] + [group[|group| - 1]];
    }
  }

  /** A list numbered from `base` on is the only ascending arrangement of itself. */
  lemma {:induction false} OneOrder(s: seq<Assertion>, numbered: seq<Assertion>, base: nat)
    requires Ascending(s) && multiset(s) == multiset(numbered)
    requires forall i | 0 <= i < |numbered| :: numbered[i].index == base + i
    ensures s == numbered
    decreases |numbered|
  {
    assert |multiset(s)| == |multiset(numbered)|;
    if numbered != [] {
      SameHead(s, numbered, base);
      TailOf(s);
      TailOf(numbered);
      OneOrder(s[1..], numbered[1..], base + 1);
    }
  }

  lemma SameHead(s: seq<Assertion>, numbered: seq<Assertion>, base: nat)
    requires Ascending(s) && multiset(s) == multiset(numbered) && s != [] && numbered != []
    requires forall i | 0 <= i < |numbered| :: numbered[i].index == base + i
    ensures s[0] == numbered[0]
  {
    assert numbered[0] in multiset(s) && s[0] in multiset(numbered);
  }

  lemma {:induction false} TextsOfClaims(field: string, how: string, values: seq<string>)
    ensures TextsOf(Claims(field, how, values)) == Some(values)
  {
    if values != [] {
      var before := values[..|values| - 1];
      TextsOfClaims(field, how, before);
      assert Claims(field, how, values)[..|values| - 1] == Claims(field, how, before);
      assert values == before + [values[|values| - 1]];
    }
  }

  lemma {:induction false} GroupCount(all: seq<Assertion>, field: string, a: Assertion)
    ensures multiset(Group(all, field))[a] == if a.field == field then multiset(all)[a] else 0
  {
    if all != [] {
      GroupCount(all[..|all| - 1], field, a);
      assert all == all[..|all| - 1] + [all[|all| - 1]];
    }
  }

  lemma {:induction false} TextsOfAll(s: seq<Assertion>)
    ensures TextsOf(s).Some? <==> forall i | 0 <= i < |s| :: s[i].value.Text?
    ensures TextsOf(s).Some? ==> |TextsOf(s).value| == |s| && forall i | 0 <= i < |s| && s[i].value.Text? :: TextsOf(s).value[i] == s[i].value.text
  {
    if s != [] {
      var before := s[..|s| - 1];
      TextsOfAll(before);
      assert forall i | 0 <= i < |before| :: before[i] == s[i];
    }
  }

  lemma {:induction false} ValuesOfAll(s: seq<Assertion>)
    ensures |ValuesOf(s)| == |s| && forall i | 0 <= i < |s| :: ValuesOf(s)[i] == s[i].value
  {
    if s != [] {
      ValuesOfAll(s[..|s| - 1]);
    }
  }

  /** What the field's value is, for claims in order of their index. */
  ghost predicate IsValueOf(v: FieldValue, s: seq<Assertion>) {
    match v
    case Single(x) => |s| == 1 && s[0].value == x
    case Texts(ts) => |s| > 1 && |ts| == |s| && forall i | 0 <= i < |s| :: s[i].value == Text(ts[i])
    case Values(vs) =>
      && |s| > 1 && |vs| == |s| && (forall i | 0 <= i < |s| :: s[i].value == vs[i])
      && exists i :: 0 <= i < |s| && !s[i].value.Text?
  }

  /** Any field of any claims: exactly its claims, in order of their index, make its value, as texts
      when all of them are. */
  lemma ItemField(all: seq<Assertion>, field: string) returns (s: seq<Assertion>)
    requires field in Fields(all)
    ensures forall a :: multiset(s)[a] == if a.field == field then multiset(all)[a] else 0
    ensures Ascending(s) && IsValueOf(Item(all)[field], s)
  {
    hide Sorted, TextsOf, ValuesOf, Group, Ascending, Fields;
    var group := Group(all, field);
    s := Sorted(group);
    SortedSorts(group);
    GroupOf(all, field);
    SameSize(s, group);
    forall a
      ensures multiset(s)[a] == if a.field == field then multiset(all)[a] else 0
    {
      GroupCount(all, field, a);
    }
    if |group| == 1 {
      assert group[0] in multiset(group);
      assert s[0] in multiset(s);
    }
    TextsOfAll(s);
    ValuesOfAll(s);
  }

  /** Whatever order the claims of a rule come back in, and whatever else comes with them, its
      field holds the values the rule matched, in the order it matched them: alone when there is
      one, as a list when there are more. */
  lemma ItemRestoresRule(all: seq<Assertion>, field: string, how: string, values: seq<string>)
    requires values != []
    requires forall a: Assertion | a.field == field :: multiset(all)[a] == multiset(Claims(field, how, values))[a]
    ensures field in Item(all)
    ensures Item(all)[field] == if |values| == 1 then Single(Text(values[0])) else Texts(values)
  {
    hide Sorted, TextsOf, Group, Item, Ascending;
    var claims, group := Claims(field, how, values), Group(all, field);
    GroupIsClaims(all, field, how, values);
    SameSize(group, claims);
    GroupOf(all, field);
    ItemAt(all, field);
    if |values| == 1 {
      assert group[0] in multiset(claims);
    } else {
      SortedSorts(group);
      OneOrder(Sorted(group), claims, 0);
      TextsOfClaims(field, how, values);
    }
  }

  lemma SameSize(x: seq<Assertion>, y: seq<Assertion>)
    requires multiset(x) == multiset(y)
    ensures |x| == |y|
  {
    assert |multiset(x)| == |multiset(y)|;
  }

  lemma GroupIsClaims(all: seq<Assertion>, field: string, how: string, values: seq<string>)
    requires forall a: Assertion | a.field == field :: multiset(all)[a] == multiset(Claims(field, how, values))[a]
    ensures multiset(Group(all, field)) == multiset(Claims(field, how, values))
  {
    var claims := Claims(field, how, values);
    forall a: Assertion
      ensures multiset(Group(all, field))[a] == multiset(claims)[a]
    {
      GroupCount(all, field, a);
      assert a.field != field ==> a !in claims;
    }
  }

  lemma ItemAt(all: seq<Assertion>, field: string)
    requires field in Fields(all)
    ensures Group(all, field) != [] && Item(all)[field] == Collapsed(Group(all, field))
  {
    GroupOf(all, field);
  }

  // ---- Which derivation wins ----

  function LastHow(all: seq<Assertion>, field: string): Option<string> {
    if all == [] then None
    else if all[|all| - 1].field == field then Some(all[|all| - 1].how)
    else LastHow(all[..|all| - 1], field)
  }

  /** Those of `part` whose method is the last to claim their field in `all`. */
  function Winners(part: seq<Assertion>, all: seq<Assertion>): seq<Assertion> {
    if part == [] then []
    else Winners(part[..|part| - 1], all) + if LastHow(all, part[|part| - 1].field) == Some(part[|part| - 1].how) then [part[|part| - 1]] else []
  }

  function DropShadowed(all: seq<Assertion>): seq<Assertion> {
    Winners(all, all)
  }

  lemma {:induction false} WinnersHave(part: seq<Assertion>, all: seq<Assertion>, a: Assertion)
    ensures a in Winners(part, all) <==> a in part && LastHow(all, a.field) == Some(a.how)
  {
    if part != [] {
      WinnersHave(part[..|part| - 1], all, a);
      assert part == part[..|part| - 1] + [part[|part| - 1]];
    }
  }

  lemma {:induction false} LastHowIs(all: seq<Assertion>, field: string)
    ensures LastHow(all, field) == None <==> forall a | a in all :: a.field != field
    ensures LastHow(all, field).Some? ==> exists a :: a in all && a.field == field && LastHow(all, field) == Some(a.how)
  {
    if all != [] {
      var before, last := all[..|all| - 1], all[|all| - 1];
      LastHowIs(before, field);
      assert all == before + [last];
    }
  }

  lemma {:induction false} LastHowConcat(x: seq<Assertion>, y: seq<Assertion>, field: string)
    ensures LastHow(x + y, field) == if LastHow(y, field).Some? then LastHow(y, field) else LastHow(x, field)
    decreases |y|
  {
    if y == [] {
      assert x + y == x;
    } else {
      assert (x + y)[..|x + y| - 1] == x + y[..|y| - 1];
      LastHowConcat(x, y[..|y| - 1], field);
    }
  }

  /** What is left names one method a field: the last that claimed it. */
  lemma OneMethodEach(all: seq<Assertion>, a: Assertion)
    ensures a in DropShadowed(all) <==> a in all && LastHow(all, a.field) == Some(a.how)
    ensures Fields(DropShadowed(all)) == Fields(all)
  {
    WinnersHave(all, all, a);
    forall f
      ensures f in Fields(DropShadowed(all)) <==> f in Fields(all)
    {
      if f in Fields(all) {
        LastHowIs(all, f);
        var b :| b in all && b.field == f && LastHow(all, f) == Some(b.how);
        WinnersHave(all, all, b);
      }
      if f in Fields(DropShadowed(all)) {
        var b :| b in DropShadowed(all) && b.field == f;
        WinnersHave(all, all, b);
      }
    }
  }

  lemma {:induction false} LastHowOfWinners(part: seq<Assertion>, all: seq<Assertion>, field: string)
    ensures LastHow(Winners(part, all), field).Some? ==> LastHow(Winners(part, all), field) == LastHow(all, field)
    ensures (exists a :: a in part && a.field == field && LastHow(all, field) == Some(a.how)) ==> LastHow(Winners(part, all), field).Some?
  {
    LastHowIs(Winners(part, all), field);
    if LastHow(Winners(part, all), field).Some? {
      var a :| a in Winners(part, all) && a.field == field && LastHow(Winners(part, all), field) == Some(a.how);
      WinnersHave(part, all, a);
    }
    if a :| a in part && a.field == field && LastHow(all, field) == Some(a.how) {
      WinnersHave(part, all, a);
    }
  }

  lemma {:induction false} WinnersKeepAll(part: seq<Assertion>, all: seq<Assertion>)
    requires forall a | a in part :: LastHow(all, a.field) == Some(a.how)
    ensures Winners(part, all) == part
  {
    if part != [] {
      assert part == part[..|part| - 1] + [part[|part| - 1]];
      WinnersKeepAll(part[..|part| - 1], all);
    }
  }

  /** Dropping twice is dropping once. */
  lemma DropTwice(all: seq<Assertion>)
    ensures DropShadowed(DropShadowed(all)) == DropShadowed(all)
  {
    var left := DropShadowed(all);
    forall a | a in left
      ensures LastHow(left, a.field) == Some(a.how)
    {
      WinnersHave(all, all, a);
      LastHowOfWinners(all, all, a.field);
    }
    WinnersKeepAll(left, left);
  }

  /** Those of `part` whose field `later` does not claim. */
  function Unclaimed(part: seq<Assertion>, later: seq<Assertion>): seq<Assertion> {
    if part == [] then []
    else Unclaimed(part[..|part| - 1], later) + if LastHow(later, part[|part| - 1].field) == None then [part[|part| - 1]] else []
  }

  /** A later derivation with methods of its own takes every field it claims, and leaves the rest
      as the earlier ones had it. */
  lemma LaterWins(first: seq<Assertion>, later: seq<Assertion>)
    requires forall a, b | a in first && b in later :: a.how != b.how
    ensures DropShadowed(first + later) == Unclaimed(DropShadowed(first), later) + DropShadowed(later)
  {
    var all := first + later;
    WinnersConcat(first, later, all);
    WinnersOfLater(later, first, later);
    WinnersOfFirst(first, first, later);
  }

  lemma {:induction false} WinnersConcat(x: seq<Assertion>, y: seq<Assertion>, all: seq<Assertion>)
    ensures Winners(x + y, all) == Winners(x, all) + Winners(y, all)
    decreases |y|
  {
    if y == [] {
      assert x + y == x;
    } else {
      assert (x + y)[..|x + y| - 1] == x + y[..|y| - 1];
      WinnersConcat(x, y[..|y| - 1], all);
    }
  }

  lemma {:induction false} WinnersOfLater(part: seq<Assertion>, first: seq<Assertion>, later: seq<Assertion>)
    requires forall a | a in part :: a in later
    ensures Winners(part, first + later) == Winners(part, later)
  {
    if part != [] {
      var last := part[|part| - 1];
      assert part == part[..|part| - 1] + [last];
      WinnersOfLater(part[..|part| - 1], first, later);
      LastHowConcat(first, later, last.field);
      LastHowIs(later, last.field);
    }
  }

  lemma {:induction false} WinnersOfFirst(part: seq<Assertion>, first: seq<Assertion>, later: seq<Assertion>)
    requires forall a | a in part :: a in first
    requires forall a, b | a in first && b in later :: a.how != b.how
    ensures Winners(part, first + later) == Unclaimed(Winners(part, first), later)
  {
    if part != [] {
      var before, last := part[..|part| - 1], part[|part| - 1];
      assert part == before + [last];
      WinnersOfFirst(before, first, later);
      LastHowConcat(first, later, last.field);
      LastHowIs(later, last.field);
      assert LastHow(later, last.field) != Some(last.how);
      assert LastHow(first + later, last.field) == Some(last.how) <==> LastHow(first, last.field) == Some(last.how) && LastHow(later, last.field) == None;
      UnclaimedSnoc(Winners(before, first), last, later);
      assert Winners(before, first) + [] == Winners(before, first);
      assert Unclaimed(Winners(before, first), later) + [] == Unclaimed(Winners(before, first), later);
    }
  }

  lemma UnclaimedSnoc(part: seq<Assertion>, a: Assertion, later: seq<Assertion>)
    ensures Unclaimed(part + [a], later) == Unclaimed(part, later) + if LastHow(later, a.field) == None then [a] else []
  {
    assert (part + [a])[..|part|] == part;
  }

  // ---- Several rules on one field ----

  /** An XPath rule. Its method names the selector and not the attribute. */
  datatype Rule = Rule(field: string, selector: string, attribute: string)

  function Method(r: Rule): string {
    "xpath:" + r.selector
  }

  /** What the rules claim, in order, each numbering its own values from zero. */
  function Derived(rules: seq<Rule>, extract: Rule -> seq<string>): seq<Assertion> {
    if rules == [] then []
    else
      var r := rules[|rules| - 1];
      Derived(rules[..|rules| - 1], extract) + Claims(r.field, Method(r), extract(r))
  }

  /** The values of all the rules, one rule after the other. */
  function InOrder(rules: seq<Rule>, extract: Rule -> seq<string>): seq<string> {
    if rules == [] then [] else InOrder(rules[..|rules| - 1], extract) + extract(rules[|rules| - 1])
  }

  /** The k-th value of each rule that has one. */
  function Round(rules: seq<Rule>, extract: Rule -> seq<string>, k: nat): seq<string> {
    if rules == [] then []
    else
      var vs := extract(rules[|rules| - 1]);
      Round(rules[..|rules| - 1], extract, k) + if k < |vs| then [vs[k]] else []
  }

  /** The first value of each rule, then the second of each, and so on. */
  function Rounds(rules: seq<Rule>, extract: Rule -> seq<string>, n: nat): seq<string> {
    if n == 0 then [] else Rounds(rules, extract, n - 1) + Round(rules, extract, n - 1)
  }

  /** No rule but the last with values has more than one. */
  ghost predicate OneEachButLast(rules: seq<Rule>, extract: Rule -> seq<string>) {
    forall i, j | 0 <= i < j < |rules| :: |extract(rules[i])| <= 1 || extract(rules[j]) == []
  }

  ghost predicate OneMethod(rules: seq<Rule>, field: string, selector: string) {
    forall i | 0 <= i < |rules| :: rules[i].field == field && rules[i].selector == selector
  }

  // The sort puts the claims in buckets by index

  function Bucket(s: seq<Assertion>, k: nat): seq<Assertion> {
    if s == [] then [] else Bucket(s[..|s| - 1], k) + if s[|s| - 1].index == k then [s[|s| - 1]] else []
  }

  function Buckets(s: seq<Assertion>, n: nat): seq<Assertion> {
    if n == 0 then [] else Buckets(s, n - 1) + Bucket(s, n - 1)
  }

  lemma BucketSnoc(s: seq<Assertion>, a: Assertion, k: nat)
    ensures Bucket(s + [a], k) == Bucket(s, k) + if a.index == k then [a] else []
  {
    assert (s + [a])[..|s|] == s;
  }

  lemma {:induction false} BucketHas(s: seq<Assertion>, k: nat)
    ensures forall i | 0 <= i < |Bucket(s, k)| :: Bucket(s, k)[i].index == k
  {
    if s != [] {
      BucketHas(s[..|s| - 1], k);
    }
  }

  lemma {:induction false} BucketsHave(s: seq<Assertion>, n: nat)
    ensures forall i | 0 <= i < |Buckets(s, n)| :: Buckets(s, n)[i].index < n
  {
    if n > 0 {
      BucketsHave(s, n - 1);
      BucketHas(s, n - 1);
    }
  }

  lemma {:induction false} InsertPast(x: seq<Assertion>, y: seq<Assertion>, a: Assertion)
    requires forall i | 0 <= i < |y| :: y[i].index > a.index
    ensures Insert(x + y, a) == Insert(x, a) + y
    decreases |y|
  {
    if y == [] {
      assert x + y == x;
    } else {
      var before, last := y[..|y| - 1], y[|y| - 1];
      assert (x + y)[..|x + y| - 1] == x + before && (x + y)[|x + y| - 1] == last;
      InsertPast(x, before, a);
      assert y == before + [last];
    }
  }

  lemma {:induction false} BucketsSnoc(s: seq<Assertion>, a: Assertion, n: nat)
    ensures a.index >= n ==> Buckets(s + [a], n) == Buckets(s, n)
    ensures a.index < n ==> Buckets(s + [a], n) == Insert(Buckets(s, n), a)
  {
    hide Bucket, Insert;
    if n > 0 {
      BucketsSnoc(s, a, n - 1);
      BucketSnoc(s, a, n - 1);
      BucketsHave(s, n);
      BucketHas(s, n - 1);
      if a.index < n - 1 {
        InsertPast(Buckets(s, n - 1), Bucket(s, n - 1), a);
      } else if a.index == n - 1 {
        InsertLast(Buckets(s, n), a);
      }
    }
  }

  lemma InsertLast(s: seq<Assertion>, a: Assertion)
    requires forall i | 0 <= i < |s| :: s[i].index <= a.index
    ensures Insert(s, a) == s + [a]
  {
  }

  /** A stable sort is the buckets, one after the other. */
  lemma {:induction false} SortedIsBuckets(s: seq<Assertion>, n: nat)
    requires forall i | 0 <= i < |s| :: s[i].index < n
    ensures Sorted(s) == Buckets(s, n)
    decreases |s|
  {
    hide Insert;
    if s == [] {
      NoBuckets(n);
    } else {
      SortedIsBuckets(s[..|s| - 1], n);
      assert s == s[..|s| - 1] + [s[|s| - 1]];
      BucketsSnoc(s[..|s| - 1], s[|s| - 1], n);
    }
  }

  lemma {:induction false} NoBuckets(n: nat)
    ensures Buckets([], n) == []
  {
    if n > 0 {
      NoBuckets(n - 1);
    }
  }

  // What is in the buckets

  function Longest(rules: seq<Rule>, extract: Rule -> seq<string>): nat {
    if rules == [] then 0
    else
      var n, m := Longest(rules[..|rules| - 1], extract), |extract(rules[|rules| - 1])|;
      if n < m then m else n
  }

  lemma {:induction false} DerivedIndices(rules: seq<Rule>, extract: Rule -> seq<string>)
    ensures forall i | 0 <= i < |Derived(rules, extract)| :: Derived(rules, extract)[i].index < Longest(rules, extract)
  {
    if rules != [] {
      DerivedIndices(rules[..|rules| - 1], extract);
    }
  }

  lemma {:induction false} BucketSum(x: seq<Assertion>, y: seq<Assertion>, k: nat)
    ensures Bucket(x + y, k) == Bucket(x, k) + Bucket(y, k)
    decreases |y|
  {
    if y == [] {
      assert x + y == x;
    } else {
      assert (x + y)[..|x + y| - 1] == x + y[..|y| - 1];
      BucketSum(x, y[..|y| - 1], k);
    }
  }

  lemma EmptyBucket(k: nat)
    ensures Bucket([], k) == []
  {
  }

  lemma {:induction false} BucketOfClaims(field: string, how: string, values: seq<string>, k: nat)
    ensures Bucket(Claims(field, how, values), k) == if k < |values| then [Assertion(field, Text(values[k]), k, how)] else []
  {
    hide Bucket, Claims;
    if values == [] {
      EmptyBucket(k);
      assert Claims(field, how, values) == [];
    } else {
      var n := |values| - 1;
      var before, last := values[..n], Assertion(field, Text(values[n]), n, how);
      BucketOfClaims(field, how, before, k);
      BucketSnoc(Claims(field, how, before), last, k);
      assert Claims(field, how, values) == Claims(field, how, before) + [last];
    }
  }

  lemma {:induction false} TextsSum(x: seq<Assertion>, y: seq<Assertion>)
    requires TextsOf(x).Some? && TextsOf(y).Some?
    ensures TextsOf(x + y) == Some(TextsOf(x).value + TextsOf(y).value)
    decreases |y|
  {
    hide TextsOf;
    NoTexts();
    if y == [] {
      assert x + y == x;
      assert TextsOf(x).value + [] == TextsOf(x).value;
    } else {
      var before, last := y[..|y| - 1], y[|y| - 1];
      assert y == before + [last] && x + y == (x + before) + [last];
      TextsSnoc(before, last);
      TextsSum(x, before);
      TextsSnoc(x + before, last);
      var u, v, t := TextsOf(x).value, TextsOf(before).value, last.value.text;
      assert (u + v) + [t] == u + (v + [t]);
    }
  }

  lemma NoTexts()
    ensures TextsOf([]) == Some([])
  {
  }

  lemma TextsOfOne(field: string, how: string, v: string, k: nat)
    ensures TextsOf([Assertion(field, Text(v), k, how)]) == Some([v]) && TextsOf([]) == Some([])
  {
    hide TextsOf;
    NoTexts();
    TextsSnoc([], Assertion(field, Text(v), k, how));
    assert [] + [v] == [v] && [] + [Assertion(field, Text(v), k, how)] == [Assertion(field, Text(v), k, how)];
  }

  lemma {:induction false} BucketIsRound(rules: seq<Rule>, extract: Rule -> seq<string>, k: nat)
    ensures TextsOf(Bucket(Derived(rules, extract), k)) == Some(Round(rules, extract, k))
  {
    hide Bucket, TextsOf, Claims;
    if rules == [] {
      TextsOfOne("", "", "", 0);
      EmptyBucket(k);
    } else {
      var before, r := rules[..|rules| - 1], rules[|rules| - 1];
      BucketIsRound(before, extract, k);
      BucketSum(Derived(before, extract), Claims(r.field, Method(r), extract(r)), k);
      BucketOfClaims(r.field, Method(r), extract(r), k);
      TextsOfOne(r.field, Method(r), if k < |extract(r)| then extract(r)[k] else "", k);
      TextsSum(Bucket(Derived(before, extract), k), Bucket(Claims(r.field, Method(r), extract(r)), k));
    }
  }

  lemma {:induction false} BucketsAreRounds(rules: seq<Rule>, extract: Rule -> seq<string>, n: nat)
    ensures TextsOf(Buckets(Derived(rules, extract), n)) == Some(Rounds(rules, extract, n))
  {
    hide Bucket, TextsOf, Derived;
    if n == 0 {
      TextsOfOne("", "", "", 0);
    } else {
      BucketsAreRounds(rules, extract, n - 1);
      BucketIsRound(rules, extract, n - 1);
      TextsSum(Buckets(Derived(rules, extract), n - 1), Bucket(Derived(rules, extract), n - 1));
    }
  }

  // What comes of it

  lemma {:induction false} DerivedFields(rules: seq<Rule>, extract: Rule -> seq<string>, field: string, selector: string)
    requires OneMethod(rules, field, selector)
    ensures forall a | a in Derived(rules, extract) :: a.field == field && a.how == "xpath:" + selector
    ensures |Derived(rules, extract)| == |InOrder(rules, extract)|
  {
    if rules != [] {
      DerivedFields(rules[..|rules| - 1], extract, field, selector);
    }
  }

  lemma {:induction false} GroupOfAll(all: seq<Assertion>, field: string)
    requires forall a | a in all :: a.field == field
    ensures Group(all, field) == all
  {
    if all != [] {
      assert all == all[..|all| - 1] + [all[|all| - 1]];
      assert all[|all| - 1] in all;
      GroupOfAll(all[..|all| - 1], field);
    }
  }

  /** Any number of rules with one selector on one field: none shadows another, and the field holds
      the first values of all of them, then the second values, and so on. */
  lemma RulesInterleave(rules: seq<Rule>, extract: Rule -> seq<string>, field: string, selector: string)
    requires OneMethod(rules, field, selector) && |InOrder(rules, extract)| >= 2
    ensures DropShadowed(Derived(rules, extract)) == Derived(rules, extract)
    ensures var item := Item(DropShadowed(Derived(rules, extract)));
            field in item && item[field] == Texts(Rounds(rules, extract, Longest(rules, extract)))
  {
    hide Derived, Rounds, InOrder, Sorted, TextsOf, Group, Longest, Item, Winners, Fields;
    var all, n := Derived(rules, extract), Longest(rules, extract);
    DerivedFields(rules, extract, field, selector);
    NoneShadowed(all, "xpath:" + selector);
    GroupOfAll(all, field);
    GroupOf(all, field);
    ItemAt(all, field);
    DerivedIndices(rules, extract);
    SortedIsBuckets(all, n);
    BucketsAreRounds(rules, extract, n);
  }

  lemma NoneShadowed(all: seq<Assertion>, how: string)
    requires forall a | a in all :: a.how == how
    ensures DropShadowed(all) == all
  {
    forall a | a in all
      ensures LastHow(all, a.field) == Some(a.how)
    {
      LastHowIs(all, a.field);
    }
    WinnersKeepAll(all, all);
  }

  /** A list is its own sorting exactly when it ascends. */
  lemma {:induction false} SortedWhenAscending(s: seq<Assertion>)
    ensures Sorted(s) == s <==> Ascending(s)
  {
    hide Insert;
    SortedSorts(s);
    if s != [] && Ascending(s) {
      SortedWhenAscending(s[..|s| - 1]);
      InsertLast(s[..|s| - 1], s[|s| - 1]);
      assert s == s[..|s| - 1] + [s[|s| - 1]];
    }
  }

  predicate AllFirst(s: seq<Assertion>) {
    forall i | 0 <= i < |s| :: s[i].index == 0
  }

  lemma AllFirstSum(x: seq<Assertion>, y: seq<Assertion>)
    ensures AllFirst(x + y) <==> AllFirst(x) && AllFirst(y)
  {
    var z := x + y;
    assert forall i | 0 <= i < |x| :: z[i] == x[i];
    assert forall i | 0 <= i < |y| :: z[|x| + i] == y[i];
  }

  ghost predicate OneEach(rules: seq<Rule>, extract: Rule -> seq<string>) {
    forall i | 0 <= i < |rules| :: |extract(rules[i])| <= 1
  }

  lemma {:induction false} DerivedAllFirst(rules: seq<Rule>, extract: Rule -> seq<string>)
    ensures AllFirst(Derived(rules, extract)) <==> OneEach(rules, extract)
  {
    hide AllFirst, Claims;
    if rules == [] {
      NoneIsFirst();
    } else {
      var n := |rules| - 1;
      var before, r := rules[..n], rules[n];
      DerivedAllFirst(before, extract);
      AllFirstSum(Derived(before, extract), Claims(r.field, Method(r), extract(r)));
      ClaimsAscend(r.field, Method(r), extract(r));
      assert forall i | 0 <= i < n :: before[i] == rules[i];
      assert OneEach(rules, extract) <==> OneEach(before, extract) && |extract(r)| <= 1;
    }
  }

  lemma NoneIsFirst()
    ensures AllFirst([])
  {
  }

  lemma {:induction false} DerivedAscends(rules: seq<Rule>, extract: Rule -> seq<string>)
    ensures Ascending(Derived(rules, extract)) <==> OneEachButLast(rules, extract)
  {
    hide AllFirst, Claims, Ascending;
    if rules == [] {
      NoneAscends();
    } else {
      var n := |rules| - 1;
      var before, r := rules[..n], rules[n];
      DerivedAscends(before, extract);
      DerivedAllFirst(before, extract);
      ClaimsAscend(r.field, Method(r), extract(r));
      AscendingSum(Derived(before, extract), Claims(r.field, Method(r), extract(r)));
      assert forall i | 0 <= i < n :: before[i] == rules[i];
      assert OneEachButLast(rules, extract) <==> OneEachButLast(before, extract) && (extract(r) == [] || OneEach(before, extract));
    }
  }

  lemma NoneAscends()
    ensures Ascending([])
  {
  }

  lemma ClaimsAscend(field: string, how: string, vs: seq<string>)
    ensures Ascending(Claims(field, how, vs)) && |Claims(field, how, vs)| == |vs|
    ensures AllFirst(Claims(field, how, vs)) <==> |vs| <= 1
    ensures vs != [] ==> Claims(field, how, vs)[0].index == 0
  {
    if |vs| > 1 {
      assert Claims(field, how, vs)[1].index == 1;
    }
  }

  /** A list that starts at zero may follow only zeros. */
  lemma AscendingSum(x: seq<Assertion>, y: seq<Assertion>)
    requires Ascending(y) && (y != [] ==> y[0].index == 0)
    ensures Ascending(x + y) <==> Ascending(x) && (y == [] || AllFirst(x))
  {
    var z := x + y;
    assert forall i | 0 <= i < |x| :: z[i] == x[i];
    assert forall i | 0 <= i < |y| :: z[|x| + i] == y[i];
    if Ascending(z) {
      assert forall i, j | 0 <= i < j < |x| :: z[i].index <= z[j].index;
      if y != [] {
        assert forall i | 0 <= i < |x| :: z[i].index <= z[|x|].index;
      }
    }
  }

  /** The claims stay in the order of the rules exactly when no rule but the last with values has
      more than one. */
  lemma RulesKeepOrder(rules: seq<Rule>, extract: Rule -> seq<string>)
    ensures Sorted(Derived(rules, extract)) == Derived(rules, extract) <==> OneEachButLast(rules, extract)
  {
    SortedWhenAscending(Derived(rules, extract));
    DerivedAscends(rules, extract);
  }

  lemma {:induction false} TextsOfDerived(rules: seq<Rule>, extract: Rule -> seq<string>)
    ensures TextsOf(Derived(rules, extract)) == Some(InOrder(rules, extract))
  {
    hide TextsOf, Claims;
    if rules == [] {
      TextsOfOne("", "", "", 0);
    } else {
      var before, r := rules[..|rules| - 1], rules[|rules| - 1];
      TextsOfDerived(before, extract);
      TextsOfClaims(r.field, Method(r), extract(r));
      TextsSum(Derived(before, extract), Claims(r.field, Method(r), extract(r)));
    }
  }

  lemma {:induction false} TextsDetermine(s: seq<Assertion>, t: seq<Assertion>)
    requires |s| == |t| && TextsOf(s).Some? && TextsOf(s) == TextsOf(t)
    ensures forall i | 0 <= i < |s| :: s[i].value == t[i].value
    decreases |s|
  {
    if s != [] {
      var n := |s| - 1;
      assert TextsOf(s).value[..|TextsOf(s).value| - 1] == TextsOf(s[..n]).value;
      assert TextsOf(t).value[..|TextsOf(t).value| - 1] == TextsOf(t[..n]).value;
      TextsDetermine(s[..n], t[..n]);
    }
  }

  /** When the values are all different, the field holds them rule after rule exactly when no rule
      but the last with values has more than one. */
  lemma ItemKeepsOrder(rules: seq<Rule>, extract: Rule -> seq<string>, field: string, selector: string)
    requires OneMethod(rules, field, selector) && |InOrder(rules, extract)| >= 2
    requires forall a, b | a in Derived(rules, extract) && b in Derived(rules, extract) && a.value == b.value :: a == b
    ensures field in Item(Derived(rules, extract))
    ensures Item(Derived(rules, extract))[field] == Texts(InOrder(rules, extract)) <==> OneEachButLast(rules, extract)
  {
    hide Derived, InOrder, Sorted, TextsOf, Group, Item, Fields, OneEachButLast, Rounds, Longest, Buckets;
    var all, n := Derived(rules, extract), Longest(rules, extract);
    DerivedFields(rules, extract, field, selector);
    GroupOfAll(all, field);
    GroupOf(all, field);
    ItemAt(all, field);
    TextsOfDerived(rules, extract);
    RulesKeepOrder(rules, extract);
    SortedSorts(all);
    SameSize(Sorted(all), all);
    DerivedIndices(rules, extract);
    SortedIsBuckets(all, n);
    BucketsAreRounds(rules, extract, n);
    if TextsOf(Sorted(all)) == TextsOf(all) {
      TextsDetermine(Sorted(all), all);
      SameMembers(Sorted(all), all);
      assert Sorted(all) == all;
    }
  }

  lemma SameMembers(s: seq<Assertion>, t: seq<Assertion>)
    requires multiset(s) == multiset(t)
    ensures forall a :: a in s <==> a in t
  {
    assert forall a :: a in s <==> a in multiset(s);
    assert forall a :: a in t <==> a in multiset(t);
  }

  // ---- The loops ----

  method DropShadowedLoop(all: seq<Assertion>) returns (out: seq<Assertion>)
    ensures out == DropShadowed(all)
  {
    var lastMethod: map<string, string> := map[];
    for i := 0 to |all|
      invariant forall f :: (if f in lastMethod then Some(lastMethod[f]) else None) == LastHow(all[..i], f)
    {
      assert all[..i + 1][..i] == all[..i];
      lastMethod := lastMethod[all[i].field := all[i].how];
    }
    assert all[..|all|] == all;
    out := [];
    for i := 0 to |all|
      invariant out == Winners(all[..i], all)
    {
      assert all[..i + 1][..i] == all[..i];
      assert LastHow(all, all[i].field).Some? by { LastHowIs(all, all[i].field); }
      if lastMethod[all[i].field] == all[i].how {
        out := out + [all[i]];
      }
    }
  }

  lemma FieldsSnoc(all: seq<Assertion>, a: Assertion)
    ensures Fields(all + [a]) == Fields(all) + {a.field}
  {
  }

  method ByField(all: seq<Assertion>) returns (byField: map<string, seq<Assertion>>)
    ensures byField.Keys == Fields(all)
    ensures forall f | f in byField :: byField[f] == Group(all, f)
  {
    hide Fields, Group;
    byField := map[];
    Nobody();
    for i := 0 to |all|
      invariant byField.Keys == Fields(all[..i])
      invariant forall f :: (if f in byField then byField[f] else []) == Group(all[..i], f)
    {
      assert all[..i + 1] == all[..i] + [all[i]];
      FieldsSnoc(all[..i], all[i]);
      forall f
        ensures Group(all[..i + 1], f) == Group(all[..i], f) + if all[i].field == f then [all[i]] else []
      {
        GroupSnoc(all[..i], all[i], f);
      }
      var f := all[i].field;
      byField := byField[f := (if f in byField then byField[f] else []) + [all[i]]];
    }
    assert all[..|all|] == all;
  }

  lemma Nobody()
    ensures Fields([]) == {} && forall f :: Group([], f) == []
  {
  }

  method ItemFromAssertions(all: seq<Assertion>) returns (item: Option<map<string, FieldValue>>)
    ensures item == if all == [] then None else Some(Item(all))
  {
    hide Fields, Group, Collapsed, Item;
    if all == [] {
      return None;
    }
    var byField := ByField(all);
    var fields: map<string, FieldValue> := map[];
    var rest := byField.Keys;
    while rest != {}
      invariant rest <= byField.Keys && fields.Keys == byField.Keys - rest
      invariant forall f | f in fields :: fields[f] == Item(all)[f]
      decreases rest
    {
      var f :| f in rest;
      ItemAt(all, f);
      var v := Collapse(byField[f]);
      fields := fields[f := v];
      rest := rest - {f};
    }
    assert fields.Keys == Item(all).Keys;
    assert fields == Item(all);
    return Some(fields);
  }

  method Collapse(group: seq<Assertion>) returns (v: FieldValue)
    requires group != []
    ensures v == Collapsed(group)
  {
    hide Sorted, TextsOf, ValuesOf;
    if |group| == 1 {
      return Single(group[0].value);
    }
    var sorted := Sorted(group);
    var texts := AllTexts(sorted);
    if texts.Some? {
      return Texts(texts.value);
    }
    var vals := AllValues(sorted);
    return Values(vals);
  }

  method AllTexts(sorted: seq<Assertion>) returns (texts: Option<seq<string>>)
    ensures texts == TextsOf(sorted)
  {
    hide TextsOf;
    var strs: seq<string> := [];
    assert TextsOf([]) == Some([]) by { TextsOfOne("", "", "", 0); }
    for i := 0 to |sorted|
      invariant TextsOf(sorted[..i]) == Some(strs)
    {
      assert sorted[..i + 1] == sorted[..i] + [sorted[i]];
      TextsSnoc(sorted[..i], sorted[i]);
      if !sorted[i].value.Text? {
        NotAllTexts(sorted, i);
        return None;
      }
      strs := strs + [sorted[i].value.text];
    }
    assert sorted[..|sorted|] == sorted;
    return Some(strs);
  }

  method AllValues(sorted: seq<Assertion>) returns (vals: seq<Value>)
    ensures vals == ValuesOf(sorted)
  {
    vals := [];
    for i := 0 to |sorted|
      invariant vals == ValuesOf(sorted[..i])
    {
      assert sorted[..i + 1] == sorted[..i] + [sorted[i]];
      ValuesSnoc(sorted[..i], sorted[i]);
      vals := vals + [sorted[i].value];
    }
    assert sorted[..|sorted|] == sorted;
  }

  lemma {:induction false} NotAllTexts(group: seq<Assertion>, i: nat)
    requires i < |group| && !group[i].value.Text?
    ensures TextsOf(group) == None
  {
    if i < |group| - 1 {
      NotAllTexts(group[..|group| - 1], i);
    }
  }
}
