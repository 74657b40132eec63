/**
 * The lay-phase dialog of the client: the requirement labels and empty
 * groups it opens with, the values it offers for a wild placed in a group,
 * its completeness check, the cards it submits and the hand it still shows.
 */
module LayPhaseModal {
  import opened Cards
  import opened Text
  import Phases

  // ---------------------------------------------------------------------
  // Requirement labels and the opening groups
  // ---------------------------------------------------------------------

  /** `getPhaseRequirements()` */
  function Requirements(phaseIndex: int): seq<string> {
    match phaseIndex
    case 0 => ["Set of 3", "Set of 3"]
    case 1 => ["Set of 3", "Run of 4"]
    case 2 => ["Set of 4", "Run of 4"]
    case 3 => ["Run of 7"]
    case 4 => ["Run of 8"]
    case 5 => ["Run of 9"]
    case 6 => ["Set of 4", "Set of 4"]
    case 7 => ["7 cards of one color"]
    case 8 => ["Set of 5", "Set of 2"]
    case 9 => ["Set of 5", "Set of 3"]
    case _ => ["Unknown"]
  }

  /** The groups the opening effect creates for a phase. */
  function InitialGroups(phaseIndex: int): seq<seq<Card>> {
    match phaseIndex
    case 0 => [[], []]
    case 1 => [[], []]
    case 2 => [[], []]
    case 3 => [[]]
    case 4 => [[]]
    case 5 => [[]]
    case 6 => [[], []]
    case 7 => [[]]
    case 8 => [[], []]
    case 9 => [[], []]
    case _ => [[]]
  }

  /** How a requirement label is read when offering wild values. */
  datatype GroupRule = SetRule | RunRule | ColorRule | AnyRule

  function RuleOf(requirement: string): GroupRule {
    if StartsWith(requirement, "Set") then SetRule
    else if StartsWith(requirement, "Run") then RunRule
    else if Contains(requirement, "color") then ColorRule
    else AnyRule
  }

  /** Each length paired with the rule of its group. */
  function Tagged(rule: GroupRule, lengths: seq<int>): (r: seq<(GroupRule, int)>)
    ensures |r| == |lengths|
    ensures forall k :: 0 <= k < |lengths| ==> r[k] == (rule, lengths[k])
  {
    if lengths == [] then [] else [(rule, lengths[0])] + Tagged(rule, lengths[1..])
  }

  /** The groups a server requirement asks for, as (rule, length) pairs:
      sets first, then runs. */
  function ServerGroups(req: Phases.Requirement): seq<(GroupRule, int)> {
    match req
    case Sets(ls) => Tagged(SetRule, ls)
    case Runs(ls) => Tagged(RunRule, ls)
    case OneColor(c) => [(ColorRule, c)]
    case Mixed(ss, rs) => Tagged(SetRule, ss) + Tagged(RunRule, rs)
  }

  /** For every phase index the dialog opens one empty group per
      requirement label. */
  lemma GroupsPerRequirement(phaseIndex: int)
    ensures |InitialGroups(phaseIndex)| == |Requirements(phaseIndex)|
    ensures forall k :: 0 <= k < |InitialGroups(phaseIndex)| ==> InitialGroups(phaseIndex)[k] == []
  {
  }

  /** A label "Set of <n>" or "Run of <n>" reads as that rule and
      length. */
  lemma CountLabelReads(t: string, prefix: string, n: nat)
    requires prefix == "Set" || prefix == "Run"
    requires t == prefix + " of " + Decimal(n)
    ensures RuleOf(t) == (if prefix == "Set" then SetRule else RunRule)
    ensures FirstNumber(t) == Some(n)
  {
    StartsWithPrefix(t, "Set");
    StartsWithPrefix(t, "Run");
    assert t[..3] == prefix;
    FirstNumberOf(prefix + " of ", n, "");
    assert prefix + " of " + Decimal(n) + "" == t;
  }

  /** The colour label reads as a colour group of seven cards. */
  lemma ColorLabelReads(t: string)
    requires t == "7 cards of one color"
    ensures RuleOf(t) == ColorRule
    ensures FirstNumber(t) == Some(7)
  {
    StartsWithPrefix(t, "Set");
    StartsWithPrefix(t, "Run");
    assert t[..3][0] == '7';
    FirstNumberOf("", 7, " cards of one color");
    assert "" + Decimal(7) + " cards of one color" == t;
    StartsWithPrefix(t[15..], "color");
    assert t[15..][..5] == "color";
    ContainsFrom(t, "color", 15);
  }

  /** Each label reads as the rule and length of the group at the same
      position. */
  predicate Agree(labels: seq<string>, groups: seq<(GroupRule, int)>) {
    |labels| == |groups| &&
    forall k :: 0 <= k < |labels| ==>
      RuleOf(labels[k]) == groups[k].0 && FirstNumber(labels[k]) == Some(groups[k].1)
  }

  lemma AgreeOne(labels: seq<string>, groups: seq<(GroupRule, int)>)
    requires |labels| == |groups| == 1
    requires RuleOf(labels[0]) == groups[0].0 && FirstNumber(labels[0]) == Some(groups[0].1)
    ensures Agree(labels, groups)
  {
  }

  lemma AgreeTwo(labels: seq<string>, groups: seq<(GroupRule, int)>)
    requires |labels| == |groups| == 2
    requires RuleOf(labels[0]) == groups[0].0 && FirstNumber(labels[0]) == Some(groups[0].1)
    requires RuleOf(labels[1]) == groups[1].0 && FirstNumber(labels[1]) == Some(groups[1].1)
    ensures Agree(labels, groups)
  {
  }

  /** For phases 0 to 9 the dialog's labels agree with the server's phase
      table: as many groups as the dialog opens, in the same order, each
      with the same kind and length. */
  lemma LabelsMatchServer(phaseIndex: int)
    requires 0 <= phaseIndex < |Phases.PHASES|
    ensures |InitialGroups(phaseIndex)| == |Requirements(phaseIndex)|
    ensures Agree(Requirements(phaseIndex), ServerGroups(Phases.PHASES[phaseIndex]))
  {
    if phaseIndex == 1 || phaseIndex == 2 {
      MixedLabelsMatch(phaseIndex);
    } else if 3 <= phaseIndex <= 5 {
      RunLabelsMatch(phaseIndex);
    } else if phaseIndex == 7 {
      ColorLabelReads(Requirements(7)[0]);
      AgreeOne(Requirements(7), ServerGroups(Phases.PHASES[7]));
    } else if phaseIndex <= 6 {
      SetLabelsMatch(phaseIndex);
    } else {
      LastLabelsMatch(phaseIndex);
    }
  }

  lemma MixedGroups(n: int, p: Phases.Requirement, groups: seq<(GroupRule, int)>)
    requires p == Phases.Mixed([n], [4]) && groups == ServerGroups(p)
    ensures |groups| == 2 && groups[0] == (SetRule, n) && groups[1] == (RunRule, 4)
  {
    assert groups == Tagged(SetRule, [n]) + Tagged(RunRule, [4]);
  }

  lemma MixedLabelsMatch(phaseIndex: int)
    requires phaseIndex == 1 || phaseIndex == 2
    ensures Agree(Requirements(phaseIndex), ServerGroups(Phases.PHASES[phaseIndex]))
  {
    var labels, groups := Requirements(phaseIndex), ServerGroups(Phases.PHASES[phaseIndex]);
    var n := if phaseIndex == 1 then 3 else 4;
    MixedGroups(n, Phases.PHASES[phaseIndex], groups);
    CountLabelReads(labels[0], "Set", n);
    CountLabelReads(labels[1], "Run", 4);
    AgreeTwo(labels, groups);
  }

  lemma RunLabelsMatch(phaseIndex: int)
    requires 3 <= phaseIndex <= 5
    ensures Agree(Requirements(phaseIndex), ServerGroups(Phases.PHASES[phaseIndex]))
  {
    var labels, groups := Requirements(phaseIndex), ServerGroups(Phases.PHASES[phaseIndex]);
    CountLabelReads(labels[0], "Run", phaseIndex + 4);
    AgreeOne(labels, groups);
  }

  lemma SetLabelsMatch(phaseIndex: int)
    requires phaseIndex == 0 || phaseIndex == 6
    ensures Agree(Requirements(phaseIndex), ServerGroups(Phases.PHASES[phaseIndex]))
  {
    var labels, groups := Requirements(phaseIndex), ServerGroups(Phases.PHASES[phaseIndex]);
    var n := if phaseIndex == 0 then 3 else 4;
    CountLabelReads(labels[0], "Set", n);
    CountLabelReads(labels[1], "Set", n);
    AgreeTwo(labels, groups);
  }

  lemma LastLabelsMatch(phaseIndex: int)
    requires phaseIndex == 8 || phaseIndex == 9
    ensures Agree(Requirements(phaseIndex), ServerGroups(Phases.PHASES[phaseIndex]))
  {
    var labels, groups := Requirements(phaseIndex), ServerGroups(Phases.PHASES[phaseIndex]);
    CountLabelReads(labels[0], "Set", 5);
    CountLabelReads(labels[1], "Set", phaseIndex - 6);
    AgreeTwo(labels, groups);
  }

  /** Outside phases 0 to 9 the single label "Unknown" has no number. */
  lemma UnknownLabel(phaseIndex: int)
    requires phaseIndex < 0 || phaseIndex >= 10
    ensures Requirements(phaseIndex) == ["Unknown"]
    ensures FirstNumber("Unknown") == None
  {
    NoDigitsNoNumber("Unknown");
  }

  // ---------------------------------------------------------------------
  // Wild options
  // ---------------------------------------------------------------------

  /** `Array.from({ length: 12 }, (_, i) => i + 1)` */
  function OneToTwelve(): (r: seq<int>)
    ensures |r| == 12 && forall k :: 0 <= k < 12 ==> r[k] == k + 1
  {
    seq(12, k => k + 1)
  }

  /** `group.filter(card => card.type === 'number')` */
  function NumberCards(group: seq<Card>): (r: seq<Card>)
    ensures forall c :: c in r ==> c.face.Number?
  {
    if group == [] then []
    else (if group[0].face.Number? then [group[0]] else []) + NumberCards(group[1..])
  }

  lemma {:induction false} NumberCardsMembers(group: seq<Card>)
    ensures forall c :: c in NumberCards(group) <==> c in group && c.face.Number?
  {
    if group != [] {
      NumberCardsMembers(group[1..]);
      assert group == [group[0]] + group[1..];
    }
  }

  /** `groupCards.map(card => card.value)` */
  function ValuesOf(cards: seq<Card>): (vs: seq<int>)
    requires forall c :: c in cards ==> c.face.Number?
    ensures |vs| == |cards| && forall k :: 0 <= k < |cards| ==> vs[k] == cards[k].face.value
  {
    seq(|cards|, k requires 0 <= k < |cards| => cards[k].face.value)
  }

  predicate Ascending(s: seq<int>) {
    forall i, j :: 0 <= i < j < |s| ==> s[i] <= s[j]
  }

  /** Ascending with no value twice. */
  predicate StrictlyAscending(s: seq<int>) {
    forall i, j :: 0 <= i < j < |s| ==> s[i] < s[j]
  }

  predicate NoRepeats(s: seq<int>) {
    forall i, j :: 0 <= i < j < |s| ==> s[i] != s[j]
  }

  /** Insert into an ascending sequence before the first larger-or-equal
      element. */
  function InsertInt(x: int, s: seq<int>): seq<int> {
    if s == [] || x <= s[0] then [x] + s else [s[0]] + InsertInt(x, s[1..])
  }

  /** `sort((a, b) => a - b)`: numeric ascending order. */
  function SortInts(s: seq<int>): seq<int> {
    if s == [] then [] else InsertInt(s[0], SortInts(s[1..]))
  }

  /** Putting a value no larger than the head in front keeps a sequence
      ascending. */
  lemma PrependAscending(x: int, s: seq<int>)
    requires Ascending(s) && (s == [] || x <= s[0])
    ensures Ascending([x] + s)
  {
    var out := [x] + s;
    forall i, j | 0 <= i < j < |out| ensures out[i] <= out[j] {
      if i == 0 {
        assert out[j] == s[j - 1] && s[0] <= s[j - 1];
      } else {
        assert out[i] == s[i - 1] && out[j] == s[j - 1];
      }
    }
  }

  lemma {:induction false} InsertIntCount(x: int, s: seq<int>)
    ensures multiset(InsertInt(x, s)) == multiset{x} + multiset(s)
  {
    if s != [] && x > s[0] {
      InsertIntCount(x, s[1..]);
      assert s == [s[0]] + s[1..];
    }
  }

  lemma {:induction false} InsertIntFacts(x: int, s: seq<int>)
    requires Ascending(s)
    ensures Ascending(InsertInt(x, s))
    ensures multiset(InsertInt(x, s)) == multiset{x} + multiset(s)
  {
    InsertIntCount(x, s);
    if s == [] || x <= s[0] {
      PrependAscending(x, s);
    } else {
      var t := s[1..];
      assert Ascending(t);
      InsertIntFacts(x, t);
      var r := InsertInt(x, t);
      assert r[0] in multiset(r);
      assert r[0] == x || r[0] in t;
      PrependAscending(s[0], r);
    }
  }

  /** The sorted sequence is ascending and holds the same values. */
  lemma {:induction false} SortIntsFacts(s: seq<int>)
    ensures Ascending(SortInts(s))
    ensures multiset(SortInts(s)) == multiset(s)
  {
    if s != [] {
      SortIntsFacts(s[1..]);
      InsertIntFacts(s[0], SortInts(s[1..]));
      assert s == [s[0]] + s[1..];
    }
  }

  /** Putting a value below the head in front keeps a sequence strictly
      ascending. */
  lemma PrependStrict(x: int, s: seq<int>)
    requires StrictlyAscending(s) && (s == [] || x < s[0])
    ensures StrictlyAscending([x] + s)
  {
    var out := [x] + s;
    forall i, j | 0 <= i < j < |out| ensures out[i] < out[j] {
      if i == 0 {
        assert out[j] == s[j - 1] && s[0] <= s[j - 1];
      } else {
        assert out[i] == s[i - 1] && out[j] == s[j - 1];
      }
    }
  }

  /** Inserting a new value into a strictly ascending sequence keeps it
      strictly ascending. */
  lemma {:induction false} InsertStrict(x: int, s: seq<int>)
    requires StrictlyAscending(s) && x !in s
    ensures StrictlyAscending(InsertInt(x, s))
  {
    if s == [] || x <= s[0] {
      PrependStrict(x, s);
    } else {
      var t := s[1..];
      assert StrictlyAscending(t) && x !in t;
      InsertStrict(x, t);
      InsertIntCount(x, t);
      var r := InsertInt(x, t);
      assert r[0] in multiset(r);
      assert r[0] == x || r[0] in t;
      PrependStrict(s[0], r);
    }
  }

  /** Sorting values none of which repeats gives a strictly ascending
      sequence. */
  lemma {:induction false} SortStrict(s: seq<int>)
    requires NoRepeats(s)
    ensures StrictlyAscending(SortInts(s))
  {
    if s != [] {
      var t := s[1..];
      assert NoRepeats(t);
      SortStrict(t);
      SortIntsFacts(t);
      assert s[0] !in t;
      assert s[0] !in multiset(SortInts(t));
      InsertStrict(s[0], SortInts(t));
    }
  }

  /** Two repeat-free sequences with no value in common concatenate to
      a repeat-free one. */
  lemma ConcatNoRepeats(a: seq<int>, b: seq<int>)
    requires NoRepeats(a) && NoRepeats(b)
    requires forall x :: x in a ==> x !in b
    ensures NoRepeats(a + b)
  {
    var ab := a + b;
    forall i, j | 0 <= i < j < |ab| ensures ab[i] != ab[j] {
      if j < |a| {
        assert ab[i] == a[i] && ab[j] == a[j];
      } else if i < |a| {
        assert ab[i] in a && ab[j] == b[j - |a|];
      } else {
        assert ab[i] == b[i - |a|] && ab[j] == b[j - |a|];
      }
    }
  }

  function Least(s: seq<int>): (m: int)
    requires |s| > 0
    ensures m in s && forall v :: v in s ==> m <= v
  {
    if |s| == 1 then s[0]
    else
      var r := Least(s[1..]);
      assert s == [s[0]] + s[1..];
      if s[0] <= r then s[0] else r
  }

  function Greatest(s: seq<int>): (m: int)
    requires |s| > 0
    ensures m in s && forall v :: v in s ==> v <= m
  {
    if |s| == 1 then s[0]
    else
      var r := Greatest(s[1..]);
      assert s == [s[0]] + s[1..];
      if s[0] >= r then s[0] else r
  }

  /** A value a wild may take in a run holding `values`: one below the
      smallest (if that is at least 1), one above the largest (if at most
      12), or a missing value strictly between them. */
  predicate IsRunOption(values: seq<int>, x: int)
    requires |values| > 0
  {
    var lo, hi := Least(values), Greatest(values);
    (x == lo - 1 && lo > 1) || (x == hi + 1 && hi < 12) || (lo < x < hi && x !in values)
  }

  /** The ends of a sorted copy are the least and greatest value. */
  lemma SortedEnds(s: seq<int>)
    requires |s| > 0
    ensures |SortInts(s)| == |s|
    ensures SortInts(s)[0] == Least(s) && SortInts(s)[|s| - 1] == Greatest(s)
    ensures forall x :: x in SortInts(s) <==> x in s
  {
    var t := SortInts(s);
    SortIntsFacts(s);
    SameMembers(t, s);
    assert |t| == |multiset(t)| == |s|;
    LeastOfAscending(t, s, Least(s));
    GreatestOfAscending(t, s, Greatest(s));
  }

  lemma SameMembers(t: seq<int>, s: seq<int>)
    requires multiset(t) == multiset(s)
    ensures forall x :: x in t <==> x in s
  {
    forall x ensures x in t <==> x in s {
      assert x in t <==> x in multiset(t);
      assert x in s <==> x in multiset(s);
    }
  }

  lemma LeastOfAscending(t: seq<int>, s: seq<int>, m: int)
    requires Ascending(t) && |t| > 0
    requires forall x :: x in t <==> x in s
    requires m in s && forall v :: v in s ==> m <= v
    ensures t[0] == m
  {
    assert t[0] in s;
    var k :| 0 <= k < |t| && t[k] == m;
    assert t[0] <= t[k];
  }

  lemma GreatestOfAscending(t: seq<int>, s: seq<int>, m: int)
    requires Ascending(t) && |t| > 0
    requires forall x :: x in t <==> x in s
    requires m in s && forall v :: v in s ==> v <= m
    ensures t[|t| - 1] == m
  {
    assert t[|t| - 1] in s;
    var k :| 0 <= k < |t| && t[k] == m;
    assert t[k] <= t[|t| - 1];
  }

  /** No value lies strictly between two neighbours of an ascending
      sequence. */
  lemma GapIsMissing(s: seq<int>, i: int, x: int)
    requires Ascending(s) && 0 < i < |s| && s[i - 1] < x < s[i]
    ensures x !in s
  {
    forall k | 0 <= k < |s| ensures s[k] != x {
      if k < i { assert s[k] <= s[i - 1]; } else { assert s[i] <= s[k]; }
    }
  }

  /** The gap loop of the run branch: every value missing strictly
      inside an ascending run. */
  method GapValues(values: seq<int>) returns (gaps: seq<int>)
    requires |values| > 0 && Ascending(values)
    ensures StrictlyAscending(gaps)
    ensures forall x :: x in gaps <==> values[0] < x < values[|values| - 1] && x !in values
  {
    gaps := [];
    var i := 1;
    while i < |values|
      invariant 1 <= i <= |values|
      invariant StrictlyAscending(gaps)
      invariant forall x :: x in gaps <==> values[0] < x < values[i - 1] && x !in values
    {
      if values[i] - values[i - 1] > 1 {
        var j := values[i - 1] + 1;
        while j < values[i]
          invariant values[i - 1] < j <= values[i]
          invariant StrictlyAscending(gaps)
          invariant forall x :: x in gaps <==>
            (values[0] < x < values[i - 1] && x !in values) || (values[i - 1] < x < j)
        {
          assert forall k :: 0 <= k < |gaps| ==> gaps[k] in gaps;
          gaps := gaps + [j];
          j := j + 1;
        }
      }
      forall x | values[i - 1] < x < values[i] ensures x !in values {
        GapIsMissing(values, i, x);
      }
      assert values[0] <= values[i - 1] && values[i - 1] in values;
      i := i + 1;
    }
  }

  /** The run branch of `getWildOptions`: the options next to and inside
      the run, each once, in ascending order. */
  method RunOptions(groupValues: seq<int>) returns (options: seq<int>)
    requires |groupValues| > 0
    ensures StrictlyAscending(options)
    ensures forall x :: x in options <==> IsRunOption(groupValues, x)
  {
    var values := SortInts(groupValues);
    SortedEnds(groupValues);
    SortIntsFacts(groupValues);
    var min := values[0];
    var max := values[|values| - 1];
    var found := [];
    if min > 1 {
      found := found + [min - 1];
    }
    if max < 12 {
      found := found + [max + 1];
    }
    assert forall x :: x in found <==> (x == min - 1 && min > 1) || (x == max + 1 && max < 12);
    var gaps := GapValues(values);
    assert NoRepeats(found) && NoRepeats(gaps);
    ConcatNoRepeats(found, gaps);
    found := found + gaps;
    options := SortInts(found);
    SortIntsFacts(found);
    SortStrict(found);
    SameMembers(options, found);
    forall x ensures x in options <==> IsRunOption(groupValues, x) {
      assert x in values <==> x in groupValues;
    }
  }

  /** `getWildOptions` for a group and its requirement label. */
  method WildOptions(group: seq<Card>, requirement: string) returns (options: seq<int>)
    ensures var numbers := NumberCards(group);
      match RuleOf(requirement)
      case SetRule => options == (if |numbers| > 0 then [numbers[0].face.value] else OneToTwelve())
      case RunRule =>
        if |numbers| == 0 then options == OneToTwelve()
        else StrictlyAscending(options) && forall x :: x in options <==> IsRunOption(ValuesOf(numbers), x)
      case ColorRule => options == []
      case AnyRule => options == OneToTwelve()
  {
    var groupCards := NumberCards(group);
    if StartsWith(requirement, "Set") {
      if |groupCards| > 0 {
        return [groupCards[0].face.value];
      }
      return OneToTwelve();
    }
    if StartsWith(requirement, "Run") {
      if |groupCards| == 0 {
        return OneToTwelve();
      }
      options := RunOptions(ValuesOf(groupCards));
      return;
    }
    if Contains(requirement, "color") {
      return [];
    }
    return OneToTwelve();
  }

  /** Over a run of card values (1 to 12), every option lies in 1 to 12
      and is not already in the run. */
  lemma OptionsStayNearRun(values: seq<int>, x: int)
    requires |values| > 0
    requires forall v :: v in values ==> 1 <= v <= 12
    requires IsRunOption(values, x)
    ensures 1 <= x <= 12
    ensures x !in values
  {
  }

  // ---------------------------------------------------------------------
  // Completeness
  // ---------------------------------------------------------------------

  /** `wildAssignments`: a value per wild id. */
  type Assignments = map<Option<nat>, int>

  /** Every wild in the group has an assignment. */
  predicate WildsAssigned(group: seq<Card>, assignments: Assignments) {
    forall k :: 0 <= k < |group| && IsWild(group[k]) ==> group[k].id in assignments
  }

  /** `isPhaseComplete()` from group `i` on; `None` where reading the label
      fails (a missing label, or one with no digit). */
  function CompleteFrom(groups: seq<seq<Card>>, labels: seq<string>, assignments: Assignments, i: nat): Option<bool>
    decreases |groups| - i
  {
    if i >= |groups| then Some(true)
    else if i >= |labels| || FirstNumber(labels[i]).None? then None
    else if |groups[i]| != FirstNumber(labels[i]).value then Some(false)
    else if !Contains(labels[i], "color") && !WildsAssigned(groups[i], assignments) then Some(false)
    else CompleteFrom(groups, labels, assignments, i + 1)
  }

  /** Group `i` has its label's length and, unless it is a colour group,
      every wild assigned. */
  predicate GroupComplete(group: seq<Card>, text: string, assignments: Assignments) {
    FirstNumber(text) == Some(|group|) &&
    (!Contains(text, "color") ==> WildsAssigned(group, assignments))
  }

  /** The loop of `isPhaseComplete`, with its early returns. */
  method IsPhaseComplete(groups: seq<seq<Card>>, labels: seq<string>, assignments: Assignments) returns (r: Option<bool>)
    ensures r == CompleteFrom(groups, labels, assignments, 0)
  {
    var i := 0;
    while i < |groups|
      invariant 0 <= i <= |groups|
      invariant CompleteFrom(groups, labels, assignments, 0) == CompleteFrom(groups, labels, assignments, i)
    {
      if i >= |labels| {
        return None;
      }
      var count := FirstNumber(labels[i]);
      if count.None? {
        return None;
      }
      if |groups[i]| != count.value {
        return Some(false);
      }
      var wilds := WildsOf(groups[i]);
      WildsOfFacts(groups[i]);
      var unassigned := exists k :: 0 <= k < |wilds| && wilds[k].id !in assignments;
      if !Contains(labels[i], "color") && unassigned {
        var k :| 0 <= k < |wilds| && wilds[k].id !in assignments;
        assert wilds[k] in groups[i];
        return Some(false);
      }
      assert !Contains(labels[i], "color") ==> WildsAssigned(groups[i], assignments) by {
        if !Contains(labels[i], "color") {
          forall k | 0 <= k < |groups[i]| && IsWild(groups[i][k]) ensures groups[i][k].id in assignments {
            var w := groups[i][k];
            assert w in wilds;
          }
        }
      }
      i := i + 1;
    }
    return Some(true);
  }

  /** Group `k` has a label, and is complete against it. */
  predicate CompleteAt(groups: seq<seq<Card>>, labels: seq<string>, assignments: Assignments, k: nat)
    requires k < |groups|
  {
    k < |labels| && GroupComplete(groups[k], labels[k], assignments)
  }

  /** The check answers true exactly when every group is complete, and
      fails only at a group with no readable label before any group that
      is found incomplete. */
  lemma {:induction false} CompleteFromMeaning(groups: seq<seq<Card>>, labels: seq<string>, assignments: Assignments, i: nat)
    requires i <= |groups|
    ensures CompleteFrom(groups, labels, assignments, i) == Some(true) <==>
      forall k: nat :: i <= k < |groups| ==> CompleteAt(groups, labels, assignments, k)
    ensures CompleteFrom(groups, labels, assignments, i) == None ==>
      exists k :: i <= k < |groups| && (k >= |labels| || FirstNumber(labels[k]).None?)
    decreases |groups| - i
  {
    if i < |groups| {
      CompleteFromMeaning(groups, labels, assignments, i + 1);
      if i >= |labels| || FirstNumber(labels[i]).None? {
        assert CompleteFrom(groups, labels, assignments, i) == None;
        assert !CompleteAt(groups, labels, assignments, i);
      } else if !CompleteAt(groups, labels, assignments, i) {
        assert CompleteFrom(groups, labels, assignments, i) == Some(false);
      } else {
        assert CompleteFrom(groups, labels, assignments, i) == CompleteFrom(groups, labels, assignments, i + 1);
        if CompleteFrom(groups, labels, assignments, i + 1) == None {
          var k :| i + 1 <= k < |groups| && (k >= |labels| || FirstNumber(labels[k]).None?);
          assert i <= k;
        }
      }
    }
  }

  /** With the dialog's own labels and groups shaped as it opens them, the
      check never fails for phases 0 to 9; for any other phase it fails. */
  lemma CompleteForTable(phaseIndex: int, groups: seq<seq<Card>>, assignments: Assignments)
    requires |groups| == |InitialGroups(phaseIndex)|
    ensures 0 <= phaseIndex < 10 ==> CompleteFrom(groups, Requirements(phaseIndex), assignments, 0).Some?
    ensures (phaseIndex < 0 || phaseIndex >= 10) ==> CompleteFrom(groups, Requirements(phaseIndex), assignments, 0) == None
  {
    CompleteFromMeaning(groups, Requirements(phaseIndex), assignments, 0);
    if 0 <= phaseIndex < 10 {
      LabelsMatchServer(phaseIndex);
    } else {
      UnknownLabel(phaseIndex);
    }
  }

  // ---------------------------------------------------------------------
  // Submission and the remaining hand
  // ---------------------------------------------------------------------

  /** A submitted card: a wild with an assignment carries it as
      `assignedValue`; every other card is sent as it is.  The spread
      `{...card, assignedValue}` builds a new object, but no code compares
      it with the hand's objects: the array goes straight into the
      `layPhase` event, is serialized, and the server reads each record
      only through its kind, value and colour (`AsRequest`).  The model
      therefore keeps the card's `ref`, which names the hand card the
      record was made from. */
  function Stamped(c: Card, assignments: Assignments): Card {
    if IsWild(c) && c.id in assignments then c.(face := Wild(Some(assignments[c.id]))) else c
  }

  function StampAll(cards: seq<Card>, assignments: Assignments): (r: seq<Card>)
    ensures |r| == |cards|
    ensures forall k :: 0 <= k < |cards| ==> r[k] == Stamped(cards[k], assignments)
  {
    if cards == [] then [] else [Stamped(cards[0], assignments)] + StampAll(cards[1..], assignments)
  }

  /** `handleSubmit`'s `cardsWithAssignments`. */
  function Submission(groups: seq<seq<Card>>, assignments: Assignments): seq<Card> {
    StampAll(Flatten(groups), assignments)
  }

  /** The submission lists the grouped cards in order; exactly the
      assigned wilds change, and only their assigned value, so the server
      matches each submitted card against the same hand cards. */
  lemma SubmissionFacts(groups: seq<seq<Card>>, assignments: Assignments)
    ensures var flat, r := Flatten(groups), Submission(groups, assignments);
      |r| == |flat| &&
      (forall k :: 0 <= k < |flat| ==>
        r[k].ref == flat[k].ref && r[k].id == flat[k].id && AsRequest(r[k]) == AsRequest(flat[k])) &&
      (forall k :: 0 <= k < |flat| && IsWild(flat[k]) && flat[k].id in assignments ==>
        r[k].face == Wild(Some(assignments[flat[k].id]))) &&
      (forall k :: 0 <= k < |flat| && !(IsWild(flat[k]) && flat[k].id in assignments) ==> r[k] == flat[k])
  {
  }

  /** The ids of the cards placed in the groups. */
  function PlacedIds(groups: seq<seq<Card>>): set<Option<nat>> {
    set c | c in Flatten(groups) :: c.id
  }

  /** `hand.filter(card => !placedCardIds.has(card.id))` */
  function Unplaced(hand: seq<Card>, placed: set<Option<nat>>): seq<Card> {
    if hand == [] then []
    else (if hand[0].id in placed then [] else [hand[0]]) + Unplaced(hand[1..], placed)
  }

  /** `getRemainingHand()` */
  function RemainingHand(hand: seq<Card>, groups: seq<seq<Card>>): seq<Card> {
    Unplaced(hand, PlacedIds(groups))
  }

  lemma {:induction false} UnplacedAppend(a: seq<Card>, b: seq<Card>, placed: set<Option<nat>>)
    ensures Unplaced(a + b, placed) == Unplaced(a, placed) + Unplaced(b, placed)
  {
    if a == [] {
      assert a + b == b;
    } else {
      assert (a + b)[1..] == a[1..] + b;
      UnplacedAppend(a[1..], b, placed);
    }
  }

  lemma {:induction false} UnplacedMembers(hand: seq<Card>, placed: set<Option<nat>>)
    ensures forall c :: c in Unplaced(hand, placed) <==> c in hand && c.id !in placed
  {
    if hand != [] {
      UnplacedMembers(hand[1..], placed);
      assert hand == [hand[0]] + hand[1..];
    }
  }

  /** The remaining hand keeps exactly the hand cards whose id no placed
      card shares, in hand order (it distributes over concatenation). */
  lemma RemainingHandFacts(hand: seq<Card>, more: seq<Card>, groups: seq<seq<Card>>)
    ensures forall c :: c in RemainingHand(hand, groups) <==>
      c in hand && forall p :: p in Flatten(groups) ==> p.id != c.id
    ensures RemainingHand(hand + more, groups) == RemainingHand(hand, groups) + RemainingHand(more, groups)
  {
    UnplacedMembers(hand, PlacedIds(groups));
    UnplacedAppend(hand, more, PlacedIds(groups));
    forall c | c in hand && c.id in PlacedIds(groups) ensures exists p :: p in Flatten(groups) && p.id == c.id {
      var p :| p in Flatten(groups) && p.id == c.id;
    }
  }

  /** Cards from the server carry no id, so placing one of them hides
      every id-less card of the hand. */
  lemma PlacingIdlessHidesAll(hand: seq<Card>, groups: seq<seq<Card>>, c: Card)
    requires c in Flatten(groups) && c.id == None
    ensures forall h :: h in hand && h.id == None ==> h !in RemainingHand(hand, groups)
  {
    UnplacedMembers(hand, PlacedIds(groups));
    assert None in PlacedIds(groups);
  }
}
