/**
 * The table of the ten phases, `validateMixed` and the entry point
 * `validatePhase`.
 */
module Phases {
  import opened Cards
  import SetMatcher
  import RunMatcher
  import ColorMatcher

  /** What a phase asks for: the `validate` closure of a `PHASES` entry. */
  datatype Requirement =
    | Sets(setLengths: seq<int>)
    | Runs(runLengths: seq<int>)
    | OneColor(count: int)
    | Mixed(sets: seq<int>, runs: seq<int>)

  /** `PHASES`, in order. */
  const PHASES: seq<Requirement> := [
    Sets([3, 3]),
    Mixed([3], [4]),
    Mixed([4], [4]),
    Runs([7]),
    Runs([8]),
    Runs([9]),
    Sets([4, 4]),
    OneColor(7),
    Sets([5, 2]),
    Sets([5, 3])
  ]

  // ---------------------------------------------------------------------
  // Removing the cards the sets used, by reference
  // ---------------------------------------------------------------------

  /** `cards.findIndex(c => c === card)` */
  function FindRef(cards: seq<Card>, card: Card): (r: Option<nat>)
    ensures r.Some? ==> r.value < |cards| && cards[r.value] == card
    ensures r.Some? ==> forall j :: 0 <= j < r.value ==> cards[j] != card
    ensures r.None? ==> card !in cards
  {
    if cards == [] then None
    else if cards[0] == card then Some(0)
    else
      match FindRef(cards[1..], card)
      case None => None
      case Some(i) => Some(i + 1)
  }

  /** The indices `usedInSets` collects for the cards `xs`: the first
      position of each of them in `cards`. */
  function UsedBy(cards: seq<Card>, xs: seq<Card>): set<nat> {
    set x | x in xs && FindRef(cards, x).Some? :: FindRef(cards, x).value
  }

  /** `cards.filter((_, i) => !used.has(i))` */
  function Unused(cards: seq<Card>, used: set<nat>): (r: seq<Card>)
    ensures |r| <= |cards|
  {
    if cards == [] then []
    else
      var n := |cards| - 1;
      Unused(cards[..n], used) + (if n in used then [] else [cards[n]])
  }

  /** `remainingCards`: the input without the positions the set groups'
      cards were found at (skips included). */
  function LeftForRuns(cards: seq<Card>, setGroups: seq<seq<Card>>): seq<Card> {
    Unused(cards, UsedBy(cards, Flatten(setGroups)))
  }

  /** What `validateMixed(cards, { sets, runs })` returns: sets on the cards
      other than skips, then runs on the cards the sets left. */
  function MixedVerdict(cards: seq<Card>, sets: seq<int>, runs: seq<int>): Verdict {
    var setResult := SetMatcher.SetsVerdict(NonSkips(cards), sets);
    if !setResult.ok then Reject
    else
      var remaining := LeftForRuns(cards, setResult.groups);
      var runResult := RunMatcher.RunsVerdict(remaining, runs);
      if !runResult.ok then Reject
      else Verdict(true, setResult.groups + runResult.groups)
  }

  /** What a requirement's `validate(cards)` returns. */
  function RequirementVerdict(req: Requirement, cards: seq<Card>): Verdict {
    match req
    case Sets(lengths) => SetMatcher.SetsVerdict(cards, lengths)
    case Runs(lengths) => RunMatcher.RunsVerdict(cards, lengths)
    case OneColor(count) => ColorMatcher.ColorVerdict(cards, count)
    case Mixed(sets, runs) => MixedVerdict(cards, sets, runs)
  }

  /** What `validatePhase(phaseIndex, cards)` returns. */
  function PhaseVerdict(phaseIndex: int, cards: seq<Card>): Verdict {
    if phaseIndex < 0 || phaseIndex >= |PHASES| then Reject
    else RequirementVerdict(PHASES[phaseIndex], cards)
  }

  // ---------------------------------------------------------------------
  // The code as the source runs it
  // ---------------------------------------------------------------------

  /** The nested `forEach` that fills `usedInSets`. */
  method MarkUsed(cards: seq<Card>, groups: seq<seq<Card>>) returns (used: set<nat>)
    ensures used == UsedBy(cards, Flatten(groups))
  {
    used := {};
    var g := 0;
    while g < |groups|
      invariant 0 <= g <= |groups|
      invariant used == UsedBy(cards, Flatten(groups[..g]))
    {
      var group := groups[g];
      var k := 0;
      while k < |group|
        invariant 0 <= k <= |group|
        invariant used == UsedBy(cards, Flatten(groups[..g]) + group[..k])
      {
        var index := FindRef(cards, group[k]);
        UsedByPush(cards, Flatten(groups[..g]) + group[..k], group[k]);
        assert group[..k + 1] == group[..k] + [group[k]];
        assert Flatten(groups[..g]) + group[..k + 1] == (Flatten(groups[..g]) + group[..k]) + [group[k]];
        if index.Some? {
          used := used + {index.value};
        }
        k := k + 1;
      }
      assert group[..k] == group;
      FlattenSnoc(groups, g);
      g := g + 1;
    }
    assert groups[..g] == groups;
  }

  lemma UsedByPush(cards: seq<Card>, xs: seq<Card>, x: Card)
    ensures UsedBy(cards, xs + [x]) ==
      UsedBy(cards, xs) + (if FindRef(cards, x).Some? then {FindRef(cards, x).value} else {})
  {
  }

  lemma FlattenSnoc(groups: seq<seq<Card>>, g: nat)
    requires g < |groups|
    ensures Flatten(groups[..g + 1]) == Flatten(groups[..g]) + groups[g]
  {
    assert groups[..g + 1] == groups[..g] + [groups[g]];
    FlattenAppend(groups[..g], [groups[g]]);
    assert Flatten([groups[g]]) == groups[g] + Flatten([]);
  }

  /** `validateMixed(cards, { sets, runs })` */
  method ValidateMixed(cards: seq<Card>, sets: seq<int>, runs: seq<int>) returns (r: Verdict)
    ensures r == MixedVerdict(cards, sets, runs)
  {
    var cardsCopy := cards;
    var cardsForSets := NonSkips(cardsCopy);
    var setResult := SetMatcher.ValidateSets(cardsForSets, sets);
    if !setResult.ok {
      return Reject;
    }
    var usedInSets := MarkUsed(cardsCopy, setResult.groups);
    var remainingCards := Unused(cardsCopy, usedInSets);
    assert remainingCards == LeftForRuns(cards, setResult.groups);
    var runResult := RunMatcher.ValidateRuns(remainingCards, runs);
    if !runResult.ok {
      return Reject;
    }
    r := Verdict(true, setResult.groups + runResult.groups);
  }

  /** `validatePhase(phaseIndex, cards)` */
  method ValidatePhase(phaseIndex: int, cards: seq<Card>) returns (r: Verdict)
    ensures r == PhaseVerdict(phaseIndex, cards)
  {
    if phaseIndex < 0 || phaseIndex >= |PHASES| {
      return Reject;
    }
    match PHASES[phaseIndex]
    case Sets(lengths) => r := SetMatcher.ValidateSets(cards, lengths);
    case Runs(lengths) => r := RunMatcher.ValidateRuns(cards, lengths);
    case OneColor(count) => r := ColorMatcher.ValidateColor(cards, count);
    case Mixed(sets, runs) => r := ValidateMixed(cards, sets, runs);
  }

  // ---------------------------------------------------------------------
  // Properties
  // ---------------------------------------------------------------------

  /** No card object occurs twice in the array. */
  predicate DistinctCards(cards: seq<Card>) {
    forall i, j :: 0 <= i < j < |cards| ==> cards[i] != cards[j]
  }

  /** A position is marked used exactly when its card is among `xs` and no
      earlier position holds the same card. */
  lemma UsedByMembers(cards: seq<Card>, xs: seq<Card>, i: int)
    ensures i in UsedBy(cards, xs) <==>
      0 <= i < |cards| && cards[i] in xs && forall j :: 0 <= j < i ==> cards[j] != cards[i]
  {
    if 0 <= i < |cards| && cards[i] in xs && forall j :: 0 <= j < i ==> cards[j] != cards[i] {
      assert FindRef(cards, cards[i]) == Some(i);
    }
  }

  /** The filter keeps exactly the cards at unmarked positions, in order. */
  lemma {:induction false} UnusedMembers(cards: seq<Card>, used: set<nat>)
    ensures forall x :: x in Unused(cards, used) <==>
      exists i :: 0 <= i < |cards| && i !in used && cards[i] == x
    ensures multiset(Unused(cards, used)) <= multiset(cards)
  {
    if cards != [] {
      var n := |cards| - 1;
      UnusedMembers(cards[..n], used);
      assert cards == cards[..n] + [cards[n]];
      forall x ensures x in Unused(cards, used) <==> exists i :: 0 <= i < |cards| && i !in used && cards[i] == x {
        if x in Unused(cards, used) && x !in Unused(cards[..n], used) {
          assert n !in used && cards[n] == x;
        }
        if x !in Unused(cards, used) {
          forall i | 0 <= i < |cards| && i !in used ensures cards[i] != x {
            if i < n { assert cards[..n][i] == cards[i]; }
          }
        }
      }
    }
  }

  /** When no card object occurs twice, the cards left for the runs are
      exactly the input's cards that no set group holds. */
  lemma LeftForRunsFacts(cards: seq<Card>, setGroups: seq<seq<Card>>)
    requires DistinctCards(cards)
    ensures forall x :: x in LeftForRuns(cards, setGroups) <==> x in cards && x !in Flatten(setGroups)
    ensures multiset(LeftForRuns(cards, setGroups)) <= multiset(cards)
  {
    var xs := Flatten(setGroups);
    var used := UsedBy(cards, xs);
    UnusedMembers(cards, used);
    forall i | 0 <= i < |cards| ensures i in used <==> cards[i] in xs {
      UsedByMembers(cards, xs, i);
    }
  }

  /** `validateMixed` fails with no groups when the sets fail or the runs
      fail; otherwise it returns the set groups followed by the run groups,
      one per requested set and run. */
  lemma MixedShape(cards: seq<Card>, sets: seq<int>, runs: seq<int>)
    ensures var setResult := SetMatcher.SetsVerdict(NonSkips(cards), sets);
      var r := MixedVerdict(cards, sets, runs);
      && (!setResult.ok ==> r == Reject)
      && (r.ok ==> setResult.ok && |r.groups| == |sets| + |runs| && r.groups[..|sets|] == setResult.groups)
      && (r.ok ==> var runResult := RunMatcher.RunsVerdict(LeftForRuns(cards, setResult.groups), runs);
            runResult.ok && r.groups[|sets|..] == runResult.groups)
      && (!r.ok ==> r == Reject)
  {
    var setResult := SetMatcher.SetsVerdict(NonSkips(cards), sets);
    SetMatcher.SetsShape(NonSkips(cards), sets);
    if setResult.ok {
      RunMatcher.RunsShape(LeftForRuns(cards, setResult.groups), runs);
    }
  }

  /** Groups drawn from the cards the sets left hold none of the sets' cards. */
  lemma LeftOnlyUnused(cards: seq<Card>, setGroups: seq<seq<Card>>, runGroups: seq<seq<Card>>)
    requires DistinctCards(cards)
    requires forall x :: x in Flatten(runGroups) ==> x in LeftForRuns(cards, setGroups)
    ensures forall x :: x in Flatten(runGroups) ==> x in cards && x !in Flatten(setGroups)
  {
    LeftForRunsFacts(cards, setGroups);
  }

  /** When no card object occurs twice, the run groups of a successful
      `validateMixed` (its groups after the set groups, by `MixedShape`)
      hold only input cards, and none that a set group holds: the sets and
      the runs never share a card. */
  lemma MixedDisjoint(cards: seq<Card>, sets: seq<int>, runs: seq<int>)
    requires DistinctCards(cards)
    ensures var setResult := SetMatcher.SetsVerdict(NonSkips(cards), sets);
      var runResult := RunMatcher.RunsVerdict(LeftForRuns(cards, setResult.groups), runs);
      MixedVerdict(cards, sets, runs).ok ==>
        forall x :: x in Flatten(runResult.groups) ==> x in cards && x !in Flatten(setResult.groups)
  {
    var setGroups := SetMatcher.SetsVerdict(NonSkips(cards), sets).groups;
    var remaining := LeftForRuns(cards, setGroups);
    RunMatcher.RunsMembers(remaining, runs);
    if RunMatcher.RunsVerdict(remaining, runs).ok {
      LeftOnlyUnused(cards, setGroups, RunMatcher.RunsVerdict(remaining, runs).groups);
    }
  }

  /** How many groups a requirement's groups come in. */
  function GroupCount(req: Requirement): nat {
    match req
    case Sets(lengths) => |lengths|
    case Runs(lengths) => |lengths|
    case OneColor(_) => 1
    case Mixed(sets, runs) => |sets| + |runs|
  }

  /** `validatePhase` rejects every index outside 0..9 without validating;
      within range it is all-or-nothing, and on success it returns as many
      groups as the phase asks for. */
  lemma PhaseShape(phaseIndex: int, cards: seq<Card>)
    ensures phaseIndex < 0 || phaseIndex >= 10 ==> PhaseVerdict(phaseIndex, cards) == Reject
    ensures var r := PhaseVerdict(phaseIndex, cards);
      if r.ok then 0 <= phaseIndex < 10 && |r.groups| == GroupCount(PHASES[phaseIndex]) else r == Reject
  {
    if 0 <= phaseIndex < |PHASES| {
      RequirementShape(PHASES[phaseIndex], cards);
    }
  }

  /** Every requirement is all-or-nothing and, on success, returns as many
      groups as it asks for. */
  lemma RequirementShape(req: Requirement, cards: seq<Card>)
    ensures var r := RequirementVerdict(req, cards);
      if r.ok then |r.groups| == GroupCount(req) else r == Reject
  {
    match req
    case Sets(lengths) => SetMatcher.SetsShape(cards, lengths);
    case Runs(lengths) => RunMatcher.RunsShape(cards, lengths);
    case OneColor(count) =>
      ColorMatcher.ColorOk(cards, count);
      if ColorMatcher.ColorVerdict(cards, count).ok {
        ColorMatcher.ColorGroupCards(cards, count);
      }
    case Mixed(sets, runs) => MixedShape(cards, sets, runs);
  }
}
