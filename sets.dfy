/**
 * `validateSets`: build one set per requested length from number cards of a
 * single value plus wilds.  Candidate values are tried in order of how many
 * cards the player holds of them (most first, ties to the lower value); the
 * first value whose shortfall the remaining wilds cover is taken and marked
 * used.  Every set takes its wilds from the front of the whole wild list, so
 * two sets may name the same wild, and a value held more often than the
 * length asks for gives a negative shortfall.
 */
module SetMatcher {
  import opened Cards

  // ---------------------------------------------------------------------
  // Counting cards per value (the `valueCounts` object)
  // ---------------------------------------------------------------------

  /** `valueCounts` after the counting loop has seen `cards`. */
  function Tally(cards: seq<Card>): map<CardValue, nat>
    decreases |cards|
  {
    if cards == [] then map[]
    else
      var m := Tally(cards[..|cards| - 1]);
      var c := cards[|cards| - 1];
      if c.face.Number? then m[c.face.value := (if c.face.value in m then m[c.face.value] else 0) + 1]
      else m
  }

  /** One step of the counting loop, as seen from one value. */
  lemma TallyStep(cards: seq<Card>, v: CardValue)
    requires cards != []
    ensures var m := Tally(cards[..|cards| - 1]);
      var hit := IsNumberOf(cards[|cards| - 1], v);
      && (v in Tally(cards) <==> v in m || hit)
      && (v in Tally(cards) ==> Tally(cards)[v] == (if v in m then m[v] else 0) + (if hit then 1 else 0))
  {
  }

  /** The tally holds a value exactly when a number card of that value is
      present, and then it holds how many there are. */
  lemma {:induction false} TallyCounts(cards: seq<Card>, v: CardValue)
    ensures v in Tally(cards) <==> |NumbersOf(cards, v)| > 0
    ensures v in Tally(cards) ==> Tally(cards)[v] == |NumbersOf(cards, v)|
    decreases |cards|
  {
    if cards != [] {
      var n := |cards| - 1;
      var c := cards[n];
      TallyCounts(cards[..n], v);
      TallyStep(cards, v);
      assert |NumbersOf(cards, v)| == |NumbersOf(cards[..n], v)| + (if IsNumberOf(c, v) then 1 else 0) by {
        assert cards == cards[..n] + [c];
        NumbersOfAppend(cards[..n], [c], v);
        assert NumbersOf([c], v) == (if IsNumberOf(c, v) then [c] else []) + NumbersOf([], v);
      }
    }
  }

  // ---------------------------------------------------------------------
  // `Object.entries(valueCounts)` sorted by count, descending
  // ---------------------------------------------------------------------

  /** One `{ value, count }` entry of `sortedValues`. */
  datatype Entry = Entry(value: CardValue, count: nat)

  /** `Object.entries` of an object whose keys are the integers 1..12: the
      keys come in ascending numeric order. */
  function EntriesFrom(m: map<CardValue, nat>, v: int): seq<Entry>
    requires 1 <= v <= 13
    decreases 13 - v
  {
    if v == 13 then []
    else
      var cv: CardValue := v;
      (if cv in m then [Entry(cv, m[cv])] else []) + EntriesFrom(m, v + 1)
  }

  ghost predicate Ascending(s: seq<Entry>) {
    forall i, j :: 0 <= i < j < |s| ==> s[i].value < s[j].value
  }

  lemma {:induction false} EntriesFromFacts(m: map<CardValue, nat>, v: int)
    requires 1 <= v <= 13
    ensures Ascending(EntriesFrom(m, v))
    ensures forall e :: e in EntriesFrom(m, v) <==> v <= e.value && e.value in m && e.count == m[e.value]
    decreases 13 - v
  {
    if v < 13 {
      EntriesFromFacts(m, v + 1);
    }
  }

  /** The order the stable sort by `b.count - a.count` produces on entries
      listed by ascending value. */
  predicate Precedes(a: Entry, b: Entry) {
    a.count > b.count || (a.count == b.count && a.value < b.value)
  }

  ghost predicate Ordered(s: seq<Entry>) {
    forall i, j :: 0 <= i < j < |s| ==> Precedes(s[i], s[j])
  }

  /** Insert `e` after every entry whose count is at least its own: one step
      of a stable sort by count, descending. */
  function InsertByCount(sorted: seq<Entry>, e: Entry): (r: seq<Entry>)
    ensures multiset(r) == multiset(sorted) + multiset{e}
  {
    if sorted == [] then [e]
    else if sorted[0].count < e.count then [e] + sorted
    else
      assert sorted == [sorted[0]] + sorted[1..];
      [sorted[0]] + InsertByCount(sorted[1..], e)
  }

  /** `entries.sort((a, b) => b[1] - a[1])`, which is stable. */
  function SortByCount(s: seq<Entry>): (r: seq<Entry>)
    ensures multiset(r) == multiset(s)
    decreases |s|
  {
    if s == [] then []
    else
      assert s == s[..|s| - 1] + [s[|s| - 1]];
      InsertByCount(SortByCount(s[..|s| - 1]), s[|s| - 1])
  }

  lemma {:induction false} InsertByCountOrdered(sorted: seq<Entry>, e: Entry)
    requires Ordered(sorted)
    requires forall x :: x in sorted ==> x.value < e.value
    ensures Ordered(InsertByCount(sorted, e))
    decreases |sorted|
  {
    if sorted != [] && sorted[0].count >= e.count {
      InsertByCountOrdered(sorted[1..], e);
      var r := InsertByCount(sorted, e);
      var tail := InsertByCount(sorted[1..], e);
      forall x | x in tail ensures Precedes(sorted[0], x) {
        assert x in multiset(tail);
        if x != e {
          assert x in multiset(sorted[1..]);
          var j :| 0 <= j < |sorted[1..]| && sorted[1..][j] == x;
          assert sorted[j + 1] == x;
        }
      }
    }
  }

  /** Sorting entries listed by ascending value puts them in `Precedes`
      order: most cards first, ties to the lower value. */
  lemma {:induction false} SortByCountOrdered(s: seq<Entry>)
    requires Ascending(s)
    ensures Ordered(SortByCount(s))
    decreases |s|
  {
    if s != [] {
      var n := |s| - 1;
      SortByCountOrdered(s[..n]);
      var sorted := SortByCount(s[..n]);
      forall x | x in sorted ensures x.value < s[n].value {
        assert x in multiset(s[..n]);
        var j :| 0 <= j < n && s[..n][j] == x;
      }
      InsertByCountOrdered(sorted, s[n]);
    }
  }

  /** `sortedValues`: the candidate values with their counts, in the order
      they are tried. */
  function SortedValues(cards: seq<Card>): seq<Entry> {
    SortByCount(EntriesFrom(Tally(cards), 1))
  }

  /** The candidate list holds one entry per value present, with that value's
      card count, ordered by count descending and then by value ascending. */
  lemma SortedValuesFacts(cards: seq<Card>)
    ensures Ordered(SortedValues(cards))
    ensures forall e :: e in SortedValues(cards) <==>
      |NumbersOf(cards, e.value)| > 0 && e.count == |NumbersOf(cards, e.value)|
    ensures DistinctValues(SortedValues(cards))
  {
    var m := Tally(cards);
    var es := EntriesFrom(m, 1);
    EntriesFromFacts(m, 1);
    SortByCountOrdered(es);
    var sv := SortedValues(cards);
    forall e ensures e in sv <==> |NumbersOf(cards, e.value)| > 0 && e.count == |NumbersOf(cards, e.value)| {
      TallyCounts(cards, e.value);
      assert e in sv <==> e in multiset(es);
    }
    forall i, j | 0 <= i < j < |sv| ensures sv[i].value != sv[j].value {
      assert sv[i] in sv && sv[j] in sv;
    }
  }

  ghost predicate DistinctValues(s: seq<Entry>) {
    forall i, j :: 0 <= i < j < |s| ==> s[i].value != s[j].value
  }

  // ---------------------------------------------------------------------
  // Choosing the sets
  // ---------------------------------------------------------------------

  /** Entry `e` can carry a set of `length` with `wilds` wilds left: it is not
      used yet (`count` is zeroed once used) and its shortfall is covered. */
  predicate Fits(e: Entry, length: int, wilds: int) {
    e.count != 0 && length - e.count <= wilds
  }

  /** The inner scan: the first fitting entry at or after `i`. */
  function FirstFit(sv: seq<Entry>, length: int, wilds: int, i: nat): (r: Option<nat>)
    requires i <= |sv|
    ensures r.Some? ==> i <= r.value < |sv|
    decreases |sv| - i
  {
    if i == |sv| then None
    else if Fits(sv[i], length, wilds) then Some(i)
    else FirstFit(sv, length, wilds, i + 1)
  }

  /** The scan finds the first fitting entry, or reports that none fits. */
  lemma {:induction false} FirstFitFacts(sv: seq<Entry>, length: int, wilds: int, i: nat)
    requires i <= |sv|
    ensures var r := FirstFit(sv, length, wilds, i);
      && (r.Some? ==> Fits(sv[r.value], length, wilds))
      && (r.Some? ==> forall j :: i <= j < r.value ==> !Fits(sv[j], length, wilds))
      && (r.None? ==> forall j :: i <= j < |sv| ==> !Fits(sv[j], length, wilds))
    decreases |sv| - i
  {
    if i < |sv| && !Fits(sv[i], length, wilds) {
      FirstFitFacts(sv, length, wilds, i + 1);
    }
  }

  /** One chosen set: its value, the number of cards of that value, and
      `needed = length - count` (negative when the value is over-supplied). */
  datatype Pick = Pick(value: CardValue, count: nat, needed: int)

  /** The outer loop over the requested lengths, as the list of choices it
      makes; `None` when some length finds no value. */
  function Plan(lengths: seq<int>, sv: seq<Entry>, wilds: int): Option<seq<Pick>>
    decreases |lengths|
  {
    if lengths == [] then Some([])
    else
      match FirstFit(sv, lengths[0], wilds, 0)
      case None => None
      case Some(i) =>
        var needed := lengths[0] - sv[i].count;
        match Plan(lengths[1..], sv[i := sv[i].(count := 0)], wilds - needed)
        case None => None
        case Some(ps) => Some([Pick(sv[i].value, sv[i].count, needed)] + ps)
  }

  /** `[...normalCards, ...wildCards]` for one choice: the first `count`
      cards of the value and `wilds.slice(0, needed)` of the whole wild list. */
  function SetGroup(cards: seq<Card>, p: Pick): seq<Card> {
    Take(NumbersOf(cards, p.value), p.count) + Take(WildsOf(cards), p.needed)
  }

  function Groups(cards: seq<Card>, ps: seq<Pick>): (gs: seq<seq<Card>>)
    ensures |gs| == |ps|
    ensures forall k :: 0 <= k < |ps| ==> gs[k] == SetGroup(cards, ps[k])
  {
    seq(|ps|, k requires 0 <= k < |ps| => SetGroup(cards, ps[k]))
  }

  function SetsPlan(cards: seq<Card>, lengths: seq<int>): Option<seq<Pick>> {
    Plan(lengths, SortedValues(cards), |WildsOf(cards)|)
  }

  /** What `validateSets(cards, setLengths)` returns. */
  function SetsVerdict(cards: seq<Card>, lengths: seq<int>): Verdict {
    PlanVerdict(cards, SetsPlan(cards, lengths))
  }

  /** One turn of the outer loop: the choice for the first length, then the
      choices for the others. */
  lemma PlanStep(lengths: seq<int>, sv: seq<Entry>, wilds: int, i: nat)
    requires lengths != [] && FirstFit(sv, lengths[0], wilds, 0) == Some(i)
    ensures var needed := lengths[0] - sv[i].count;
      Plan(lengths, sv, wilds)
      == Then([Pick(sv[i].value, sv[i].count, needed)], Plan(lengths[1..], sv[i := sv[i].(count := 0)], wilds - needed))
  {
  }

  /** The counting loop at the head of `validateSets`: number cards per
      value, and the number of wilds. */
  method CountValues(cards: seq<Card>) returns (valueCounts: map<CardValue, nat>, wildCount: nat)
    ensures valueCounts == Tally(cards)
    ensures wildCount == |WildsOf(cards)|
  {
    valueCounts := map[];
    wildCount := 0;
    var c := 0;
    while c < |cards|
      invariant 0 <= c <= |cards|
      invariant valueCounts == Tally(cards[..c])
      invariant wildCount == |WildsOf(cards[..c])|
    {
      var card := cards[c];
      assert cards[..c + 1] == cards[..c] + [card];
      WildsOfAppend(cards[..c], [card]);
      assert WildsOf([card]) == (if IsWild(card) then [card] else []) + WildsOf([]);
      match card.face {
        case Wild(_) =>
          wildCount := wildCount + 1;
        case Number(_, v) =>
          valueCounts := valueCounts[v := (if v in valueCounts then valueCounts[v] else 0) + 1];
        case Skip =>
      }
      c := c + 1;
    }
    assert cards[..c] == cards;
  }

  /** Choosing entry `i` for length `k` moves the loop's state one length on. */
  lemma ChooseStep(total: Option<seq<Pick>>, setLengths: seq<int>, k: nat, picks: seq<Pick>,
                   sv: seq<Entry>, wilds: int, i: nat, p: Pick, sv': seq<Entry>)
    requires k < |setLengths|
    requires total == Then(picks, Plan(setLengths[k..], sv, wilds))
    requires FirstFit(sv, setLengths[k], wilds, 0) == Some(i)
    requires p == Pick(sv[i].value, sv[i].count, setLengths[k] - sv[i].count)
    requires sv' == sv[i := sv[i].(count := 0)]
    ensures total == Then(picks + [p], Plan(setLengths[k + 1..], sv', wilds - p.needed))
  {
    var rest := Plan(setLengths[k + 1..], sv', wilds - p.needed);
    assert setLengths[k..][0] == setLengths[k] && setLengths[k..][1..] == setLengths[k + 1..];
    PlanStep(setLengths[k..], sv, wilds, i);
    ThenThen(picks, [p], rest);
  }

  /** The inner loop of `validateSets`: skip used entries and stop at the
      first one whose shortfall the remaining wilds cover. */
  method FindValue(sortedValues: seq<Entry>, length: int, remainingWilds: int) returns (found: Option<nat>)
    ensures found == FirstFit(sortedValues, length, remainingWilds, 0)
  {
    var i := 0;
    while i < |sortedValues|
      invariant 0 <= i <= |sortedValues|
      invariant FirstFit(sortedValues, length, remainingWilds, 0) == FirstFit(sortedValues, length, remainingWilds, i)
    {
      if sortedValues[i].count == 0 {
        i := i + 1;
        continue;
      }
      var needed := length - sortedValues[i].count;
      if needed <= remainingWilds {
        return Some(i);
      }
      i := i + 1;
    }
    return None;
  }

  /** What the choosing loop returns for a plan. */
  function PlanVerdict(cards: seq<Card>, plan: Option<seq<Pick>>): Verdict {
    match plan
    case None => Reject
    case Some(ps) => Verdict(true, Groups(cards, ps))
  }

  /** The loop over `setLengths` of `validateSets`, given the sorted
      candidates and the number of wilds. */
  method ChooseSets(cards: seq<Card>, setLengths: seq<int>, candidates: seq<Entry>, wildCount: int) returns (r: Verdict)
    ensures r == PlanVerdict(cards, Plan(setLengths, candidates, wildCount))
  {
    var sortedValues := candidates;
    var groups: seq<seq<Card>> := [];
    var remainingWilds := wildCount;
    ghost var picks: seq<Pick> := [];
    ghost var total := Plan(setLengths, candidates, wildCount);
    assert total == Then(picks, Plan(setLengths[0..], sortedValues, remainingWilds)) by {
      assert setLengths[0..] == setLengths;
      assert total.Some? ==> [] + total.value == total.value;
    }

    var k := 0;
    while k < |setLengths|
      invariant 0 <= k <= |setLengths|
      invariant total == Then(picks, Plan(setLengths[k..], sortedValues, remainingWilds))
      invariant groups == Groups(cards, picks)
    {
      var length := setLengths[k];
      var found := FindValue(sortedValues, length, remainingWilds);
      if found.None? {
        assert setLengths[k..][0] == length;
        return Reject;
      }
      var i := found.value;
      var value := sortedValues[i].value;
      var needed := length - sortedValues[i].count;
      var normalCards := Take(NumbersOf(cards, value), sortedValues[i].count);
      var wildCards := Take(WildsOf(cards), needed);
      ghost var p := Pick(value, sortedValues[i].count, needed);
      ghost var sv' := sortedValues[i := sortedValues[i].(count := 0)];
      ChooseStep(total, setLengths, k, picks, sortedValues, remainingWilds, i, p, sv');
      groups := groups + [normalCards + wildCards];
      picks := picks + [p];
      sortedValues := sortedValues[i := sortedValues[i].(count := 0)];
      remainingWilds := remainingWilds - needed;
      k := k + 1;
    }
    assert picks + [] == picks;
    r := Verdict(true, groups);
  }

  /** `validateSets(cards, setLengths)`: count the cards per value, sort the
      values by count, then choose one value per length. */
  method ValidateSets(cards: seq<Card>, setLengths: seq<int>) returns (r: Verdict)
    ensures r == SetsVerdict(cards, setLengths)
  {
    var valueCounts, wildCount := CountValues(cards);
    var sortedValues := SortByCount(EntriesFrom(valueCounts, 1));
    r := ChooseSets(cards, setLengths, sortedValues, wildCount);
  }

  // ---------------------------------------------------------------------
  // Properties
  // ---------------------------------------------------------------------

  function NeededSum(ps: seq<Pick>): int {
    if ps == [] then 0 else ps[0].needed + NeededSum(ps[1..])
  }

  /** A successful choosing loop makes one choice per length, each on an
      entry still unused, with shortfall `length - count`. */
  lemma {:induction false} PlanPicks(lengths: seq<int>, sv: seq<Entry>, wilds: int, ps: seq<Pick>)
    requires Plan(lengths, sv, wilds) == Some(ps)
    ensures |ps| == |lengths|
    ensures forall k :: 0 <= k < |ps| ==>
      ps[k].count > 0 && ps[k].needed == lengths[k] - ps[k].count && Entry(ps[k].value, ps[k].count) in sv
    decreases |lengths|
  {
    if lengths != [] {
      var i := FirstFit(sv, lengths[0], wilds, 0).value;
      FirstFitFacts(sv, lengths[0], wilds, 0);
      var needed := lengths[0] - sv[i].count;
      var sv' := sv[i := sv[i].(count := 0)];
      var rest := Plan(lengths[1..], sv', wilds - needed).value;
      PlanPicks(lengths[1..], sv', wilds - needed, rest);
      assert ps == [Pick(sv[i].value, sv[i].count, needed)] + rest;
      forall k | 1 <= k < |ps| ensures Entry(ps[k].value, ps[k].count) in sv {
        var j :| 0 <= j < |sv'| && sv'[j] == Entry(ps[k].value, ps[k].count);
        assert j != i;
      }
    }
  }

  /** No value is chosen twice. */
  lemma {:induction false} PlanDistinct(lengths: seq<int>, sv: seq<Entry>, wilds: int, ps: seq<Pick>)
    requires DistinctValues(sv)
    requires Plan(lengths, sv, wilds) == Some(ps)
    ensures forall k, l :: 0 <= k < l < |ps| ==> ps[k].value != ps[l].value
    decreases |lengths|
  {
    if lengths != [] {
      var i := FirstFit(sv, lengths[0], wilds, 0).value;
      FirstFitFacts(sv, lengths[0], wilds, 0);
      var needed := lengths[0] - sv[i].count;
      var sv' := sv[i := sv[i].(count := 0)];
      var rest := Plan(lengths[1..], sv', wilds - needed).value;
      assert DistinctValues(sv') by {
        forall a, b | 0 <= a < b < |sv'| ensures sv'[a].value != sv'[b].value {
          assert sv'[a].value == sv[a].value && sv'[b].value == sv[b].value;
        }
      }
      PlanDistinct(lengths[1..], sv', wilds - needed, rest);
      PlanPicks(lengths[1..], sv', wilds - needed, rest);
      assert ps == [Pick(sv[i].value, sv[i].count, needed)] + rest;
      forall l | 0 <= l < |rest| ensures rest[l].value != sv[i].value {
        var j :| 0 <= j < |sv'| && sv'[j] == Entry(rest[l].value, rest[l].count);
        assert j != i;
      }
    }
  }

  /** The wilds handed out up to any point never exceed the wilds held, so
      `remainingWilds` never drops below zero. */
  lemma {:induction false} PlanWilds(lengths: seq<int>, sv: seq<Entry>, wilds: int, ps: seq<Pick>)
    requires wilds >= 0
    requires Plan(lengths, sv, wilds) == Some(ps)
    ensures forall k :: 0 <= k <= |ps| ==> NeededSum(ps[..k]) <= wilds
    decreases |lengths|
  {
    if lengths != [] {
      var i := FirstFit(sv, lengths[0], wilds, 0).value;
      FirstFitFacts(sv, lengths[0], wilds, 0);
      var needed := lengths[0] - sv[i].count;
      var sv' := sv[i := sv[i].(count := 0)];
      var rest := Plan(lengths[1..], sv', wilds - needed).value;
      PlanWilds(lengths[1..], sv', wilds - needed, rest);
      assert ps == [Pick(sv[i].value, sv[i].count, needed)] + rest;
      forall k | 0 <= k <= |ps| ensures NeededSum(ps[..k]) <= wilds {
        if k > 0 {
          assert ps[..k][1..] == rest[..k - 1];
        }
      }
    }
  }

  /** Every candidate entry names a value present in the hand, with its
      full card count. */
  ghost predicate Candidates(cards: seq<Card>, sv: seq<Entry>) {
    && DistinctValues(sv)
    && forall e :: e in sv ==> |NumbersOf(cards, e.value)| > 0 && e.count == |NumbersOf(cards, e.value)|
  }

  /** The group built for one choice made from a candidate entry. */
  lemma PickGroup(cards: seq<Card>, p: Pick, length: int)
    requires p.count == |NumbersOf(cards, p.value)| > 0 && p.needed == length - p.count
    ensures SetGroup(cards, p) == NumbersOf(cards, p.value) + Take(WildsOf(cards), length - p.count)
    ensures 0 <= length - p.count <= |WildsOf(cards)| ==> |SetGroup(cards, p)| == length
    ensures forall c :: c in SetGroup(cards, p) ==> IsWild(c) || IsNumberOf(c, p.value)
  {
    NumbersOfFacts(cards, p.value);
    WildsOfFacts(cards);
    var ws := WildsOf(cards);
    assert forall c :: c in Take(ws, p.needed) ==> c in ws;
  }

  lemma PlanResult(cards: seq<Card>, lengths: seq<int>, sv: seq<Entry>, wilds: int, ps: seq<Pick>)
    requires Candidates(cards, sv) && Plan(lengths, sv, wilds) == Some(ps)
    ensures |Groups(cards, ps)| == |lengths|
    ensures forall k :: 0 <= k < |ps| ==>
      && ps[k].count == |NumbersOf(cards, ps[k].value)| > 0
      && SetGroup(cards, ps[k]) == NumbersOf(cards, ps[k].value) + Take(WildsOf(cards), lengths[k] - ps[k].count)
      && (0 <= lengths[k] - ps[k].count <= |WildsOf(cards)| ==> |SetGroup(cards, ps[k])| == lengths[k])
      && (forall c :: c in SetGroup(cards, ps[k]) ==> IsWild(c) || IsNumberOf(c, ps[k].value))
  {
    PlanPicks(lengths, sv, wilds, ps);
    forall k | 0 <= k < |ps|
      ensures ps[k].count == |NumbersOf(cards, ps[k].value)| > 0
      ensures SetGroup(cards, ps[k]) == NumbersOf(cards, ps[k].value) + Take(WildsOf(cards), lengths[k] - ps[k].count)
      ensures 0 <= lengths[k] - ps[k].count <= |WildsOf(cards)| ==> |SetGroup(cards, ps[k])| == lengths[k]
      ensures forall c :: c in SetGroup(cards, ps[k]) ==> IsWild(c) || IsNumberOf(c, ps[k].value)
    {
      assert Entry(ps[k].value, ps[k].count) in sv;
      PickGroup(cards, ps[k], lengths[k]);
    }
  }

  /** When `validateSets` succeeds it returns one group per requested
      length, in order.  Group `k` is every number card of the value chosen
      for it, then the first `length - count` wilds of the whole input
      (`slice(0, needed)`), and it has exactly the requested length when its
      shortfall lies between zero and the number of wilds held.  The chosen
      values are pairwise distinct and the wilds handed out up to any point
      never exceed the wilds held.  (When it fails it returns `Reject`, by
      the definition of `SetsVerdict`.) */
  lemma SetsResult(cards: seq<Card>, lengths: seq<int>, ps: seq<Pick>)
    requires SetsPlan(cards, lengths) == Some(ps)
    ensures SetsVerdict(cards, lengths) == Verdict(true, Groups(cards, ps))
    ensures |ps| == |lengths|
    ensures forall k :: 0 <= k < |ps| ==>
      && ps[k].count == |NumbersOf(cards, ps[k].value)| > 0
      && SetGroup(cards, ps[k]) == NumbersOf(cards, ps[k].value) + Take(WildsOf(cards), lengths[k] - ps[k].count)
      && (0 <= lengths[k] - ps[k].count <= |WildsOf(cards)| ==> |SetGroup(cards, ps[k])| == lengths[k])
      && (forall c :: c in SetGroup(cards, ps[k]) ==> IsWild(c) || IsNumberOf(c, ps[k].value))
    ensures forall k, l :: 0 <= k < l < |ps| ==> ps[k].value != ps[l].value
    ensures forall k :: 0 <= k <= |ps| ==> NeededSum(ps[..k]) <= |WildsOf(cards)|
  {
    var sv := SortedValues(cards);
    var wilds := |WildsOf(cards)|;
    SortedValuesFacts(cards);
    PlanResult(cards, lengths, sv, wilds, ps);
    PlanDistinct(lengths, sv, wilds, ps);
    PlanWilds(lengths, sv, wilds, ps);
  }

  /** `validateSets` is all-or-nothing: it fails with no groups, or it
      returns one group per requested length. */
  lemma SetsShape(cards: seq<Card>, lengths: seq<int>)
    ensures var r := SetsVerdict(cards, lengths);
      if r.ok then |r.groups| == |lengths| else r == Reject
  {
    var plan := SetsPlan(cards, lengths);
    if plan.Some? {
      PlanPicks(lengths, SortedValues(cards), |WildsOf(cards)|, plan.value);
    }
  }

  /** The first set is built on the fitting value with the most cards, and
      among values with equally many cards on the lowest one. */
  lemma SetsFirstChoice(cards: seq<Card>, lengths: seq<int>, u: CardValue)
    requires lengths != [] && SetsPlan(cards, lengths).Some?
    requires u != SetsPlan(cards, lengths).value[0].value
    requires |NumbersOf(cards, u)| > 0 && lengths[0] - |NumbersOf(cards, u)| <= |WildsOf(cards)|
    ensures var p := SetsPlan(cards, lengths).value[0];
      p.count > |NumbersOf(cards, u)| || (p.count == |NumbersOf(cards, u)| && p.value < u)
  {
    SortedValuesFacts(cards);
    var sv := SortedValues(cards);
    var e := Entry(u, |NumbersOf(cards, u)|);
    assert e in sv;
    var j :| 0 <= j < |sv| && sv[j] == e;
    var i := FirstFit(sv, lengths[0], |WildsOf(cards)|, 0).value;
    assert Fits(e, lengths[0], |WildsOf(cards)|);
    assert j != i;
    assert i < j;
  }

  /** Every set with a positive shortfall starts its wilds at the front of
      the whole wild list, so two such sets share the first wild. */
  lemma SetsShareWilds(cards: seq<Card>, p: Pick, q: Pick)
    requires p.needed > 0 && q.needed > 0 && WildsOf(cards) != []
    ensures WildsOf(cards)[0] in SetGroup(cards, p) && WildsOf(cards)[0] in SetGroup(cards, q)
  {
    var ws := WildsOf(cards);
    assert Take(ws, p.needed)[0] == ws[0];
    assert Take(ws, q.needed)[0] == ws[0];
  }

  /** An over-supplied value makes the shortfall negative, which raises
      `remainingWilds`: on the candidate list of five 5s and one 7 with no
      wilds, the loop chooses the 5s with a shortfall of -2 for the first
      set of three and then the 7 with a shortfall of 2, which no wild
      covers, for the second. */
  lemma OverSupplyWitness()
    ensures Plan([3, 3], [Entry(5, 5), Entry(7, 1)], 0) == Some([Pick(5, 5, -2), Pick(7, 1, 2)])
  {
    var sv := [Entry(5, 5), Entry(7, 1)];
    var sv1 := [Entry(5, 0), Entry(7, 1)];
    var sv2 := [Entry(5, 0), Entry(7, 0)];
    assert FirstFit(sv, 3, 0, 0) == Some(0);
    assert sv[0 := sv[0].(count := 0)] == sv1;
    assert FirstFit(sv1, 3, 2, 1) == Some(1);
    assert FirstFit(sv1, 3, 2, 0) == Some(1);
    assert sv1[1 := sv1[1].(count := 0)] == sv2;
    assert [3, 3][1..] == [3] && [3][1..] == [];
    PlanStep([3], sv1, 2, 1);
    assert Plan([], sv2, 0) == Some([]);
    assert [Pick(7, 1, 2)] + [] == [Pick(7, 1, 2)];
    assert Plan([3], sv1, 2) == Some([Pick(7, 1, 2)]);
    PlanStep([3, 3], sv, 0, 0);
    assert [Pick(5, 5, -2)] + [Pick(7, 1, 2)] == [Pick(5, 5, -2), Pick(7, 1, 2)];
  }

  /** An ordered candidate list holding exactly two entries with different
      values lists them in order. */
  lemma TwoCandidates(sv: seq<Entry>, a: Entry, b: Entry)
    requires Ordered(sv) && DistinctValues(sv) && a.value != b.value && Precedes(a, b)
    requires forall e :: e in sv <==> e == a || e == b
    ensures sv == [a, b]
  {
    assert a in sv && b in sv;
    var i :| 0 <= i < |sv| && sv[i] == a;
    var j :| 0 <= j < |sv| && sv[j] == b;
    if |sv| > 2 {
      OnlyTwoPositions(sv, a, b, i, j, 0);
      OnlyTwoPositions(sv, a, b, i, j, 1);
      OnlyTwoPositions(sv, a, b, i, j, 2);
    }
    assert i != j && |sv| == 2;
  }

  /** With two values to go round, only their two positions are filled. */
  lemma OnlyTwoPositions(sv: seq<Entry>, a: Entry, b: Entry, i: nat, j: nat, k: nat)
    requires DistinctValues(sv)
    requires forall e :: e in sv ==> e == a || e == b
    requires i < |sv| && j < |sv| && k < |sv| && sv[i] == a && sv[j] == b
    ensures k == i || k == j
  {
    assert sv[k] in sv;
  }

  /** A hand whose only number cards are five 5s and one 7 has exactly
      those two candidates, the 5s first. */
  lemma FiveFivesOneSeven(cards: seq<Card>)
    requires |NumbersOf(cards, 5)| == 5 && |NumbersOf(cards, 7)| == 1
    requires forall v: CardValue :: v != 5 && v != 7 ==> NumbersOf(cards, v) == []
    ensures SortedValues(cards) == [Entry(5, 5), Entry(7, 1)]
  {
    SortedValuesFacts(cards);
    var sv := SortedValues(cards);
    forall e ensures e in sv <==> e == Entry(5, 5) || e == Entry(7, 1) {
      if e.value != 5 && e.value != 7 {
        assert NumbersOf(cards, e.value) == [];
      }
    }
    TwoCandidates(sv, Entry(5, 5), Entry(7, 1));
  }

  /** The same quirk on a whole hand: `validateSets(cards, [3, 3])` accepts
      five 5s and one 7 with no wilds, and the second "set of three" is the
      single 7. */
  lemma OverSupplyHand(cards: seq<Card>)
    requires |NumbersOf(cards, 5)| == 5 && |NumbersOf(cards, 7)| == 1
    requires forall v: CardValue :: v != 5 && v != 7 ==> NumbersOf(cards, v) == []
    requires WildsOf(cards) == []
    ensures SetsVerdict(cards, [3, 3]) == Verdict(true, [NumbersOf(cards, 5), NumbersOf(cards, 7)])
  {
    var ps := [Pick(5, 5, -2), Pick(7, 1, 2)];
    OverSupplyPlan(cards);
    OverSupplyGroups(cards, ps);
  }

  lemma OverSupplyPlan(cards: seq<Card>)
    requires |NumbersOf(cards, 5)| == 5 && |NumbersOf(cards, 7)| == 1
    requires forall v: CardValue :: v != 5 && v != 7 ==> NumbersOf(cards, v) == []
    requires WildsOf(cards) == []
    ensures SetsPlan(cards, [3, 3]) == Some([Pick(5, 5, -2), Pick(7, 1, 2)])
  {
    FiveFivesOneSeven(cards);
    OverSupplyWitness();
  }

  lemma OverSupplyGroups(cards: seq<Card>, ps: seq<Pick>)
    requires |NumbersOf(cards, 5)| == 5 && |NumbersOf(cards, 7)| == 1 && WildsOf(cards) == []
    requires ps == [Pick(5, 5, -2), Pick(7, 1, 2)]
    ensures Groups(cards, ps) == [NumbersOf(cards, 5), NumbersOf(cards, 7)]
  {
    var gs := Groups(cards, ps);
    assert Take(NumbersOf(cards, 5), 5) == NumbersOf(cards, 5);
    assert Take(NumbersOf(cards, 7), 1) == NumbersOf(cards, 7);
    assert gs[0] == NumbersOf(cards, 5) && gs[1] == NumbersOf(cards, 7);
    assert |gs| == 2;
  }

  /** A negative shortfall still takes wilds: `slice(0, needed)` drops
      `-needed` wilds from the end instead of taking none. */
  lemma NegativeShortfallTakesWilds(cards: seq<Card>, p: Pick)
    requires p.needed < 0 && |WildsOf(cards)| + p.needed > 0
    ensures SetGroup(cards, p) == Take(NumbersOf(cards, p.value), p.count) + WildsOf(cards)[..|WildsOf(cards)| + p.needed]
    ensures |SetGroup(cards, p)| > |Take(NumbersOf(cards, p.value), p.count)|
  {
  }
}
