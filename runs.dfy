/**
 * `validateRuns`: build one run per requested length from number cards of
 * consecutive values, filling holes with wilds.  Number cards wait in one
 * queue per value (`valueMap`).  For each length the start values are tried
 * in ascending order; a window takes the front card of each value's queue
 * and counts a hole whenever the queue is empty and any wild is left at all.
 * Cards taken by a window that is then rejected are not put back, and the
 * wild counter is not lowered inside a window, so with at least one wild the
 * first window is always accepted.
 */
module RunMatcher {
  import opened Cards

  // ---------------------------------------------------------------------
  // The per-value queues (the `valueMap` object)
  // ---------------------------------------------------------------------

  /** `valueMap` before any card is seen: an empty queue for each index
      0..12 (only 1..12 are ever filled). */
  function NoQueues(): (q: seq<seq<Card>>)
    ensures |q| == 13
  {
    seq(13, v => [])
  }

  /** `valueMap` after the grouping loop has seen `cards`. */
  function QueuesOf(cards: seq<Card>): (q: seq<seq<Card>>)
    ensures |q| == 13
    decreases |cards|
  {
    if cards == [] then NoQueues()
    else
      var q := QueuesOf(cards[..|cards| - 1]);
      var c := cards[|cards| - 1];
      if c.face.Number? then q[c.face.value := q[c.face.value] + [c]] else q
  }

  /** Every queued card is a number card of its queue's value. */
  ghost predicate QueuesHold(q: seq<seq<Card>>) {
    |q| == 13 && forall v, c :: 0 <= v < 13 && c in q[v] ==> IsNumberOf(c, v)
  }

  /** All the cards waiting in the queues. */
  function Mass(q: seq<seq<Card>>): multiset<Card> {
    multiset(Flatten(q))
  }

  /** `cards.filter(c => c.type === 'number')` */
  function NumberCards(cards: seq<Card>): seq<Card> {
    if cards == [] then []
    else (if cards[0].face.Number? then [cards[0]] else []) + NumberCards(cards[1..])
  }

  // ---------------------------------------------------------------------
  // One window of the scan
  // ---------------------------------------------------------------------

  /** The queues after a window, the cards it took (`run`) and the holes it
      counted (`neededWilds.length`). */
  datatype Window = Window(queues: seq<seq<Card>>, run: seq<Card>, gaps: nat)

  /** The slot loop `for (let i = start; i <= end; i++)` from slot `i` on:
      take the front card of queue `i` if there is one, else count a hole if
      any wild is left, else stop. */
  function Fill(q: seq<seq<Card>>, i: int, end: int, wildOk: bool): (w: Window)
    requires |q| == 13 && 1 <= i && end <= 12
    ensures |w.queues| == 13
    decreases end - i + 1
  {
    if i > end then Window(q, [], 0)
    else if |q[i]| > 0 then
      var w := Fill(q[i := q[i][1..]], i + 1, end, wildOk);
      Window(w.queues, [q[i][0]] + w.run, w.gaps)
    else if wildOk then
      var w := Fill(q, i + 1, end, wildOk);
      w.(gaps := w.gaps + 1)
    else Window(q, [], 0)
  }

  /** A window preceded by the cards and holes of earlier slots. */
  function Extend(run: seq<Card>, gaps: nat, w: Window): Window {
    Window(w.queues, run + w.run, gaps + w.gaps)
  }

  /** The outcome of scanning the start values for one length. */
  datatype Scan = NoRun | Found(start: int, window: Window)

  /** The start loop `for (let start = from; start <= 12 - length + 1;
      start++)`: the first window whose cards and holes add up to `length`;
      each rejected window's shifts stay in the queues. */
  function FindRun(q: seq<seq<Card>>, length: int, start: int, wildOk: bool): (s: Scan)
    requires |q| == 13 && 1 <= start
    ensures s.Found? ==> |s.window.queues| == 13
    decreases 14 - length - start
  {
    if start > 12 - length + 1 then NoRun
    else
      var w := Fill(q, start, start + length - 1, wildOk);
      if |w.run| + w.gaps == length then Found(start, w)
      else FindRun(w.queues, length, start + 1, wildOk)
  }

  /** The loop over `runLengths`: the groups it builds, or `None` when some
      length finds no window.  `wilds` is the list still available and
      `remaining` is `remainingWilds`. */
  function RunsFrom(lengths: seq<int>, q: seq<seq<Card>>, wilds: seq<Card>, remaining: int): Option<seq<seq<Card>>>
    requires |q| == 13
    decreases |lengths|
  {
    if lengths == [] then Some([])
    else
      match FindRun(q, lengths[0], 1, remaining > 0)
      case NoRun => None
      case Found(_, w) =>
        Then([w.run + Take(wilds, w.gaps)],
             RunsFrom(lengths[1..], w.queues, wilds[SliceEnd(|wilds|, w.gaps)..], remaining - w.gaps))
  }

  /** What the loop over `runLengths` returns. */
  function RunsOutcome(gs: Option<seq<seq<Card>>>): Verdict {
    match gs
    case None => Reject
    case Some(groups) => Verdict(true, groups)
  }

  /** What `validateRuns(cards, runLengths)` returns. */
  function RunsVerdict(cards: seq<Card>, lengths: seq<int>): Verdict {
    RunsOutcome(RunsFrom(lengths, QueuesOf(cards), WildsOf(cards), |WildsOf(cards)|))
  }

  // ---------------------------------------------------------------------
  // The loops as the source runs them
  // ---------------------------------------------------------------------

  /** The grouping loop at the head of `validateRuns`. */
  method BuildQueues(cards: seq<Card>) returns (valueMap: seq<seq<Card>>)
    ensures valueMap == QueuesOf(cards)
  {
    valueMap := NoQueues();
    var c := 0;
    while c < |cards|
      invariant 0 <= c <= |cards|
      invariant valueMap == QueuesOf(cards[..c])
    {
      var card := cards[c];
      assert cards[..c + 1][..c] == cards[..c];
      if card.face.Number? {
        valueMap := valueMap[card.face.value := valueMap[card.face.value] + [card]];
      }
      c := c + 1;
    }
    assert cards[..c] == cards;
  }

  lemma ExtendTake(run: seq<Card>, gaps: nat, x: Card, w: Window)
    ensures Extend(run, gaps, Window(w.queues, [x] + w.run, w.gaps)) == Extend(run + [x], gaps, w)
  {
    assert run + ([x] + w.run) == (run + [x]) + w.run;
  }

  /** The slot loop of one window, with its `break`. */
  method FillWindow(valueMap: seq<seq<Card>>, start: int, end: int, remainingWilds: int) returns (w: Window)
    requires |valueMap| == 13 && 1 <= start && end <= 12
    ensures w == Fill(valueMap, start, end, remainingWilds > 0)
  {
    var q := valueMap;
    var run: seq<Card> := [];
    var gaps: nat := 0;
    var i := start;
    while i <= end
      invariant start <= i && |q| == 13
      invariant Fill(valueMap, start, end, remainingWilds > 0) == Extend(run, gaps, Fill(q, i, end, remainingWilds > 0))
      decreases end - i
    {
      if |q[i]| > 0 {
        ExtendTake(run, gaps, q[i][0], Fill(q[i := q[i][1..]], i + 1, end, remainingWilds > 0));
        run := run + [q[i][0]];
        q := q[i := q[i][1..]];
      } else if remainingWilds > 0 {
        gaps := gaps + 1;
      } else {
        break;
      }
      i := i + 1;
    }
    assert run + [] == run;
    w := Window(q, run, gaps);
  }

  /** The start loop for one length. */
  method ScanStarts(valueMap: seq<seq<Card>>, length: int, remainingWilds: int) returns (s: Scan)
    requires |valueMap| == 13
    ensures s == FindRun(valueMap, length, 1, remainingWilds > 0)
  {
    var q := valueMap;
    var start := 1;
    while start <= 12 - length + 1
      invariant 1 <= start && |q| == 13
      invariant FindRun(valueMap, length, 1, remainingWilds > 0) == FindRun(q, length, start, remainingWilds > 0)
      decreases 14 - length - start
    {
      var end := start + length - 1;
      var w := FillWindow(q, start, end, remainingWilds);
      if |w.run| + w.gaps == length {
        return Found(start, w);
      }
      q := w.queues;
      start := start + 1;
    }
    return NoRun;
  }

  /** Taking the window found for length `k` moves the loop's state one
      length on. */
  lemma RunStep(total: Option<seq<seq<Card>>>, lengths: seq<int>, k: nat, groups: seq<seq<Card>>,
                q: seq<seq<Card>>, wilds: seq<Card>, remaining: int, w: Window, group: seq<Card>, wilds': seq<Card>)
    requires k < |lengths| && |q| == 13
    requires total == Then(groups, RunsFrom(lengths[k..], q, wilds, remaining))
    requires FindRun(q, lengths[k], 1, remaining > 0).Found? && FindRun(q, lengths[k], 1, remaining > 0).window == w
    requires group == w.run + Take(wilds, w.gaps) && wilds' == wilds[SliceEnd(|wilds|, w.gaps)..]
    ensures total == Then(groups + [group], RunsFrom(lengths[k + 1..], w.queues, wilds', remaining - w.gaps))
  {
    assert lengths[k..][0] == lengths[k] && lengths[k..][1..] == lengths[k + 1..];
    ThenThen(groups, [group], RunsFrom(lengths[k + 1..], w.queues, wilds', remaining - w.gaps));
  }

  /** The loop over `runLengths`, given the queues and the wild list. */
  method ChooseRuns(runLengths: seq<int>, queues: seq<seq<Card>>, wildList: seq<Card>) returns (r: Verdict)
    requires |queues| == 13
    ensures r == RunsOutcome(RunsFrom(runLengths, queues, wildList, |wildList|))
  {
    var valueMap := queues;
    var wilds := wildList;
    var groups: seq<seq<Card>> := [];
    var remainingWilds: int := |wilds|;
    ghost var total := RunsFrom(runLengths, queues, wildList, |wildList|);
    assert total == Then(groups, RunsFrom(runLengths[0..], valueMap, wilds, remainingWilds)) by {
      assert runLengths[0..] == runLengths;
      assert total.Some? ==> [] + total.value == total.value;
    }
    var k := 0;
    while k < |runLengths|
      invariant 0 <= k <= |runLengths| && |valueMap| == 13
      invariant total == Then(groups, RunsFrom(runLengths[k..], valueMap, wilds, remainingWilds))
    {
      var length := runLengths[k];
      var s := ScanStarts(valueMap, length, remainingWilds);
      if s.NoRun? {
        assert runLengths[k..][0] == length;
        return Reject;
      }
      var w := s.window;
      var wildCardsToUse := Take(wilds, w.gaps);
      ghost var wilds' := wilds[SliceEnd(|wilds|, w.gaps)..];
      RunStep(total, runLengths, k, groups, valueMap, wilds, remainingWilds, w, w.run + wildCardsToUse, wilds');
      groups := groups + [w.run + wildCardsToUse];
      remainingWilds := remainingWilds - w.gaps;
      wilds := wilds[SliceEnd(|wilds|, w.gaps)..];
      valueMap := w.queues;
      k := k + 1;
    }
    assert groups + [] == groups;
    r := Verdict(true, groups);
  }

  /** `validateRuns(cards, runLengths)`: queue the number cards by value,
      collect the wilds, then look for one run per length. */
  method ValidateRuns(cards: seq<Card>, runLengths: seq<int>) returns (r: Verdict)
    ensures r == RunsVerdict(cards, runLengths)
  {
    var valueMap := BuildQueues(cards);
    var wilds := WildsOf(cards);
    r := ChooseRuns(runLengths, valueMap, wilds);
  }

  // ---------------------------------------------------------------------
  // Properties of the queues
  // ---------------------------------------------------------------------

  /** Replacing one queue changes the waiting cards by exactly that queue. */
  lemma {:induction false} FlattenUpdate(q: seq<seq<Card>>, j: nat, x: seq<Card>)
    requires j < |q|
    ensures multiset(Flatten(q[j := x])) + multiset(q[j]) == multiset(Flatten(q)) + multiset(x)
  {
    var q' := q[j := x];
    assert Flatten(q) == q[0] + Flatten(q[1..]);
    assert Flatten(q') == q'[0] + Flatten(q'[1..]);
    if j == 0 {
      assert q'[1..] == q[1..];
    } else {
      var r := q[1..];
      assert q'[1..] == r[j - 1 := x] && q'[0] == q[0] && r[j - 1] == q[j];
      FlattenUpdate(r, j - 1, x);
      calc {
        multiset(Flatten(q')) + multiset(q[j]);
        multiset(q[0]) + (multiset(Flatten(r[j - 1 := x])) + multiset(r[j - 1]));
        multiset(q[0]) + (multiset(Flatten(r)) + multiset(x));
        multiset(Flatten(q)) + multiset(x);
      }
    }
  }

  /** Taking the front card of a queue keeps every queue's contents right. */
  lemma ShiftHolds(q: seq<seq<Card>>, i: int)
    requires QueuesHold(q) && 0 <= i < 13 && |q[i]| > 0
    ensures QueuesHold(q[i := q[i][1..]])
    ensures IsNumberOf(q[i][0], i)
    ensures multiset{q[i][0]} + Mass(q[i := q[i][1..]]) == Mass(q)
  {
    assert q[i][0] in q[i];
    forall v, c | 0 <= v < 13 && c in q[i := q[i][1..]][v] ensures IsNumberOf(c, v) {
      if v == i { assert c in q[i]; }
    }
    var q' := q[i := q[i][1..]];
    var h, t := q[i][0], q[i][1..];
    FlattenUpdate(q, i, t);
    assert q[i] == [h] + t;
    assert multiset(q[i]) == multiset{h} + multiset(t);
    assert Mass(q') + multiset(q[i]) == Mass(q) + multiset(t);
    Cancel(multiset{h} + Mass(q'), Mass(q), multiset(t));
  }

  /** Appending a card to one queue adds exactly that card. */
  lemma Enqueue(q: seq<seq<Card>>, v: int, c: Card)
    requires 0 <= v < |q|
    ensures Mass(q[v := q[v] + [c]]) == Mass(q) + multiset{c}
  {
    var q' := q[v := q[v] + [c]];
    FlattenUpdate(q, v, q[v] + [c]);
    assert multiset(q[v] + [c]) == multiset(q[v]) + multiset{c};
    assert Mass(q') + multiset(q[v]) == (Mass(q) + multiset{c}) + multiset(q[v]);
    Cancel(Mass(q'), Mass(q) + multiset{c}, multiset(q[v]));
  }

  lemma {:induction false} NumberCardsAppend(a: seq<Card>, b: seq<Card>)
    ensures NumberCards(a + b) == NumberCards(a) + NumberCards(b)
  {
    if a != [] {
      assert (a + b)[0] == a[0];
      assert (a + b)[1..] == a[1..] + b;
      NumberCardsAppend(a[1..], b);
    } else {
      assert a + b == b;
    }
  }

  /** Before any card is seen no card is queued. */
  lemma NoQueuesHold()
    ensures QueuesHold(NoQueues())
    ensures Mass(NoQueues()) == multiset{}
  {
    FlattenEmpty(NoQueues(), 0);
    assert NoQueues()[0..] == NoQueues();
  }

  /** The grouping loop queues only number cards, each under its value. */
  lemma {:induction false} QueuesOfHold(cards: seq<Card>)
    ensures QueuesHold(QueuesOf(cards))
    decreases |cards|
  {
    if cards == [] {
      NoQueuesHold();
    } else {
      var n := |cards| - 1;
      var c := cards[n];
      var q := QueuesOf(cards[..n]);
      QueuesOfHold(cards[..n]);
      if c.face.Number? {
        var v := c.face.value;
        var q' := q[v := q[v] + [c]];
        forall u, d | 0 <= u < 13 && d in q'[u] ensures IsNumberOf(d, u) {
          if u == v && d !in q[u] { assert d in [c]; }
        }
      }
    }
  }

  /** The grouping loop queues every number card and nothing else. */
  lemma {:induction false} QueuesOfMass(cards: seq<Card>)
    ensures Mass(QueuesOf(cards)) == multiset(NumberCards(cards))
    decreases |cards|
  {
    if cards == [] {
      NoQueuesHold();
    } else {
      var n := |cards| - 1;
      var c := cards[n];
      var q := QueuesOf(cards[..n]);
      QueuesOfMass(cards[..n]);
      assert cards == cards[..n] + [c];
      NumberCardsAppend(cards[..n], [c]);
      assert NumberCards([c]) == (if c.face.Number? then [c] else []) + NumberCards([]);
      if c.face.Number? {
        var v := c.face.value;
        var q' := q[v := q[v] + [c]];
        assert QueuesOf(cards) == q';
        assert NumberCards(cards) == NumberCards(cards[..n]) + [c];
        Enqueue(q, v, c);
      } else {
    assert QueuesOf(cards) == q;
        assert NumberCards(cards) == NumberCards(cards[..n]);
      }
    }
  }

  /** The queue of each value holds that value's cards in input order. */
  lemma {:induction false} QueuesOfOrder(cards: seq<Card>, v: int)
    requires 1 <= v <= 12
    ensures QueuesOf(cards)[v] == NumbersOf(cards, v)
    decreases |cards|
  {
    if cards != [] {
      var n := |cards| - 1;
      var c := cards[n];
      QueuesOfOrder(cards[..n], v);
      assert cards == cards[..n] + [c];
      NumbersOfAppend(cards[..n], [c], v);
      assert NumbersOf([c], v) == (if IsNumberOf(c, v) then [c] else []) + NumbersOf([], v);
    }
  }

  lemma {:induction false} FlattenEmpty(q: seq<seq<Card>>, k: nat)
    requires k <= |q| && forall j :: k <= j < |q| ==> q[j] == []
    ensures Flatten(q[k..]) == []
    decreases |q| - k
  {
    if k < |q| {
      FlattenEmpty(q, k + 1);
      assert q[k..][1..] == q[k + 1..];
    }
  }

  /** Number cards and wilds are different cards: together they are part of
      the input. */
  lemma {:induction false} NumbersAndWilds(cards: seq<Card>)
    ensures multiset(NumberCards(cards)) + multiset(WildsOf(cards)) <= multiset(cards)
  {
    if cards != [] {
      var c, t := cards[0], cards[1..];
      NumbersAndWilds(t);
      assert cards == [c] + t;
      var a := if c.face.Number? then [c] else [];
      var b := if IsWild(c) then [c] else [];
      assert NumberCards(cards) == a + NumberCards(t);
      assert WildsOf(cards) == b + WildsOf(t);
      assert multiset(a) + multiset(b) <= multiset{c};
    }
  }

  // ---------------------------------------------------------------------
  // Properties of one window
  // ---------------------------------------------------------------------

  /** A window takes the front card of each queue it finds non-empty: the
      cards it takes plus the cards left queued are the cards queued before,
      whether or not the window is then accepted. */
  lemma {:induction false} FillKeeps(q: seq<seq<Card>>, i: int, end: int, wildOk: bool)
    requires QueuesHold(q) && 1 <= i && end <= 12
    ensures var w := Fill(q, i, end, wildOk);
      QueuesHold(w.queues) && multiset(w.run) + Mass(w.queues) == Mass(q)
    decreases end - i + 1
  {
    if i <= end {
      if |q[i]| > 0 {
        ShiftHolds(q, i);
        FillKeeps(q[i := q[i][1..]], i + 1, end, wildOk);
      } else if wildOk {
        FillKeeps(q, i + 1, end, wildOk);
      }
    }
  }

  /** Number cards whose values lie in `lo..hi`. */
  predicate Within(run: seq<Card>, lo: int, hi: int) {
    forall t :: 0 <= t < |run| ==> run[t].face.Number? && lo <= run[t].face.value <= hi
  }

  /** Number cards of strictly ascending values. */
  predicate Ascending(run: seq<Card>) {
    forall t, u :: 0 <= t < u < |run| ==>
      run[t].face.Number? && run[u].face.Number? && run[t].face.value < run[u].face.value
  }

  /** The cards a window takes are number cards whose values lie in the
      window, in strictly ascending order. */
  lemma {:induction false} FillValues(q: seq<seq<Card>>, i: int, end: int, wildOk: bool)
    requires QueuesHold(q) && 1 <= i && end <= 12
    ensures Within(Fill(q, i, end, wildOk).run, i, end)
    ensures Ascending(Fill(q, i, end, wildOk).run)
    decreases end - i + 1
  {
    if i <= end {
      if |q[i]| > 0 {
        var q' := q[i := q[i][1..]];
        ShiftHolds(q, i);
        FillValues(q', i + 1, end, wildOk);
        var w' := Fill(q', i + 1, end, wildOk);
        var run := [q[i][0]] + w'.run;
        assert Fill(q, i, end, wildOk).run == run;
        assert forall t :: 0 < t < |run| ==> run[t] == w'.run[t - 1];
      } else if wildOk {
        FillValues(q, i + 1, end, wildOk);
      }
    }
  }

  /** A window's cards and holes never exceed its slots, and they fill every
      slot exactly when a wild is left or every queue in the window has a
      card: with any wild left, every window is accepted. */
  lemma {:induction false} FillCount(q: seq<seq<Card>>, i: int, end: int, wildOk: bool)
    requires |q| == 13 && 1 <= i && end <= 12 && i <= end + 1
    ensures var w := Fill(q, i, end, wildOk);
      && |w.run| + w.gaps <= end - i + 1
      && (|w.run| + w.gaps == end - i + 1 <==> wildOk || forall j :: i <= j <= end ==> |q[j]| > 0)
    decreases end - i + 1
  {
    if i <= end {
      if |q[i]| > 0 {
        var q' := q[i := q[i][1..]];
        FillCount(q', i + 1, end, wildOk);
        assert forall j :: i < j <= end ==> q'[j] == q[j];
      } else if wildOk {
        FillCount(q, i + 1, end, wildOk);
      }
    }
  }

  /** Without a wild left, a window never counts a hole. */
  lemma {:induction false} FillNoGaps(q: seq<seq<Card>>, i: int, end: int)
    requires |q| == 13 && 1 <= i && end <= 12
    ensures Fill(q, i, end, false).gaps == 0
    decreases end - i + 1
  {
    if i <= end && |q[i]| > 0 {
      FillNoGaps(q[i := q[i][1..]], i + 1, end);
    }
  }

  /** A window whose slots all got a card holds one card of each value of
      the window, in order. */
  lemma {:induction false} FillConsecutive(q: seq<seq<Card>>, i: int, end: int, wildOk: bool)
    requires QueuesHold(q) && 1 <= i && end <= 12 && i <= end + 1
    ensures var w := Fill(q, i, end, wildOk);
      |w.run| == end - i + 1 ==> forall t :: 0 <= t < |w.run| ==> IsNumberOf(w.run[t], i + t)
    decreases end - i + 1
  {
    if i <= end {
      if |q[i]| > 0 {
        var q' := q[i := q[i][1..]];
        ShiftHolds(q, i);
        FillConsecutive(q', i + 1, end, wildOk);
        var w' := Fill(q', i + 1, end, wildOk);
        var run := [q[i][0]] + w'.run;
        assert forall t :: 0 < t < |run| ==> run[t] == w'.run[t - 1];
      } else if wildOk {
        FillCount(q, i + 1, end, wildOk);
      }
    }
  }

  /** A window that takes the front cards of values 1 and 2 and then finds
      no card of value 3 and no wild is rejected, and the two cards it took
      stay out of their queues. */
  lemma LostCardsWitness(q: seq<seq<Card>>, a: Card, b: Card)
    requires |q| == 13 && q[1] == [a] && q[2] == [b] && q[3] == []
    ensures var w := Fill(q, 1, 3, false);
      |w.run| + w.gaps != 3 && w.run == [a, b] && w.queues[1] == [] && w.queues[2] == []
  {
    var q1 := q[1 := []];
    var q2 := q1[2 := []];
    assert q1[2] == [b] && q1[3] == [] && q2[3] == [];
    assert q[1][1..] == [] && q1[2][1..] == [];
    assert q1[2 := q1[2][1..]] == q2;
    assert Fill(q2, 3, 3, false) == Window(q2, [], 0);
    assert Fill(q1, 2, 3, false) == Window(q2, [b], 0);
    assert Fill(q, 1, 3, false) == Window(q2, [a, b], 0);
  }

  // ---------------------------------------------------------------------
  // Properties of the start scan
  // ---------------------------------------------------------------------

  /** A window found for `length` starts no lower than the scan did and no
      higher than `13 - length`, fills all `length` slots with cards and
      holes, and takes only queued number cards whose values lie in it. */
  lemma {:induction false} FindRunFound(q: seq<seq<Card>>, length: int, start: int, wildOk: bool)
    requires QueuesHold(q) && 1 <= start
    ensures var s := FindRun(q, length, start, wildOk);
      s.Found? ==>
        && start <= s.start <= 13 - length
        && |s.window.run| + s.window.gaps == length
        && QueuesHold(s.window.queues)
        && multiset(s.window.run) + Mass(s.window.queues) <= Mass(q)
        && Within(s.window.run, s.start, s.start + length - 1)
    decreases 14 - length - start
  {
    if start <= 12 - length + 1 {
      var w := Fill(q, start, start + length - 1, wildOk);
      FillKeeps(q, start, start + length - 1, wildOk);
      FillValues(q, start, start + length - 1, wildOk);
      if |w.run| + w.gaps != length {
        FindRunFound(w.queues, length, start + 1, wildOk);
      }
    }
  }

  /** With any wild left, the scan accepts its very first window (start 1)
      for every length from 0 to 12, however few cards that window finds. */
  lemma FirstWindowWithWilds(q: seq<seq<Card>>, length: int)
    requires |q| == 13 && 0 <= length <= 12
    ensures FindRun(q, length, 1, true) == Found(1, Fill(q, 1, length, true))
  {
    FillCount(q, 1, length, true);
  }

  /** A window without wilds leaves queues that still hold only their own
      values. */
  lemma FillHolds(q: seq<seq<Card>>, i: int, end: int)
    requires QueuesHold(q) && 1 <= i && end <= 12
    ensures QueuesHold(Fill(q, i, end, false).queues)
  {
    FillKeeps(q, i, end, false);
  }

  /** Without a wild left, a window found holds exactly `length` cards of
      consecutive values, starting at the window's start, and no hole. */
  lemma {:induction false} FindRunNoWilds(q: seq<seq<Card>>, length: int, start: int)
    requires QueuesHold(q) && 1 <= start
    ensures var s := FindRun(q, length, start, false);
      s.Found? ==> (s.window.gaps == 0 && |s.window.run| == length
        && forall t :: 0 <= t < length ==> IsNumberOf(s.window.run[t], s.start + t))
    decreases 14 - length - start
  {
    if start <= 12 - length + 1 {
      var end := start + length - 1;
      var w := Fill(q, start, end, false);
      FillNoGaps(q, start, end);
      if |w.run| == length {
        assert FindRun(q, length, start, false) == Found(start, w);
        FillConsecutive(q, start, end, false);
      } else {
        assert FindRun(q, length, start, false) == FindRun(w.queues, length, start + 1, false);
        FillHolds(q, start, end);
        FindRunNoWilds(w.queues, length, start + 1);
      }
    }
  }

  /** A window touches only the queues of its own slots, and one that stops
      at an empty queue (no wild left) touches none from there on. */
  lemma {:induction false} FillLeaves(q: seq<seq<Card>>, i: int, end: int, k: int)
    requires |q| == 13 && 1 <= i && end <= 12
    requires i <= k <= end && q[k] == []
    ensures var w := Fill(q, i, end, false);
      forall j :: 0 <= j < 13 && (j < i || k <= j) ==> w.queues[j] == q[j]
    decreases end - i + 1
  {
    if i < k && |q[i]| > 0 {
      FillLeaves(q[i := q[i][1..]], i + 1, end, k);
    }
  }

  /** Completeness of the scan without wilds: when every queue of the values
      `s..s+length-1` holds a card, the scan from any `start <= s` finds a
      window, and it starts no later than `s`.  With `FindRunFound` this
      makes the start found the least one whose slots all hold a card. */
  lemma {:induction false} FindRunComplete(q: seq<seq<Card>>, length: int, start: int, s: int)
    requires |q| == 13 && 0 <= length && 1 <= start <= s && s + length - 1 <= 12
    requires forall j :: s <= j < s + length ==> |q[j]| > 0
    ensures var r := FindRun(q, length, start, false);
      r.Found? && r.start <= s
    decreases s - start
  {
    var end := start + length - 1;
    var w := Fill(q, start, end, false);
    FillCount(q, start, end, false);
    if |w.run| + w.gaps != length {
      var k :| start <= k <= end && |q[k]| == 0;
      assert k < s;
      FillLeaves(q, start, end, k);
      assert FindRun(q, length, start, false) == FindRun(w.queues, length, start + 1, false);
      FindRunComplete(w.queues, length, start + 1, s);
    }
  }
  // ---------------------------------------------------------------------
  // Properties of the loop over the lengths
  // ---------------------------------------------------------------------

  /** A requested length above 12 has no start value, so the whole call
      fails. */
  lemma {:induction false} RunsTooLong(lengths: seq<int>, q: seq<seq<Card>>, wilds: seq<Card>, remaining: int, k: nat)
    requires |q| == 13 && k < |lengths| && lengths[k] > 12
    ensures RunsFrom(lengths, q, wilds, remaining) == None
    decreases k
  {
    if k > 0 {
      match FindRun(q, lengths[0], 1, remaining > 0)
      case NoRun =>
      case Found(_, w) =>
        RunsTooLong(lengths[1..], w.queues, wilds[SliceEnd(|wilds|, w.gaps)..], remaining - w.gaps, k - 1);
    }
  }

  /** One group per length, and no card used twice: the groups together hold
      each card at most as often as the queues and the wild list did. */
  lemma {:induction false} RunsNoDoubleUse(lengths: seq<int>, q: seq<seq<Card>>, wilds: seq<Card>, remaining: int, gs: seq<seq<Card>>)
    requires QueuesHold(q) && RunsFrom(lengths, q, wilds, remaining) == Some(gs)
    ensures |gs| == |lengths|
    ensures multiset(Flatten(gs)) <= Mass(q) + multiset(wilds)
    decreases |lengths|
  {
    if lengths != [] {
      var s := FindRun(q, lengths[0], 1, remaining > 0);
      FindRunFound(q, lengths[0], 1, remaining > 0);
      var w := s.window;
      var n := SliceEnd(|wilds|, w.gaps);
      var rest := RunsFrom(lengths[1..], w.queues, wilds[n..], remaining - w.gaps).value;
      RunsNoDoubleUse(lengths[1..], w.queues, wilds[n..], remaining - w.gaps, rest);
      assert gs == [w.run + Take(wilds, w.gaps)] + rest;
      assert gs[0] == w.run + wilds[..n] && gs[1..] == rest;
      assert Flatten(gs) == gs[0] + Flatten(rest);
      assert wilds == wilds[..n] + wilds[n..];
      assert multiset(wilds) == multiset(wilds[..n]) + multiset(wilds[n..]);
      assert multiset(gs[0]) == multiset(w.run) + multiset(wilds[..n]);
      assert multiset(Flatten(gs)) == multiset(gs[0]) + multiset(Flatten(rest));
      MassStep(multiset(w.run), Mass(w.queues), Mass(q), multiset(wilds[..n]), multiset(wilds[n..]),
        multiset(Flatten(rest)));
    }
  }

  /** The bookkeeping of one accepted run: what it takes plus what later
      runs take stays within what was there. */
  lemma MassStep(run: multiset<Card>, left: multiset<Card>, queued: multiset<Card>,
                 used: multiset<Card>, spare: multiset<Card>, later: multiset<Card>)
    requires run + left <= queued && later <= left + spare
    ensures run + used + later <= queued + (used + spare)
  {
  }

  /** Number cards of consecutive values, starting at the first card's. */
  predicate Consecutive(g: seq<Card>) {
    |g| > 0 ==> g[0].face.Number? && forall t :: 0 <= t < |g| ==> IsNumberOf(g[t], g[0].face.value + t)
  }

  /** Without any wild, every group is a run of exactly the requested length
      whose values are consecutive. */
  lemma {:induction false} RunsNoWilds(lengths: seq<int>, q: seq<seq<Card>>, gs: seq<seq<Card>>)
    requires QueuesHold(q) && RunsFrom(lengths, q, [], 0) == Some(gs)
    ensures |gs| == |lengths|
    ensures forall k :: 0 <= k < |gs| ==> |gs[k]| == lengths[k] && Consecutive(gs[k])
    decreases |lengths|
  {
    if lengths != [] {
      var s := FindRun(q, lengths[0], 1, false);
      FindRunNoWilds(q, lengths[0], 1);
      FindRunFound(q, lengths[0], 1, false);
      var w := s.window;
      var none: seq<Card> := [];
      assert SliceEnd(0, 0) == 0 && none[0..] == none;
      var rest := RunsFrom(lengths[1..], w.queues, [], 0).value;
      RunsNoWilds(lengths[1..], w.queues, rest);
      assert gs == [w.run + Take([], 0)] + rest;
      assert gs[0] == w.run;
      assert forall k :: 1 <= k < |gs| ==> gs[k] == rest[k - 1];
    }
  }

  // ---------------------------------------------------------------------
  // `validateRuns` as a whole
  // ---------------------------------------------------------------------

  /** When `validateRuns` succeeds it returns one group per requested
      length, and the groups together use each card of the input at most as
      often as it occurs there; when the input has no wild, each group is
      exactly the requested number of cards of consecutive values. */
  lemma RunsResult(cards: seq<Card>, lengths: seq<int>, gs: seq<seq<Card>>)
    requires RunsFrom(lengths, QueuesOf(cards), WildsOf(cards), |WildsOf(cards)|) == Some(gs)
    ensures RunsVerdict(cards, lengths) == Verdict(true, gs)
    ensures |gs| == |lengths|
    ensures multiset(Flatten(gs)) <= multiset(cards)
    ensures WildsOf(cards) == [] ==> forall k :: 0 <= k < |gs| ==> |gs[k]| == lengths[k] && Consecutive(gs[k])
  {
    QueuesOfHold(cards);
    QueuesOfMass(cards);
    NumbersAndWilds(cards);
    RunsNoDoubleUse(lengths, QueuesOf(cards), WildsOf(cards), |WildsOf(cards)|, gs);
    if WildsOf(cards) == [] {
      RunsNoWilds(lengths, QueuesOf(cards), gs);
    }
  }

  /** Every card in the groups of a successful `validateRuns` is one of
      its input cards. */
  lemma RunsMembers(cards: seq<Card>, lengths: seq<int>)
    ensures var r := RunsVerdict(cards, lengths);
      r.ok ==> forall x :: x in Flatten(r.groups) ==> x in cards
  {
    var gs := RunsFrom(lengths, QueuesOf(cards), WildsOf(cards), |WildsOf(cards)|);
    if gs.Some? {
      RunsResult(cards, lengths, gs.value);
      forall x | x in Flatten(gs.value) ensures x in cards {
        assert x in multiset(Flatten(gs.value));
      }
    }
  }

  /** Completeness without wilds: a hand that holds a number card of every
      value `s..s+length-1` has its run accepted, as `length` cards of
      consecutive values starting no later than `s`. */
  lemma HandRunAccepted(cards: seq<Card>, length: int, s: int)
    requires WildsOf(cards) == [] && 0 <= length && 1 <= s && s + length - 1 <= 12
    requires forall v :: s <= v < s + length ==> NumbersOf(cards, v) != []
    ensures var r := RunsVerdict(cards, [length]);
      && r.ok && |r.groups| == 1 && |r.groups[0]| == length && Consecutive(r.groups[0])
      && (length > 0 ==> r.groups[0][0].face.value <= s)
  {
    var q := QueuesOf(cards);
    forall j | s <= j < s + length ensures |q[j]| > 0 {
      QueuesOfOrder(cards, j);
    }
    FindRunComplete(q, length, 1, s);
    QueuesOfHold(cards);
    FindRunNoWilds(q, length, 1);
    var found := FindRun(q, length, 1, false);
    var none: seq<Card> := [];
    assert found.Found? && found.window.gaps == 0;
    assert found.window.run + Take(none, found.window.gaps) == found.window.run;
    assert [length][0] == length && [length][1..] == [];
    assert RunsFrom([], found.window.queues, none, 0) == Some([]);
    assert RunsFrom([length], q, none, 0) == Then([found.window.run], Some([]));
    var groups := [found.window.run];
    assert groups + [] == groups;
    assert Then(groups, Some([])) == Some(groups);
    assert WildsOf(cards) == none;
    RunsResult(cards, [length], groups);
  }

  /** `validateRuns` is all-or-nothing: it fails with no groups, or it
      returns one group per requested length. */
  lemma RunsShape(cards: seq<Card>, lengths: seq<int>)
    ensures var r := RunsVerdict(cards, lengths);
      if r.ok then |r.groups| == |lengths| else r == Reject
  {
    var gs := RunsFrom(lengths, QueuesOf(cards), WildsOf(cards), |WildsOf(cards)|);
    if gs.Some? {
      QueuesOfHold(cards);
      RunsNoDoubleUse(lengths, QueuesOf(cards), WildsOf(cards), |WildsOf(cards)|, gs.value);
    }
  }

  /** A requested length above 12 makes `validateRuns` fail. */
  lemma RunsLongFails(cards: seq<Card>, lengths: seq<int>, k: nat)
    requires k < |lengths| && lengths[k] > 12
    ensures RunsVerdict(cards, lengths) == Reject
  {
    RunsTooLong(lengths, QueuesOf(cards), WildsOf(cards), |WildsOf(cards)|, k);
  }

  /** With one wild, a single number card of value 1 passes as a run of
      four: the first window counts three holes, and the group built holds
      the card and the one wild, two cards in all. */
  lemma ShortRunWitness(c: Card, w: Card)
    requires IsNumberOf(c, 1) && IsWild(w)
    ensures RunsVerdict([c, w], [4]) == Verdict(true, [[c, w]])
  {
    var cards := [c, w];
    assert cards[..1] == [c] && [c][..0] == [];
    var q := NoQueues()[1 := [c]];
    assert NoQueues()[1] == [] && c.face.value == 1;
    assert QueuesOf([c]) == NoQueues()[1 := NoQueues()[1] + [c]];
    assert NoQueues()[1] + [c] == [c];
    assert cards[..|cards| - 1] == [c] && cards[|cards| - 1] == w && !w.face.Number?;
    assert QueuesOf(cards) == q;
    assert WildsOf(cards) == [w] by {
      assert cards[1..] == [w];
      assert WildsOf([w]) == [w] + WildsOf([]);
    }
    var q' := q[1 := []];
    assert q[1][1..] == [];
    assert Fill(q', 5, 4, true) == Window(q', [], 0);
    assert Fill(q', 4, 4, true) == Window(q', [], 1);
    assert Fill(q', 3, 4, true) == Window(q', [], 2);
    assert Fill(q', 2, 4, true) == Window(q', [], 3);
    assert Fill(q, 1, 4, true) == Window(q', [c], 3);
    FirstWindowWithWilds(q, 4);
    assert FindRun(q, 4, 1, true) == Found(1, Window(q', [c], 3));
    assert Take([w], 3) == [w] && SliceEnd(1, 3) == 1 && [w][1..] == [];
    assert [c] + [w] == [c, w];
    assert RunsFrom([4], q, [w], 1) == Then([[c, w]], RunsFrom([], q', [], -2));
  }
}
