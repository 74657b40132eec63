/**
 * `validateColor`: one group of `count` cards of a single colour, topped up
 * with wilds.  The number cards are bucketed by colour; the colour with the
 * most cards is chosen, ties going to the earlier key of the bucket object
 * (red, blue, green, yellow).
 */
module ColorMatcher {
  import opened Cards

  /** The keys of `colorGroups`, in the order `Object.entries` lists them. */
  const KEY_ORDER: seq<Color> := [Red, Blue, Green, Yellow]

  /** A colour's place among the keys of `colorGroups`. */
  function KeyIndex(c: Color): (k: nat)
    ensures k < |KEY_ORDER| && KEY_ORDER[k] == c
  {
    match c
    case Red => 0
    case Blue => 1
    case Green => 2
    case Yellow => 3
  }

  /** `colorGroups[color]` after the grouping loop: the number cards of that
      colour, in input order. */
  function OfColor(cards: seq<Card>, color: Color): seq<Card> {
    if cards == [] then []
    else (if ColorOf(cards[0]) == Some(color) then [cards[0]] else []) + OfColor(cards[1..], color)
  }

  lemma {:induction false} OfColorAppend(a: seq<Card>, b: seq<Card>, color: Color)
    ensures OfColor(a + b, color) == OfColor(a, color) + OfColor(b, color)
  {
    if a != [] {
      assert (a + b)[0] == a[0];
      assert (a + b)[1..] == a[1..] + b;
      OfColorAppend(a[1..], b, color);
    } else {
      assert a + b == b;
    }
  }

  /** A colour's bucket holds exactly the input's number cards of that
      colour. */
  lemma {:induction false} OfColorMembers(cards: seq<Card>, color: Color)
    ensures forall x :: x in OfColor(cards, color) <==> x in cards && ColorOf(x) == Some(color)
  {
    if cards != [] {
      OfColorMembers(cards[1..], color);
      assert cards == [cards[0]] + cards[1..];
    }
  }

  /** Together with the wilds, a bucket uses no card more often than the
      input holds it. */
  lemma {:induction false} OfColorAndWilds(cards: seq<Card>, color: Color)
    ensures multiset(OfColor(cards, color)) + multiset(WildsOf(cards)) <= multiset(cards)
  {
    if cards != [] {
      var c, rest := cards[0], cards[1..];
      OfColorAndWilds(rest, color);
      assert cards == [c] + rest;
      var a := if ColorOf(c) == Some(color) then [c] else [];
      var b := if IsWild(c) then [c] else [];
      assert OfColor(cards, color) == a + OfColor(rest, color);
      assert WildsOf(cards) == b + WildsOf(rest);
      assert multiset(a) + multiset(b) <= multiset{c};
    }
  }

  /** The bucket sizes, in key order. */
  function Sizes(cards: seq<Card>): (s: seq<int>)
    ensures |s| == |KEY_ORDER|
  {
    seq(|KEY_ORDER|, k requires 0 <= k < |KEY_ORDER| => |OfColor(cards, KEY_ORDER[k])|)
  }

  /** Position of the entry that a stable sort by size, descending, puts
      first: the earliest of the largest. */
  function Leader(sizes: seq<int>): (j: nat)
    requires |sizes| > 0
    ensures j < |sizes|
  {
    if |sizes| == 1 then 0
    else
      var j := Leader(sizes[..|sizes| - 1]);
      if sizes[|sizes| - 1] > sizes[j] then |sizes| - 1 else j
  }

  /** The leader is at least as large as every entry and strictly larger
      than every entry before it. */
  lemma {:induction false} LeaderFacts(sizes: seq<int>)
    requires |sizes| > 0
    ensures forall k :: 0 <= k < |sizes| ==> sizes[k] <= sizes[Leader(sizes)]
    ensures forall k :: 0 <= k < Leader(sizes) ==> sizes[k] < sizes[Leader(sizes)]
  {
    if |sizes| > 1 {
      var init := sizes[..|sizes| - 1];
      LeaderFacts(init);
      assert forall k :: 0 <= k < |init| ==> init[k] == sizes[k];
    }
  }

  /** `colorEntries[0][0]` after the sort. */
  function ChosenColor(cards: seq<Card>): Color {
    KEY_ORDER[Leader(Sizes(cards))]
  }

  /** `Math.min(count - colorCards.length, wilds.length)` */
  function NeededWilds(cards: seq<Card>, count: int): int {
    var n := |OfColor(cards, ChosenColor(cards))|;
    var w := |WildsOf(cards)|;
    if count - n < w then count - n else w
  }

  /** What `validateColor(cards, count)` returns. */
  function ColorVerdict(cards: seq<Card>, count: int): Verdict {
    var colorCards := OfColor(cards, ChosenColor(cards));
    var wilds := WildsOf(cards);
    if |colorCards| + |wilds| >= count then
      Verdict(true, [Take(colorCards, count) + Take(wilds, NeededWilds(cards, count))])
    else Reject
  }

  // ---------------------------------------------------------------------
  // The code as the source runs it
  // ---------------------------------------------------------------------

  /** The grouping loop: push every number card onto its colour's bucket. */
  method GroupByColor(cards: seq<Card>) returns (groups: seq<seq<Card>>)
    ensures |groups| == |KEY_ORDER|
    ensures forall k :: 0 <= k < |KEY_ORDER| ==> groups[k] == OfColor(cards, KEY_ORDER[k])
  {
    groups := [[], [], [], []];
    var i := 0;
    while i < |cards|
      invariant 0 <= i <= |cards|
      invariant |groups| == |KEY_ORDER|
      invariant forall k :: 0 <= k < |KEY_ORDER| ==> groups[k] == OfColor(cards[..i], KEY_ORDER[k])
    {
      var card := cards[i];
      assert cards[..i + 1] == cards[..i] + [card];
      forall k | 0 <= k < |KEY_ORDER|
        ensures OfColor(cards[..i + 1], KEY_ORDER[k]) == OfColor(cards[..i], KEY_ORDER[k]) + OfColor([card], KEY_ORDER[k])
      {
        OfColorAppend(cards[..i], [card], KEY_ORDER[k]);
        assert OfColor([card], KEY_ORDER[k]) ==
          (if ColorOf(card) == Some(KEY_ORDER[k]) then [card] else []) + OfColor([], KEY_ORDER[k]);
      }
      if card.face.Number? {
        var k := KeyIndex(card.face.color);
        groups := groups[k := groups[k] + [card]];
      }
      i := i + 1;
    }
    assert cards[..i] == cards;
  }

  /** `validateColor(cards, count)` */
  method ValidateColor(cards: seq<Card>, count: int) returns (r: Verdict)
    ensures r == ColorVerdict(cards, count)
  {
    var wilds := WildsOf(cards);
    var groups := GroupByColor(cards);
    var sizes := seq(|KEY_ORDER|, k requires 0 <= k < |KEY_ORDER| => |groups[k]|);
    assert sizes == Sizes(cards);
    var colorCards := groups[Leader(sizes)];
    if |colorCards| + |wilds| >= count {
      var neededWilds := if count - |colorCards| < |wilds| then count - |colorCards| else |wilds|;
      r := Verdict(true, [Take(colorCards, count) + Take(wilds, neededWilds)]);
    } else {
      r := Reject;
    }
  }

  // ---------------------------------------------------------------------
  // Properties
  // ---------------------------------------------------------------------

  /** The chosen colour has the most number cards; every colour listed
      before it among the keys (red, blue, green, yellow) has fewer. */
  lemma ChosenColorFacts(cards: seq<Card>)
    ensures forall c: Color :: |OfColor(cards, c)| <= |OfColor(cards, ChosenColor(cards))|
    ensures forall c: Color :: KeyIndex(c) < KeyIndex(ChosenColor(cards)) ==>
      |OfColor(cards, c)| < |OfColor(cards, ChosenColor(cards))|
  {
    var s := Sizes(cards);
    LeaderFacts(s);
    var j := Leader(s);
    assert KeyIndex(ChosenColor(cards)) == j;
    forall c: Color ensures |OfColor(cards, c)| <= |OfColor(cards, ChosenColor(cards))| {
      assert s[KeyIndex(c)] == |OfColor(cards, c)|;
    }
    forall c: Color | KeyIndex(c) < j ensures |OfColor(cards, c)| < |OfColor(cards, ChosenColor(cards))| {
      assert s[KeyIndex(c)] == |OfColor(cards, c)|;
    }
  }

  /** The two facts above pin the chosen colour down: no other colour has
      them both. */
  lemma ChosenColorUnique(cards: seq<Card>, c: Color)
    requires forall d: Color :: |OfColor(cards, d)| <= |OfColor(cards, c)|
    requires forall d: Color :: KeyIndex(d) < KeyIndex(c) ==> |OfColor(cards, d)| < |OfColor(cards, c)|
    ensures ChosenColor(cards) == c
  {
    ChosenColorFacts(cards);
    assert KeyIndex(ChosenColor(cards)) == KeyIndex(c);
  }

  /** `validateColor` succeeds exactly when some colour's number cards
      together with all the wilds reach `count`. */
  lemma ColorOk(cards: seq<Card>, count: int)
    ensures ColorVerdict(cards, count).ok <==>
      exists c: Color :: |OfColor(cards, c)| + |WildsOf(cards)| >= count
    ensures !ColorVerdict(cards, count).ok ==> ColorVerdict(cards, count) == Reject
  {
    ChosenColorFacts(cards);
    if ColorVerdict(cards, count).ok {
      var c := ChosenColor(cards);
      assert |OfColor(cards, c)| + |WildsOf(cards)| >= count;
    }
  }

  /** On success there is one group; it holds only number cards of the
      chosen colour and wilds, and no card more often than the input. */
  lemma ColorGroupCards(cards: seq<Card>, count: int)
    requires ColorVerdict(cards, count).ok
    ensures |ColorVerdict(cards, count).groups| == 1
    ensures forall x :: x in ColorVerdict(cards, count).groups[0] ==>
      IsWild(x) || ColorOf(x) == Some(ChosenColor(cards))
    ensures multiset(ColorVerdict(cards, count).groups[0]) <= multiset(cards)
  {
    var color := ChosenColor(cards);
    var colorCards := OfColor(cards, color);
    var wilds := WildsOf(cards);
    var a := Take(colorCards, count);
    var b := Take(wilds, NeededWilds(cards, count));
    OfColorMembers(cards, color);
    OfColorAndWilds(cards, color);
    WildsOfFacts(cards);
    assert colorCards == a + colorCards[|a|..];
    assert wilds == b + wilds[|b|..];
    assert multiset(a) <= multiset(colorCards);
    assert multiset(b) <= multiset(wilds);
    forall x | x in a + b ensures IsWild(x) || ColorOf(x) == Some(color) {
      if x in a { assert x in colorCards; } else { assert x in wilds; }
    }
  }

  /** When the chosen colour has no more than `count` cards, the group has
      exactly `count` cards: all of that colour and enough wilds. */
  lemma ColorGroupSize(cards: seq<Card>, count: int)
    requires ColorVerdict(cards, count).ok
    requires |OfColor(cards, ChosenColor(cards))| <= count
    ensures |ColorVerdict(cards, count).groups[0]| == count
  {
  }

  /** When the chosen colour has more than `count` cards, `count - n` is
      negative and `wilds.slice(0, count - n)` drops `n - count` wilds from
      the END rather than taking none: the group then holds `count` coloured
      cards plus every wild beyond those `n - count`. */
  lemma ColorOverSupply(cards: seq<Card>, count: int)
    requires 0 <= count < |OfColor(cards, ChosenColor(cards))|
    ensures var n, w := |OfColor(cards, ChosenColor(cards))|, |WildsOf(cards)|;
      ColorVerdict(cards, count).ok &&
      |ColorVerdict(cards, count).groups[0]| == count + (if w > n - count then w - (n - count) else 0)
  {
  }
}
