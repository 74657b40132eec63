/**
 * Building the 108-card deck and dealing hands from its front.
 */
module Deck {
  import opened Cards

  /** The colours in the order the deck is built. */
  const COLORS: seq<Color> := [Red, Yellow, Green, Blue]
  const WILD_COUNT: nat := 8
  const SKIP_COUNT: nat := 4
  const DECK_SIZE: nat := 108

  /** The face at position `i` of a fresh deck: for each colour in turn, two
      cards of each value 1..12, then the wilds, then the skips. */
  function DeckFace(i: nat): Face
    requires i < DECK_SIZE
  {
    if i < 96 then Number(COLORS[i / 24], (i % 24) / 2 + 1)
    else if i < 96 + WILD_COUNT then Wild(None)
    else Skip
  }

  /** `createDeck()`: every push makes a fresh object, so the card pushed at
      position `i` gets the identity `i`. */
  method CreateDeck() returns (deck: seq<Card>)
    ensures |deck| == DECK_SIZE
    ensures forall i :: 0 <= i < |deck| ==> deck[i] == Card(i, None, DeckFace(i))
  {
    deck := [];
    var ci := 0;
    while ci < |COLORS|
      invariant 0 <= ci <= |COLORS|
      invariant |deck| == 24 * ci
      invariant forall i :: 0 <= i < |deck| ==> deck[i] == Card(i, None, DeckFace(i))
    {
      var num := 1;
      while num <= 12
        invariant 1 <= num <= 13
        invariant |deck| == 24 * ci + 2 * (num - 1)
        invariant forall i :: 0 <= i < |deck| ==> deck[i] == Card(i, None, DeckFace(i))
      {
        var n := |deck|;
        assert n / 24 == ci && (n % 24) / 2 + 1 == num && (n + 1) / 24 == ci && ((n + 1) % 24) / 2 + 1 == num;
        deck := deck + [Card(n, None, Number(COLORS[ci], num))];
        deck := deck + [Card(n + 1, None, Number(COLORS[ci], num))];
        num := num + 1;
      }
      ci := ci + 1;
    }
    var w := 0;
    while w < WILD_COUNT
      invariant 0 <= w <= WILD_COUNT
      invariant |deck| == 96 + w
      invariant forall i :: 0 <= i < |deck| ==> deck[i] == Card(i, None, DeckFace(i))
    {
      deck := deck + [Card(|deck|, None, Wild(None))];
      w := w + 1;
    }
    var k := 0;
    while k < SKIP_COUNT
      invariant 0 <= k <= SKIP_COUNT
      invariant |deck| == 96 + WILD_COUNT + k
      invariant forall i :: 0 <= i < |deck| ==> deck[i] == Card(i, None, DeckFace(i))
    {
      deck := deck + [Card(|deck|, None, Skip)];
      k := k + 1;
    }
  }

  /** Each colour and value appears on exactly the two adjacent positions
      `24 * (colour's place) + 2 * (value - 1)` and the one after it; positions
      96..103 are the eight wilds and 104..107 the four skips. */
  lemma DeckLayout(ci: nat, v: CardValue, i: nat)
    requires ci < |COLORS| && i < DECK_SIZE
    ensures DeckFace(i) == Number(COLORS[ci], v) <==>
      (i == 24 * ci + 2 * (v - 1) || i == 24 * ci + 2 * (v - 1) + 1)
    ensures DeckFace(i).Wild? <==> 96 <= i < 104
    ensures DeckFace(i).Skip? <==> 104 <= i
  {
    if i < 96 {
      var q, r := i / 24, i % 24;
      assert i == 24 * q + r;
      if DeckFace(i) == Number(COLORS[ci], v) {
        assert COLORS[q] == COLORS[ci];
        assert q == ci;
        assert r / 2 + 1 == v;
      }
    }
  }

  // ---------------------------------------------------------------------
  // Dealing
  // ---------------------------------------------------------------------

  /** How many cards `deck.splice(0, count)` takes. */
  function TakeCount(deck: seq<Card>, count: nat): (k: nat)
    ensures k <= |deck|
    ensures k == count || k == |deck|
  {
    if count <= |deck| then count else |deck|
  }

  /** The deck left after `n` players have each taken their cards. */
  function Remaining(deck: seq<Card>, count: nat, n: nat): seq<Card>
    decreases n
  {
    if n == 0 then deck
    else Remaining(deck[TakeCount(deck, count)..], count, n - 1)
  }

  /** The cards the player at position `i` of the deal takes. */
  function Chunk(deck: seq<Card>, count: nat, i: nat): seq<Card>
    decreases i
  {
    if i == 0 then deck[..TakeCount(deck, count)]
    else Chunk(deck[TakeCount(deck, count)..], count, i - 1)
  }

  /** All chunks taken by the first `n` players, in order. */
  function Chunks(deck: seq<Card>, count: nat, n: nat): seq<seq<Card>>
    decreases n
  {
    if n == 0 then []
    else [deck[..TakeCount(deck, count)]] + Chunks(deck[TakeCount(deck, count)..], count, n - 1)
  }

  lemma {:induction false} RemainingStep(deck: seq<Card>, count: nat, n: nat)
    ensures var rest := Remaining(deck, count, n);
      Remaining(deck, count, n + 1) == rest[TakeCount(rest, count)..]
      && Chunk(deck, count, n) == rest[..TakeCount(rest, count)]
      && Chunks(deck, count, n + 1) == Chunks(deck, count, n) + [Chunk(deck, count, n)]
    decreases n
  {
    if n > 0 {
      RemainingStep(deck[TakeCount(deck, count)..], count, n - 1);
    }
  }

  /** Dealing loses and reorders nothing: the players' chunks in turn followed
      by the remaining deck are the original deck. */
  lemma {:induction false} DealKeepsDeck(deck: seq<Card>, count: nat, n: nat)
    ensures Flatten(Chunks(deck, count, n)) + Remaining(deck, count, n) == deck
    decreases n
  {
    if n > 0 {
      var k := TakeCount(deck, count);
      var tail := Flatten(Chunks(deck[k..], count, n - 1));
      var rest := Remaining(deck[k..], count, n - 1);
      DealKeepsDeck(deck[k..], count, n - 1);
      calc {
        Flatten(Chunks(deck, count, n)) + Remaining(deck, count, n);
        (deck[..k] + tail) + rest;
        { JoinSplit(deck, k, tail, rest); }
        deck;
      }
    }
  }

  lemma JoinSplit(s: seq<Card>, k: nat, a: seq<Card>, b: seq<Card>)
    requires k <= |s| && a + b == s[k..]
    ensures (s[..k] + a) + b == s
  {
    assert (s[..k] + a) + b == s[..k] + (a + b);
    assert s == s[..k] + s[k..];
  }

  /** When the deck holds enough cards, every player gets exactly `count`
      cards and `n * count` cards leave the deck. */
  lemma {:induction false} DealSizes(deck: seq<Card>, count: nat, n: nat)
    requires n * count <= |deck|
    ensures |Remaining(deck, count, n)| == |deck| - n * count
    ensures forall i :: 0 <= i < n ==> |Chunk(deck, count, i)| == count
    decreases n
  {
    if n > 0 {
      assert n * count == count + (n - 1) * count;
      DealSizes(deck[count..], count, n - 1);
      forall i | 0 <= i < n ensures |Chunk(deck, count, i)| == count {
        if i > 0 {
          assert Chunk(deck, count, i) == Chunk(deck[count..], count, i - 1);
        }
      }
    }
  }

  /** No later player in `ids` has the same id as the one at `i`: that player's
      hand is the one the deal leaves in the map. */
  predicate LastWithId(ids: seq<PlayerId>, i: nat)
    requires i < |ids|
  {
    forall j :: i < j < |ids| ==> ids[j] != ids[i]
  }

  /** `deal(deck, players, count)`: each player in order takes the next
      `count` cards (fewer when the deck runs out) from the front; a repeated
      id keeps the later hand. */
  method Deal(deck: seq<Card>, ids: seq<PlayerId>, count: nat)
    returns (hands: map<PlayerId, seq<Card>>, rest: seq<Card>)
    ensures hands.Keys == set i | 0 <= i < |ids| :: ids[i]
    ensures forall i :: 0 <= i < |ids| && LastWithId(ids, i) ==> hands[ids[i]] == Chunk(deck, count, i)
    ensures rest == Remaining(deck, count, |ids|)
  {
    hands := map[];
    rest := deck;
    var p := 0;
    while p < |ids|
      invariant 0 <= p <= |ids|
      invariant rest == Remaining(deck, count, p)
      invariant hands.Keys == set i | 0 <= i < p :: ids[i]
      invariant forall i :: 0 <= i < p && (forall j :: i < j < p ==> ids[j] != ids[i]) ==>
        hands[ids[i]] == Chunk(deck, count, i)
    {
      RemainingStep(deck, count, p);
      var k := TakeCount(rest, count);
      hands := hands[ids[p] := rest[..k]];
      rest := rest[k..];
      p := p + 1;
    }
  }
}
