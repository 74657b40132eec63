/**
 * Cards of the Phase 10 deck and the sequence helpers the rest of the model
 * shares.  A card is a record with an object identity: the server compares
 * cards by reference (`===`) in one place, so every card carries a `ref`
 * that stands for the JavaScript object it is.  Two cards with equal faces
 * but different refs are two physical cards.
 */
module Cards {

  datatype Option<+T> = None | Some(value: T)

  /** The four colours, in the order the deck is built. */
  datatype Color = Red | Yellow | Green | Blue

  /** A number card's value. */
  type CardValue = v: int | 1 <= v <= 12 witness 1

  /** What is printed on a card.  A wild may carry the value the player gave it
      when laying a phase; the server never reads it. */
  datatype Face = Number(color: Color, value: CardValue) | Wild(assignedValue: Option<int>) | Skip

  /** A physical card: `ref` is its object identity, `id` the optional `id`
      property the client reads (the server's deck never sets one). */
  datatype Card = Card(ref: nat, id: Option<nat>, face: Face)

  /** The `{ ok, groups }` record every validator returns. */
  datatype Verdict = Verdict(ok: bool, groups: seq<seq<Card>>)

  /** `{ ok: false, groups: [] }` */
  const Reject: Verdict := Verdict(false, [])

  /** A player's socket id. */
  type PlayerId = string

  /** The `type` field of a card record. */
  datatype Kind = NumberKind | WildKind | SkipKind

  function KindOf(c: Card): Kind {
    match c.face
    case Number(_, _) => NumberKind
    case Wild(_) => WildKind
    case Skip => SkipKind
  }

  /** `card.value`: only number cards have one. */
  function ValueOf(c: Card): Option<int> {
    if c.face.Number? then Some(c.face.value as int) else None
  }

  /** `card.color`: only number cards have one. */
  function ColorOf(c: Card): Option<Color> {
    if c.face.Number? then Some(c.face.color) else None
  }

  predicate IsWild(c: Card) { c.face.Wild? }
  predicate IsSkip(c: Card) { c.face.Skip? }
  predicate IsNumberOf(c: Card, v: int) { c.face.Number? && c.face.value == v }

  // ---------------------------------------------------------------------
  // Filters (Array.prototype.filter in the source)
  // ---------------------------------------------------------------------

  /** `cards.filter(c => c.type === 'wild')` */
  function WildsOf(cards: seq<Card>): (w: seq<Card>)
    ensures |w| <= |cards|
  {
    if cards == [] then []
    else (if IsWild(cards[0]) then [cards[0]] else []) + WildsOf(cards[1..])
  }

  /** `cards.filter(c => c.type === 'number' && c.value === v)` */
  function NumbersOf(cards: seq<Card>, v: int): (ns: seq<Card>)
    ensures |ns| <= |cards|
  {
    if cards == [] then []
    else (if IsNumberOf(cards[0], v) then [cards[0]] else []) + NumbersOf(cards[1..], v)
  }

  /** `cards.filter(c => c.type !== 'skip')` */
  function NonSkips(cards: seq<Card>): (r: seq<Card>)
    ensures |r| <= |cards|
  {
    if cards == [] then []
    else (if IsSkip(cards[0]) then [] else [cards[0]]) + NonSkips(cards[1..])
  }

  /** The wild filter keeps exactly the wilds, each as often as it occurs. */
  lemma {:induction false} WildsOfFacts(cards: seq<Card>)
    ensures forall c :: c in WildsOf(cards) <==> c in cards && IsWild(c)
    ensures multiset(WildsOf(cards)) <= multiset(cards)
  {
    if cards != [] {
      WildsOfFacts(cards[1..]);
      assert cards == [cards[0]] + cards[1..];
    }
  }

  /** The value filter keeps exactly the number cards of that value. */
  lemma {:induction false} NumbersOfFacts(cards: seq<Card>, v: int)
    ensures forall c :: c in NumbersOf(cards, v) <==> c in cards && IsNumberOf(c, v)
    ensures multiset(NumbersOf(cards, v)) <= multiset(cards)
  {
    if cards != [] {
      NumbersOfFacts(cards[1..], v);
      assert cards == [cards[0]] + cards[1..];
    }
  }

  /** The skip filter keeps exactly the cards that are not skips. */
  lemma {:induction false} NonSkipsFacts(cards: seq<Card>)
    ensures forall c :: c in NonSkips(cards) <==> c in cards && !IsSkip(c)
    ensures multiset(NonSkips(cards)) <= multiset(cards)
  {
    if cards != [] {
      NonSkipsFacts(cards[1..]);
      assert cards == [cards[0]] + cards[1..];
    }
  }

  lemma {:induction false} WildsOfAppend(a: seq<Card>, b: seq<Card>)
    ensures WildsOf(a + b) == WildsOf(a) + WildsOf(b)
  {
    if a != [] {
      assert (a + b)[0] == a[0];
      assert (a + b)[1..] == a[1..] + b;
      WildsOfAppend(a[1..], b);
    } else {
      assert a + b == b;
    }
  }

  lemma {:induction false} NumbersOfAppend(a: seq<Card>, b: seq<Card>, v: int)
    ensures NumbersOf(a + b, v) == NumbersOf(a, v) + NumbersOf(b, v)
  {
    if a != [] {
      assert (a + b)[0] == a[0];
      assert (a + b)[1..] == a[1..] + b;
      NumbersOfAppend(a[1..], b, v);
    } else {
      assert a + b == b;
    }
  }

  // ---------------------------------------------------------------------
  // JavaScript array helpers
  // ---------------------------------------------------------------------

  /** The end index `arr.slice(0, end)` really uses: a negative `end` counts
      back from the length, and both ends are clamped to `[0, len]`. */
  function SliceEnd(len: nat, end: int): (k: nat)
    ensures k <= len
    ensures 0 <= end <= len ==> k == end
    ensures end > len ==> k == len
    ensures end < 0 ==> k == if len + end < 0 then 0 else len + end
  {
    if end < 0 then (if len + end < 0 then 0 else len + end)
    else if end > len then len
    else end
  }

  /** `s.slice(0, end)` */
  function Take<T>(s: seq<T>, end: int): (r: seq<T>)
    ensures |r| == SliceEnd(|s|, end)
    ensures r == s[..SliceEnd(|s|, end)]
  {
    s[..SliceEnd(|s|, end)]
  }

  /** `groups.flat()` */
  function Flatten(groups: seq<seq<Card>>): seq<Card> {
    if groups == [] then [] else groups[0] + Flatten(groups[1..])
  }

  lemma {:induction false} FlattenMembers(groups: seq<seq<Card>>)
    ensures forall x :: x in Flatten(groups) <==> exists k :: 0 <= k < |groups| && x in groups[k]
  {
    if groups != [] {
      FlattenMembers(groups[1..]);
      forall x ensures x in Flatten(groups) <==> exists k :: 0 <= k < |groups| && x in groups[k] {
        if x in Flatten(groups[1..]) {
          var k :| 0 <= k < |groups[1..]| && x in groups[1..][k];
          assert x in groups[k + 1];
        }
        if exists k :: 0 <= k < |groups| && x in groups[k] {
          var k :| 0 <= k < |groups| && x in groups[k];
          if k > 0 { assert x in groups[1..][k - 1]; }
        }
      }
    }
  }

  lemma {:induction false} FlattenAppend(a: seq<seq<Card>>, b: seq<seq<Card>>)
    ensures Flatten(a + b) == Flatten(a) + Flatten(b)
  {
    if a == [] {
      assert a + b == b;
    } else {
      assert (a + b)[1..] == a[1..] + b;
      FlattenAppend(a[1..], b);
    }
  }

  /** Results already produced, followed by what the rest of a loop that
      may still fail produces. */
  function Then<T>(done: seq<T>, rest: Option<seq<T>>): Option<seq<T>> {
    match rest
    case None => None
    case Some(xs) => Some(done + xs)
  }

  lemma ThenThen<T>(a: seq<T>, b: seq<T>, rest: Option<seq<T>>)
    ensures Then(a, Then(b, rest)) == Then(a + b, rest)
  {
    if rest.Some? {
      assert a + (b + rest.value) == (a + b) + rest.value;
    }
  }

  // ---------------------------------------------------------------------
  // The hand-card matching predicate of the socket handlers
  // ---------------------------------------------------------------------

  /** What a client sends to name a hand card: a type, and optionally a value
      and a colour (a missing one matches anything). */
  datatype Request = Request(kind: Kind, value: Option<int>, color: Option<Color>)

  /** `c.type === card.type && (c.value === card.value || card.value == null)
      && (c.color === card.color || card.color == null)` */
  predicate Matches(c: Card, req: Request) {
    && KindOf(c) == req.kind
    && (ValueOf(c) == req.value || req.value.None?)
    && (ColorOf(c) == req.color || req.color.None?)
  }

  /** The request a card record sent back by the client amounts to. */
  function AsRequest(c: Card): Request {
    Request(KindOf(c), ValueOf(c), ColorOf(c))
  }

  /** `hand.findIndex(c => Matches(c, req))`, with `None` for -1. */
  function FirstMatch(hand: seq<Card>, req: Request): (r: Option<nat>)
    ensures r.Some? ==> r.value < |hand| && Matches(hand[r.value], req)
    ensures r.Some? ==> forall j :: 0 <= j < r.value ==> !Matches(hand[j], req)
    ensures r.None? ==> forall j :: 0 <= j < |hand| ==> !Matches(hand[j], req)
  {
    if hand == [] then None
    else if Matches(hand[0], req) then Some(0)
    else
      match FirstMatch(hand[1..], req)
      case None => None
      case Some(k) => Some(k + 1)
  }

  /** A card always matches the request made from its own record, and the
      request made from a card matches exactly the cards with the same face
      (a wild's assigned value and the card's identity are not compared). */
  lemma AsRequestMatches(c: Card, h: Card)
    ensures Matches(c, AsRequest(c))
    ensures Matches(h, AsRequest(c)) <==>
      (KindOf(h) == KindOf(c) && ValueOf(h) == ValueOf(c) && ColorOf(h) == ColorOf(c))
  {
  }

  /** `s.splice(i, 1)`: the sequence without its element at `i`. */
  function RemoveAt<T>(s: seq<T>, i: nat): (r: seq<T>)
    requires i < |s|
    ensures |r| == |s| - 1
    ensures forall j :: 0 <= j < i ==> r[j] == s[j]
    ensures forall j :: i <= j < |r| ==> r[j] == s[j + 1]
    ensures multiset(r) + multiset{s[i]} == multiset(s)
  {
    assert s == s[..i] + [s[i]] + s[i + 1..];
    s[..i] + s[i + 1..]
  }

  /** `s.splice(i, 0, x)` for an index inside the sequence or just past it. */
  function InsertAt<T>(s: seq<T>, i: nat, x: T): (r: seq<T>)
    requires i <= |s|
    ensures |r| == |s| + 1 && r[i] == x
    ensures forall j :: 0 <= j < i ==> r[j] == s[j]
    ensures forall j :: i < j < |r| ==> r[j] == s[j - 1]
    ensures multiset(r) == multiset(s) + multiset{x}
  {
    assert s == s[..i] + s[i..];
    s[..i] + [x] + s[i..]
  }

  /** Putting a removed element back where it was restores the sequence. */
  lemma InsertRemoved<T>(s: seq<T>, i: nat)
    requires i < |s|
    ensures InsertAt(RemoveAt(s, i), i, s[i]) == s
  {
  }

  /** Cards added to both sides of an equation cancel. */
  lemma Cancel(a: multiset<Card>, b: multiset<Card>, c: multiset<Card>)
    requires a + c == b + c
    ensures a == b
  {
    forall x ensures a[x] == b[x] {
      assert (a + c)[x] == (b + c)[x];
    }
  }
}
