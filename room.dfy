/**
 * The room record the socket handlers update: whose turn it is, the draw
 * pile, the discard pile, each player's hand, the phases laid this round
 * and the scores.  Each handler is a method of `Room`; the transport (who
 * sent the event, what is broadcast afterwards) is left out, and the
 * caller's socket id is a parameter.
 */
module Rooms {
  import opened Cards
  import Phases

  /** An entry of `room.players`. */
  datatype Player = Player(socketId: PlayerId, username: string, phaseIndex: int, score: int)

  /** `players.findIndex(p => p.socketId === id)`, with `None` for -1. */
  function IndexOf(players: seq<Player>, id: PlayerId): (r: Option<nat>)
    ensures r.Some? ==> r.value < |players| && players[r.value].socketId == id
    ensures r.Some? ==> forall j :: 0 <= j < r.value ==> players[j].socketId != id
    ensures r.None? ==> forall j :: 0 <= j < |players| ==> players[j].socketId != id
  {
    if players == [] then None
    else if players[0].socketId == id then Some(0)
    else
      match IndexOf(players[1..], id)
      case None => None
      case Some(k) => Some(k + 1)
  }

  /** No socket id occurs twice among the players. */
  predicate DistinctIds(players: seq<Player>) {
    forall i, j :: 0 <= i < j < |players| ==> players[i].socketId != players[j].socketId
  }

  /** Every player has a hand. */
  predicate AllDealt(players: seq<Player>, hands: map<PlayerId, seq<Card>>) {
    forall i :: 0 <= i < |players| ==> players[i].socketId in hands
  }

  // ---------------------------------------------------------------------
  // Turn order
  // ---------------------------------------------------------------------

  /** The next turn after the player at `cur` discards: one step round the
      table, one more when the discarded card is a skip. */
  function NextTurn(cur: nat, n: nat, skip: bool): nat
    requires n > 0
  {
    var next := (cur + 1) % n;
    if skip then (next + 1) % n else next
  }

  /** Reducing a value below twice the modulus takes at most one step. */
  lemma ModOnce(a: int, n: int)
    requires n > 0 && 0 <= a < 2 * n
    ensures a % n == if a < n then a else a - n
  {
    if a >= n {
      assert a == n + (a - n) && 0 <= a - n < n;
    }
  }

  /** The turn passes to the next seat, or the one after it for a skip;
      with two players a skip gives the discarder the turn again. */
  lemma NextTurnFacts(cur: nat, n: nat, skip: bool)
    requires cur < n
    ensures NextTurn(cur, n, skip) < n
    ensures NextTurn(cur, n, skip) == (cur + (if skip then 2 else 1)) % n
    ensures n >= 2 && !skip ==> NextTurn(cur, n, skip) != cur
    ensures n >= 3 && skip ==> NextTurn(cur, n, skip) != cur && NextTurn(cur, n, skip) != (cur + 1) % n
    ensures n == 2 && skip ==> NextTurn(cur, n, skip) == cur
  {
    var next := (cur + 1) % n;
    ModOnce(cur + 1, n);
    if skip {
      ModOnce(next + 1, n);
      if n == 1 {
        assert (cur + 2) % n == 0;
      } else {
        ModOnce(cur + 2, n);
      }
    }
  }

  // ---------------------------------------------------------------------
  // Round-end scoring
  // ---------------------------------------------------------------------

  /** What one card left in a hand costs: its value for a number card, 25
      for a wild, 15 for a skip. */
  function CardPoints(c: Card): nat {
    match c.face
    case Number(_, v) => v
    case Wild(_) => 25
    case Skip => 15
  }

  /** The points of a hand, summed in hand order. */
  function HandPoints(hand: seq<Card>): nat {
    if hand == [] then 0
    else HandPoints(hand[..|hand| - 1]) + CardPoints(hand[|hand| - 1])
  }

  /** Points add up over a split hand. */
  lemma {:induction false} HandPointsAppend(a: seq<Card>, b: seq<Card>)
    ensures HandPoints(a + b) == HandPoints(a) + HandPoints(b)
    decreases |b|
  {
    if b != [] {
      var n := |b| - 1;
      assert (a + b)[..|a + b| - 1] == a + b[..n];
      HandPointsAppend(a, b[..n]);
    } else {
      assert a + b == a;
    }
  }

  /** Every card costs between 1 and 25 points, so a hand costs nothing
      exactly when it is empty. */
  lemma {:induction false} HandPointsBounds(hand: seq<Card>)
    ensures |hand| <= HandPoints(hand) <= 25 * |hand|
    ensures HandPoints(hand) == 0 <==> hand == []
  {
    if hand != [] {
      HandPointsBounds(hand[..|hand| - 1]);
    }
  }

  /** The inner `hand.forEach` accumulating the points. */
  method CountPoints(hand: seq<Card>) returns (points: nat)
    ensures points == HandPoints(hand)
  {
    points := 0;
    var k := 0;
    while k < |hand|
      invariant 0 <= k <= |hand|
      invariant points == HandPoints(hand[..k])
    {
      var card := hand[k];
      assert hand[..k + 1][..k] == hand[..k];
      if card.face.Number? {
        points := points + card.face.value;
      } else if card.face.Wild? {
        points := points + 25;
      } else if card.face.Skip? {
        points := points + 15;
      }
      k := k + 1;
    }
    assert hand[..k] == hand;
  }

  /** The players after the round ends on `winner`'s discard: every seat
      but the winner's adds the points left in its own hand to its score.
      The loop of `ScoreAll` gives this when the socket ids are distinct
      (`ScoredDistinct`). */
  function Scored(players: seq<Player>, hands: map<PlayerId, seq<Card>>, winner: PlayerId): (r: seq<Player>)
    requires AllDealt(players, hands)
    ensures |r| == |players|
    ensures forall i :: 0 <= i < |r| ==> r[i] == players[i].(score := r[i].score)
  {
    seq(|players|, i requires 0 <= i < |players| =>
      if players[i].socketId == winner then players[i]
      else players[i].(score := players[i].score + HandPoints(hands[players[i].socketId])))
  }

  /** The winner's score is unchanged and every other score goes up by that
      player's hand points, which is at least one per card left. */
  lemma ScoredFacts(players: seq<Player>, hands: map<PlayerId, seq<Card>>, winner: PlayerId, i: nat)
    requires AllDealt(players, hands) && i < |players|
    ensures var r := Scored(players, hands, winner);
      && (players[i].socketId == winner ==> r[i].score == players[i].score)
      && (players[i].socketId != winner ==>
            r[i].score - players[i].score == HandPoints(hands[players[i].socketId])
              >= |hands[players[i].socketId]|)
  {
    HandPointsBounds(hands[players[i].socketId]);
  }

  /** The points the seats in `visited` that hold `id` bring: that id's
      hand points once per seat. */
  function SeatPoints(visited: seq<Player>, hands: map<PlayerId, seq<Card>>, id: PlayerId): nat
    requires id in hands
    decreases |visited|
  {
    if visited == [] then 0
    else
      SeatPoints(visited[..|visited| - 1], hands, id)
        + (if visited[|visited| - 1].socketId == id then HandPoints(hands[id]) else 0)
  }

  /** A socket seated nowhere brings no points. */
  lemma {:induction false} SeatPointsNone(visited: seq<Player>, hands: map<PlayerId, seq<Card>>, id: PlayerId)
    requires id in hands && forall k :: 0 <= k < |visited| ==> visited[k].socketId != id
    ensures SeatPoints(visited, hands, id) == 0
    decreases |visited|
  {
    if visited != [] {
      SeatPointsNone(visited[..|visited| - 1], hands, id);
    }
  }

  /** With distinct ids a seated socket brings its hand points exactly once. */
  lemma {:induction false} SeatPointsOnce(players: seq<Player>, hands: map<PlayerId, seq<Card>>, i: nat)
    requires DistinctIds(players) && i < |players| && players[i].socketId in hands
    ensures SeatPoints(players, hands, players[i].socketId) == HandPoints(hands[players[i].socketId])
    decreases |players|
  {
    var n := |players| - 1;
    var front := players[..n];
    if i == n {
      SeatPointsNone(front, hands, players[i].socketId);
    } else {
      assert front[i] == players[i];
      SeatPointsOnce(front, hands, i);
    }
  }

  /** One more visited seat adds its points for its own id only. */
  lemma SeatPointsNext(players: seq<Player>, hands: map<PlayerId, seq<Card>>, n: nat, id: PlayerId)
    requires n < |players| && id in hands
    ensures SeatPoints(players[..n + 1], hands, id) ==
      SeatPoints(players[..n], hands, id) + (if players[n].socketId == id then HandPoints(hands[id]) else 0)
  {
    assert players[..n + 1][..n] == players[..n];
  }

  /** `players[f].score += points`. */
  function Bump(players: seq<Player>, f: nat, points: nat): (r: seq<Player>)
    requires f < |players|
    ensures |r| == |players| && r[f] == players[f].(score := players[f].score + points)
    ensures forall i :: 0 <= i < |r| && i != f ==> r[i] == players[i]
  {
    players[f := players[f].(score := players[f].score + points)]
  }

  /** The players once the round-end loop has visited the first `n` seats.
      A visited seat other than the winner's looks its id up with
      `findIndex`, so its points go to the first seat holding that id. */
  function ScoredUpTo(players: seq<Player>, hands: map<PlayerId, seq<Card>>, winner: PlayerId, n: nat): (r: seq<Player>)
    requires AllDealt(players, hands) && n <= |players|
    ensures |r| == |players|
    ensures forall i :: 0 <= i < |r| ==> r[i] == players[i].(score := r[i].score)
  {
    seq(|players|, i requires 0 <= i < |players| =>
      var id := players[i].socketId;
      if id != winner && IndexOf(players, id) == Some(i)
      then players[i].(score := players[i].score + SeatPoints(players[..n], hands, id))
      else players[i])
  }

  /** Before the loop visits any seat nothing is scored. */
  lemma ScoredNone(players: seq<Player>, hands: map<PlayerId, seq<Card>>, winner: PlayerId)
    requires AllDealt(players, hands)
    ensures ScoredUpTo(players, hands, winner, 0) == players
  {
    assert players[..0] == [];
    var r := ScoredUpTo(players, hands, winner, 0);
    assert forall i :: 0 <= i < |players| ==> r[i] == players[i];
  }

  /** Visiting seat `n` changes seat `i` only when `i` is the first seat
      with seat `n`'s id and that id is not the winner's. */
  lemma ScoredSeatStep(players: seq<Player>, hands: map<PlayerId, seq<Card>>, winner: PlayerId, n: nat, i: nat)
    requires AllDealt(players, hands) && n < |players| && i < |players|
    ensures var id := players[n].socketId;
      var before := ScoredUpTo(players, hands, winner, n)[i];
      ScoredUpTo(players, hands, winner, n + 1)[i] ==
        if id != winner && IndexOf(players, id) == Some(i)
        then before.(score := before.score + HandPoints(hands[id]))
        else before
  {
    SeatPointsNext(players, hands, n, players[i].socketId);
  }

  /** Visiting seat `n` adds its hand's points to the first seat with its
      id, unless it is the winner's. */
  lemma ScoredStep(players: seq<Player>, hands: map<PlayerId, seq<Card>>, winner: PlayerId, n: nat)
    requires AllDealt(players, hands) && n < |players|
    ensures var id := players[n].socketId;
      var before := ScoredUpTo(players, hands, winner, n);
      var f := IndexOf(players, id).value;
      ScoredUpTo(players, hands, winner, n + 1) ==
        if id == winner then before else Bump(before, f, HandPoints(hands[id]))
  {
    var id := players[n].socketId;
    var before := ScoredUpTo(players, hands, winner, n);
    var after := ScoredUpTo(players, hands, winner, n + 1);
    var f := IndexOf(players, id).value;
    var expected := if id == winner then before else Bump(before, f, HandPoints(hands[id]));
    forall i | 0 <= i < |players| ensures after[i] == expected[i] {
      ScoredSeatStep(players, hands, winner, n, i);
    }
    SamePlayers(after, expected);
  }

  /** Two player lists that agree seat by seat are equal. */
  lemma SamePlayers(a: seq<Player>, b: seq<Player>)
    requires |a| == |b| && forall i :: 0 <= i < |a| ==> a[i] == b[i]
    ensures a == b
  {
  }

  /** One pass of the loop body on the list as the loop has left it. */
  lemma ScoreAllStep(players: seq<Player>, hands: map<PlayerId, seq<Card>>, winner: PlayerId, n: nat, ps: seq<Player>)
    requires AllDealt(players, hands) && n < |players| && ps == ScoredUpTo(players, hands, winner, n)
    ensures var id := players[n].socketId;
      && IndexOf(ps, id).Some?
      && ScoredUpTo(players, hands, winner, n + 1) ==
           if id == winner then ps else Bump(ps, IndexOf(ps, id).value, HandPoints(hands[id]))
  {
    IndexOfSameIds(ps, players, players[n].socketId);
    ScoredStep(players, hands, winner, n);
  }

  /** With distinct socket ids the loop gives `Scored`: every seat but the
      winner's adds its own hand's points once. */
  lemma ScoredDistinct(players: seq<Player>, hands: map<PlayerId, seq<Card>>, winner: PlayerId)
    requires AllDealt(players, hands) && DistinctIds(players)
    ensures ScoredUpTo(players, hands, winner, |players|) == Scored(players, hands, winner)
  {
    var looped := ScoredUpTo(players, hands, winner, |players|);
    var intended := Scored(players, hands, winner);
    forall i | 0 <= i < |players| ensures looped[i] == intended[i] {
      ScoredDistinctSeat(players, hands, winner, i);
    }
    SamePlayers(looped, intended);
  }

  /** `ScoredDistinct` for one seat: with distinct ids seat `i` is the first
      with its id and brings its points once. */
  lemma ScoredDistinctSeat(players: seq<Player>, hands: map<PlayerId, seq<Card>>, winner: PlayerId, i: nat)
    requires AllDealt(players, hands) && DistinctIds(players) && i < |players|
    ensures ScoredUpTo(players, hands, winner, |players|)[i] == Scored(players, hands, winner)[i]
  {
    assert players[..|players|] == players;
    SeatPointsOnce(players, hands, i);
    assert IndexOf(players, players[i].socketId) == Some(i);
  }

  /** A socket seated twice that did not win: the loop adds its points twice
      to the first seat and nothing to the second, where `Scored` adds them
      once to each seat. */
  lemma DuplicateSeatScoredTwice(p: Player, q: Player, hands: map<PlayerId, seq<Card>>, winner: PlayerId)
    requires p.socketId == q.socketId && p.socketId != winner && p.socketId in hands
    ensures var points := HandPoints(hands[p.socketId]);
      var r := ScoredUpTo([p, q], hands, winner, 2);
      && r[0].score == p.score + 2 * points && r[1] == q
      && Scored([p, q], hands, winner)[1].score == q.score + points
  {
    var players := [p, q];
    var id := p.socketId;
    assert [p][..0] == [];
    assert SeatPoints([p], hands, id) == HandPoints(hands[id]);
    assert players[..2] == players && players[..1] == [p];
    assert SeatPoints(players[..2], hands, id) == 2 * HandPoints(hands[id]);
  }

  /** `findIndex` by socket id sees only the ids. */
  lemma {:induction false} IndexOfSameIds(a: seq<Player>, b: seq<Player>, id: PlayerId)
    requires |a| == |b| && forall k :: 0 <= k < |a| ==> a[k].socketId == b[k].socketId
    ensures IndexOf(a, id) == IndexOf(b, id)
    decreases |a|
  {
    if a != [] && a[0].socketId != id {
      IndexOfSameIds(a[1..], b[1..], id);
    }
  }

  /** The scoring loop at the end of a round (`r.players.forEach`): each
      seat other than the winner's adds the points left in its hand to the
      seat `findIndex` finds for its socket id. */
  method ScoreAll(players: seq<Player>, hands: map<PlayerId, seq<Card>>, winner: PlayerId) returns (ps: seq<Player>)
    requires AllDealt(players, hands)
    ensures ps == ScoredUpTo(players, hands, winner, |players|)
    ensures DistinctIds(players) ==> ps == Scored(players, hands, winner)
  {
    ps := players;
    var i := 0;
    ScoredNone(players, hands, winner);
    while i < |players|
      invariant 0 <= i <= |players|
      invariant ps == ScoredUpTo(players, hands, winner, i)
    {
      var p := players[i];
      ScoreAllStep(players, hands, winner, i, ps);
      if p.socketId != winner {
        var points := CountPoints(hands[p.socketId]);
        var playerIndex := IndexOf(ps, p.socketId).value;
        ps := Bump(ps, playerIndex, points);
      }
      assert ps == ScoredUpTo(players, hands, winner, i + 1);
      i := i + 1;
    }
    if DistinctIds(players) {
      ScoredDistinct(players, hands, winner);
    }
  }

  // ---------------------------------------------------------------------
  // Laying a phase and the next round
  // ---------------------------------------------------------------------

  /** The hand after `hand.splice(hand.findIndex(...), 1)` for a card sent
      by the client: the first card with the same face leaves, if any. */
  function RemoveMatch(hand: seq<Card>, card: Card): (r: seq<Card>)
    ensures multiset(r) <= multiset(hand)
  {
    match FirstMatch(hand, AsRequest(card))
    case None => hand
    case Some(ix) => RemoveAt(hand, ix)
  }

  /** The hand after the `selected.forEach` removal loop. */
  function RemoveMatches(hand: seq<Card>, selected: seq<Card>): (r: seq<Card>)
    decreases |selected|
  {
    if selected == [] then hand
    else RemoveMatches(RemoveMatch(hand, selected[0]), selected[1..])
  }

  /** The `selected.forEach` loop of `layPhase`: each submitted card takes
      the first hand card matching it out of the hand. */
  method RemoveSelected(hand: seq<Card>, selected: seq<Card>) returns (rest: seq<Card>)
    ensures rest == RemoveMatches(hand, selected)
  {
    rest := hand;
    var k := 0;
    while k < |selected|
      invariant 0 <= k <= |selected|
      invariant RemoveMatches(hand, selected) == RemoveMatches(rest, selected[k..])
    {
      var card := selected[k];
      assert selected[k..][1..] == selected[k + 1..];
      var ix := FirstMatch(rest, AsRequest(card));
      if ix.Some? {
        rest := RemoveAt(rest, ix.value);
      }
      k := k + 1;
    }
  }

  /** The faces of some cards, as the requests they make. */
  function Faces(cards: seq<Card>): multiset<Request> {
    if cards == [] then multiset{} else multiset{AsRequest(cards[0])} + Faces(cards[1..])
  }

  lemma {:induction false} FacesRemoveAt(hand: seq<Card>, i: nat)
    requires i < |hand|
    ensures Faces(RemoveAt(hand, i)) + multiset{AsRequest(hand[i])} == Faces(hand)
  {
    if i > 0 {
      var r := RemoveAt(hand, i);
      assert r[1..] == RemoveAt(hand[1..], i - 1);
      FacesRemoveAt(hand[1..], i - 1);
    } else {
      assert RemoveAt(hand, 0) == hand[1..];
    }
  }

  lemma {:induction false} FacesMember(hand: seq<Card>, f: Request)
    ensures f in Faces(hand) <==> exists j :: 0 <= j < |hand| && AsRequest(hand[j]) == f
  {
    if hand != [] {
      FacesMember(hand[1..], f);
      if f in Faces(hand[1..]) {
        var j :| 0 <= j < |hand[1..]| && AsRequest(hand[1..][j]) == f;
        assert AsRequest(hand[j + 1]) == f;
      }
      if exists j :: 0 <= j < |hand| && AsRequest(hand[j]) == f {
        var j :| 0 <= j < |hand| && AsRequest(hand[j]) == f;
        if j > 0 { assert AsRequest(hand[1..][j - 1]) == f; }
      }
    }
  }

  /** A face the hand holds is found by the request it makes. */
  lemma FirstMatchFace(hand: seq<Card>, card: Card)
    requires AsRequest(card) in Faces(hand)
    ensures FirstMatch(hand, AsRequest(card)).Some?
  {
    FacesMember(hand, AsRequest(card));
    var j :| 0 <= j < |hand| && AsRequest(hand[j]) == AsRequest(card);
    AsRequestMatches(hand[j], hand[j]);
    AsRequestMatches(card, hand[j]);
  }

  /** The removal loop never adds a card and removes at most one per
      selected card. */
  lemma {:induction false} RemoveMatchesSize(hand: seq<Card>, selected: seq<Card>)
    ensures multiset(RemoveMatches(hand, selected)) <= multiset(hand)
    ensures |hand| - |selected| <= |RemoveMatches(hand, selected)| <= |hand|
    decreases |selected|
  {
    if selected != [] {
      var h' := RemoveMatch(hand, selected[0]);
      RemoveMatchesSize(h', selected[1..]);
      assert |hand| - 1 <= |h'| <= |hand|;
    }
  }

  /** When every selected face is in the hand (counted with repeats),
      exactly one card per selected card leaves, with the selected faces. */
  lemma {:induction false} RemoveMatchesFaces(hand: seq<Card>, selected: seq<Card>)
    requires Faces(selected) <= Faces(hand)
    ensures Faces(RemoveMatches(hand, selected)) + Faces(selected) == Faces(hand)
    decreases |selected|
  {
    if selected != [] {
      var s := selected[0];
      var f := AsRequest(s);
      assert f in Faces(hand);
      FirstMatchFace(hand, s);
      var ix := FirstMatch(hand, f).value;
      var h' := RemoveAt(hand, ix);
      FacesRemoveAt(hand, ix);
      AsRequestMatches(s, hand[ix]);
      assert AsRequest(hand[ix]) == f;
      assert Faces(selected) == multiset{f} + Faces(selected[1..]);
      forall x ensures Faces(selected[1..])[x] <= Faces(h')[x] {
        assert Faces(selected)[x] <= Faces(hand)[x];
      }
      RemoveMatchesFaces(h', selected[1..]);
    }
  }

  /** The socket ids that laid any phase this round. */
  function Completed(laid: map<int, map<PlayerId, seq<seq<Card>>>>): set<PlayerId> {
    set pi, id | pi in laid && id in laid[pi] :: id
  }

  /** The nested `for ... in` loops of `startNextRound` that collect the
      players who laid a phase. */
  method CompletedPlayers(laid: map<int, map<PlayerId, seq<seq<Card>>>>) returns (done: set<PlayerId>)
    ensures done == Completed(laid)
  {
    done := {};
    var entries := laid.Items;
    while entries != {}
      invariant entries <= laid.Items
      invariant done == set e, id | e in laid.Items - entries && id in e.1 :: id
      decreases entries
    {
      var entry :| entry in entries;
      var ids := entry.1.Keys;
      while ids != {}
        invariant ids <= entry.1.Keys
        invariant done == (set e, id | e in laid.Items - entries && id in e.1 :: id) + (entry.1.Keys - ids)
        decreases ids
      {
        var id :| id in ids;
        done := done + {id};
        ids := ids - {id};
      }
      entries := entries - {entry};
    }
    assert laid.Items - entries == laid.Items;
    forall id | id in Completed(laid) ensures id in done {
      var pi :| pi in laid && id in laid[pi];
      assert (pi, laid[pi]) in laid.Items;
    }
    forall id | id in done ensures id in Completed(laid) {
      var e :| e in laid.Items && id in e.1;
      assert e.0 in laid && laid[e.0] == e.1;
      var pi := e.0;
      assert pi in laid && id in laid[pi];
      assert id in (set p, x | p in laid && x in laid[p] :: x);
    }
  }

  /** `players.map(...)` in `startNextRound`: a player who laid a phase moves
      on to the next one (after the tenth, back to the first); the others
      stay. */
  function Advanced(players: seq<Player>, done: set<PlayerId>): (r: seq<Player>)
    ensures |r| == |players|
    ensures forall i :: 0 <= i < |r| ==> r[i] == players[i].(phaseIndex := r[i].phaseIndex)
  {
    seq(|players|, i requires 0 <= i < |players| =>
      if players[i].socketId in done then players[i].(phaseIndex := (players[i].phaseIndex + 1) % |Phases.PHASES|)
      else players[i])
  }

  /** Advancing changes nothing but the phase of the players who laid one,
      keeps every phase within 0..9, and moves a player on one phase, from
      the last back to the first. */
  lemma AdvancedFacts(players: seq<Player>, done: set<PlayerId>, i: nat)
    requires i < |players| && 0 <= players[i].phaseIndex < 10
    ensures var p, q := players[i], Advanced(players, done)[i];
      && q == p.(phaseIndex := q.phaseIndex)
      && 0 <= q.phaseIndex < 10
      && (p.socketId !in done ==> q.phaseIndex == p.phaseIndex)
      && (p.socketId in done && p.phaseIndex < 9 ==> q.phaseIndex == p.phaseIndex + 1)
      && (p.socketId in done && p.phaseIndex == 9 ==> q.phaseIndex == 0)
  {
  }

  // ---------------------------------------------------------------------
  // The starter card of a new round
  // ---------------------------------------------------------------------

  /** The `do ... while` of `startNextRound` that turns the first discard:
      take the top card; while it is a wild or a skip, put it back into the
      rest of the deck (`splice(pos, 0, card)`) and take the top card again.
      `positions` are the random re-insertion points, one per rejected card,
      reduced into the deck as `Math.floor(Math.random() * deck.length)` is.
      The result is the starter and the deck left, or `None` when the deck
      is empty or the positions run out before a plain card comes up. */
  function Starter(deck: seq<Card>, positions: seq<nat>): Option<(Card, seq<Card>)>
    decreases |positions|
  {
    if deck == [] then None
    else if !IsWild(deck[0]) && !IsSkip(deck[0]) then Some((deck[0], deck[1..]))
    else if positions == [] then None
    else
      var rest := deck[1..];
      var pos := if rest == [] then 0 else positions[0] % |rest|;
      Starter(rest[..pos] + [deck[0]] + rest[pos..], positions[1..])
  }

  /** The starter is never a wild or a skip, the deck keeps every other
      card (the rejected ones included), and a plain top card is taken at
      once. */
  lemma {:induction false} StarterFacts(deck: seq<Card>, positions: seq<nat>)
    ensures match Starter(deck, positions)
      case None => true
      case Some((starter, rest)) =>
        && !IsWild(starter) && !IsSkip(starter)
        && multiset(rest) + multiset{starter} == multiset(deck)
    ensures deck != [] && !IsWild(deck[0]) && !IsSkip(deck[0]) ==> Starter(deck, positions) == Some((deck[0], deck[1..]))
    decreases |positions|
  {
    if deck != [] {
      var top, rest := deck[0], deck[1..];
      assert deck == [top] + rest;
      if (IsWild(top) || IsSkip(top)) && positions != [] {
        var pos := if rest == [] then 0 else positions[0] % |rest|;
        var back := rest[..pos] + [top] + rest[pos..];
        StarterFacts(back, positions[1..]);
        assert rest == rest[..pos] + rest[pos..];
        assert multiset(back) == multiset(deck);
      }
    }
  }

  /** One turn of the loop: a rejected top card goes back into the rest of
      the deck, and the next draw is from the deck that makes. */
  lemma StarterStep(deck: seq<Card>, positions: seq<nat>, k: nat)
    requires deck != [] && (IsWild(deck[0]) || IsSkip(deck[0])) && k < |positions|
    ensures var rest := deck[1..];
      var pos := if rest == [] then 0 else positions[k] % |rest|;
      Starter(deck, positions[k..]) == Starter(rest[..pos] + [deck[0]] + rest[pos..], positions[k + 1..])
  {
    assert positions[k..][0] == positions[k] && positions[k..][1..] == positions[k + 1..];
  }

  /** The starter loop as the source runs it, on a local copy of the deck;
      `current` is the deck with the card being considered still on top. */
  method DrawStarter(deck: seq<Card>, positions: seq<nat>) returns (r: Option<(Card, seq<Card>)>)
    ensures r == Starter(deck, positions)
  {
    if deck == [] {
      return None;
    }
    var current := deck;
    var k := 0;
    assert positions[k..] == positions;
    while IsWild(current[0]) || IsSkip(current[0])
      invariant current != [] && 0 <= k <= |positions|
      invariant Starter(current, positions[k..]) == Starter(deck, positions)
      decreases |positions| - k
    {
      if k == |positions| {
        return None;
      }
      var rest := current[1..];
      StarterStep(current, positions, k);
      var pos := if rest == [] then 0 else positions[k] % |rest|;
      current := rest[..pos] + [current[0]] + rest[pos..];
      k := k + 1;
    }
    return Some((current[0], current[1..]));
  }

  // ---------------------------------------------------------------------
  // The room
  // ---------------------------------------------------------------------

  /** Whatever `validateHit(phaseIndex, group, card)` decides: the group is
      `None` when `groupIndex` names no group (JavaScript's `undefined`). */
  type HitRule = (int, Option<seq<Card>>, Card) -> bool

  /** The cards in the players' hands, seat by seat. */
  ghost function HeldBy(players: seq<Player>, hands: map<PlayerId, seq<Card>>): multiset<Card>
    requires AllDealt(players, hands)
  {
    if players == [] then multiset{} else multiset(hands[players[0].socketId]) + HeldBy(players[1..], hands)
  }

  /** A hand no player holds does not count. */
  lemma {:induction false} HeldByOther(players: seq<Player>, hands: map<PlayerId, seq<Card>>, id: PlayerId, x: seq<Card>)
    requires AllDealt(players, hands)
    requires forall j :: 0 <= j < |players| ==> players[j].socketId != id
    ensures AllDealt(players, hands[id := x]) && HeldBy(players, hands[id := x]) == HeldBy(players, hands)
  {
    if players != [] {
      HeldByOther(players[1..], hands, id, x);
    }
  }

  /** Replacing one player's hand changes the cards held by exactly that
      hand. */
  lemma {:induction false} HeldByUpdate(players: seq<Player>, hands: map<PlayerId, seq<Card>>, id: PlayerId, x: seq<Card>)
    requires AllDealt(players, hands) && DistinctIds(players) && IndexOf(players, id).Some?
    ensures AllDealt(players, hands[id := x])
    ensures HeldBy(players, hands[id := x]) + multiset(hands[id]) == HeldBy(players, hands) + multiset(x)
  {
    var h' := hands[id := x];
    var rest := players[1..];
    var p := players[0].socketId;
    assert forall j :: 0 <= j < |rest| ==> rest[j] == players[j + 1];
    if p == id {
      HeldByOther(rest, hands, id, x);
      assert HeldBy(players, h') == multiset(x) + HeldBy(rest, h');
      assert HeldBy(players, hands) == multiset(hands[id]) + HeldBy(rest, hands);
    } else {
      HeldByUpdate(rest, hands, id, x);
      var a, b := HeldBy(rest, h'), HeldBy(rest, hands);
      assert h'[p] == hands[p];
      assert HeldBy(players, h') == multiset(hands[p]) + a;
      assert HeldBy(players, hands) == multiset(hands[p]) + b;
      forall c ensures (multiset(hands[p]) + a + multiset(hands[id]))[c] == (multiset(hands[p]) + b + multiset(x))[c] {
        assert (a + multiset(hands[id]))[c] == (b + multiset(x))[c];
      }
    }
  }

  /** Every card in the game outside the laid phases: the draw pile, the
      discard pile and the players' hands. */
  ghost function Pool(deck: seq<Card>, discard: seq<Card>, players: seq<Player>, hands: map<PlayerId, seq<Card>>): multiset<Card>
    requires AllDealt(players, hands)
  {
    multiset(deck) + multiset(discard) + HeldBy(players, hands)
  }

  /** Moving a card into a player's hand and out of a pile. */
  lemma HandGains(players: seq<Player>, hands: map<PlayerId, seq<Card>>, id: PlayerId, c: Card)
    requires AllDealt(players, hands) && DistinctIds(players) && IndexOf(players, id).Some?
    ensures AllDealt(players, hands[id := hands[id] + [c]])
    ensures HeldBy(players, hands[id := hands[id] + [c]]) == HeldBy(players, hands) + multiset{c}
  {
    var h' := hands[id := hands[id] + [c]];
    HeldByUpdate(players, hands, id, hands[id] + [c]);
    assert multiset(hands[id] + [c]) == multiset(hands[id]) + multiset{c};
    Cancel(HeldBy(players, h'), HeldBy(players, hands) + multiset{c}, multiset(hands[id]));
  }

  /** Taking card `i` out of a player's hand. */
  lemma HandLoses(players: seq<Player>, hands: map<PlayerId, seq<Card>>, id: PlayerId, i: nat)
    requires AllDealt(players, hands) && DistinctIds(players) && IndexOf(players, id).Some? && i < |hands[id]|
    ensures AllDealt(players, hands[id := RemoveAt(hands[id], i)])
    ensures HeldBy(players, hands[id := RemoveAt(hands[id], i)]) + multiset{hands[id][i]} == HeldBy(players, hands)
  {
    var r := RemoveAt(hands[id], i);
    HeldByUpdate(players, hands, id, r);
    assert multiset(r) + multiset{hands[id][i]} == multiset(hands[id]);
    Cancel(HeldBy(players, hands[id := r]) + multiset{hands[id][i]}, HeldBy(players, hands), multiset(r));
  }

  /** `drawCard` keeps every card in the game: the top of the draw pile
      moves to the end of the caller's hand. */
  lemma DrawKeepsPool(deck: seq<Card>, discard: seq<Card>, players: seq<Player>, hands: map<PlayerId, seq<Card>>, id: PlayerId)
    requires AllDealt(players, hands) && DistinctIds(players) && IndexOf(players, id).Some? && |deck| > 0
    ensures AllDealt(players, hands[id := hands[id] + [deck[0]]])
    ensures Pool(deck[1..], discard, players, hands[id := hands[id] + [deck[0]]]) == Pool(deck, discard, players, hands)
  {
    HandGains(players, hands, id, deck[0]);
    assert deck == [deck[0]] + deck[1..];
  }

  /** `drawDiscard` keeps every card in the game: the top of the discard
      pile moves to the end of the caller's hand. */
  lemma DrawDiscardKeepsPool(deck: seq<Card>, discard: seq<Card>, players: seq<Player>, hands: map<PlayerId, seq<Card>>, id: PlayerId)
    requires AllDealt(players, hands) && DistinctIds(players) && IndexOf(players, id).Some? && |discard| > 0
    ensures AllDealt(players, hands[id := hands[id] + [discard[0]]])
    ensures Pool(deck, discard[1..], players, hands[id := hands[id] + [discard[0]]]) == Pool(deck, discard, players, hands)
  {
    HandGains(players, hands, id, discard[0]);
    assert discard == [discard[0]] + discard[1..];
  }

  /** `discardCard` keeps every card in the game: a hand card moves to the
      top of the discard pile. */
  lemma DiscardKeepsPool(deck: seq<Card>, discard: seq<Card>, players: seq<Player>, hands: map<PlayerId, seq<Card>>, id: PlayerId, i: nat)
    requires AllDealt(players, hands) && DistinctIds(players) && IndexOf(players, id).Some? && i < |hands[id]|
    ensures AllDealt(players, hands[id := RemoveAt(hands[id], i)])
    ensures Pool(deck, [hands[id][i]] + discard, players, hands[id := RemoveAt(hands[id], i)]) == Pool(deck, discard, players, hands)
  {
    HandLoses(players, hands, id, i);
  }

  /** Seats that keep their socket ids keep the lookups by id. */
  lemma {:induction false} SameIds(players: seq<Player>, other: seq<Player>, hands: map<PlayerId, seq<Card>>, id: PlayerId)
    requires |other| == |players|
    requires forall i :: 0 <= i < |players| ==> other[i].socketId == players[i].socketId
    ensures DistinctIds(players) ==> DistinctIds(other)
    ensures AllDealt(players, hands) ==> AllDealt(other, hands)
    ensures IndexOf(other, id) == IndexOf(players, id)
  {
    if players != [] {
      SameIds(players[1..], other[1..], hands, id);
    }
  }

  /** Scores do not change who holds which hand. */
  lemma {:induction false} HeldBySameIds(players: seq<Player>, other: seq<Player>, hands: map<PlayerId, seq<Card>>)
    requires AllDealt(players, hands) && |other| == |players|
    requires forall i :: 0 <= i < |players| ==> other[i].socketId == players[i].socketId
    ensures AllDealt(other, hands) && HeldBy(other, hands) == HeldBy(players, hands)
  {
    if players != [] {
      HeldBySameIds(players[1..], other[1..], hands);
    }
  }

  /** A game in progress: the seats are fixed with distinct ids, every
      player has a hand and a phase in 0..9, and the turn is a player's. */
  predicate Seated(players: seq<Player>, hands: map<PlayerId, seq<Card>>, turn: Option<PlayerId>) {
    && |players| > 0
    && DistinctIds(players)
    && AllDealt(players, hands)
    && (forall i :: 0 <= i < |players| ==> 0 <= players[i].phaseIndex < |Phases.PHASES|)
    && turn.Some? && IndexOf(players, turn.value).Some?
  }

  /** Changing a player's hand or passing the turn to a seat keeps a game
      in progress. */
  lemma SeatedUpdate(players: seq<Player>, hands: map<PlayerId, seq<Card>>, turn: Option<PlayerId>, id: PlayerId, x: seq<Card>, j: nat)
    requires Seated(players, hands, turn) && id in hands && j < |players|
    ensures Seated(players, hands[id := x], turn)
    ensures Seated(players, hands, Some(players[j].socketId))
  {
    assert IndexOf(players, players[j].socketId).Some?;
  }

  /** Scoring keeps a game in progress. */
  lemma ScoredSeated(players: seq<Player>, hands: map<PlayerId, seq<Card>>, turn: Option<PlayerId>, winner: PlayerId)
    requires Seated(players, hands, turn)
    ensures Seated(Scored(players, hands, winner), hands, turn)
  {
    var r := Scored(players, hands, winner);
    SameIds(players, r, hands, turn.value);
  }

  /** Advancing the phases keeps a game in progress, with the turn at the
      first seat. */
  lemma AdvancedSeated(players: seq<Player>, hands: map<PlayerId, seq<Card>>, done: set<PlayerId>)
    requires |players| > 0 && DistinctIds(players) && AllDealt(players, hands)
    requires forall i :: 0 <= i < |players| ==> 0 <= players[i].phaseIndex < |Phases.PHASES|
    ensures Seated(Advanced(players, done), hands, Some(Advanced(players, done)[0].socketId))
  {
    var r := Advanced(players, done);
    SameIds(players, r, hands, r[0].socketId);
    assert IndexOf(r, r[0].socketId).Some?;
    forall i | 0 <= i < |r| ensures 0 <= r[i].phaseIndex < |Phases.PHASES| {
      AdvancedFacts(players, done, i);
    }
  }

  class Room {
    var players: seq<Player>
    var deck: seq<Card>
    var hands: map<PlayerId, seq<Card>>
    var discard: seq<Card>
    /** `null` until the game starts. */
    var currentTurn: Option<PlayerId>
    var hasDrawn: bool
    /** `laid[phaseIndex][socketId]`: the groups a player laid this round. */
    var laid: map<int, map<PlayerId, seq<seq<Card>>>>
    var roundNumber: int

    /** The room once a game has started: the seats are fixed with distinct
        ids, every player has a hand and a phase in 0..9, and the turn is a
        player's. */
    ghost predicate Valid()
      reads this
    {
      Seated(players, hands, currentTurn)
    }

    /** `startGame` on a room whose players have joined: the dealt hands and
        the rest of the deck are installed, the starter loop turns the first
        discard, the first seat has the turn, nothing is drawn or laid, and
        the round number keeps the 0 that `createRoom` gave it. */
    constructor(seated: seq<Player>, dealtHands: map<PlayerId, seq<Card>>, remaining: seq<Card>, positions: seq<nat>)
      requires |seated| > 0 && DistinctIds(seated) && AllDealt(seated, dealtHands)
      requires forall i :: 0 <= i < |seated| ==> 0 <= seated[i].phaseIndex < |Phases.PHASES|
      requires Starter(remaining, positions).Some?
      ensures Valid()
      ensures players == seated && hands == dealtHands
      ensures discard == [Starter(remaining, positions).value.0] && deck == Starter(remaining, positions).value.1
      ensures !IsWild(discard[0]) && !IsSkip(discard[0])
      ensures multiset(deck) + multiset(discard) == multiset(remaining)
      ensures currentTurn == Some(seated[0].socketId) && !hasDrawn && laid == map[] && roundNumber == 0
    {
      var drawn := DrawStarter(remaining, positions);
      StarterFacts(remaining, positions);
      var starter, rest := drawn.value.0, drawn.value.1;
      assert IndexOf(seated, seated[0].socketId).Some?;
      players := seated;
      hands := dealtHands;
      deck := rest;
      discard := [starter];
      currentTurn := Some(seated[0].socketId);
      hasDrawn := false;
      laid := map[];
      roundNumber := 0;
    }

    /** `drawCard`: the player whose turn it is and who has not drawn yet
        takes the top card of the draw pile, if there is one. */
    method DrawCard(caller: PlayerId)
      requires Valid()
      modifies this
      ensures Valid()
      ensures if old(currentTurn) == Some(caller) && !old(hasDrawn) && |old(deck)| > 0 then
          && deck == old(deck)[1..]
          && hands == old(hands)[caller := old(hands)[caller] + [old(deck)[0]]]
          && hasDrawn
        else deck == old(deck) && hands == old(hands) && hasDrawn == old(hasDrawn)
      ensures players == old(players) && discard == old(discard) && currentTurn == old(currentTurn)
      ensures laid == old(laid) && roundNumber == old(roundNumber)
    {
      if currentTurn != Some(caller) || hasDrawn || |deck| == 0 {
        return;
      }
      var card := deck[0];
      var hand := hands[caller];
      deck := deck[1..];
      hands := hands[caller := hand + [card]];
      hasDrawn := true;
    }

    /** `drawDiscard`: the same, from the top of the discard pile. */
    method DrawDiscard(caller: PlayerId)
      requires Valid()
      modifies this
      ensures Valid()
      ensures if old(currentTurn) == Some(caller) && !old(hasDrawn) && |old(discard)| > 0 then
          && discard == old(discard)[1..]
          && hands == old(hands)[caller := old(hands)[caller] + [old(discard)[0]]]
          && hasDrawn
        else discard == old(discard) && hands == old(hands) && hasDrawn == old(hasDrawn)
      ensures players == old(players) && deck == old(deck) && currentTurn == old(currentTurn)
      ensures laid == old(laid) && roundNumber == old(roundNumber)
    {
      if currentTurn != Some(caller) || hasDrawn || |discard| == 0 {
        return;
      }
      var card := discard[0];
      var hand := hands[caller];
      discard := discard[1..];
      hands := hands[caller := hand + [card]];
      hasDrawn := true;
    }

    /** `discardCard`: the player whose turn it is, having drawn, puts the
        first hand card matching the request on top of the discard pile;
        the turn passes on (skipping a seat for a skip card).  When that
        empties the hand the round ends and every other player scores the
        points left in their hand. */
    method Discard(caller: PlayerId, req: Request) returns (roundOver: bool)
      requires Valid()
      modifies this
      ensures Valid()
      ensures deck == old(deck) && laid == old(laid) && roundNumber == old(roundNumber)
      ensures old(currentTurn) != Some(caller) || !old(hasDrawn) || FirstMatch(old(hands)[caller], req).None? ==>
        && !roundOver && players == old(players) && hands == old(hands) && discard == old(discard)
        && currentTurn == old(currentTurn) && hasDrawn == old(hasDrawn)
      ensures old(currentTurn) == Some(caller) && old(hasDrawn) && FirstMatch(old(hands)[caller], req).Some? ==>
        var idx := FirstMatch(old(hands)[caller], req).value;
        var removed := old(hands)[caller][idx];
        var cur := IndexOf(old(players), caller).value;
        && hands == old(hands)[caller := RemoveAt(old(hands)[caller], idx)]
        && discard == [removed] + old(discard)
        && currentTurn == Some(old(players)[NextTurn(cur, |old(players)|, IsSkip(removed))].socketId)
        && !hasDrawn
        && roundOver == (hands[caller] == [])
        && players == (if roundOver then Scored(old(players), old(hands)[caller := hands[caller]], caller) else old(players))
    {
      roundOver := false;
      if currentTurn != Some(caller) || !hasDrawn {
        return;
      }
      var idx := FirstMatch(hands[caller], req);
      if idx.None? {
        return;
      }
      PlayCard(caller, idx.value);
      if |hands[caller]| == 0 {
        roundOver := true;
        ScoreRound(caller);
      }
    }

    /** The first half of `discardCard`: card `i` of the caller's hand goes
        on top of the discard pile and the turn passes on, one seat more
        for a skip. */
    method PlayCard(caller: PlayerId, i: nat)
      requires Valid() && IndexOf(players, caller).Some? && i < |hands[caller]|
      modifies this
      ensures Valid()
      ensures hands == old(hands)[caller := RemoveAt(old(hands)[caller], i)]
      ensures discard == [old(hands)[caller][i]] + old(discard)
      ensures currentTurn == Some(old(players)[NextTurn(IndexOf(old(players), caller).value, |old(players)|,
                                                       IsSkip(old(hands)[caller][i]))].socketId)
      ensures !hasDrawn
      ensures players == old(players) && deck == old(deck) && laid == old(laid) && roundNumber == old(roundNumber)
    {
      var hand := hands[caller];
      var removed := hand[i];
      hands := hands[caller := RemoveAt(hand, i)];
      discard := [removed] + discard;
      var curIndex := IndexOf(players, caller).value;
      NextTurnFacts(curIndex, |players|, IsSkip(removed));
      var next := NextTurn(curIndex, |players|, IsSkip(removed));
      SeatedUpdate(players, old(hands), currentTurn, caller, hands[caller], next);
      SeatedUpdate(players, hands, currentTurn, caller, hands[caller], next);
      currentTurn := Some(players[next].socketId);
      hasDrawn := false;
    }

    /** The scoring at the end of `discardCard` when the hand is empty. */
    method ScoreRound(winner: PlayerId)
      requires Valid()
      modifies this
      ensures Valid()
      ensures players == Scored(old(players), old(hands), winner)
      ensures hands == old(hands) && discard == old(discard) && currentTurn == old(currentTurn) && hasDrawn == old(hasDrawn)
      ensures deck == old(deck) && laid == old(laid) && roundNumber == old(roundNumber)
    {
      var scored := ScoreAll(players, hands, winner);
      ScoredSeated(players, hands, currentTurn, winner);
      players := scored;
    }

    /** `layPhase`: the player whose turn it is, having drawn, submits cards
        for a phase.  When `validatePhase` accepts them, one matching hand
        card per submitted card leaves the hand and the groups are recorded
        under the phase and the player; otherwise nothing changes. */
    method LayPhase(caller: PlayerId, phaseIndex: int, selected: seq<Card>) returns (ok: bool)
      requires Valid()
      modifies this
      ensures Valid()
      ensures ok <==> old(currentTurn) == Some(caller) && old(hasDrawn) && Phases.PhaseVerdict(phaseIndex, selected).ok
      ensures !ok ==> hands == old(hands) && laid == old(laid)
      ensures ok ==>
        && hands == old(hands)[caller := RemoveMatches(old(hands)[caller], selected)]
        && laid == old(laid)[phaseIndex :=
             (if phaseIndex in old(laid) then old(laid)[phaseIndex] else map[])[caller := Phases.PhaseVerdict(phaseIndex, selected).groups]]
      ensures players == old(players) && deck == old(deck) && discard == old(discard)
      ensures currentTurn == old(currentTurn) && hasDrawn == old(hasDrawn) && roundNumber == old(roundNumber)
    {
      if currentTurn != Some(caller) || !hasDrawn {
        return false;
      }
      var hand := hands[caller];
      var v := Phases.ValidatePhase(phaseIndex, selected);
      if !v.ok {
        return false;
      }
      hand := RemoveSelected(hand, selected);
      SeatedUpdate(players, hands, currentTurn, caller, hand, 0);
      hands := hands[caller := hand];
      var byPlayer := if phaseIndex in laid then laid[phaseIndex] else map[];
      laid := laid[phaseIndex := byPlayer[caller := v.groups]];
      ok := true;
    }

    /** `hitPhase`: the player whose turn it is, having drawn, offers the
        first hand card matching the request to group `groupIndex` of the
        phase `targetId` laid.  The card leaves the hand; if the hit rule
        rejects it, it goes back to the same place, and if the rule accepts
        it, it is appended to the group.  An accepted hit on a group that
        does not exist fails while appending, after the card has left the
        hand. */
    method HitPhase(caller: PlayerId, phaseIndex: int, targetId: PlayerId, groupIndex: int, req: Request,
                    validHit: HitRule)
      requires Valid()
      modifies this
      ensures Valid()
      ensures players == old(players) && deck == old(deck) && discard == old(discard)
      ensures currentTurn == old(currentTurn) && hasDrawn == old(hasDrawn) && roundNumber == old(roundNumber)
      ensures !(phaseIndex in old(laid) && targetId in old(laid)[phaseIndex]
                && old(currentTurn) == Some(caller) && old(hasDrawn)
                && FirstMatch(old(hands)[caller], req).Some?) ==>
        hands == old(hands) && laid == old(laid)
      ensures phaseIndex in old(laid) && targetId in old(laid)[phaseIndex]
              && old(currentTurn) == Some(caller) && old(hasDrawn)
              && FirstMatch(old(hands)[caller], req).Some? ==>
        var idx := FirstMatch(old(hands)[caller], req).value;
        var candidate := old(hands)[caller][idx];
        var groups := old(laid)[phaseIndex][targetId];
        var group := if 0 <= groupIndex < |groups| then Some(groups[groupIndex]) else None;
        if !validHit(phaseIndex, group, candidate) then
          hands == old(hands) && laid == old(laid)
        else if group.None? then
          hands == old(hands)[caller := RemoveAt(old(hands)[caller], idx)] && laid == old(laid)
        else
          && hands == old(hands)[caller := RemoveAt(old(hands)[caller], idx)]
          && laid == old(laid)[phaseIndex := old(laid)[phaseIndex][targetId := groups[groupIndex := group.value + [candidate]]]]
    {
      if !(phaseIndex in laid && targetId in laid[phaseIndex]) {
        return;
      }
      if currentTurn != Some(caller) || !hasDrawn {
        return;
      }
      var idx := FirstMatch(hands[caller], req);
      if idx.None? {
        return;
      }
      Hit(caller, phaseIndex, targetId, groupIndex, idx.value, validHit);
    }

    /** The second half of `hitPhase`: card `i` of the caller's hand is
        offered to the group. */
    method Hit(caller: PlayerId, phaseIndex: int, targetId: PlayerId, groupIndex: int, i: nat, validHit: HitRule)
      requires Valid() && phaseIndex in laid && targetId in laid[phaseIndex]
      requires currentTurn == Some(caller) && i < |hands[caller]|
      modifies this
      ensures Valid()
      ensures players == old(players) && deck == old(deck) && discard == old(discard)
      ensures currentTurn == old(currentTurn) && hasDrawn == old(hasDrawn) && roundNumber == old(roundNumber)
      ensures var candidate := old(hands)[caller][i];
        var groups := old(laid)[phaseIndex][targetId];
        var group := if 0 <= groupIndex < |groups| then Some(groups[groupIndex]) else None;
        if !validHit(phaseIndex, group, candidate) then
          hands == old(hands) && laid == old(laid)
        else if group.None? then
          hands == old(hands)[caller := RemoveAt(old(hands)[caller], i)] && laid == old(laid)
        else
          && hands == old(hands)[caller := RemoveAt(old(hands)[caller], i)]
          && laid == old(laid)[phaseIndex := old(laid)[phaseIndex][targetId := groups[groupIndex := group.value + [candidate]]]]
    {
      var hand := hands[caller];
      var candidate := hand[i];
      var rest := RemoveAt(hand, i);
      var groups := laid[phaseIndex][targetId];
      var currentGroup := if 0 <= groupIndex < |groups| then Some(groups[groupIndex]) else None;
      if !validHit(phaseIndex, currentGroup, candidate) {
        InsertRemoved(hand, i);
        var restored := InsertAt(rest, i, candidate);
        SeatedUpdate(players, hands, currentTurn, caller, restored, 0);
        hands := hands[caller := restored];
        return;
      }
      SeatedUpdate(players, hands, currentTurn, caller, rest, 0);
      hands := hands[caller := rest];
      if currentGroup.None? {
        return;
      }
      laid := laid[phaseIndex := laid[phaseIndex][targetId := groups[groupIndex := currentGroup.value + [candidate]]]];
    }

    /** `startNextRound`: the round number goes up, every player who laid a
        phase this round moves on to the next phase, the new deal (shuffled
        and dealt outside this model) replaces the hands, the starter loop
        turns the first discard from the dealt deck, which is never a wild or
        a skip, nothing is laid, and the first seat has the turn.  The source
        throws on a deck with no plain card to turn; the model requires the
        loop to find one within the given re-insertion positions. */
    method StartNextRound(newHands: map<PlayerId, seq<Card>>, dealtDeck: seq<Card>, positions: seq<nat>)
      requires Valid()
      requires AllDealt(players, newHands)
      requires Starter(dealtDeck, positions).Some?
      modifies this
      ensures Valid()
      ensures roundNumber == old(roundNumber) + 1
      ensures players == Advanced(old(players), Completed(old(laid)))
      ensures hands == newHands
      ensures discard == [Starter(dealtDeck, positions).value.0] && deck == Starter(dealtDeck, positions).value.1
      ensures !IsWild(discard[0]) && !IsSkip(discard[0])
      ensures multiset(deck) + multiset(discard) == multiset(dealtDeck)
      ensures currentTurn == Some(players[0].socketId) && !hasDrawn && laid == map[]
    {
      var drawn := DrawStarter(dealtDeck, positions);
      StarterFacts(dealtDeck, positions);
      var starter, rest := drawn.value.0, drawn.value.1;
      assert !IsWild(starter) && !IsSkip(starter) && multiset(rest) + multiset{starter} == multiset(dealtDeck);
      roundNumber := roundNumber + 1;
      var completedPhases := CompletedPlayers(laid);
      AdvancedSeated(players, newHands, completedPhases);
      players := Advanced(players, completedPhases);
      hands := newHands;
      deck := rest;
      discard := [starter];
      currentTurn := Some(players[0].socketId);
      hasDrawn := false;
      laid := map[];
    }
  }
}
