/**
 * The client's own copy of its hand: the order the player arranged by
 * dragging, how that order follows the server's hand, and the selected
 * positions.
 */
module GameBoard {
  import opened Cards

  // ---------------------------------------------------------------------
  // Dragging a card to a new place
  // ---------------------------------------------------------------------

  /** Where a drag starts or ends: a drop area and a position in it. */
  datatype Spot = Spot(droppableId: string, index: int)

  /** `onDragEnd`: dropping outside any area, or back on the same spot,
      changes nothing; otherwise the card at the source position is taken
      out and put back in at the destination position. */
  method OnDragEnd(order: seq<Card>, source: Spot, destination: Option<Spot>) returns (newOrder: seq<Card>)
    requires 0 <= source.index < |order|
    requires destination.Some? ==> 0 <= destination.value.index < |order|
    ensures destination.None? || destination.value == source ==> newOrder == order
    ensures destination.Some? ==>
      var s, d := source.index, destination.value.index;
      |newOrder| == |order| && multiset(newOrder) == multiset(order) &&
      newOrder[d] == order[s] && RemoveAt(newOrder, d) == RemoveAt(order, s)
  {
    if destination.None? {
      return order;
    }
    if source.droppableId == destination.value.droppableId && source.index == destination.value.index {
      return order;
    }
    var d := destination.value.index;
    newOrder := order;
    var moved := newOrder[source.index];
    newOrder := RemoveAt(newOrder, source.index);
    newOrder := InsertAt(newOrder, d, moved);
    assert RemoveAt(newOrder, d) == RemoveAt(order, source.index);
  }

  /** The moved order is pinned down by where the card went and what is
      left without it: any order with the same card at `d` and the same
      rest is the same order. */
  lemma MoveDetermined(a: seq<Card>, b: seq<Card>, d: nat)
    requires d < |a| && d < |b| && a[d] == b[d]
    requires RemoveAt(a, d) == RemoveAt(b, d)
    ensures a == b
  {
    forall k | 0 <= k < |a| ensures a[k] == b[k] {
      if k < d {
        assert RemoveAt(a, d)[k] == RemoveAt(b, d)[k];
      } else if k > d {
        assert RemoveAt(a, d)[k - 1] == RemoveAt(b, d)[k - 1];
      }
    }
  }

  /** Cards between the two positions shift by one towards the source;
      cards outside them keep their position. */
  lemma MoveShifts(order: seq<Card>, newOrder: seq<Card>, s: nat, d: nat)
    requires s < |order| && d < |order| && |newOrder| == |order|
    requires newOrder[d] == order[s] && RemoveAt(newOrder, d) == RemoveAt(order, s)
    ensures forall k :: 0 <= k < |order| && k < s && k < d ==> newOrder[k] == order[k]
    ensures forall k :: 0 <= k < |order| && k > s && k > d ==> newOrder[k] == order[k]
    ensures forall k :: s <= k < d ==> newOrder[k] == order[k + 1]
    ensures forall k :: d < k <= s ==> newOrder[k] == order[k - 1]
  {
    var rest := RemoveAt(order, s);
    forall k | 0 <= k < |order| && k < s && k < d ensures newOrder[k] == order[k] {
      assert RemoveAt(newOrder, d)[k] == rest[k];
    }
    forall k | 0 <= k < |order| && k > s && k > d ensures newOrder[k] == order[k] {
      assert RemoveAt(newOrder, d)[k - 1] == rest[k - 1];
    }
    forall k | s <= k < d ensures newOrder[k] == order[k + 1] {
      assert RemoveAt(newOrder, d)[k] == rest[k];
    }
    forall k | d < k <= s ensures newOrder[k] == order[k - 1] {
      assert RemoveAt(newOrder, d)[k - 1] == rest[k - 1];
    }
  }

  // ---------------------------------------------------------------------
  // Following the server's hand
  // ---------------------------------------------------------------------

  /** Two cards look the same when type, value and colour agree. */
  predicate SameFace(a: Card, b: Card) {
    AsRequest(a) == AsRequest(b)
  }

  /** `cards.some(other => same type, value and colour as c)` */
  predicate HasFace(cards: seq<Card>, c: Card) {
    exists k :: 0 <= k < |cards| && SameFace(cards[k], c)
  }

  /** `handOrder.filter(card => hand.some(...))`: the ordered cards whose
      face is still in the hand. */
  function StillHeld(order: seq<Card>, hand: seq<Card>): seq<Card> {
    if order == [] then []
    else (if HasFace(hand, order[0]) then [order[0]] else []) + StillHeld(order[1..], hand)
  }

  /** `hand.filter(card => !handOrder.some(...))`: the hand cards whose face
      is not in the order yet. */
  function NewCards(hand: seq<Card>, order: seq<Card>): seq<Card> {
    if hand == [] then []
    else (if HasFace(order, hand[0]) then [] else [hand[0]]) + NewCards(hand[1..], order)
  }

  /** The arranged hand and the selected positions. */
  datatype View = View(handOrder: seq<Card>, selected: seq<int>)

  /** The effect run when the server's hands change; `hand` is this
      player's hand, `None` when the server sent none. */
  function Reconcile(view: View, hand: Option<seq<Card>>): View {
    if hand.None? then view
    else if |view.handOrder| == 0 then view.(handOrder := hand.value)
    else View(StillHeld(view.handOrder, hand.value) + NewCards(hand.value, view.handOrder), [])
  }

  lemma {:induction false} StillHeldMembers(order: seq<Card>, hand: seq<Card>)
    ensures forall c :: c in StillHeld(order, hand) <==> c in order && HasFace(hand, c)
  {
    if order != [] {
      StillHeldMembers(order[1..], hand);
      assert order == [order[0]] + order[1..];
    }
  }

  lemma {:induction false} NewCardsMembers(hand: seq<Card>, order: seq<Card>)
    ensures forall c :: c in NewCards(hand, order) <==> c in hand && !HasFace(order, c)
  {
    if hand != [] {
      NewCardsMembers(hand[1..], order);
      assert hand == [hand[0]] + hand[1..];
    }
  }

  /** Keeping the still-held cards keeps their relative order: it
      distributes over concatenation. */
  lemma {:induction false} StillHeldAppend(a: seq<Card>, b: seq<Card>, hand: seq<Card>)
    ensures StillHeld(a + b, hand) == StillHeld(a, hand) + StillHeld(b, hand)
  {
    if a == [] {
      assert a + b == b;
    } else {
      var ab := a + b;
      assert ab[0] == a[0] && ab[1..] == a[1..] + b;
      StillHeldAppend(a[1..], b, hand);
      var h := if HasFace(hand, a[0]) then [a[0]] else [];
      assert StillHeld(ab, hand) == h + StillHeld(a[1..] + b, hand);
      assert StillHeld(a, hand) == h + StillHeld(a[1..], hand);
    }
  }

  /** With no hand from the server nothing changes; on the first hand the
      order is the hand as dealt and the selection is kept. */
  lemma ReconcileFirst(view: View, hand: Option<seq<Card>>)
    ensures hand.None? ==> Reconcile(view, hand) == view
    ensures hand.Some? && view.handOrder == [] ==>
      Reconcile(view, hand) == View(hand.value, view.selected)
  {
  }

  /** After a later hand: every arranged card shows a face of the hand,
      every face of the hand is shown, the old cards come first in their
      old order, and the selection is cleared. */
  lemma ReconcileFacts(view: View, hand: seq<Card>)
    requires view.handOrder != []
    ensures var r := Reconcile(view, Some(hand));
      r.selected == [] &&
      (forall c :: c in r.handOrder ==> HasFace(hand, c)) &&
      (forall c :: c in hand ==> HasFace(r.handOrder, c)) &&
      r.handOrder[..|StillHeld(view.handOrder, hand)|] == StillHeld(view.handOrder, hand) &&
      (forall c :: c in StillHeld(view.handOrder, hand) <==> c in view.handOrder && HasFace(hand, c))
  {
    var order := view.handOrder;
    var kept, added := StillHeld(order, hand), NewCards(hand, order);
    var r := kept + added;
    StillHeldMembers(order, hand);
    NewCardsMembers(hand, order);
    forall c | c in r ensures HasFace(hand, c) {
      if c in added {
        var k :| 0 <= k < |hand| && hand[k] == c;
        assert SameFace(hand[k], c);
      }
    }
    forall c | c in hand ensures HasFace(r, c) {
      if HasFace(order, c) {
        var k :| 0 <= k < |order| && SameFace(order[k], c);
        var o := order[k];
        var j :| 0 <= j < |hand| && hand[j] == c;
        assert SameFace(hand[j], o);
        assert o in kept;
        assert o in r;
        var m :| 0 <= m < |r| && r[m] == o;
        assert SameFace(r[m], c);
      } else {
        assert c in added;
        assert c in r;
        var m :| 0 <= m < |r| && r[m] == c;
        assert SameFace(r[m], c);
      }
    }
    assert r[..|kept|] == kept;
  }

  /** A drawn card whose face the arranged hand already shows is not
      added: the arranged hand stays as it was, one card short of the
      server's hand. */
  lemma DrawnDuplicateDropped(order: seq<Card>, drawn: Card)
    requires HasFace(order, drawn)
    ensures Reconcile(View(order, []), Some(order + [drawn])).handOrder == order
  {
    var hand := order + [drawn];
    StillHeldAll(order, hand);
    NewCardsAppend(order, [drawn], order);
    NewCardsNone(order, order);
    assert NewCards([drawn], order) == [];
  }

  lemma {:induction false} StillHeldAll(order: seq<Card>, hand: seq<Card>)
    requires forall c :: c in order ==> c in hand
    ensures StillHeld(order, hand) == order
  {
    if order != [] {
      assert order[0] in order;
      var k :| 0 <= k < |hand| && hand[k] == order[0];
      assert SameFace(hand[k], order[0]);
      StillHeldAll(order[1..], hand);
    }
  }

  lemma {:induction false} NewCardsAppend(a: seq<Card>, b: seq<Card>, order: seq<Card>)
    ensures NewCards(a + b, order) == NewCards(a, order) + NewCards(b, order)
  {
    if a == [] {
      assert a + b == b;
    } else {
      assert (a + b)[1..] == a[1..] + b;
      NewCardsAppend(a[1..], b, order);
    }
  }

  lemma {:induction false} NewCardsNone(hand: seq<Card>, order: seq<Card>)
    requires forall c :: c in hand ==> c in order
    ensures NewCards(hand, order) == []
  {
    if hand != [] {
      assert hand[0] in hand;
      var k :| 0 <= k < |order| && order[k] == hand[0];
      assert SameFace(order[k], hand[0]);
      NewCardsNone(hand[1..], order);
    }
  }

  // ---------------------------------------------------------------------
  // Selecting cards
  // ---------------------------------------------------------------------

  /** `sel.filter(i => i !== idx)` */
  function Without(sel: seq<int>, idx: int): (r: seq<int>) {
    if sel == [] then []
    else (if sel[0] == idx then [] else [sel[0]]) + Without(sel[1..], idx)
  }

  /** The click handler on the card at position `idx`. */
  function Toggle(sel: seq<int>, idx: int, isMyTurn: bool, hasDrawn: bool): seq<int> {
    if !isMyTurn || !hasDrawn then sel
    else if idx in sel then Without(sel, idx)
    else sel + [idx]
  }

  lemma {:induction false} WithoutMembers(sel: seq<int>, idx: int)
    ensures forall x :: x in Without(sel, idx) <==> x in sel && x != idx
  {
    if sel != [] {
      WithoutMembers(sel[1..], idx);
      assert sel == [sel[0]] + sel[1..];
    }
  }

  /** Nothing changes unless it is the player's turn and they have drawn;
      then the clicked position flips in or out of the selection and no
      other position changes. */
  lemma ToggleFacts(sel: seq<int>, idx: int, isMyTurn: bool, hasDrawn: bool)
    ensures !isMyTurn || !hasDrawn ==> Toggle(sel, idx, isMyTurn, hasDrawn) == sel
    ensures isMyTurn && hasDrawn ==>
      (idx in Toggle(sel, idx, isMyTurn, hasDrawn) <==> idx !in sel) &&
      forall x :: x != idx ==> (x in Toggle(sel, idx, isMyTurn, hasDrawn) <==> x in sel)
  {
    WithoutMembers(sel, idx);
  }

  /** Where an unselected position is clicked twice, the selection is
      back to what it was. */
  lemma {:induction false} ToggleTwice(sel: seq<int>, idx: int)
    requires idx !in sel
    ensures Toggle(Toggle(sel, idx, true, true), idx, true, true) == sel
  {
    WithoutAppended(sel, idx);
  }

  lemma {:induction false} WithoutAppended(sel: seq<int>, idx: int)
    requires idx !in sel
    ensures Without(sel + [idx], idx) == sel
  {
    if sel == [] {
      assert [idx][1..] == [];
    } else {
      assert (sel + [idx])[1..] == sel[1..] + [idx];
      WithoutAppended(sel[1..], idx);
      assert sel == [sel[0]] + sel[1..];
    }
  }

  predicate NoDuplicates(sel: seq<int>) {
    forall i, j :: 0 <= i < j < |sel| ==> sel[i] != sel[j]
  }

  lemma {:induction false} WithoutNoDuplicates(sel: seq<int>, idx: int)
    requires NoDuplicates(sel)
    ensures NoDuplicates(Without(sel, idx))
  {
    if sel != [] {
      WithoutNoDuplicates(sel[1..], idx);
      WithoutMembers(sel[1..], idx);
      var rest := Without(sel[1..], idx);
      if sel[0] != idx {
        assert sel[0] !in sel[1..];
        assert sel[0] !in rest;
        var r := [sel[0]] + rest;
        forall i, j | 0 <= i < j < |r| ensures r[i] != r[j] {
          if i == 0 {
            assert r[j] == rest[j - 1];
          } else {
            assert r[i] == rest[i - 1] && r[j] == rest[j - 1];
          }
        }
      }
    }
  }

  /** A selection never holds a position twice. */
  lemma ToggleNoDuplicates(sel: seq<int>, idx: int, isMyTurn: bool, hasDrawn: bool)
    requires NoDuplicates(sel)
    ensures NoDuplicates(Toggle(sel, idx, isMyTurn, hasDrawn))
  {
    if isMyTurn && hasDrawn {
      if idx in sel {
        WithoutNoDuplicates(sel, idx);
      } else {
        var r := sel + [idx];
        forall i, j | 0 <= i < j < |r| ensures r[i] != r[j] {
          if j == |sel| {
            assert r[i] == sel[i];
          }
        }
      }
    }
  }
}
