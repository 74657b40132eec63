/**
 * The scoreboard's ranking: a sorted copy of the players, higher phase
 * first and, within a phase, lower score first.  `Array.prototype.sort`
 * is stable, so players who tie on both keys keep the room's order.
 */
module Scoreboard {
  import opened Cards
  import opened Rooms

  /** The comparator `(a, b) => a.phaseIndex !== b.phaseIndex
      ? b.phaseIndex - a.phaseIndex : a.score - b.score`. */
  function Compare(a: Player, b: Player): int {
    if a.phaseIndex != b.phaseIndex then b.phaseIndex - a.phaseIndex else a.score - b.score
  }

  /** `a` may stand above `b`: a higher phase, or the same phase and a
      score no higher. */
  predicate Before(a: Player, b: Player) {
    a.phaseIndex > b.phaseIndex || (a.phaseIndex == b.phaseIndex && a.score <= b.score)
  }

  /** The comparator lets `a` stay ahead of `b` exactly when `a` ranks
      before `b`, and it is antisymmetric. */
  lemma CompareMeaning(a: Player, b: Player)
    ensures Compare(a, b) <= 0 <==> Before(a, b)
    ensures Compare(a, b) == -Compare(b, a)
  {
  }

  /** Every player ranks before every later one. */
  predicate Ranked(ps: seq<Player>) {
    forall i, j :: 0 <= i < j < |ps| ==> Before(ps[i], ps[j])
  }

  /** The players with phase `phase` and score `score`, in order. */
  function Tied(ps: seq<Player>, phase: int, score: int): seq<Player> {
    if ps == [] then []
    else
      (if ps[0].phaseIndex == phase && ps[0].score == score then [ps[0]] else [])
      + Tied(ps[1..], phase, score)
  }

  lemma {:induction false} TiedMembers(ps: seq<Player>, phase: int, score: int)
    ensures forall p :: p in Tied(ps, phase, score) <==> p in ps && p.phaseIndex == phase && p.score == score
    decreases |ps|
  {
    if ps != [] {
      TiedMembers(ps[1..], phase, score);
      assert ps == [ps[0]] + ps[1..];
    }
  }

  /** One step of a stable insertion sort: `p` goes in front of the first
      player it may stand above. */
  function Insert(p: Player, ps: seq<Player>): (r: seq<Player>)
    ensures multiset(r) == multiset(ps) + multiset{p}
  {
    if ps == [] || Before(p, ps[0]) then [p] + ps
    else
      assert ps == [ps[0]] + ps[1..];
      [ps[0]] + Insert(p, ps[1..])
  }

  /** `[...players].sort(comparator)`: a sorted copy; `players` itself is
      a value and stays as it was. */
  function SortPlayers(players: seq<Player>): (r: seq<Player>)
    ensures multiset(r) == multiset(players)
  {
    if players == [] then []
    else
      assert players == [players[0]] + players[1..];
      Insert(players[0], SortPlayers(players[1..]))
  }

  /** Inserting into a ranked list keeps it ranked. */
  lemma {:induction false} InsertRanked(p: Player, ps: seq<Player>)
    requires Ranked(ps)
    ensures Ranked(Insert(p, ps))
    decreases |ps|
  {
    if ps != [] && !Before(p, ps[0]) {
      var rest := Insert(p, ps[1..]);
      InsertRanked(p, ps[1..]);
      forall x | x in rest ensures Before(ps[0], x) {
        assert x in multiset(rest);
        if x != p {
          assert x in ps[1..];
        }
      }
      var r := [ps[0]] + rest;
      forall i, j | 0 <= i < j < |r| ensures Before(r[i], r[j]) {
        if i == 0 {
          assert r[j] in rest;
        } else {
          assert r[i] == rest[i - 1] && r[j] == rest[j - 1];
        }
      }
    }
  }

  /** Inserting `p` adds it to its own tie class in front of the players
      already there, and leaves every other tie class alone. */
  lemma {:induction false} InsertTied(p: Player, ps: seq<Player>, phase: int, score: int)
    ensures Tied(Insert(p, ps), phase, score) ==
      (if p.phaseIndex == phase && p.score == score then [p] else []) + Tied(ps, phase, score)
    decreases |ps|
  {
    if ps == [] || Before(p, ps[0]) {
      assert ([p] + ps)[1..] == ps;
    } else {
      InsertTied(p, ps[1..], phase, score);
      assert ([ps[0]] + Insert(p, ps[1..]))[1..] == Insert(p, ps[1..]);
    }
  }

  /** The sorted list is ranked: higher phases first, and lower scores
      first within a phase. */
  lemma {:induction false} SortRanked(players: seq<Player>)
    ensures Ranked(SortPlayers(players))
    decreases |players|
  {
    if players != [] {
      SortRanked(players[1..]);
      InsertRanked(players[0], SortPlayers(players[1..]));
    }
  }

  /** The sort is stable: players tied on both phase and score appear in
      the order the room lists them. */
  lemma {:induction false} SortStable(players: seq<Player>, phase: int, score: int)
    ensures Tied(SortPlayers(players), phase, score) == Tied(players, phase, score)
    decreases |players|
  {
    if players != [] {
      SortStable(players[1..], phase, score);
      InsertTied(players[0], SortPlayers(players[1..]), phase, score);
    }
  }

  /** What the ranking promises row by row: a later row never has a
      higher phase, and with the same phase never a lower score. */
  lemma SortOrder(players: seq<Player>, i: nat, j: nat)
    requires i < j < |SortPlayers(players)|
    ensures var r := SortPlayers(players);
      r[i].phaseIndex >= r[j].phaseIndex &&
      (r[i].phaseIndex == r[j].phaseIndex ==> r[i].score <= r[j].score) &&
      Compare(r[i], r[j]) <= 0
  {
    SortRanked(players);
    CompareMeaning(SortPlayers(players)[i], SortPlayers(players)[j]);
  }

  /** The head of a ranked list ranks before everything in it. */
  lemma HeadRanksFirst(ps: seq<Player>, y: Player)
    requires Ranked(ps) && y in ps
    ensures Before(ps[0], y)
  {
    var k :| 0 <= k < |ps| && ps[k] == y;
  }

  /** Lists that agree on their first player and on every tie order agree
      on every tie order of the rest as well. */
  lemma TailsAgree(a: seq<Player>, b: seq<Player>)
    requires a != [] && b != [] && a[0] == b[0]
    requires forall phase, score :: Tied(a, phase, score) == Tied(b, phase, score)
    ensures forall phase, score :: Tied(a[1..], phase, score) == Tied(b[1..], phase, score)
  {
    forall phase, score ensures Tied(a[1..], phase, score) == Tied(b[1..], phase, score) {
      var t := Tied(a, phase, score);
      assert t == Tied(b, phase, score);
      var h := if a[0].phaseIndex == phase && a[0].score == score then [a[0]] else [];
      assert Tied(a[1..], phase, score) == t[|h|..];
      assert Tied(b[1..], phase, score) == t[|h|..];
    }
  }

  /** Two ranked lists with the same players in every tie order are the
      same list: the ranking is fully determined. */
  lemma {:induction false} RankedUnique(a: seq<Player>, b: seq<Player>)
    requires Ranked(a) && Ranked(b)
    requires forall phase, score :: Tied(a, phase, score) == Tied(b, phase, score)
    ensures a == b
    decreases |a| + |b|
  {
    if a != [] {
      var x := a[0];
      TiedMembers(a, x.phaseIndex, x.score);
      TiedMembers(b, x.phaseIndex, x.score);
      assert x in Tied(a, x.phaseIndex, x.score);
      assert x in b;
    }
    if b != [] {
      var y := b[0];
      TiedMembers(a, y.phaseIndex, y.score);
      TiedMembers(b, y.phaseIndex, y.score);
      assert y in Tied(b, y.phaseIndex, y.score);
      assert y in a;
    }
    if a != [] {
      var x, y := a[0], b[0];
      HeadRanksFirst(a, y);
      HeadRanksFirst(b, x);
      assert Tied(a, x.phaseIndex, x.score) == [x] + Tied(a[1..], x.phaseIndex, x.score);
      assert Tied(b, x.phaseIndex, x.score) == [y] + Tied(b[1..], x.phaseIndex, x.score);
      assert x == Tied(a, x.phaseIndex, x.score)[0] == Tied(b, x.phaseIndex, x.score)[0] == y;
      TailsAgree(a, b);
      assert Ranked(a[1..]) && Ranked(b[1..]);
      RankedUnique(a[1..], b[1..]);
    }
  }

  /** Any ranked list of the players that keeps tied players in the room's
      order is exactly the scoreboard's list. */
  lemma SortIsTheRanking(players: seq<Player>, r: seq<Player>)
    requires Ranked(r)
    requires forall phase, score :: Tied(r, phase, score) == Tied(players, phase, score)
    ensures r == SortPlayers(players)
  {
    SortRanked(players);
    forall phase, score ensures Tied(r, phase, score) == Tied(SortPlayers(players), phase, score) {
      SortStable(players, phase, score);
    }
    RankedUnique(r, SortPlayers(players));
  }

  /** `Phase {(player.phaseIndex || 0) + 1}`: the shown phase is one more
      than the index, so index 0 shows as phase 1.  The index is always a
      number here, and `|| 0` leaves every number as it is. */
  function DisplayedPhase(p: Player): (n: int)
    ensures n - 1 == p.phaseIndex
    ensures n >= 1 <==> p.phaseIndex >= 0
  {
    p.phaseIndex + 1
  }

  /** The phases down the scoreboard never go up, and a room's players
      (whose phase indices stay within the ten phases) show phases 1
      to 10. */
  lemma DisplayedPhases(players: seq<Player>, i: nat, j: nat)
    requires i < j < |SortPlayers(players)|
    ensures DisplayedPhase(SortPlayers(players)[i]) >= DisplayedPhase(SortPlayers(players)[j])
    ensures 0 <= SortPlayers(players)[i].phaseIndex < 10 ==> 1 <= DisplayedPhase(SortPlayers(players)[i]) <= 10
  {
    SortOrder(players, i, j);
  }
}
