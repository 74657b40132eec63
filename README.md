# Phase 10 — a verified model of the game rules

This project models the rule core of a multiplayer Phase 10 card game in
Dafny and proves properties about it. The game has a Node.js server and a
React client. The model has three parts.

- **The server's meld validator** (`backend/src/gameLogic.js`):
  - the 108-card deck and the deal;
  - the ten-phase table;
  - the matchers for sets of equal values, runs of consecutive values and
    cards of one colour;
  - the mixed "sets, then runs on what is left" matcher;
  - the `validatePhase` entry point.

  Each matcher is a method with the source's loops, proved equal to a
  recursive specification function. The properties are lemmas about those
  functions.
- **The room state machine** (`backend/src/sockets.js`). The room is a
  class with mutable fields: players, hands, draw pile, discard pile, turn,
  `hasDrawn`, laid melds and round number. Its methods are the socket
  handlers with the transport stripped off:
  - drawing from either pile;
  - discarding, with skip rotation and round-end scoring;
  - laying a phase;
  - hitting a laid group;
  - starting the next round.
- **The client's pure logic**:
  - the lay-phase dialog: requirement labels, wild-value options, the
    completeness check, submission stamping and the remaining hand;
  - the game board: drag reorder, hand-order reconciliation and the
    selection toggle;
  - the scoreboard ranking;
  - the card picture path.

The modules are:

| module | file | models |
|---|---|---|
| `Cards` | `cards.dfy` | cards, faces, the hand-card match used by every handler, JS `slice` with a negative end |
| `Text` | `text.dfy` | decimal text of an integer and the first digit run of a string |
| `Deck` | `deck.dfy` | `createDeck`, `deal` |
| `SetMatcher` | `sets.dfy` | `validateSets` |
| `RunMatcher` | `runs.dfy` | `validateRuns` |
| `ColorMatcher` | `color.dfy` | `validateColor` |
| `Phases` | `phases.dfy` | `PHASES`, `validateMixed`, `validatePhase` |
| `Rooms` | `room.dfy` | the room and its socket handlers |
| `LayPhaseModal` | `lay_phase_modal.dfy` | the lay-phase dialog |
| `GameBoard` | `game_board.dfy` | the game board |
| `Scoreboard` | `scoreboard.dfy` | the scoreboard |
| `CardImages` | `card_images.dfy` | `cardImageUrl`, `capitalize` |

### Card identity

A card is `Card(ref, id, face)`.

- `ref` stands for the JavaScript object's identity. `validateMixed`
  removes set cards with `===`, so two equal-looking cards are different
  cards.
- `id` is the optional `card.id` property the client reads. The server's
  deck never sets it.
- `face` is a number card (colour and value 1..12), a wild (with an
  optional assigned value) or a skip.

### Source quirks modelled as written

The source's quirks are modelled exactly as written. Lemmas show each one
on concrete or general inputs:

- `validateSets` gives every set its wilds from the front of the same wild
  list (`SetMatcher.SetsShareWilds`).
- A value with more cards than a set needs makes the shortfall negative.
  That raises the wilds left for the next set. On any hand of five 5s and
  one 7 with no wilds, two sets of three are accepted: one group of five and
  one of the single 7 (`SetMatcher.OverSupplyHand`).
  With a negative shortfall, `wilds.slice(0, needed)` does not take zero
  wilds. It takes every wild except the last `-needed`
  (`SetMatcher.NegativeShortfallTakesWilds`).
- `validateRuns` checks for a wild at each hole but never counts wilds down
  within a window. With one wild, a single card passes as a run of four
  (`RunMatcher.ShortRunWitness`). A rejected window still consumes the
  cards it shifted out of the queues (`RunMatcher.LostCardsWitness`).
- The round-end loop looks each seat up again with `findIndex`. A socket
  seated twice therefore scores twice on its first seat and not at all on
  its second (`Rooms.DuplicateSeatScoredTwice`).
- `validateColor` has the same negative-`slice` behaviour
  (`ColorMatcher.ColorOverSupply`).
- The board's reconciliation matches cards by face. A drawn card whose face
  is already shown is therefore never added to the arranged hand
  (`GameBoard.DrawnDuplicateDropped`).
- Server cards carry no `id`. Placing one in the dialog therefore hides
  every card of the hand from the remaining hand
  (`LayPhaseModal.PlacingIdlessHidesAll`).

## Model

| member | source | states |
|---|---|---|
| Deck.CreateDeck | backend/src/gameLogic.js:4-31 | 108 fresh cards; card `i` has identity `i` and the face `DeckFace(i)` of the colour/value/wild/skip layout |
| Deck.DeckLayout | backend/src/gameLogic.js:15-31 | each colour and value sits on exactly two adjacent positions `24*colour + 2*(value-1)`; positions 96..103 are the 8 wilds, 104..107 the 4 skips |
| Deck.Deal | backend/src/gameLogic.js:49-55 | each player in order takes the next `count` cards (fewer when the deck runs out); a repeated id keeps its later hand; the rest of the deck is returned |
| Deck.TakeCount | backend/src/gameLogic.js:52 | `splice(0, count)` takes `count` cards or the whole deck if shorter |
| Deck.DealKeepsDeck | backend/src/gameLogic.js:49-55 | the dealt hands in order followed by the remaining deck are exactly the original deck |
| Deck.DealSizes | backend/src/gameLogic.js:49-55 | with enough cards every hand has exactly `count` cards and `n*count` cards leave the deck |
| Cards.FirstMatch | backend/src/sockets.js:116-120 | the first hand position whose card matches the request (same type; same value or none requested; same colour or none requested), or none if no card matches |
| Cards.AsRequestMatches | backend/src/sockets.js:116-120 | a card sent as it is matches itself, and a hand card matches it exactly when type, value and colour are equal |
| Cards.SliceEnd | backend/src/gameLogic.js:148 | JS `slice(0, end)`: a negative end counts from the back, clamped to 0; an end past the length takes everything |
| Cards.Take | backend/src/gameLogic.js:148 | `s.slice(0, end)` is the prefix of length `SliceEnd(|s|, end)` |
| Cards.WildsOfFacts | backend/src/gameLogic.js:148 | the wilds filter keeps exactly the wilds of the input, as a sub-multiset |
| Cards.NumbersOfFacts | backend/src/gameLogic.js:144-146 | the filter for one value keeps exactly that value's number cards |
| Cards.NonSkipsFacts | backend/src/gameLogic.js:281 | the skip filter keeps exactly the non-skip cards |
| Cards.RemoveAt | backend/src/sockets.js:122 | `splice(i, 1)`: the card at `i` leaves, the others keep their order |
| Cards.InsertRemoved | backend/src/sockets.js:238-246 | splicing a card out and back in at the same index gives the original hand |
| SetMatcher.CountValues | backend/src/gameLogic.js:113-121 | the counting loop yields the per-value tally and the number of wilds |
| SetMatcher.TallyCounts | backend/src/gameLogic.js:115-121 | a value is in the tally exactly when a number card of it is present, with that many cards |
| SetMatcher.SortByCountOrdered | backend/src/gameLogic.js:124-126 | the stable sort by count of entries in ascending value order yields count descending, ties to the lower value |
| SetMatcher.SortedValuesFacts | backend/src/gameLogic.js:123-126 | the candidate list has one entry per present value with its count, ordered by count descending then value ascending, values distinct |
| SetMatcher.FirstFitFacts | backend/src/gameLogic.js:136-156 | the inner scan returns the first unused entry whose shortfall the remaining wilds cover, or reports that none does |
| SetMatcher.FindValue | backend/src/gameLogic.js:136-156 | the inner loop computes exactly that first fitting entry |
| SetMatcher.ChooseSets | backend/src/gameLogic.js:131-161 | the outer loop's verdict is the plan of choices turned into groups, or rejection |
| SetMatcher.ValidateSets | backend/src/gameLogic.js:110-162 | `validateSets` equals its specification `SetsVerdict` |
| SetMatcher.PlanPicks | backend/src/gameLogic.js:131-152 | a successful plan makes one choice per length, each on an unused candidate, with shortfall `length - count` |
| SetMatcher.PlanDistinct | backend/src/gameLogic.js:137-151 | no value is chosen twice because a chosen entry's count is zeroed |
| SetMatcher.PlanWilds | backend/src/gameLogic.js:139-152 | the wilds handed out up to any point never exceed the wilds held: `remainingWilds` never drops below 0 |
| SetMatcher.PickGroup | backend/src/gameLogic.js:144-150 | a group is all number cards of its value then `wilds.slice(0, needed)`; it has the requested length when the shortfall lies between 0 and the wild count |
| SetMatcher.SetsResult | backend/src/gameLogic.js:110-162 | on success: one group per length in order, each of one value plus front wilds, values distinct, wilds never overdrawn |
| SetMatcher.SetsShape | backend/src/gameLogic.js:131-161 | all-or-nothing: rejection with no groups, or one group per requested length |
| SetMatcher.SetsFirstChoice | backend/src/gameLogic.js:123-140 | the first set takes the fitting value with most cards, ties to the lowest value |
| SetMatcher.SetsShareWilds | backend/src/gameLogic.js:148 | two sets that both need wilds share the first wild object |
| SetMatcher.OverSupplyWitness | backend/src/gameLogic.js:131-156 | on the candidates five 5s and one 7 with no wilds, the loop picks the 5s with shortfall -2, then the 7 with an uncovered shortfall of 2 |
| SetMatcher.TwoCandidates | backend/src/gameLogic.js:123-126 | an ordered candidate list holding exactly two values lists them in count order |
| SetMatcher.FiveFivesOneSeven | backend/src/gameLogic.js:112-126 | a hand whose only numbers are five 5s and one 7 has the candidates 5 (count 5), then 7 (count 1) |
| SetMatcher.OverSupplyPlan | backend/src/gameLogic.js:110-156 | on such a hand with no wilds, `validateSets(cards, [3, 3])` picks the 5s (shortfall -2), then the 7 (shortfall 2) |
| SetMatcher.OverSupplyGroups | backend/src/gameLogic.js:144-150 | with no wilds, those picks give the groups: all five 5s, and the single 7 |
| SetMatcher.OverSupplyHand | backend/src/gameLogic.js:110-162 | `validateSets(cards, [3, 3])` accepts any hand of five 5s and one 7 with no wilds, with groups of five cards and one card |
| SetMatcher.NegativeShortfallTakesWilds | backend/src/gameLogic.js:139-150 | a negative shortfall takes all but the last `-needed` wilds instead of none |
| RunMatcher.BuildQueues | backend/src/gameLogic.js:173-180 | the grouping loop builds the per-value queues |
| RunMatcher.QueuesOfOrder | backend/src/gameLogic.js:175-180 | queue `v` holds the input's cards of value `v` in input order |
| RunMatcher.QueuesOfMass | backend/src/gameLogic.js:175-180 | the queues hold every number card and nothing else |
| RunMatcher.FillWindow | backend/src/gameLogic.js:194-207 | the slot loop with its `break` equals the window function `Fill` |
| RunMatcher.ScanStarts | backend/src/gameLogic.js:189-219 | the start loop equals the first-window scan `FindRun` from start 1 |
| RunMatcher.ChooseRuns | backend/src/gameLogic.js:185-226 | the loop over lengths equals the run specification, or rejection |
| RunMatcher.ValidateRuns | backend/src/gameLogic.js:170-227 | `validateRuns` equals its specification `RunsVerdict` |
| RunMatcher.FillKeeps | backend/src/gameLogic.js:196-197 | a window's taken cards plus the cards still queued are the cards queued before, accepted or not |
| RunMatcher.FillValues | backend/src/gameLogic.js:194-207 | a window takes number cards within its values, strictly ascending |
| RunMatcher.FillCount | backend/src/gameLogic.js:194-209 | cards plus holes never exceed the slots, and fill them all exactly when a wild is left or every slot's queue has a card |
| RunMatcher.FillNoGaps | backend/src/gameLogic.js:200-205 | with no wild left a window counts no hole |
| RunMatcher.FillConsecutive | backend/src/gameLogic.js:194-207 | a window whose slots all got cards holds one card of each value in order |
| RunMatcher.FindRunFound | backend/src/gameLogic.js:189-219 | a found window starts between the scan start and `13 - length`, fills `length` slots, and takes only queued cards within it |
| RunMatcher.FindRunNoWilds | backend/src/gameLogic.js:189-219 | with no wild left a found window is exactly `length` consecutive-value cards from its start |
| RunMatcher.FillLeaves | backend/src/gameLogic.js:194-207 | a window without wilds leaves the queues before its start unchanged, and also every queue from the first empty one on, where its `break` stops it |
| RunMatcher.FindRunComplete | backend/src/gameLogic.js:189-219 | without wilds, if every queue of the values `s..s+length-1` holds a card, the scan from any start up to `s` finds a window starting no later than `s`; with `FindRunFound` the start found is the least such one |
| RunMatcher.FirstWindowWithWilds | backend/src/gameLogic.js:200-209 | with any wild left the very first window is accepted for every length 0..12 |
| RunMatcher.LostCardsWitness | backend/src/gameLogic.js:196-197 | a rejected window keeps the cards it shifted out of their queues |
| RunMatcher.RunsTooLong | backend/src/gameLogic.js:189 | a length above 12 has no start value, so the whole loop fails |
| RunMatcher.RunsNoDoubleUse | backend/src/gameLogic.js:194-215 | one group per length, and no card is used more often than the queues and wild list hold it |
| RunMatcher.RunsNoWilds | backend/src/gameLogic.js:185-223 | without wilds every group is a consecutive run of exactly its length |
| RunMatcher.RunsResult | backend/src/gameLogic.js:170-227 | on success: one group per length, using input cards at most once, and consecutive exact-length runs when there are no wilds |
| RunMatcher.RunsShape | backend/src/gameLogic.js:185-226 | all-or-nothing: rejection with no groups, or one group per length |
| RunMatcher.RunsMembers | backend/src/gameLogic.js:185-226 | every card in the groups of a successful `validateRuns` is one of its input cards |
| RunMatcher.HandRunAccepted | backend/src/gameLogic.js:170-227 | a wild-free hand holding a number card of every value `s..s+length-1` is accepted as a run of `length`: one group of `length` consecutive values starting no later than `s` |
| RunMatcher.RunsLongFails | backend/src/gameLogic.js:189-223 | any requested length above 12 rejects the call |
| RunMatcher.ShortRunWitness | backend/src/gameLogic.js:200-213 | one card of value 1 and one wild pass as a "run of four" of two cards |
| ColorMatcher.KeyIndex | backend/src/gameLogic.js:237-250 | the colour keys are ordered red, blue, green, yellow |
| ColorMatcher.GroupByColor | backend/src/gameLogic.js:237-250 | the grouping loop puts exactly each colour's number cards in its bucket, in order |
| ColorMatcher.OfColorMembers | backend/src/gameLogic.js:237-250 | a bucket holds exactly the input's number cards of that colour |
| ColorMatcher.LeaderFacts | backend/src/gameLogic.js:253-256 | the stable sort's first entry is the largest, and strictly larger than every earlier key |
| ColorMatcher.ValidateColor | backend/src/gameLogic.js:235-270 | `validateColor` equals its specification `ColorVerdict` |
| ColorMatcher.ChosenColorFacts | backend/src/gameLogic.js:253-256 | the chosen colour has the most number cards; every colour before it in key order has fewer |
| ColorMatcher.ChosenColorUnique | backend/src/gameLogic.js:253-256 | those two facts determine the chosen colour |
| ColorMatcher.ColorOk | backend/src/gameLogic.js:258-269 | success exactly when some colour's cards plus all wilds reach `count`; failure is the empty rejection |
| ColorMatcher.ColorGroupCards | backend/src/gameLogic.js:258-266 | on success one group of the chosen colour's cards and wilds, no card used twice |
| ColorMatcher.ColorGroupSize | backend/src/gameLogic.js:258-266 | when the colour has at most `count` cards the group has exactly `count` cards |
| ColorMatcher.ColorOverSupply | backend/src/gameLogic.js:260-261 | with more than `count` coloured cards, the negative slice keeps all but the last `n - count` wilds |
| Phases.FindRef | backend/src/gameLogic.js:291 | `findIndex(c => c === card)`: the first position holding that very card, or none |
| Phases.MarkUsed | backend/src/gameLogic.js:288-296 | the nested loop marks exactly the first occurrence of each set card |
| Phases.UsedByMembers | backend/src/gameLogic.js:288-296 | a position is marked exactly when its card is in a set group and no earlier position holds the same card |
| Phases.UnusedMembers | backend/src/gameLogic.js:298 | the filter keeps exactly the cards at unmarked positions |
| Phases.LeftForRunsFacts | backend/src/gameLogic.js:281-298 | with distinct card objects, the cards left for runs are the input cards no set group holds |
| Phases.ValidateMixed | backend/src/gameLogic.js:278-308 | `validateMixed` equals its specification `MixedVerdict` |
| Phases.MixedShape | backend/src/gameLogic.js:284-307 | fails with no groups when the sets or the runs fail; otherwise the set groups of the non-skip cards, then the run groups of the cards the sets left, one per requirement |
| Phases.LeftOnlyUnused | backend/src/gameLogic.js:290-298 | with distinct card objects, groups drawn from the cards left for runs hold only input cards no set group holds |
| Phases.MixedDisjoint | backend/src/gameLogic.js:284-307 | with distinct card objects, the run groups hold only input cards and share none with the set groups |
| Phases.ValidatePhase | backend/src/gameLogic.js:311-316 | `validatePhase` equals its specification `PhaseVerdict` |
| Phases.PhaseShape | backend/src/gameLogic.js:311-316 | indices outside 0..9 are rejected without validating; inside, all-or-nothing with as many groups as the phase asks |
| Phases.RequirementShape | backend/src/gameLogic.js:61-102 | every table entry is all-or-nothing and returns as many groups as it asks for |
| Rooms.IndexOf | backend/src/sockets.js:127 | `findIndex` by socket id: the first seat with that id, or none |
| Rooms.NextTurnFacts | backend/src/sockets.js:127-136 | the next seat is `(cur+1) mod n`, one more for a skip; with two players a skip returns the turn to the discarder |
| Rooms.CountPoints | backend/src/sockets.js:150-158 | the hand loop sums the card points |
| Rooms.HandPointsBounds | backend/src/sockets.js:150-158 | every card costs 1..25 points, so a hand is worth 0 exactly when empty |
| Rooms.Scored | backend/src/sockets.js:143-163 | scoring changes only scores |
| Rooms.ScoredFacts | backend/src/sockets.js:143-163 | the winner's score is unchanged; every other score rises by that hand's points, at least one per card |
| Rooms.ScoredUpTo | backend/src/sockets.js:143-163 | the loop's partial result keeps every seat's id, name and phase; only scores change |
| Rooms.ScoreAll | backend/src/sockets.js:143-163 | the scoring loop, on any seating, repeated ids included: each seat but the winner's adds its hand's points to the first seat `findIndex` finds for its id; with distinct ids that is `Scored` |
| Rooms.ScoredStep | backend/src/sockets.js:144-162 | visiting one seat adds that seat's hand points to the first seat with its id, unless it is the winner's, and changes nothing else |
| Rooms.ScoredDistinct | backend/src/sockets.js:143-163 | with distinct socket ids the loop's result is `Scored`: every seat but the winner's gains its own hand's points once |
| Rooms.DuplicateSeatScoredTwice | backend/src/sockets.js:143-163 | a socket seated twice that did not win: its first seat gains its points twice and its second seat nothing, where `Scored` gives each seat the points once |
| Rooms.RemoveSelected | backend/src/sockets.js:208-215 | the removal loop leaves the hand `RemoveMatches` describes |
| Rooms.RemoveMatchesSize | backend/src/sockets.js:208-215 | the layPhase removal loop removes at most one card per selected card and adds none |
| Rooms.RemoveMatchesFaces | backend/src/sockets.js:208-215 | when the hand holds every selected face, exactly one card of each selected face leaves |
| Rooms.CompletedPlayers | backend/src/sockets.js:265-270 | the nested loops collect exactly the players with a laid entry |
| Rooms.Advanced | backend/src/sockets.js:273-288 | the player map changes only phase indices |
| Rooms.AdvancedFacts | backend/src/sockets.js:273-288 | a player who laid moves one phase on (10th back to 1st); the others keep theirs; phases stay in 0..9 |
| Rooms.DrawKeepsPool | backend/src/sockets.js:89-91 | drawing moves the top card of the deck to the hand; no card is lost or made |
| Rooms.DrawDiscardKeepsPool | backend/src/sockets.js:102-104 | drawing from the discard pile keeps every card in the game |
| Rooms.DiscardKeepsPool | backend/src/sockets.js:122-124 | discarding moves a hand card to the top of the discard pile; no card is lost or made |
| Rooms.HeldBySameIds | backend/src/sockets.js:161-162 | updating scores does not change who holds which hand |
| Rooms.AdvancedSeated | backend/src/sockets.js:273-312 | after advancing, the roster is intact and the first seat holds the turn |
| Rooms.Room.constructor | backend/src/sockets.js:51-80 | `startGame`: the dealt hands and remaining deck are installed, the starter loop turns a first discard that is neither wild nor skip and the other cards stay in the deck, the first seat has the turn, nothing is drawn or laid, the round number is 0, and the room invariant holds |
| Rooms.Room.DrawCard | backend/src/sockets.js:85-95 | only the current player who has not drawn, with a non-empty deck, moves the deck's top card to the end of their hand and sets `hasDrawn`; otherwise nothing changes |
| Rooms.Room.DrawDiscard | backend/src/sockets.js:98-108 | the same from the discard pile |
| Rooms.Room.Discard | backend/src/sockets.js:111-189 | with turn, draw and a matching card: the first match goes on top of the discard pile, the turn passes (skipping one seat for a skip), `hasDrawn` resets, and an emptied hand scores the round; otherwise nothing changes |
| Rooms.Room.PlayCard | backend/src/sockets.js:122-136 | the chosen card leaves the hand for the top of the discard pile, and the turn passes to `NextTurn` |
| Rooms.Room.ScoreRound | backend/src/sockets.js:139-166 | in a seated room (distinct ids) players become `Scored`; nothing else changes |
| Rooms.Room.LayPhase | backend/src/sockets.js:192-222 | succeeds exactly when the caller holds the turn, has drawn and `validatePhase` accepts; then one matching card per selected card leaves and the groups are recorded under phase and caller; otherwise hand and laid are unchanged |
| Rooms.Room.HitPhase | backend/src/sockets.js:225-253 | without a laid target, the turn, a draw or a matching card nothing changes; a rejected hit leaves the hand as it was; an accepted hit appends the card to the group; an accepted hit on a missing group drops the card |
| Rooms.Room.Hit | backend/src/sockets.js:238-250 | the card is offered to the group: put back on rejection, appended on acceptance |
| Rooms.StarterFacts | backend/src/sockets.js:297-308 | the starter is never a wild or a skip, the deck keeps every other card, and a plain top card is taken at once |
| Rooms.StarterStep | backend/src/sockets.js:299-306 | one turn of the loop puts a rejected top card back into the rest of the deck |
| Rooms.DrawStarter | backend/src/sockets.js:297-306 | the loop turns up the starter the re-insertion positions determine |
| Rooms.Room.StartNextRound | backend/src/sockets.js:257-316 | the round number goes up, players who laid advance, the new deal replaces the hands, the starter loop turns a first discard that is neither wild nor skip and the other cards stay in the deck, nothing is laid, `hasDrawn` is false and the first seat has the turn |
| LayPhaseModal.GroupsPerRequirement | frontend/src/components/LayPhaseModal.jsx:47-94 | for every phase index the dialog opens one empty group per requirement label |
| LayPhaseModal.LabelsMatchServer | frontend/src/components/LayPhaseModal.jsx:80-94 | for phases 0..9 the labels agree with the server's phase table, group by group, in kind and length |
| LayPhaseModal.UnknownLabel | frontend/src/components/LayPhaseModal.jsx:92 | any other phase shows the single label "Unknown", which has no number |
| LayPhaseModal.CountLabelReads | frontend/src/components/LayPhaseModal.jsx:203 | "Set of n" / "Run of n" reads back as its rule and `n` |
| LayPhaseModal.ColorLabelReads | frontend/src/components/LayPhaseModal.jsx:188 | the colour label reads as a colour group of 7 |
| LayPhaseModal.OneToTwelve | frontend/src/components/LayPhaseModal.jsx:155 | `Array.from({length: 12}, …)` is 1..12 |
| LayPhaseModal.NumberCardsMembers | frontend/src/components/LayPhaseModal.jsx:145 | only the group's number cards are considered |
| LayPhaseModal.SortIntsFacts | frontend/src/components/LayPhaseModal.jsx:166 | the numeric sort is ascending and a permutation |
| LayPhaseModal.InsertStrict | frontend/src/components/LayPhaseModal.jsx:184 | inserting a new value into a strictly ascending list keeps it strictly ascending |
| LayPhaseModal.SortStrict | frontend/src/components/LayPhaseModal.jsx:184 | sorting values none of which repeats gives a strictly ascending list |
| LayPhaseModal.ConcatNoRepeats | frontend/src/components/LayPhaseModal.jsx:169-184 | two repeat-free lists with no value in common concatenate to a repeat-free one |
| LayPhaseModal.SortedEnds | frontend/src/components/LayPhaseModal.jsx:166-168 | `values[0]` and `values[last]` are the minimum and maximum |
| LayPhaseModal.GapValues | frontend/src/components/LayPhaseModal.jsx:176-182 | the gap loop yields exactly the values strictly inside the run that are missing from it, in strictly ascending order |
| LayPhaseModal.RunOptions | frontend/src/components/LayPhaseModal.jsx:165-184 | strictly ascending options, each once: `min-1` if `min > 1`, `max+1` if `max < 12`, and every missing value inside |
| LayPhaseModal.WildOptions | frontend/src/components/LayPhaseModal.jsx:144-194 | set: the first number card's value, or 1..12; run: 1..12 when empty, else the run options, strictly ascending; colour: none; otherwise 1..12 |
| LayPhaseModal.OptionsStayNearRun | frontend/src/components/LayPhaseModal.jsx:171-182 | over card values every run option lies in 1..12 and is not already in the run |
| LayPhaseModal.IsPhaseComplete | frontend/src/components/LayPhaseModal.jsx:197-217 | the loop with its early returns equals the check `CompleteFrom` |
| LayPhaseModal.CompleteFromMeaning | frontend/src/components/LayPhaseModal.jsx:197-217 | true exactly when every group has its label's length and, outside colour groups, every wild is assigned; it fails only on a label with no number |
| LayPhaseModal.CompleteForTable | frontend/src/components/LayPhaseModal.jsx:197-217 | with the dialog's own labels the check never fails for phases 0..9, and fails for any other phase |
| LayPhaseModal.StampAll | frontend/src/components/LayPhaseModal.jsx:222-230 | the map stamps each card independently |
| LayPhaseModal.SubmissionFacts | frontend/src/components/LayPhaseModal.jsx:222-230 | the submission lists the grouped cards in order; exactly the assigned wilds change, only in their assigned value, so each card still matches the same hand cards |
| LayPhaseModal.RemainingHandFacts | frontend/src/components/LayPhaseModal.jsx:237-240 | the remaining hand keeps exactly the cards whose id no placed card shares, in hand order |
| LayPhaseModal.PlacingIdlessHidesAll | frontend/src/components/LayPhaseModal.jsx:237-240 | placing an id-less card hides every id-less card of the hand |
| GameBoard.OnDragEnd | frontend/src/components/GameBoard.jsx:73-87 | no destination or the same spot: no change; otherwise a permutation with the source card at the destination and the other cards in order |
| GameBoard.MoveDetermined | frontend/src/components/GameBoard.jsx:83-86 | the moved card's position and the rest determine the new order |
| GameBoard.MoveShifts | frontend/src/components/GameBoard.jsx:83-86 | cards between source and destination shift one place towards the source; the others stay put |
| GameBoard.ReconcileFirst | frontend/src/components/GameBoard.jsx:33-40 | no hand: nothing changes; first hand: the order is the hand as dealt |
| GameBoard.ReconcileFacts | frontend/src/components/GameBoard.jsx:43-62 | every arranged card shows a face of the hand, every face is shown, old cards come first in their old order, and the selection clears |
| GameBoard.StillHeldMembers | frontend/src/components/GameBoard.jsx:52-58 | the kept cards are exactly the arranged cards whose face the hand still has |
| GameBoard.NewCardsMembers | frontend/src/components/GameBoard.jsx:43-49 | the added cards are exactly the hand cards whose face was not arranged |
| GameBoard.StillHeldAppend | frontend/src/components/GameBoard.jsx:52-58 | the kept cards keep their relative order |
| GameBoard.DrawnDuplicateDropped | frontend/src/components/GameBoard.jsx:43-61 | a drawn card whose face is already shown is not added |
| GameBoard.ToggleFacts | frontend/src/components/GameBoard.jsx:175-181 | without turn and draw nothing changes; otherwise the clicked index flips and no other index changes |
| GameBoard.ToggleTwice | frontend/src/components/GameBoard.jsx:177-180 | clicking an unselected index twice restores the selection |
| GameBoard.ToggleNoDuplicates | frontend/src/components/GameBoard.jsx:177-180 | a selection never holds an index twice |
| Scoreboard.CompareMeaning | frontend/src/components/Scoreboard.jsx:6-10 | the comparator keeps `a` ahead exactly when `a` has a higher phase, or the same phase and no higher score; it is antisymmetric |
| Scoreboard.SortPlayers | frontend/src/components/Scoreboard.jsx:5 | the sorted copy is a permutation of the players |
| Scoreboard.SortRanked | frontend/src/components/Scoreboard.jsx:5-10 | the result is ranked: higher phases first, lower scores first within a phase |
| Scoreboard.SortStable | frontend/src/components/Scoreboard.jsx:5 | players tied on phase and score keep the room's order |
| Scoreboard.SortOrder | frontend/src/components/Scoreboard.jsx:6-9 | row by row, a later row never has a higher phase, or at the same phase a lower score |
| Scoreboard.SortIsTheRanking | frontend/src/components/Scoreboard.jsx:5-10 | any ranked list that keeps tied players in room order is exactly the scoreboard's list |
| Scoreboard.DisplayedPhase | frontend/src/components/Scoreboard.jsx:32 | phase index `p` is displayed as `p + 1`, which is at least 1 exactly when `p` is not negative |
| Scoreboard.DisplayedPhases | frontend/src/components/Scoreboard.jsx:24-32 | displayed phases never rise down the board and lie in 1..10 for room phases |
| CardImages.Capitalize | frontend/src/utils/cardImages.js:25-30 | same length; the first character is upper-cased and the rest unchanged; empty stays empty |
| CardImages.CapitalizeTwice | frontend/src/utils/cardImages.js:25-30 | capitalizing is idempotent |
| CardImages.ImageNameRoundTrip | frontend/src/utils/cardImages.js:10-19 | the picture name reads back from the path |
| CardImages.NoImage | frontend/src/utils/cardImages.js:8-22 | the URL is empty exactly for an unknown type, or a number card missing colour or value |
| CardImages.Record | frontend/src/utils/cardImages.js:8 | a server card is sent with type "number" exactly when it is a number card, with its value |
| CardImages.ImageOfCard | frontend/src/utils/cardImages.js:8-20 | each card's picture shows its colour initial and value, or the wild/skip picture |
| CardImages.SamePictureSameFace | frontend/src/utils/cardImages.js:8-20 | two cards get the same picture exactly when they show the same face |
| CardImages.EveryCardHasImage | frontend/src/utils/cardImages.js:8-20 | every server card has a picture |
| Text.DecimalRoundTrip | frontend/src/utils/cardImages.js:10 | the decimal text of a value reads back as that value |
| Text.FirstNumberOf | frontend/src/components/LayPhaseModal.jsx:203 | `match(/\d+/)` with `parseInt` finds the number after a digit-free prefix |

## Left out

- The shuffle (`shuffle`) and the random reinsertion of rejected starter
  cards depend on `Math.random`. `Rooms.Room.StartNextRound` and
  `Rooms.Room.constructor` therefore take the new hands, the dealt deck and the re-insertion positions as
  parameters. A position is reduced into the deck as
  `Math.floor(Math.random() * deck.length)` would place it.
- Rooms.Room.StartNextRound: requires the starter loop to turn a plain card
  within the given positions, and `Rooms.Room.constructor` requires the
  same. The source throws on an empty deck and loops forever on a deck of
  only wilds and skips; `Rooms.Starter` gives `None` for both.
- `createRoom` and `joinRoom` are not modelled. `Rooms.Room.constructor`
  models `startGame` on the joined players. It sets the round number to
  the 0 that `createRoom` gives it, so `startGame` sent again in a running
  game is not modelled.
- Rooms.Room.constructor, Rooms.ScoreAll: the room invariant `Valid()`
  requires distinct socket ids and a hand for every player. The source
  guarantees neither, and two kinds of room fall outside the invariant.
  - A socket seated twice. `joinRoom` pushes a player without checking
    the socket's id, so this follows from a double Join or from Create then
    Join on one socket. `startGame` deals such a room anyway: `deal` keeps
    the later of the id's two hands (`Deck.Deal`). The round-end loop then
    adds that socket's points twice to its first seat and nothing to its
    second. `Rooms.ScoreAll` models that loop for any seating
    (`Rooms.DuplicateSeatScoredTwice`). The `Rooms.Room` methods, including
    the constructor, do not model this room.
  - A player who joins after `startGame`. That player has no hand. The
    round-end scoring then throws on `hand.forEach`, and `drawCard` throws
    once the turn reaches them. `Rooms.ScoreAll` and every `Rooms.Room`
    method require a hand for each player.
- Socket.IO wiring, `emit` calls, error messages, logging, the `roundEnd`
  payload and the Express server bootstrap are transport and I/O.
- The global `rooms` registry is left out. Each handler is a method on the
  room it acts on, and a missing room is not modelled.
- `validateHit` is not part of this model. `sockets.js` imports it at line
  8, but `gameLogic.js` never defines or exports it, so the backend as
  written fails to load as an ES module. `Rooms.Room.HitPhase` therefore
  takes it as an uninterpreted predicate parameter.
- React rendering, state hooks and styling are left out. So are the
  display-only components and the `PHASE_DESCRIPTIONS` strings.
- `handleCardSelect`, `handlePlaceCard`, `handleRemoveCard` and
  `handleWildAssignment` only set React state. The model takes the groups
  and the wild assignments they produce as inputs.
- Card values are limited to 1..12. `Object.entries` key order is therefore
  only modelled for those integer keys.
- Deck.Deal: the source splices the deck in place and returns that same
  array. The model returns the remaining deck as a new value.
- `validateColor` is modelled on the four colours of the deck. A card with
  another colour string cannot occur.
- CardImages.Capitalize: upper-casing is ASCII only. `capitalize` on a
  non-string returns `''`, and that case is not expressible because the
  colour of a `CardRecord` is a string.
- Scoreboard.DisplayedPhase: a missing `phaseIndex` (the `|| 0` default) is
  not modelled, because the server always sets it.
- LayPhaseModal.WildOptions: reading a label for a group index past the
  label list (JavaScript would throw) is not modelled; the label is a
  parameter.
- `startNextRound` deals with `count` 10 through `Deck.Deal`, outside the
  method. The method receives the dealt hands and deck. `startGame`'s
  shuffle and deal of a fresh deck happen outside the constructor in the
  same way.
- Conservation of cards (the "pool" of deck, discard pile and hands) is
  stated for the draw and discard handlers as separate lemmas. The room
  methods' own postconditions do not state it.
- The frontend `id` property is `None` for every server card, as the server
  never sets one.
