# card-slot: the card and board layer in Dafny

card-slot is a browser card game played on a 3x3 board. Its data layer has six
parts, each modelled here as immutable values and pure functions (or short
methods with loops) with proved contracts:

- **cards**: the six symbols (GOLD_7, SILVER_3, CHERRY, WATERMELON, BELL,
  REPLAY), their catalog of counts and scores, and a global id counter.
- **deck**: the 63-card deck with its Fisher-Yates shuffle.
- **hand**: a player's hand, re-sorted by symbol after every addition.
- **discard pile**.
- **player**.
- **board**: nine slots numbered 1 to 9, slot 9 the centre.

On top of these sits the easy computer player. It chooses which card to play, which slot to fill,
which completed line to resolve, which card a CHERRY takes and which slot to
clear on a full board.

Layout, one module per source file:

| file | module | models |
|---|---|---|
| wrappers.dfy | `Wrappers` | `Option`, `Result`, `Outcome` and the thrown errors |
| js.dfy | `Js` | the array built-ins the code relies on (`filter`, `indexOf`, `splice`, `Array.isArray`) and `Math.floor(Math.random() * n)` |
| cards.dfy | `Cards` | js/card.js |
| deck.dfy | `Decks` | js/deck.js |
| hand.dfy | `Hands` | js/hand.js |
| discard_pile.dfy | `DiscardPiles` | js/discardPile.js |
| player.dfy | `Players` | js/player.js |
| board.dfy | `Boards` | js/board.js, plus the board queries the computer player calls |
| cpu_ai.dfy | `CpuAI` | js/cpuAI.js |

Conventions:

- JavaScript `null` and `undefined` are `None`. The one exception is the name passed to `new Hand(...)`: there `None` is an omitted name, and an explicit `null` is not modelled.
- A thrown `Error` is a `Failure` carrying an `Error` value.
- An argument that may fail `Array.isArray` is an `ArrayArg`.
- Mutating methods return the new object.
- The card id counter (`cardIdCounter`) is passed in and handed back.
- Each `Math.random()` result is a parameter `u` of type `Random`, a real in [0, 1). A loop that calls it repeatedly takes `rand: nat -> Random`, the draw for each call. So every property holds for every outcome of the random draws.
- `board.getCompletedLines()` is defined in no file under js/, so it is the parameter `completedLines`.

## Model

| member | source | states |
|---|---|---|
| Js.PickIndex | js/cpuAI.js:16 | `Math.floor(u * n)` for a draw `u` in [0, 1) is an index below `n`, and the floor of `u * n` |
| Js.PickIndexReaches | js/deck.js:29 | every index below `n` is the result of some draw |
| Js.Filter | js/hand.js:91 | `filter` keeps exactly the elements the test accepts, and no more than were there |
| Js.FilterConcat | js/hand.js:91 | filtering a concatenation filters each part |
| Js.Compact | js/discardPile.js:34-38 | collecting the non-null elements keeps exactly the values that were present |
| Js.CompactConcat | js/discardPile.js:34-38 | collecting from a concatenation collects from each part |
| Js.IndexOf | js/cpuAI.js:232 | `indexOf` is -1 exactly when the value is absent, and otherwise the first position holding it |
| Js.RemoveAt | js/cpuAI.js:233 | `splice(i, 1)` removes exactly element `i` and keeps the others in order |
| Cards.LookupSymbol | js/card.js:6-13 | a name is a `SYMBOLS` key exactly when it is one of the six symbol names |
| Cards.LookupSymbolName | js/card.js:6-13 | each symbol's name looks up that symbol, and `RAINBOW_7` is not a key |
| Cards.OrderedSymbolsListEachOnce | js/card.js:16-23 | `ORDERED_SYMBOLS` lists each of the six symbols exactly once |
| Cards.Ord | js/card.js:16-23 | every symbol has a position in `ORDERED_SYMBOLS` |
| Cards.CatalogCounts | js/card.js:26-69 | the counts are 8, 5, 8, 8, 21 and 13, which sum to 63 |
| Cards.CatalogScores | js/card.js:27-68 | the scores are -1, -1, 2, 2, 1 and 0 in symbol order |
| Cards.CatalogEntry | js/card.js:26-69 | each symbol's `CARD_DEFINITIONS` entry is keyed by that symbol and puts at least one copy of it in the deck |
| Cards.Card.Definition | js/card.js:86 | a card's `definition` is the catalog entry of the card's own symbol |
| Cards.Card.Score | js/card.js:93-95 | a card's `score` is between -1 and 2 |
| Cards.GetCardDefinition | js/card.js:72-74 | the entry for a known symbol name, `null` for any other name |
| Cards.NewCard | js/card.js:77-87 | construction throws exactly for an unknown symbol; otherwise the card gets the counter's value as id and the counter advances by one |
| Cards.SuccessiveCardsHaveIncreasingIds | js/card.js:77-85 | two cards made one after the other have increasing, hence distinct, ids |
| Cards.CardFollowsCatalog | js/card.js:86-95 | a card's definition is its symbol's catalog entry, and its score is the catalog score |
| Cards.OfSymbol | js/hand.js:91 | the cards of one symbol are exactly the held cards with that symbol |
| Cards.OfSymbolConcat | js/hand.js:91 | selecting by symbol from a concatenation selects from each part, in order |
| Cards.OfSymbolNone | js/hand.js:91 | nothing is selected when no card has the symbol |
| Cards.CountOfConcat | js/hand.js:95-97 | per-symbol counts and the score add up across a concatenation |
| Cards.ScoreOfConcat | js/hand.js:110-112 | the `reduce` sum over a concatenation is the sum over the parts |
| Cards.ScoreOfBounds | js/hand.js:110-112 | a list of cards scores between -1 and 2 points per card |
| Cards.CountWithout | js/hand.js:59-64 | taking out the card at an index lowers exactly its symbol's count by one, and the score by its score |
| Cards.CountsSumToSize | js/hand.js:95-97 | the per-symbol counts of a list of cards sum to its length |
| Cards.ScoreByCounts | js/hand.js:110-112 | the total score is the sum over symbols of count times catalog score |
| Cards.PermutationKeepsCounts | js/hand.js:125-129 | reordering cards changes neither any symbol's count nor the total score |
| Cards.Tally | js/hand.js:100-107 | the tally has a key exactly for each symbol present, and that key holds the symbol's count |
| Cards.TallySumsToSize | js/hand.js:100-107 | the tallied counts sum to the number of cards |
| Decks.MintCopies | js/deck.js:20-22 | `count` new cards of one symbol with consecutive ids |
| Decks.BuildFullDeck | js/deck.js:13-25 | 63 cards; each symbol's count is the catalog count; the symbols come in contiguous blocks in `ORDERED_SYMBOLS` order; the ids are consecutive |
| Decks.ShuffleInPlace | js/deck.js:27-33 | for any draws, the result is a permutation of the input with the same length, and distinct elements stay distinct |
| Decks.AppendSymbolBlock | js/deck.js:15-23 | one pass of the `forEach` appends the next symbol's catalog count of cards, keeping the partial deck in catalog order with consecutive ids |
| Decks.PermutationKeepsIds | js/deck.js:40-44 | a rearrangement of consecutively numbered cards keeps every id in range and all ids distinct |
| Decks.NewDeck | js/deck.js:36-38 | the constructor keeps a copy of an array argument and is empty for anything else |
| Decks.Size | js/deck.js:46-48 | `size` is the number of cards, which is the sum of the per-symbol counts |
| Decks.IsEmpty | js/deck.js:46-52 | `isEmpty()` holds exactly when `size` is 0 |
| Decks.Draw | js/deck.js:54-59 | nothing and an unchanged deck when empty; otherwise the first card, with the rest left in order and one card fewer |
| Decks.DrawManyStep | js/deck.js:54-59 | one more `draw()` on an empty deck takes nothing; on any other deck it takes the front card, and the later draws come from the remaining cards |
| Decks.DrawingEverythingYieldsTheDeck | js/deck.js:54-59 | drawing at least `size` times yields the cards in deck order and leaves the deck empty |
| Decks.Shuffle | js/deck.js:61-63 | shuffling keeps the size, the multiset of cards, every symbol's count and the total score |
| Decks.GetAllCards | js/deck.js:66-68 | the copy holds the deck's cards; a deck built from it equals the deck |
| Decks.CreateShuffledFullDeck | js/deck.js:40-44 | 63 cards with the catalog counts and pairwise distinct ids, all taken from the counter's range |
| Hands.NewHand | js/hand.js:14-17 | an empty hand, named "Player" when the name is omitted |
| Hands.Size | js/hand.js:67-69 | `size` is the number of held cards, which is the sum of the per-symbol counts |
| Hands.IsEmpty | js/hand.js:72-74 | `isEmpty()` holds exactly when `size` is 0 |
| Hands.RankIsSymbolOrderIndex | js/hand.js:116-128 | each symbol's sort key is its `symbolOrder.indexOf`, which is -1 for GOLD_7 because that entry is `undefined` |
| Hands.SymbolOrderEntries | js/hand.js:116-123 | the `symbolOrder` lookups give `undefined` followed by SILVER_3, CHERRY, WATERMELON, BELL, REPLAY |
| Hands.RankFollowsCatalogOrder | js/hand.js:116-123 | the key orders the symbols as `ORDERED_SYMBOLS` does and separates all six |
| Hands.Insert | js/hand.js:125-129 | one step of the sort adds the card to the list and nothing else |
| Hands.InsertSorted | js/hand.js:125-129 | inserting into a list sorted by key keeps it sorted |
| Hands.SortCards | js/hand.js:125-129 | the sort returns a permutation of its input, ordered by non-decreasing key |
| Hands.SortKeepsSymbolOrder | js/hand.js:125-129 | the sort is stable: the cards of each symbol keep their relative order |
| Hands.SortSortedIsIdentity | js/hand.js:125-129 | sorting a sorted hand changes nothing |
| Hands.SortedMeansCatalogOrder | js/hand.js:116-129 | a sorted hand follows `ORDERED_SYMBOLS` order, with GOLD_7 cards first |
| Hands.SortBySymbol | js/hand.js:115-130 | `sortBySymbol()` keeps the name and the multiset of cards and leaves them sorted by key |
| Hands.SortingKeepsTotals | js/hand.js:95-130 | sorting leaves the score, every symbol's count and every symbol's cards unchanged |
| Hands.AddCard | js/hand.js:20-26 | `addCard(null)` changes nothing; otherwise the hand gains exactly that card and is sorted |
| Hands.AddCards | js/hand.js:29-39 | a non-array changes nothing; otherwise the hand gains exactly the non-null elements and is sorted |
| Hands.AddCardsKeepsArrivalOrder | js/hand.js:33-38 | within each symbol, the added cards follow the held ones in array order |
| Hands.FindById | js/hand.js:51 | `findIndex` by id is -1 when no card has the id, and otherwise the first card that has it |
| Hands.HasCard | js/hand.js:42-47 | false for `null`; otherwise true exactly when some held card has the same id |
| Hands.RemoveCard | js/hand.js:50-56 | `null` returns `null` on an empty hand and throws on any other; an id not held returns `null` with the hand unchanged; otherwise exactly the first card with the id is removed, the rest keeping their order, so a sorted hand stays sorted |
| Hands.RemoveCardByIndex | js/hand.js:59-64 | an index outside [0, size) returns `null` with the hand unchanged; otherwise that card is removed and the rest keep their order, so a sorted hand stays sorted |
| Hands.RemoveKeepsSorted | js/hand.js:50-64 | taking any one card out of a list sorted by key leaves it sorted |
| Hands.GetCard | js/hand.js:77-82 | `null` exactly for an index outside [0, size), otherwise the card at that index |
| Hands.AddThenRemove | js/hand.js:20-56 | adding a card whose id is not held and then removing it gives the card back and the original sorted hand |
| Hands.InsertThenFind | js/hand.js:50-56 | after one sort step adds a card with a fresh id, lookup by that id finds it, and removing it restores the list |
| Hands.GetAllCards | js/hand.js:85-87 | the copy holds the hand's cards |
| Hands.FindCardsBySymbol | js/hand.js:90-92 | exactly the held cards of that symbol |
| Hands.CountBySymbol | js/hand.js:95-97 | at most the hand size, and 0 exactly when no held card has the symbol |
| Hands.CountAllSymbols | js/hand.js:100-107 | a key for each symbol present, holding its `countBySymbol` |
| Hands.HandTotals | js/hand.js:95-112 | the counts sum to `size`, and `calculateScore` is the count-weighted sum of catalog scores |
| Hands.CalculateScore | js/hand.js:110-112 | `calculateScore()` is between -1 and 2 points per held card, and 0 for an empty hand |
| Hands.Clear | js/hand.js:138-140 | an empty hand with the same name |
| Hands.Clone | js/hand.js:143-147 | the clone has the same name and cards |
| DiscardPiles.NewDiscardPile | js/discardPile.js:12-14 | a new pile is empty |
| DiscardPiles.Add | js/discardPile.js:17-22 | `add(null)` changes nothing; otherwise the card goes on top and everything below stays |
| DiscardPiles.AddCard | js/discardPile.js:25-27 | `addCard` is `add` |
| DiscardPiles.AddMultiple | js/discardPile.js:30-39 | a non-array changes nothing; otherwise the non-null elements go on top in their order |
| DiscardPiles.AddMultipleIsRepeatedAdd | js/discardPile.js:30-39 | `addMultiple` is `add` applied to each element in turn |
| DiscardPiles.IsEmpty | js/discardPile.js:42-49 | `isEmpty()` holds exactly when `size` is 0 |
| DiscardPiles.Size | js/discardPile.js:42-44 | `size` is the number of cards, which is the sum of the per-symbol counts |
| DiscardPiles.GetTopCard | js/discardPile.js:52-57 | `null` exactly for an empty pile, otherwise the most recently added card |
| DiscardPiles.GetAllCards | js/discardPile.js:60-62 | the copy holds the pile's cards |
| DiscardPiles.Clear | js/discardPile.js:65-67 | the pile is empty afterwards |
| DiscardPiles.CountBySymbol | js/discardPile.js:70-77 | a key for each symbol present, holding its count |
| DiscardPiles.DiscardRaisesItsCount | js/discardPile.js:17-22 | discarding a card raises its own symbol's count by one and no other |
| DiscardPiles.CountsSumToPileSize | js/discardPile.js:70-77 | the counts sum to `size` |
| Players.NewPlayer | js/player.js:12-16 | a new player has the name, no hand, and is active |
| Players.Eliminate | js/player.js:19-21 | afterwards the player is not active; name and hand are unchanged |
| Players.EliminateIsIdempotent | js/player.js:19-26 | eliminating twice is eliminating once |
| Players.IsActive | js/player.js:24-26 | active exactly when not eliminated |
| Players.HasEmptyHand | js/player.js:29-31 | falsy without a hand, the hand's `isEmpty()` otherwise |
| Players.GetHandSize | js/player.js:34-36 | 0 without a hand, the hand's size otherwise |
| Players.GetScore | js/player.js:39-41 | 0 without a hand, the hand's `calculateScore()` otherwise |
| Players.EmptyHandMeansSizeZero | js/player.js:29-36 | a player has an empty hand exactly when a hand is dealt and its size is 0 |
| Players.EliminateKeepsHand | js/player.js:19-41 | elimination leaves hand size, score and emptiness unchanged |
| Boards.NewBoard | js/board.js:4-9 | slots 1 to 9 exist and are all empty |
| Boards.PositionsCoverBoard | js/board.js:4-9 | the positions of the board are exactly 1 to 9, listed in increasing order |
| Boards.AssertValidPosition | js/board.js:11-15 | passes exactly for 1 to 9 and throws otherwise |
| Boards.IsEmpty | js/board.js:17-20 | throws for an invalid position; otherwise true exactly when the slot is `null` |
| Boards.GetCard | js/board.js:22-25 | throws for an invalid position; otherwise returns the slot's content |
| Boards.PlaceCard | js/board.js:27-36 | fails first on an invalid position, then on a null card, then on an occupied slot; succeeds in every other case and changes only that slot |
| Boards.RemoveCard | js/board.js:38-43 | throws for an invalid position; otherwise returns the prior occupant, possibly `null`, and empties only that slot |
| Boards.GetBoard | js/board.js:45-47 | the copy has keys 1 to 9, each holding what `getCard` reports |
| Boards.PlaceThenRemove | js/board.js:27-43 | placing on an empty slot and removing again returns the card and the original board |
| Boards.RemoveThenPlace | js/board.js:27-43 | removing a card and placing it back restores the board |
| Boards.EmptySlots | js/cpuAI.js:153 | `getEmptySlots()` lists exactly the empty positions, in increasing order |
| CpuAI.RandomChoice | js/cpuAI.js:14-18 | `null` exactly for a missing or empty array, otherwise an element of it |
| CpuAI.RandomChoiceReachesEvery | js/cpuAI.js:14-18 | every element of a non-empty array is chosen for some draw |
| CpuAI.PreferredAsWrittenExcludesOnlySilver3 | js/cpuAI.js:56-58 | the card filter as written rejects only SILVER_3, because `SYMBOLS.RAINBOW_7` is `undefined` |
| CpuAI.SelectCardToPlay | js/cpuAI.js:42-80 | `null` exactly for an empty hand; the sole card of a one-card hand; otherwise a hand card, and one the as-written filter accepts whenever the hand has one |
| CpuAI.ChoiceCoversPreferredAsWritten | js/cpuAI.js:54-79 | as written, every card of the hand that the filter accepts is chosen for some draw |
| CpuAI.SelectCardIgnoresPhase | js/cpuAI.js:54-79 | as written, the first-turn branch and the normal branch choose identically |
| CpuAI.FirstTurnMayPickGold7 | js/cpuAI.js:54-63 | on the first turn the as-written filter can hand GOLD_7 to the centre slot |
| CpuAI.SelectCardToPlayIntended | js/cpuAI.js:34-80 | with GOLD_7 and SILVER_3 both excluded: `null` for an empty hand, the sole card, otherwise a preferred card whenever the hand has one |
| CpuAI.IntendedChoiceCoversPreferred | js/cpuAI.js:54-79 | under the intended filter, every preferred card of the hand is chosen for some draw |
| CpuAI.CompletingAmong | js/cpuAI.js:85-104 | the reference list: exactly the slots on which the card completes a line |
| CpuAI.FindLineCompletingSlots | js/cpuAI.js:85-104 | leaves the board as it was; succeeds exactly when every trial placement succeeds, and then lists exactly the line-completing slots of `emptySlots`; otherwise fails with the first failing placement's error |
| CpuAI.EightLines | js/cpuAI.js:111-120 | there are eight lines |
| CpuAI.LinesAreTriples | js/cpuAI.js:112-119 | each line is three distinct valid positions |
| CpuAI.CardsAt | js/cpuAI.js:124 | the cards at the given slots, slot by slot |
| CpuAI.LineParts | js/cpuAI.js:124-125 | a line's non-null cards and its empty slots, slot by slot |
| CpuAI.LineThreat | js/cpuAI.js:123-138 | the test on one line names, if any slot, an empty slot of that line |
| CpuAI.ThreatOfTriple | js/cpuAI.js:127-137 | the two-cards-one-empty test reports a slot exactly when it is the one empty slot and the other two cards share a symbol |
| CpuAI.LineThreatFindsBlockingSlot | js/cpuAI.js:123-138 | the test on a line reports exactly the slot that blocks it |
| CpuAI.FindOpponentBlockingSlots | js/cpuAI.js:110-142 | no duplicates, and exactly the slots of `emptySlots` that block one of the eight lines |
| CpuAI.SelectSlotForCard | js/cpuAI.js:152-188 | 9 on the first turn; `null` on a full board; a missing card throws; otherwise an empty slot, which completes a line when any can; failing that 9 if empty; failing that a blocking slot when one exists |
| CpuAI.SelectLineToResolve | js/cpuAI.js:194-204 | `null` for none, the only line when there is one, otherwise one of the lines |
| CpuAI.SelectLineIsRandomChoice | js/cpuAI.js:194-204 | the special case for a single line agrees with `randomChoice` |
| CpuAI.PickDistinct | js/cpuAI.js:222-236 | the loop takes `min(count, available)` picks, all from the available slots, each pick removed before the next |
| CpuAI.SelectCardsForCherry | js/cpuAI.js:210-237 | nothing for a missing or empty list; otherwise one slot when `maxCards >= 1` and none when not, taken from the list and without repeats |
| CpuAI.CherryReachesEvery | js/cpuAI.js:210-237 | when a card may be taken, every selectable slot is the selection for some draws |
| CpuAI.SelectSlotToDiscard | js/cpuAI.js:243-255 | `null` exactly when slots 1 to 8 are all empty, otherwise an occupied slot among 1 to 8 (never 9) |
| CpuAI.NonCenterSlotsCover | js/cpuAI.js:247 | the literal `[1, 2, 3, 4, 5, 6, 7, 8]` lists exactly the positions 1 to 8 |
| CpuAI.OccupiedNonCenter | js/cpuAI.js:247 | the filter keeps exactly the occupied positions among 1 to 8 |
| CpuAI.DiscardReachesEvery | js/cpuAI.js:243-255 | every occupied slot among 1 to 8 is chosen for some draw |

## Left out

- js/main.js (DOM caching, event listeners, UI stubs) and js/analytics.js (host detection, `gtag` telemetry): presentation and I/O, no game logic.
- js/gameManager.js and js/lineEffectResolver.js: they only initialise fields, so there is no turn logic or line effect to model.
- `randomBetween` and `sleep` in js/cpuAI.js: pacing for the user interface, not called by the modelled choices.
- All `toString` methods and `console` logging: text formatting only.
- The card getters `display` and `image`: display strings and asset paths, not behaviour. The catalog keeps them as fields.
- `hand.sortByScore()`: no file under js/ calls it, and no modelled member depends on it.
- `board.getCompletedLines()`: no file under js/ defines it, so it is a function parameter.
- `board.getEmptySlots()`, `board.isSlotEmpty()` and `board.getNonCenterEmptySlots()`: js/board.js defines none of them, nor `getCompletedLines()`. Against that class, every call to them throws a `TypeError`: `selectSlotForCard` throws at js/cpuAI.js:153 before it even checks for the first turn, `findLineCompletingSlots` at js/cpuAI.js:93, `findOpponentBlockingSlots` at js/cpuAI.js:125, and `selectSlotToDiscard` at js/cpuAI.js:244, so as written it always throws. The model assumes the board handed to the computer player provides these methods. `EmptySlots` and `IsSlotEmpty` are defined from the slot map, with the slots in increasing order, which is a choice of this model. `getNonCenterEmptySlots()` is assumed to return without throwing; `selectSlotToDiscard` never uses its result, so the call is dropped.
- `Number.isInteger(position)` in `_assertValidPosition`: positions are integers here, so non-integer and non-numeric positions are not modelled.
- JavaScript property lookup on plain objects: a key such as `"constructor"` would find an inherited prototype member. `LookupSymbol` and `GetCardDefinition` only know the six symbol names.
- Cards.NewCard: `new Card("constructor")`, or any other name inherited from `Object.prototype`, passes the guard at js/card.js:80 and makes a card whose definition is that inherited member. `NewCard` fails for every name except the six symbol names.
- Hands.NewHand: an explicit `null` name is not modelled. JavaScript keeps it as `null`; only an omitted (`undefined`) name becomes "Player".
- Hands.RemoveCardByIndex: the index is an integer here. A fractional index such as 1.5 passes both bounds tests and `splice` truncates it, removing card 1; `NaN` passes them too and removes card 0. Neither is modelled.
- Hands.GetCard: the index is an integer here. A fractional index within the bounds, or `NaN`, passes the tests and returns `undefined` in JavaScript, which is not modelled.
- CpuAI.SelectCardsForCherry: `maxCards` is an integer here. A fraction such as 0.5 makes `numToSelect` 0.5, and the loop still picks one slot; this is not modelled.
- Decks.NewDeck: an array argument holding things that are not cards is not modelled. A deck holds only cards.
- Cards.NewCard: the id counter is unbounded. The loss of precision of a JavaScript number beyond 2^53 cards is not modelled.
- Players.HasEmptyHand: returns `false` where the source returns `null` for a missing hand. No file under js/ calls it, and `false` and `null` are both falsy.
- CpuAI.SelectCardToPlay: `gamePhase` is a string compared with `"firstTurn"`. The other phases are not enumerated, since the code only compares against that one.
- CpuAI.FindLineCompletingSlots: the trial placement mutates the shared board and then restores it. Here the method returns the board it leaves, and proves that board equals the input. A placement that throws does so before it changes the board, so the board is unchanged on that path too.
- Concurrency and the event loop: nothing in the modelled code awaits.

## Findings

| source | as written | input that shows it | evidently intended | confidence | as-written member | corrected member |
|---|---|---|---|---|---|---|
| js/cpuAI.js:54-79 | the first-turn and normal filters test `card.symbol !== SYMBOLS.RAINBOW_7`, but `SYMBOLS` has no `RAINBOW_7` key (the seven is `GOLD_7` there), so the test is against `undefined` and keeps GOLD_7 | a hand [GOLD_7, BELL] on `"firstTurn"` with draw 0 selects GOLD_7 for the centre slot, which the comment at js/cpuAI.js:54 forbids | exclude GOLD_7 and SILVER_3 | high (follows from the code; not executed) | CpuAI.FirstTurnMayPickGold7 | CpuAI.SelectCardToPlayIntended |

The same undefined key is the first entry of `symbolOrder` in
`hand.sortBySymbol()` (js/hand.js:117). That gives GOLD_7 the sort key -1,
so GOLD_7 still sorts first, exactly as if the entry were GOLD_7
(`Hands.SortedMeansCatalogOrder`). The hand's behaviour is therefore the
evidently intended one, and it is modelled as written.
