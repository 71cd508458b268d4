/** A player's hand (js/hand.js): a list of cards kept sorted by symbol,
    with removal and membership by card id. */
module Hands {
  import opened Wrappers
  import opened Js
  import opened Cards

  datatype Hand = Hand(playerName: string, cards: seq<Card>)

  /** `new Hand(playerName)`; `None` is an omitted (`undefined`) name, which
      defaults to "Player". */
  function NewHand(playerName: Option<string>): (h: Hand)
    ensures Size(h) == 0
    ensures playerName.Some? ==> h.playerName == playerName.value
    ensures playerName.None? ==> h.playerName == "Player"
  {
    Hand(match playerName case Some(name) => name case None => "Player", [])
  }

  /** `hand.size`: the number of held cards, which is the sum of the per-symbol counts. */
  function Size(h: Hand): (n: nat)
    ensures n == SumOverSymbols(s => CountOf(h.cards, s))
  {
    CountsSumToSize(h.cards);
    |h.cards|
  }

  /** `hand.isEmpty()` */
  function IsEmpty(h: Hand): (r: bool)
    ensures r <==> Size(h) == 0
  {
    |h.cards| == 0
  }

  // ---------------------------------------------------------------------------
  // Sorting by symbol

  /** The `symbolOrder` array of `sortBySymbol()`. Its first entry is written
      `SYMBOLS.RAINBOW_7`, which does not exist, so that entry is `undefined`
      (here `None`); `SymbolOrderEntries` shows the lookups give these values. */
  const SymbolOrder: seq<Option<Symbol>> :=
    [None, Some(Silver3), Some(Cherry), Some(Watermelon), Some(Bell), Some(Replay)]

  /** The sort key of a symbol: its position in `symbolOrder`, or -1 when absent. */
  function Rank(s: Symbol): int {
    match s
    case Gold7 => -1
    case Silver3 => 1
    case Cherry => 2
    case Watermelon => 3
    case Bell => 4
    case Replay => 5
  }

  /** The key is `symbolOrder.indexOf(card.symbol)`: GOLD_7 is not in `symbolOrder`,
      so its key is -1, and the other symbols take their positions 1 to 5. */
  lemma RankIsSymbolOrderIndex(s: Symbol)
    ensures Rank(s) == IndexOf(SymbolOrder, Some(s))
  {
    match s
    case Gold7 => IndexOfGold7();
    case Silver3 => IndexOfSilver3();
    case Cherry => IndexOfCherry();
    case Watermelon => IndexOfWatermelon();
    case Bell => IndexOfBell();
    case Replay => IndexOfReplay();
  }

  // The position of each symbol in `SymbolOrder`, one fact at a time.
  lemma IndexOfGold7() ensures IndexOf(SymbolOrder, Some(Gold7)) == -1 {
    assert Some(Gold7) !in SymbolOrder;
  }
  lemma IndexOfSilver3() ensures IndexOf(SymbolOrder, Some(Silver3)) == 1 {
    IndexOfFirst(SymbolOrder, Some(Silver3), 1);
  }
  lemma IndexOfCherry() ensures IndexOf(SymbolOrder, Some(Cherry)) == 2 {
    IndexOfFirst(SymbolOrder, Some(Cherry), 2);
  }
  lemma IndexOfWatermelon() ensures IndexOf(SymbolOrder, Some(Watermelon)) == 3 {
    IndexOfFirst(SymbolOrder, Some(Watermelon), 3);
  }
  lemma IndexOfBell() ensures IndexOf(SymbolOrder, Some(Bell)) == 4 {
    IndexOfFirst(SymbolOrder, Some(Bell), 4);
  }
  lemma IndexOfReplay() ensures IndexOf(SymbolOrder, Some(Replay)) == 5 {
    IndexOfFirst(SymbolOrder, Some(Replay), 5);
  }

  /** `[SYMBOLS.RAINBOW_7, SYMBOLS.SILVER_3, ...]` looked up by name is `SymbolOrder`. */
  lemma SymbolOrderEntries()
    ensures [LookupSymbol("RAINBOW_7"), LookupSymbol("SILVER_3"), LookupSymbol("CHERRY"),
             LookupSymbol("WATERMELON"), LookupSymbol("BELL"), LookupSymbol("REPLAY")] == SymbolOrder
  {
    LookupSymbolName(Silver3);
    LookupSymbolName(Cherry);
    LookupSymbolName(Watermelon);
    LookupSymbolName(Bell);
    LookupSymbolName(Replay);
  }

  /** Despite the missing entry the sort key orders the symbols exactly as
      `OrderedSymbols` does, and no two symbols share a key. */
  lemma RankFollowsCatalogOrder(a: Symbol, b: Symbol)
    ensures Rank(a) <= Rank(b) <==> Ord(a) <= Ord(b)
    ensures Rank(a) == Rank(b) <==> a == b
  {
  }

  /** Symbol keys never decrease along `cards`. */
  predicate SortedByRank(cards: seq<Card>) {
    forall i, j :: 0 <= i < j < |cards| ==> Rank(cards[i].symbol) <= Rank(cards[j].symbol)
  }

  /** No card of `cards` has a key below `lo`. */
  predicate AllAtLeast(cards: seq<Card>, lo: int) {
    forall k :: 0 <= k < |cards| ==> lo <= Rank(cards[k].symbol)
  }

  /** No card of `cards` has a key above `hi`. */
  predicate AllBelow(cards: seq<Card>, hi: int) {
    forall k :: 0 <= k < |cards| ==> Rank(cards[k].symbol) <= hi
  }

  /** Inserts `c` after every card whose key is not greater than its own. */
  function Insert(sorted: seq<Card>, c: Card): (r: seq<Card>)
    ensures |r| == |sorted| + 1
    ensures multiset(r) == multiset(sorted) + multiset{c}
  {
    if |sorted| == 0 then [c]
    else if Rank(c.symbol) < Rank(sorted[0].symbol) then [c] + sorted
    else
      assert sorted == [sorted[0]] + sorted[1..];
      [sorted[0]] + Insert(sorted[1..], c)
  }

  /** A lower bound on every key survives insertion of a card that meets it. */
  lemma {:induction false} InsertAtLeast(sorted: seq<Card>, c: Card, lo: int)
    requires AllAtLeast(sorted, lo) && lo <= Rank(c.symbol)
    ensures AllAtLeast(Insert(sorted, c), lo)
    decreases |sorted|
  {
    if |sorted| > 0 && Rank(c.symbol) >= Rank(sorted[0].symbol) {
      InsertAtLeast(sorted[1..], c, lo);
    }
  }

  /** Inserting into a sorted list keeps it sorted. */
  lemma {:induction false} InsertSorted(sorted: seq<Card>, c: Card)
    requires SortedByRank(sorted)
    ensures SortedByRank(Insert(sorted, c))
    decreases |sorted|
  {
    if |sorted| > 0 && Rank(c.symbol) >= Rank(sorted[0].symbol) {
      var rest := sorted[1..];
      InsertSorted(rest, c);
      InsertAtLeast(rest, c, Rank(sorted[0].symbol));
    }
  }

  /** `cards.sort((a, b) => rank(a) - rank(b))`. JavaScript's sort is stable, so this
      is the stable sort by key, written as an insertion sort. */
  function SortCards(cards: seq<Card>): (r: seq<Card>)
    ensures |r| == |cards|
    ensures multiset(r) == multiset(cards)
    ensures SortedByRank(r)
  {
    if |cards| == 0 then []
    else
      assert cards == cards[..|cards| - 1] + [cards[|cards| - 1]];
      InsertSorted(SortCards(cards[..|cards| - 1]), cards[|cards| - 1]);
      Insert(SortCards(cards[..|cards| - 1]), cards[|cards| - 1])
  }

  /** Inserting keeps the order of the cards of every symbol and puts `c` after
      the cards of its own symbol. */
  lemma {:induction false} InsertKeepsSymbolOrder(sorted: seq<Card>, c: Card, s: Symbol)
    requires SortedByRank(sorted)
    ensures OfSymbol(Insert(sorted, c), s) == OfSymbol(sorted, s) + (if c.symbol == s then [c] else [])
    decreases |sorted|
  {
    if |sorted| == 0 {
      OfSymbolSingleton(c, s);
      OfSymbolNone(sorted, s);
    } else if Rank(c.symbol) < Rank(sorted[0].symbol) {
      InsertInFrontKeepsSymbolOrder(sorted, c, s);
    } else {
      InsertKeepsSymbolOrder(sorted[1..], c, s);
      InsertBehindKeepsSymbolOrder(sorted, c, s);
    }
  }

  /** The case of `InsertKeepsSymbolOrder` where `c` goes in front. */
  lemma InsertInFrontKeepsSymbolOrder(sorted: seq<Card>, c: Card, s: Symbol)
    requires SortedByRank(sorted)
    requires |sorted| > 0 && Rank(c.symbol) < Rank(sorted[0].symbol)
    ensures OfSymbol(Insert(sorted, c), s) == OfSymbol(sorted, s) + (if c.symbol == s then [c] else [])
  {
    OfSymbolSingleton(c, s);
    OfSymbolConcat([c], sorted, s);
    if c.symbol == s {
      forall k | 0 <= k < |sorted| ensures sorted[k].symbol != s {
        assert Rank(sorted[0].symbol) <= Rank(sorted[k].symbol);
      }
      OfSymbolNone(sorted, s);
    }
  }

  /** The case of `InsertKeepsSymbolOrder` where `c` goes behind the first card,
      given the property for the rest. */
  lemma InsertBehindKeepsSymbolOrder(sorted: seq<Card>, c: Card, s: Symbol)
    requires |sorted| > 0 && Rank(c.symbol) >= Rank(sorted[0].symbol)
    requires OfSymbol(Insert(sorted[1..], c), s) == OfSymbol(sorted[1..], s) + (if c.symbol == s then [c] else [])
    ensures OfSymbol(Insert(sorted, c), s) == OfSymbol(sorted, s) + (if c.symbol == s then [c] else [])
  {
    var first, rest := [sorted[0]], sorted[1..];
    var own := if c.symbol == s then [c] else [];
    calc {
      OfSymbol(Insert(sorted, c), s);
      OfSymbol(first + Insert(rest, c), s);
      { OfSymbolConcat(first, Insert(rest, c), s); }
      OfSymbol(first, s) + (OfSymbol(rest, s) + own);
      { ConcatAssoc(OfSymbol(first, s), OfSymbol(rest, s), own); }
      (OfSymbol(first, s) + OfSymbol(rest, s)) + own;
      { OfSymbolConcat(first, rest, s); }
      OfSymbol(first + rest, s) + own;
      { assert first + rest == sorted; }
      OfSymbol(sorted, s) + own;
    }
  }

  /** The sort is stable: the cards of each symbol keep their relative order. */
  lemma {:induction false} SortKeepsSymbolOrder(cards: seq<Card>, s: Symbol)
    ensures OfSymbol(SortCards(cards), s) == OfSymbol(cards, s)
    decreases |cards|
  {
    if |cards| > 0 {
      var front := cards[..|cards| - 1];
      var last := cards[|cards| - 1];
      assert cards == front + [last];
      SortKeepsSymbolOrder(front, s);
      InsertKeepsSymbolOrder(SortCards(front), last, s);
      FilterConcat(front, [last], (x: Card) => x.symbol == s);
      OfSymbolSingleton(last, s);
    }
  }

  /** A card whose key is at least every other key is inserted at the end. */
  lemma {:induction false} InsertAtEnd(sorted: seq<Card>, c: Card)
    requires AllBelow(sorted, Rank(c.symbol))
    ensures Insert(sorted, c) == sorted + [c]
    decreases |sorted|
  {
    if |sorted| > 0 {
      var rest := sorted[1..];
      assert AllBelow(rest, Rank(c.symbol)) by {
        forall k | 0 <= k < |rest| ensures Rank(rest[k].symbol) <= Rank(c.symbol) {
          assert rest[k] == sorted[k + 1];
        }
      }
      InsertAtEnd(rest, c);
      assert Insert(sorted, c) == [sorted[0]] + (rest + [c]);
      ConcatAssoc([sorted[0]], rest, [c]);
      assert [sorted[0]] + rest == sorted;
    }
  }

  /** Sorting an already sorted list changes nothing. */
  lemma {:induction false} SortSortedIsIdentity(cards: seq<Card>)
    requires SortedByRank(cards)
    ensures SortCards(cards) == cards
    decreases |cards|
  {
    if |cards| > 0 {
      var front, last := cards[..|cards| - 1], cards[|cards| - 1];
      SortedFront(cards);
      calc {
        SortCards(cards);
        Insert(SortCards(front), last);
        { SortSortedIsIdentity(front); }
        Insert(front, last);
        { InsertAtEnd(front, last); }
        front + [last];
        cards;
      }
    }
  }

  /** Dropping the last card of a sorted list leaves a sorted list whose keys
      are all at most the last card's. */
  lemma SortedFront(cards: seq<Card>)
    requires SortedByRank(cards) && |cards| > 0
    ensures SortedByRank(cards[..|cards| - 1])
    ensures AllBelow(cards[..|cards| - 1], Rank(cards[|cards| - 1].symbol))
  {
    var front, last := cards[..|cards| - 1], cards[|cards| - 1];
    forall i, j | 0 <= i < j < |front| ensures Rank(front[i].symbol) <= Rank(front[j].symbol) {
      assert front[i] == cards[i] && front[j] == cards[j];
    }
    forall k | 0 <= k < |front| ensures Rank(front[k].symbol) <= Rank(last.symbol) {
      assert front[k] == cards[k];
    }
  }

  /** Sorted by key means sorted in `OrderedSymbols` order, GOLD_7 cards first. */
  lemma SortedMeansCatalogOrder(cards: seq<Card>)
    requires SortedByRank(cards)
    ensures forall i, j :: 0 <= i < j < |cards| ==> Ord(cards[i].symbol) <= Ord(cards[j].symbol)
    ensures forall i, j :: 0 <= i < j < |cards| && cards[j].symbol == Gold7 ==> cards[i].symbol == Gold7
  {
    forall i, j | 0 <= i < j < |cards|
      ensures Ord(cards[i].symbol) <= Ord(cards[j].symbol)
    {
      RankFollowsCatalogOrder(cards[i].symbol, cards[j].symbol);
    }
  }

  /** `hand.sortBySymbol()` */
  function SortBySymbol(h: Hand): (r: Hand)
    ensures r.playerName == h.playerName
    ensures multiset(r.cards) == multiset(h.cards)
    ensures SortedByRank(r.cards)
  {
    Hand(h.playerName, SortCards(h.cards))
  }

  /** Sorting changes neither the score nor any symbol's count, and keeps each
      symbol's cards in their previous order. */
  lemma SortingKeepsTotals(h: Hand)
    ensures CalculateScore(SortBySymbol(h)) == CalculateScore(h)
    ensures forall s :: CountBySymbol(SortBySymbol(h), s) == CountBySymbol(h, s)
    ensures forall s :: FindCardsBySymbol(SortBySymbol(h), s) == FindCardsBySymbol(h, s)
  {
    PermutationKeepsCounts(SortBySymbol(h).cards, h.cards);
    forall s ensures FindCardsBySymbol(SortBySymbol(h), s) == FindCardsBySymbol(h, s) {
      SortKeepsSymbolOrder(h.cards, s);
    }
  }

  // ---------------------------------------------------------------------------
  // Adding

  /** `hand.addCard(card)`: nothing for `null`; otherwise the card joins the hand,
      which is then re-sorted. */
  function AddCard(h: Hand, card: Option<Card>): (r: Hand)
    ensures card.None? ==> r == h
    ensures card.Some? ==> Size(r) == Size(h) + 1 && r.playerName == h.playerName
    ensures card.Some? ==> multiset(r.cards) == multiset(h.cards) + multiset{card.value}
    ensures card.Some? ==> SortedByRank(r.cards)
  {
    match card
    case None => h
    case Some(c) => SortBySymbol(Hand(h.playerName, h.cards + [c]))
  }

  /** `hand.addCards(cards)`: nothing for a non-array; otherwise every non-null
      element joins the hand, which is then re-sorted. */
  function AddCards(h: Hand, arg: ArrayArg<Option<Card>>): (r: Hand)
    ensures arg.NotArray? ==> r == h
    ensures arg.Array? ==> r.playerName == h.playerName
    ensures arg.Array? ==> multiset(r.cards) == multiset(h.cards) + multiset(Compact(arg.items))
    ensures arg.Array? ==> SortedByRank(r.cards)
  {
    match arg
    case NotArray => h
    case Array(items) => SortBySymbol(Hand(h.playerName, h.cards + Compact(items)))
  }

  /** Within each symbol, the added cards come after the ones already held, in
      the order the array gave them: the non-null elements are added in order. */
  lemma AddCardsKeepsArrivalOrder(h: Hand, items: seq<Option<Card>>, s: Symbol)
    ensures FindCardsBySymbol(AddCards(h, Array(items)), s)
      == FindCardsBySymbol(h, s) + OfSymbol(Compact(items), s)
  {
    SortKeepsSymbolOrder(h.cards + Compact(items), s);
    OfSymbolConcat(h.cards, Compact(items), s);
  }

  // ---------------------------------------------------------------------------
  // Lookup and removal by id

  /** `cards.findIndex(c => c.id === id)`: the first position holding that id, or -1. */
  function FindById(cards: seq<Card>, id: nat): (i: int)
    ensures -1 <= i < |cards|
    ensures i == -1 <==> forall k :: 0 <= k < |cards| ==> cards[k].id != id
    ensures 0 <= i ==> cards[i].id == id && forall k :: 0 <= k < i ==> cards[k].id != id
  {
    if |cards| == 0 then -1
    else if cards[0].id == id then 0
    else
      var k := FindById(cards[1..], id);
      if k == -1 then -1 else k + 1
  }

  /** `hand.hasCard(card)`: false for `null`; otherwise whether some card of the
      hand has the same id. */
  function HasCard(h: Hand, card: Option<Card>): (r: bool)
    ensures card.None? ==> !r
    ensures card.Some? ==> (r <==> exists k :: 0 <= k < |h.cards| && h.cards[k].id == card.value.id)
  {
    match card
    case None => false
    case Some(c) => FindById(h.cards, c.id) != -1
  }

  /** A returned card (or `null`) and the hand left behind. */
  datatype Removal = Removal(card: Option<Card>, hand: Hand)

  /** `hand.removeCard(card)`: the `findIndex` callback reads `card.id`, so a
      `null` card throws once the hand holds a card, and on an empty hand the
      callback never runs and the result is `null`; when no card has that id the
      result is `null` and the hand is unchanged; otherwise the first card with
      that id is taken out and the others keep their order. */
  function RemoveCard(h: Hand, card: Option<Card>): (r: Result<Removal>)
    ensures card.None? && Size(h) == 0 ==> r == Success(Removal(None, h))
    ensures card.None? && Size(h) > 0 ==> r == Failure(NullDereference)
    ensures card.Some? && !HasCard(h, card) ==> r == Success(Removal(None, h))
    ensures card.Some? && HasCard(h, card) ==>
              r.Success? &&
              exists i :: 0 <= i < |h.cards| && h.cards[i].id == card.value.id
                && (forall k :: 0 <= k < i ==> h.cards[k].id != card.value.id)
                && r.value == Removal(Some(h.cards[i]), Hand(h.playerName, RemoveAt(h.cards, i)))
    ensures r.Success? && SortedByRank(h.cards) ==> SortedByRank(r.value.hand.cards)
  {
    match card
    case None => if |h.cards| == 0 then Success(Removal(None, h)) else Failure(NullDereference)
    case Some(c) =>
      var i := FindById(h.cards, c.id);
      if i == -1 then Success(Removal(None, h))
      else
        RemoveKeepsSorted(h.cards, i);
        Success(Removal(Some(h.cards[i]), Hand(h.playerName, RemoveAt(h.cards, i))))
  }

  /** `hand.removeCardByIndex(index)`: `null` and no change outside [0, size);
      otherwise the card at `index` is taken out and the others keep their order. */
  function RemoveCardByIndex(h: Hand, index: int): (r: Removal)
    ensures !(0 <= index < Size(h)) ==> r == Removal(None, h)
    ensures 0 <= index < Size(h) ==> r.card == Some(h.cards[index]) && Size(r.hand) == Size(h) - 1
    ensures 0 <= index < Size(h) ==> multiset(r.hand.cards) + multiset{h.cards[index]} == multiset(h.cards)
    ensures 0 <= index < Size(h) ==> r.hand == Hand(h.playerName, RemoveAt(h.cards, index))
    ensures SortedByRank(h.cards) ==> SortedByRank(r.hand.cards)
  {
    if index < 0 || index >= |h.cards| then Removal(None, h)
    else
      RemoveKeepsSorted(h.cards, index);
      Removal(Some(h.cards[index]), Hand(h.playerName, RemoveAt(h.cards, index)))
  }

  /** Taking one card out of a sorted list leaves it sorted. */
  lemma RemoveKeepsSorted(cards: seq<Card>, i: nat)
    requires i < |cards|
    ensures SortedByRank(cards) ==> SortedByRank(RemoveAt(cards, i))
  {
    var r := RemoveAt(cards, i);
    if SortedByRank(cards) {
      forall p, q | 0 <= p < q < |r| ensures Rank(r[p].symbol) <= Rank(r[q].symbol) {
        var p', q' := if p < i then p else p + 1, if q < i then q else q + 1;
        assert r[p] == cards[p'] && r[q] == cards[q'];
      }
    }
  }

  /** `hand.getCard(index)`: `null` outside [0, size); otherwise the card that
      `removeCardByIndex(index)` would take out, leaving the hand as it is. */
  function GetCard(h: Hand, index: int): (r: Option<Card>)
    ensures r.Some? <==> 0 <= index < Size(h)
    ensures r == RemoveCardByIndex(h, index).card
  {
    if index < 0 || index >= |h.cards| then None else Some(h.cards[index])
  }

  /** A card added to a sorted hand that does not hold its id is the card
      `removeCard` then finds, and removing it restores the hand exactly. */
  lemma AddThenRemove(h: Hand, c: Card)
    requires SortedByRank(h.cards)
    requires !HasCard(h, Some(c))
    ensures RemoveCard(AddCard(h, Some(c)), Some(c)) == Success(Removal(Some(c), h))
  {
    assert SortCards(h.cards + [c]) == Insert(h.cards, c) by {
      assert (h.cards + [c])[..|h.cards|] == h.cards;
      SortSortedIsIdentity(h.cards);
    }
    InsertThenFind(h.cards, c);
  }

  lemma {:induction false} InsertThenFind(cards: seq<Card>, c: Card)
    requires forall k :: 0 <= k < |cards| ==> cards[k].id != c.id
    ensures var r := Insert(cards, c); var i := FindById(r, c.id);
      0 <= i < |r| && r[i] == c && RemoveAt(r, i) == cards
    decreases |cards|
  {
    if |cards| > 0 && Rank(c.symbol) >= Rank(cards[0].symbol) {
      var first, rest := cards[0], cards[1..];
      assert forall k :: 0 <= k < |rest| ==> rest[k].id != c.id by {
        forall k | 0 <= k < |rest| ensures rest[k].id != c.id {
          assert rest[k] == cards[k + 1];
        }
      }
      InsertThenFind(rest, c);
      assert Insert(cards, c) == [first] + Insert(rest, c);
      FindBehindInserted(first, Insert(rest, c), c, rest);
      assert [first] + rest == cards;
    } else if |cards| > 0 {
      assert Insert(cards, c) == [c] + cards;
      assert ([c] + cards)[1..] == cards;
    }
  }

  /** A card found by id in `t` and removable to give `rest` is found the same
      way behind a first card with another id. */
  lemma FindBehindInserted(first: Card, t: seq<Card>, c: Card, rest: seq<Card>)
    requires first.id != c.id
    requires var j := FindById(t, c.id); 0 <= j < |t| && t[j] == c && RemoveAt(t, j) == rest
    ensures var r := [first] + t; var i := FindById(r, c.id);
      0 <= i < |r| && r[i] == c && RemoveAt(r, i) == [first] + rest
  {
    var j := FindById(t, c.id);
    FindByIdBehind(first, t, c.id);
    RemoveAtBehind(first, t, j);
  }

  /** Looking for an id behind a first card with another id looks in the rest. */
  lemma FindByIdBehind(first: Card, cards: seq<Card>, id: nat)
    requires first.id != id
    ensures FindById([first] + cards, id) == if FindById(cards, id) == -1 then -1 else FindById(cards, id) + 1
  {
    assert ([first] + cards)[1..] == cards;
  }

  // ---------------------------------------------------------------------------
  // Counting and scoring

  /** `hand.findCardsBySymbol(symbol)` */
  function FindCardsBySymbol(h: Hand, s: Symbol): (r: seq<Card>)
    ensures forall c :: c in r <==> c in h.cards && c.symbol == s
  {
    OfSymbol(h.cards, s)
  }

  /** `hand.countBySymbol(symbol)`: the number of held cards of that symbol. */
  function CountBySymbol(h: Hand, s: Symbol): (n: nat)
    ensures n <= Size(h)
    ensures n == 0 <==> forall k :: 0 <= k < Size(h) ==> h.cards[k].symbol != s
  {
    var r := OfSymbol(h.cards, s);
    assert |r| > 0 ==> r[0] in r;
    CountOf(h.cards, s)
  }

  /** `hand.countAllSymbols()`: the count of each symbol present in the hand. */
  function CountAllSymbols(h: Hand): (counts: map<Symbol, nat>)
    ensures forall s :: s in counts <==> CountBySymbol(h, s) > 0
    ensures forall s :: s in counts ==> counts[s] == CountBySymbol(h, s)
  {
    Tally(h.cards)
  }

  /** `hand.calculateScore()`: the sum of the held cards' scores, so between
      -1 and 2 points per card, and 0 for an empty hand. */
  function CalculateScore(h: Hand): (r: int)
    ensures -(Size(h) as int) <= r <= 2 * Size(h)
    ensures IsEmpty(h) ==> r == 0
  {
    ScoreOfBounds(h.cards);
    ScoreOf(h.cards)
  }

  /** The per-symbol counts add up to the size of the hand, and the score is the
      count-weighted sum of the catalog scores. */
  lemma HandTotals(h: Hand)
    ensures SumOverSymbols(s => CountBySymbol(h, s)) == Size(h)
    ensures CalculateScore(h) == SumOverSymbols(s => CountBySymbol(h, s) * CatalogEntry(s).score)
  {
    CountsSumToSize(h.cards);
    ScoreByCounts(h.cards);
  }

  // ---------------------------------------------------------------------------
  // Reset and copy

  /** `hand.clear()` */
  function Clear(h: Hand): (r: Hand)
    ensures IsEmpty(r) && r.playerName == h.playerName
  {
    Hand(h.playerName, [])
  }

  /** `hand.getAllCards()`: a copy of the cards, in hand order. */
  function GetAllCards(h: Hand): (r: seq<Card>)
    ensures Hand(h.playerName, r) == h
  {
    h.cards[..]
  }

  /** `hand.clone()`: a separate hand with the same name and cards; as a value it
      equals the original. */
  function Clone(h: Hand): (r: Hand)
    ensures r == h
  {
    Hand(h.playerName, h.cards[..])
  }
}
