/** The draw pile of js/deck.js: building the full 63-card deck, the
    Fisher-Yates shuffle and drawing from the front. */
module Decks {
  import opened Wrappers
  import opened Js
  import opened Cards

  /** The deck's cards; index 0 is the next card drawn. */
  datatype Deck = Deck(cards: seq<Card>)

  /** The inner loop of `buildFullDeck()`: `count` new cards of one symbol, with
      consecutive ids starting at `counter`. */
  method MintCopies(counter: nat, symbol: Symbol, count: nat) returns (block: seq<Card>, next: nat)
    ensures |block| == count && next == counter + count
    ensures forall k :: 0 <= k < |block| ==> block[k] == Card(counter + k, symbol)
  {
    block := [];
    next := counter;
    while |block| < count
      invariant |block| <= count
      invariant next == counter + |block|
      invariant forall k :: 0 <= k < |block| ==> block[k] == Card(counter + k, symbol)
    {
      LookupSymbolName(symbol);
      var minted := NewCard(next, SymbolName(symbol)).value;
      block := block + [minted.card];
      next := minted.next;
    }
  }

  /** What `buildFullDeck()` has produced once the first `i` symbols are done:
      their cards in catalog order, with ids counting up from `counter`. */
  ghost predicate BuiltUpTo(cards: seq<Card>, counter: nat, i: nat)
    requires i <= |OrderedSymbols|
  {
    && |cards| == BlockStart(i)
    && (forall k :: 0 <= k < |cards| ==> cards[k].id == counter + k)
    && (forall k :: 0 <= k < |cards| ==> Ord(cards[k].symbol) < i)
    && (forall j, k :: 0 <= j <= k < |cards| ==> Ord(cards[j].symbol) <= Ord(cards[k].symbol))
    && (forall s :: CountOf(cards, s) == if Ord(s) < i then CatalogEntry(s).count else 0)
  }

  /** Appending the block of the next symbol extends a partial deck by one symbol. */
  lemma BuiltUpToStep(cards: seq<Card>, counter: nat, i: nat, block: seq<Card>)
    requires i < |OrderedSymbols| && BuiltUpTo(cards, counter, i)
    requires |block| == CatalogEntry(OrderedSymbols[i]).count
    requires forall k :: 0 <= k < |block| ==> block[k] == Card(counter + |cards| + k, OrderedSymbols[i])
    ensures BuiltUpTo(cards + block, counter, i + 1)
  {
    var all := cards + block;
    BlockKeepsOrder(cards, counter, i, block);
    BlockAddsItsCount(cards, i, block);
  }

  lemma BlockKeepsOrder(cards: seq<Card>, counter: nat, i: nat, block: seq<Card>)
    requires i < |OrderedSymbols|
    requires forall k :: 0 <= k < |cards| ==> cards[k].id == counter + k
    requires forall k :: 0 <= k < |cards| ==> Ord(cards[k].symbol) < i
    requires forall j, k :: 0 <= j <= k < |cards| ==> Ord(cards[j].symbol) <= Ord(cards[k].symbol)
    requires forall k :: 0 <= k < |block| ==> block[k] == Card(counter + |cards| + k, OrderedSymbols[i])
    ensures var all := cards + block;
      && (forall k :: 0 <= k < |all| ==> all[k].id == counter + k)
      && (forall k :: 0 <= k < |all| ==> Ord(all[k].symbol) < i + 1)
      && (forall j, k :: 0 <= j <= k < |all| ==> Ord(all[j].symbol) <= Ord(all[k].symbol))
  {
    var all := cards + block;
    forall k | |cards| <= k < |all|
      ensures all[k] == Card(counter + k, OrderedSymbols[i]) && Ord(all[k].symbol) == i
    {
      assert all[k] == block[k - |cards|];
    }
    forall j, k | 0 <= j <= k < |all|
      ensures Ord(all[j].symbol) <= Ord(all[k].symbol)
    {
      if k < |cards| {
        assert all[j] == cards[j] && all[k] == cards[k];
      } else if j < |cards| {
        assert all[j] == cards[j];
      }
    }
  }

  lemma BlockAddsItsCount(cards: seq<Card>, i: nat, block: seq<Card>)
    requires i < |OrderedSymbols|
    requires forall s :: CountOf(cards, s) == if Ord(s) < i then CatalogEntry(s).count else 0
    requires |block| == CatalogEntry(OrderedSymbols[i]).count
    requires forall k :: 0 <= k < |block| ==> block[k].symbol == OrderedSymbols[i]
    ensures forall s :: CountOf(cards + block, s) == if Ord(s) < i + 1 then CatalogEntry(s).count else 0
  {
    UniformBlockCounts(block, OrderedSymbols[i]);
    forall s ensures CountOf(cards + block, s) == if Ord(s) < i + 1 then CatalogEntry(s).count else 0 {
      BlockAddsItsCountAt(cards, i, block, s);
    }
  }

  lemma BlockAddsItsCountAt(cards: seq<Card>, i: nat, block: seq<Card>, s: Symbol)
    requires i < |OrderedSymbols|
    requires CountOf(cards, s) == if Ord(s) < i then CatalogEntry(s).count else 0
    requires |block| == CatalogEntry(OrderedSymbols[i]).count
    requires CountOf(block, s) == if s == OrderedSymbols[i] then |block| else 0
    ensures CountOf(cards + block, s) == if Ord(s) < i + 1 then CatalogEntry(s).count else 0
  {
    CountOfConcat(cards, block);
    assert Ord(s) == i <==> s == OrderedSymbols[i];
  }

  /** `buildFullDeck()` with the id counter at `counter`: for each symbol of
      `OrderedSymbols` in turn, as many new cards as its catalog count. */
  method BuildFullDeck(counter: nat) returns (cards: seq<Card>, next: nat)
    ensures |cards| == DeckSize
    ensures next == counter + DeckSize
    ensures forall k :: 0 <= k < |cards| ==> cards[k].id == counter + k
    ensures forall j, k :: 0 <= j <= k < |cards| ==> Ord(cards[j].symbol) <= Ord(cards[k].symbol)
    ensures forall s :: CountOf(cards, s) == CatalogEntry(s).count
  {
    cards := [];
    next := counter;
    var i := 0;
    while i < |OrderedSymbols|
      invariant 0 <= i <= |OrderedSymbols|
      invariant BuiltUpTo(cards, counter, i)
      invariant next == counter + |cards|
    {
      cards, next := AppendSymbolBlock(cards, counter, i, next);
      i := i + 1;
    }
    BuiltUpToAll(cards, counter);
  }

  /** One pass of the `forEach` of `buildFullDeck()`: the catalog entry of the
      `i`-th symbol is found, and its count of new cards is appended. */
  method AppendSymbolBlock(cards: seq<Card>, counter: nat, i: nat, next: nat) returns (cards': seq<Card>, next': nat)
    requires i < |OrderedSymbols| && BuiltUpTo(cards, counter, i)
    requires next == counter + |cards|
    ensures BuiltUpTo(cards', counter, i + 1)
    ensures next' == counter + |cards'|
  {
    var symbol := OrderedSymbols[i];
    var definition := GetCardDefinition(SymbolName(symbol));
    if definition.Some? {
      var block;
      block, next' := MintCopies(next, symbol, definition.value.count);
      BuiltUpToStep(cards, counter, i, block);
      cards' := cards + block;
    } else {
      assert false;
    }
  }

  /** Once every symbol is done, the partial deck is the full deck. */
  lemma BuiltUpToAll(cards: seq<Card>, counter: nat)
    requires BuiltUpTo(cards, counter, |OrderedSymbols|)
    ensures |cards| == DeckSize
    ensures forall s :: CountOf(cards, s) == CatalogEntry(s).count
  {
    CatalogCounts();
    assert forall s :: Ord(s) < |OrderedSymbols|;
  }

  /** A run of cards of one symbol counts only towards that symbol. */
  lemma UniformBlockCounts(block: seq<Card>, symbol: Symbol)
    requires forall k :: 0 <= k < |block| ==> block[k].symbol == symbol
    ensures forall s :: CountOf(block, s) == if s == symbol then |block| else 0
  {
    FilterKeepsAll(block, (c: Card) => c.symbol == symbol);
    forall s | s != symbol ensures CountOf(block, s) == 0 {
      FilterKeepsNone(block, (c: Card) => c.symbol == s);
    }
  }

  /** `shuffleInPlace(cards)`: Durstenfeld's Fisher-Yates shuffle. `rand(i)` is the
      value `Math.random()` returns while the loop is at index `i`. Whatever the
      draws, the result is a rearrangement of the input. */
  method ShuffleInPlace<T(==)>(cards: seq<T>, rand: nat -> Random) returns (r: seq<T>)
    ensures |r| == |cards|
    ensures multiset(r) == multiset(cards)
    ensures Distinct(cards) ==> Distinct(r)
  {
    r := cards;
    var i := |r| - 1;
    while i > 0
      invariant -1 <= i < |r|
      invariant |r| == |cards|
      invariant multiset(r) == multiset(cards)
      invariant Distinct(cards) ==> Distinct(r)
    {
      var j := PickIndex(rand(i), i + 1);
      r := r[i := r[j]][j := r[i]];
      i := i - 1;
    }
  }

  /** `new Deck(cards)`: a copy of an array argument, otherwise an empty deck. */
  function NewDeck(arg: ArrayArg<Card>): (d: Deck)
    ensures arg.Array? ==> d.cards == arg.items
    ensures arg.NotArray? ==> Size(d) == 0
  {
    match arg
    case Array(items) => Deck(items)
    case NotArray => Deck([])
  }

  /** `deck.size`: the number of cards, which is the sum of the per-symbol counts. */
  function Size(d: Deck): (n: nat)
    ensures n == SumOverSymbols(s => CountOf(d.cards, s))
  {
    CountsSumToSize(d.cards);
    |d.cards|
  }

  /** `deck.isEmpty()` */
  function IsEmpty(d: Deck): (r: bool)
    ensures r <==> Size(d) == 0
  {
    |d.cards| == 0
  }

  /** What `draw()` returns, and the deck it leaves behind. */
  datatype Drawn = Drawn(card: Option<Card>, deck: Deck)

  /** `deck.draw()`: `null` on an empty deck, which stays as it is; otherwise the
      front card, leaving the rest of the deck in order. */
  function Draw(d: Deck): (r: Drawn)
    ensures |d.cards| == 0 ==> r.card.None? && r.deck == d
    ensures |d.cards| > 0 ==> r.card == Some(d.cards[0]) && [d.cards[0]] + r.deck.cards == d.cards
    ensures |d.cards| > 0 ==> |r.deck.cards| == |d.cards| - 1
  {
    if |d.cards| == 0 then Drawn(None, d) else Drawn(Some(d.cards[0]), Deck(d.cards[1..]))
  }

  /** The cards drawn by `n` successive `draw()` calls, nulls dropped, and the final deck. */
  function DrawMany(d: Deck, n: nat): (seq<Card>, Deck)
    decreases n
  {
    if n == 0 then ([], d)
    else
      var first := Draw(d);
      var more := DrawMany(first.deck, n - 1);
      (Present(first.card) + more.0, more.1)
  }

  /** One `draw()` followed by the remaining `n - 1`: on an empty deck it draws
      nothing, otherwise it takes the front card. */
  lemma DrawManyStep(d: Deck, n: nat)
    requires n > 0
    ensures |d.cards| == 0 ==> DrawMany(d, n) == DrawMany(d, n - 1)
    ensures |d.cards| > 0 ==> DrawMany(d, n).0 == [d.cards[0]] + DrawMany(Deck(d.cards[1..]), n - 1).0
    ensures |d.cards| > 0 ==> DrawMany(d, n).1 == DrawMany(Deck(d.cards[1..]), n - 1).1
  {
    var more := DrawMany(Draw(d).deck, n - 1);
    assert DrawMany(d, n) == (Present(Draw(d).card) + more.0, more.1);
    if |d.cards| == 0 {
      assert Present(Draw(d).card) + more.0 == more.0;
    }
  }

  /** Drawing as many times as the deck has cards hands them out in deck order and
      empties the deck; drawing more times changes nothing further. */
  lemma {:induction false} DrawingEverythingYieldsTheDeck(d: Deck, n: nat)
    requires n >= |d.cards|
    ensures DrawMany(d, n) == (d.cards, Deck([]))
    decreases n
  {
    if n == 0 {
      assert d == Deck([]);
    } else if |d.cards| == 0 {
      DrawManyStep(d, n);
      DrawingEverythingYieldsTheDeck(d, n - 1);
    } else {
      var rest := Deck(d.cards[1..]);
      DrawManyStep(d, n);
      DrawingEverythingYieldsTheDeck(rest, n - 1);
      assert DrawMany(d, n).0 == [d.cards[0]] + rest.cards == d.cards;
    }
  }

  /** `deck.shuffle()` */
  method Shuffle(d: Deck, rand: nat -> Random) returns (r: Deck)
    ensures Size(r) == Size(d)
    ensures multiset(r.cards) == multiset(d.cards)
    ensures forall s :: CountOf(r.cards, s) == CountOf(d.cards, s)
    ensures ScoreOf(r.cards) == ScoreOf(d.cards)
  {
    var cards := ShuffleInPlace(d.cards, rand);
    PermutationKeepsCounts(cards, d.cards);
    r := Deck(cards);
  }

  /** `deck.getAllCards()`: a copy of the cards, front first. */
  function GetAllCards(d: Deck): (r: seq<Card>)
    ensures |r| == Size(d)
    ensures NewDeck(Array(r)) == d
  {
    d.cards
  }

  /** `Deck.createShuffledFullDeck()` with the id counter at `counter`: 63 cards, as
      many of each symbol as the catalog says, with pairwise distinct ids taken from
      the next 63 counter values. */
  method CreateShuffledFullDeck(counter: nat, rand: nat -> Random) returns (d: Deck, next: nat)
    ensures Size(d) == DeckSize
    ensures next == counter + DeckSize
    ensures forall s :: CountOf(d.cards, s) == CatalogEntry(s).count
    ensures UniqueIds(d.cards)
    ensures forall k :: 0 <= k < Size(d) ==> counter <= d.cards[k].id < next
  {
    var cards;
    cards, next := BuildFullDeck(counter);
    ConsecutiveIdsAreDistinct(cards, counter);
    var shuffled := ShuffleInPlace(cards, rand);
    PermutationKeepsCounts(shuffled, cards);
    PermutationKeepsIds(cards, shuffled, counter);
    d := NewDeck(Array(shuffled));
  }

  /** Cards numbered consecutively are pairwise different. */
  lemma ConsecutiveIdsAreDistinct(cards: seq<Card>, counter: nat)
    requires forall k :: 0 <= k < |cards| ==> cards[k].id == counter + k
    ensures Distinct(cards)
  {
  }

  /** A rearrangement of consecutively numbered cards keeps the ids in range and
      pairwise distinct. */
  lemma PermutationKeepsIds(cards: seq<Card>, shuffled: seq<Card>, counter: nat)
    requires forall k :: 0 <= k < |cards| ==> cards[k].id == counter + k
    requires multiset(shuffled) == multiset(cards) && Distinct(shuffled)
    ensures forall k :: 0 <= k < |shuffled| ==> counter <= shuffled[k].id < counter + |cards|
    ensures UniqueIds(shuffled)
  {
    forall k | 0 <= k < |shuffled|
      ensures counter <= shuffled[k].id < counter + |cards|
    {
      assert shuffled[k] in multiset(cards);
    }
    forall i, j | 0 <= i < j < |shuffled|
      ensures shuffled[i].id != shuffled[j].id
    {
      assert shuffled[i] in multiset(cards) && shuffled[j] in multiset(cards);
      var a :| 0 <= a < |cards| && cards[a] == shuffled[i];
      var b :| 0 <= b < |cards| && cards[b] == shuffled[j];
    }
  }
}
