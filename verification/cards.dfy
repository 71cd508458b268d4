/** The card catalog and card identity of js/card.js, plus the per-symbol
    counting and scoring that hands and the discard pile share. */
module Cards {
  import opened Wrappers
  import opened Js

  /** The six symbols of the `SYMBOLS` table. */
  datatype Symbol = Gold7 | Silver3 | Cherry | Watermelon | Bell | Replay

  /** The string each symbol is stored as; in `SYMBOLS` every key equals its value. */
  function SymbolName(s: Symbol): string {
    match s
    case Gold7 => "GOLD_7"
    case Silver3 => "SILVER_3"
    case Cherry => "CHERRY"
    case Watermelon => "WATERMELON"
    case Bell => "BELL"
    case Replay => "REPLAY"
  }

  /** Property lookup `SYMBOLS[name]` (equivalently, whether `CARD_DEFINITIONS[name]`
      exists): `None` is `undefined`. */
  function LookupSymbol(name: string): (r: Option<Symbol>)
    ensures r.Some? ==> SymbolName(r.value) == name
    ensures r.None? ==> forall s :: SymbolName(s) != name
  {
    if name == "GOLD_7" then Some(Gold7)
    else if name == "SILVER_3" then Some(Silver3)
    else if name == "CHERRY" then Some(Cherry)
    else if name == "WATERMELON" then Some(Watermelon)
    else if name == "BELL" then Some(Bell)
    else if name == "REPLAY" then Some(Replay)
    else None
  }

  /** Looking up a symbol's own name finds that symbol, and the table has no
      `RAINBOW_7` entry. */
  lemma LookupSymbolName(s: Symbol)
    ensures LookupSymbol(SymbolName(s)) == Some(s)
    ensures LookupSymbol("RAINBOW_7") == None
  {
  }

  /** `ORDERED_SYMBOLS`: the order in which the deck is built. */
  const OrderedSymbols: seq<Symbol> := [Gold7, Silver3, Cherry, Watermelon, Bell, Replay]

  /** The position of a symbol in `OrderedSymbols`. */
  function Ord(s: Symbol): (i: nat)
    ensures i < |OrderedSymbols| && OrderedSymbols[i] == s
  {
    match s
    case Gold7 => 0
    case Silver3 => 1
    case Cherry => 2
    case Watermelon => 3
    case Bell => 4
    case Replay => 5
  }

  /** `ORDERED_SYMBOLS` lists each of the six symbols exactly once. */
  lemma OrderedSymbolsListEachOnce()
    ensures |OrderedSymbols| == 6
    ensures Distinct(OrderedSymbols)
    ensures forall s :: s in OrderedSymbols
    ensures forall i :: 0 <= i < |OrderedSymbols| ==> Ord(OrderedSymbols[i]) == i
  {
    forall s ensures s in OrderedSymbols {
      assert OrderedSymbols[Ord(s)] == s;
    }
  }

  /** One entry of `CARD_DEFINITIONS`. */
  datatype CardDefinition = CardDefinition(symbol: Symbol, count: nat, score: int, display: string, image: string)

  /** `CARD_DEFINITIONS[s]` for a symbol `s`: the entry of that symbol, with at
      least one copy in the deck. */
  function CatalogEntry(s: Symbol): (d: CardDefinition)
    ensures d.symbol == s
    ensures d.count > 0
  {
    match s
    case Gold7 => CardDefinition(Gold7, 8, -1, "Gold 7", "assets/gold_7.svg")
    case Silver3 => CardDefinition(Silver3, 5, -1, "Silver 3", "assets/silver_3.svg")
    case Cherry => CardDefinition(Cherry, 8, 2, "Cherry", "assets/cherry.svg")
    case Watermelon => CardDefinition(Watermelon, 8, 2, "Watermelon", "assets/watermelon.svg")
    case Bell => CardDefinition(Bell, 21, 1, "Bell", "assets/bell.svg")
    case Replay => CardDefinition(Replay, 13, 0, "REPLAY", "assets/replay.svg")
  }

  /** The sum of `f` over the six symbols. */
  function SumOverSymbols(f: Symbol -> int): int {
    f(Gold7) + f(Silver3) + f(Cherry) + f(Watermelon) + f(Bell) + f(Replay)
  }

  /** How many cards the first `i` symbols of `OrderedSymbols` contribute to a full deck. */
  function BlockStart(i: nat): nat
    requires i <= |OrderedSymbols|
  {
    if i == 0 then 0 else BlockStart(i - 1) + CatalogEntry(OrderedSymbols[i - 1]).count
  }

  /** The number of cards in a full deck. */
  const DeckSize: nat := 63

  /** The catalog counts are 8, 5, 8, 8, 21 and 13, and they add up to a deck of 63. */
  lemma CatalogCounts()
    ensures CatalogEntry(Gold7).count == 8 && CatalogEntry(Silver3).count == 5
    ensures CatalogEntry(Cherry).count == 8 && CatalogEntry(Watermelon).count == 8
    ensures CatalogEntry(Bell).count == 21 && CatalogEntry(Replay).count == 13
    ensures SumOverSymbols(s => CatalogEntry(s).count) == DeckSize
    ensures BlockStart(|OrderedSymbols|) == DeckSize
  {
  }

  /** The catalog scores are -1, -1, 2, 2, 1 and 0 in `OrderedSymbols` order. */
  lemma CatalogScores()
    ensures CatalogEntry(Gold7).score == -1 && CatalogEntry(Silver3).score == -1
    ensures CatalogEntry(Cherry).score == 2 && CatalogEntry(Watermelon).score == 2
    ensures CatalogEntry(Bell).score == 1 && CatalogEntry(Replay).score == 0
  {
  }

  /** `getCardDefinition(name)`: the catalog entry for a known symbol name, `null` otherwise. */
  function GetCardDefinition(name: string): (r: Option<CardDefinition>)
    ensures forall s :: SymbolName(s) == name ==> r == Some(CatalogEntry(s))
    ensures (forall s :: SymbolName(s) != name) ==> r == None
  {
    match LookupSymbol(name)
    case None => None
    case Some(s) => Some(CatalogEntry(s))
  }

  /** A card: its identity and its symbol. The constructor attaches the catalog
      entry, which is a function of the symbol. */
  datatype Card = Card(id: nat, symbol: Symbol) {
    /** `card.definition`: the catalog entry of the card's own symbol. */
    function Definition(): (d: CardDefinition)
      ensures d.symbol == symbol
    {
      CatalogEntry(symbol)
    }

    /** `card.score`: the definition's score, between -1 and 2. */
    function Score(): (r: int)
      ensures -1 <= r <= 2
    {
      Definition().score
    }
  }

  /** A card's score and definition are those of its symbol's catalog entry. */
  lemma CardFollowsCatalog(c: Card)
    ensures c.Definition().symbol == c.symbol
    ensures c.Score() == CatalogEntry(c.symbol).score
    ensures c.symbol in {Gold7, Silver3} ==> c.Score() == -1
  {
  }

  /** A new card together with the next value of the id counter. */
  datatype Minted = Minted(card: Card, next: nat)

  /** `new Card(name)` with the id counter at `counter`: throws for an unknown
      symbol (leaving the counter alone); otherwise the card takes the current
      counter value as its id and the counter moves on by one. */
  function NewCard(counter: nat, name: string): (r: Result<Minted>)
    ensures r.Success? <==> exists s :: SymbolName(s) == name
    ensures r.Failure? ==> r.error == InvalidCardSymbol(name)
    ensures r.Success? ==> SymbolName(r.value.card.symbol) == name
    ensures r.Success? ==> r.value.card.id == counter && r.value.next == counter + 1
  {
    match LookupSymbol(name)
    case None => Failure(InvalidCardSymbol(name))
    case Some(s) => Success(Minted(Card(counter, s), counter + 1))
  }

  /** Two cards created one after the other have distinct, increasing ids. */
  lemma SuccessiveCardsHaveIncreasingIds(counter: nat, first: string, second: string)
    requires NewCard(counter, first).Success?
    requires NewCard(NewCard(counter, first).value.next, second).Success?
    ensures NewCard(counter, first).value.card.id < NewCard(NewCard(counter, first).value.next, second).value.card.id
  {
  }

  /** No two cards share an id. */
  predicate UniqueIds(cards: seq<Card>) {
    forall i, j :: 0 <= i < j < |cards| ==> cards[i].id != cards[j].id
  }

  /** `cards.filter(card => card.symbol === s)`. */
  function OfSymbol(cards: seq<Card>, s: Symbol): (r: seq<Card>)
    ensures forall c :: c in r <==> c in cards && c.symbol == s
    ensures forall i :: 0 <= i < |r| ==> r[i].symbol == s
  {
    Filter(cards, (c: Card) => c.symbol == s)
  }

  /** Selecting by symbol distributes over concatenation. */
  lemma OfSymbolConcat(a: seq<Card>, b: seq<Card>, s: Symbol)
    ensures OfSymbol(a + b, s) == OfSymbol(a, s) + OfSymbol(b, s)
  {
    FilterConcat(a, b, (c: Card) => c.symbol == s);
  }

  /** Selecting from a single card keeps it exactly when it has the symbol. */
  lemma OfSymbolSingleton(c: Card, s: Symbol)
    ensures OfSymbol([c], s) == if c.symbol == s then [c] else []
  {
    assert [c][..0] == [];
  }

  /** Nothing is selected when no card has the symbol. */
  lemma OfSymbolNone(cards: seq<Card>, s: Symbol)
    requires forall k :: 0 <= k < |cards| ==> cards[k].symbol != s
    ensures OfSymbol(cards, s) == []
  {
    FilterKeepsNone(cards, (c: Card) => c.symbol == s);
  }

  /** The number of cards of symbol `s`. */
  function CountOf(cards: seq<Card>, s: Symbol): nat {
    |OfSymbol(cards, s)|
  }

  /** `cards.reduce((total, card) => total + card.score, 0)`. */
  function ScoreOf(cards: seq<Card>): int {
    if |cards| == 0 then 0 else ScoreOf(cards[..|cards| - 1]) + cards[|cards| - 1].Score()
  }

  /** Every card scores between -1 and 2, so a collection scores between -1 and
      2 points per card. */
  lemma {:induction false} ScoreOfBounds(cards: seq<Card>)
    ensures -|cards| <= ScoreOf(cards) <= 2 * |cards|
    decreases |cards|
  {
    if |cards| > 0 {
      ScoreOfBounds(cards[..|cards| - 1]);
    }
  }

  /** Appending one card adds one to its own symbol's count and leaves the other counts alone. */
  lemma CountOfSnoc(cards: seq<Card>, c: Card)
    ensures forall s :: CountOf(cards + [c], s) == CountOf(cards, s) + (if c.symbol == s then 1 else 0)
    ensures ScoreOf(cards + [c]) == ScoreOf(cards) + c.Score()
  {
    assert (cards + [c])[..|cards|] == cards;
  }

  /** Counts and scores add up over concatenation. */
  lemma CountOfConcat(a: seq<Card>, b: seq<Card>)
    ensures forall s :: CountOf(a + b, s) == CountOf(a, s) + CountOf(b, s)
    ensures ScoreOf(a + b) == ScoreOf(a) + ScoreOf(b)
  {
    forall s ensures CountOf(a + b, s) == CountOf(a, s) + CountOf(b, s) {
      FilterConcat(a, b, (c: Card) => c.symbol == s);
    }
    ScoreOfConcat(a, b);
  }

  lemma {:induction false} ScoreOfConcat(a: seq<Card>, b: seq<Card>)
    ensures ScoreOf(a + b) == ScoreOf(a) + ScoreOf(b)
    decreases |b|
  {
    if |b| == 0 {
      assert a + b == a;
    } else {
      var b' := b[..|b| - 1];
      assert (a + b)[..|a + b| - 1] == a + b';
      ScoreOfConcat(a, b');
    }
  }

  /** The per-symbol counts add up to the number of cards. */
  lemma {:induction false} CountsSumToSize(cards: seq<Card>)
    ensures SumOverSymbols(s => CountOf(cards, s)) == |cards|
    decreases |cards|
  {
    if |cards| > 0 {
      var front := cards[..|cards| - 1];
      assert cards == front + [cards[|cards| - 1]];
      CountOfSnoc(front, cards[|cards| - 1]);
      CountsSumToSize(front);
    }
  }

  /** The score of a collection is the catalog score of each symbol weighted by its count. */
  lemma {:induction false} ScoreByCounts(cards: seq<Card>)
    ensures ScoreOf(cards) == SumOverSymbols(s => CountOf(cards, s) * CatalogEntry(s).score)
    decreases |cards|
  {
    if |cards| > 0 {
      var front := cards[..|cards| - 1];
      assert cards == front + [cards[|cards| - 1]];
      CountOfSnoc(front, cards[|cards| - 1]);
      ScoreByCounts(front);
    }
  }

  /** Taking out the card at `k` lowers its symbol's count by one and the score by its score. */
  lemma CountWithout(b: seq<Card>, k: nat)
    requires k < |b|
    ensures forall s :: CountOf(b, s) == CountOf(RemoveAt(b, k), s) + (if b[k].symbol == s then 1 else 0)
    ensures ScoreOf(b) == ScoreOf(RemoveAt(b, k)) + b[k].Score()
  {
    forall s ensures CountOf(b, s) == CountOf(RemoveAt(b, k), s) + (if b[k].symbol == s then 1 else 0) {
      CountWithoutAt(b, k, s);
    }
    ScoreWithout(b, k);
  }

  /** One symbol's count, without the card at `k`. */
  lemma CountWithoutAt(b: seq<Card>, k: nat, s: Symbol)
    requires k < |b|
    ensures CountOf(b, s) == CountOf(RemoveAt(b, k), s) + (if b[k].symbol == s then 1 else 0)
  {
    var front, x, back := b[..k], b[k], b[k + 1..];
    SplitAt(b, k);
    OfSymbolConcat(front + [x], back, s);
    OfSymbolConcat(front, [x], s);
    OfSymbolConcat(front, back, s);
    OfSymbolSingleton(x, s);
  }

  /** The score, without the card at `k`. */
  lemma ScoreWithout(b: seq<Card>, k: nat)
    requires k < |b|
    ensures ScoreOf(b) == ScoreOf(RemoveAt(b, k)) + b[k].Score()
  {
    var front, x, back := b[..k], b[k], b[k + 1..];
    calc {
      ScoreOf(b);
      { SplitAt(b, k); }
      ScoreOf((front + [x]) + back);
      { ScoreOfConcat(front + [x], back); }
      ScoreOf(front + [x]) + ScoreOf(back);
      { assert (front + [x])[..|front|] == front; }
      ScoreOf(front) + x.Score() + ScoreOf(back);
      { ScoreOfConcat(front, back); }
      ScoreOf(front + back) + x.Score();
    }
  }

  /** Rearranging cards changes neither any symbol's count nor the score. */
  lemma {:induction false} PermutationKeepsCounts(a: seq<Card>, b: seq<Card>)
    requires multiset(a) == multiset(b)
    ensures forall s :: CountOf(a, s) == CountOf(b, s)
    ensures ScoreOf(a) == ScoreOf(b)
    decreases |a|
  {
    if |a| == 0 {
      assert |b| == |multiset(b)| == 0;
    } else {
      var x := a[|a| - 1];
      var a' := a[..|a| - 1];
      assert a == a' + [x];
      assert x in multiset(b);
      var k :| 0 <= k < |b| && b[k] == x;
      var b' := RemoveAt(b, k);
      assert multiset(a') == multiset(b') by {
        assert multiset(a') == multiset(a) - multiset{x};
      }
      PermutationKeepsCounts(a', b');
      forall s ensures CountOf(a, s) == CountOf(b, s) {
        CountOfSnoc(a', x);
        CountWithoutAt(b, k, s);
      }
      assert ScoreOf(a) == ScoreOf(b) by {
        CountOfSnoc(a', x);
        ScoreWithout(b, k);
      }
    }
  }

  /** `countAllSymbols()` (and the discard pile's `countBySymbol()`): a map from each
      symbol present to its number of cards, built by one pass that starts a key at 1
      and increments it. */
  function Tally(cards: seq<Card>): (counts: map<Symbol, nat>)
    ensures forall s :: s in counts <==> CountOf(cards, s) > 0
    ensures forall s :: s in counts ==> counts[s] == CountOf(cards, s)
  {
    if |cards| == 0 then map[]
    else
      var front := cards[..|cards| - 1];
      var s := cards[|cards| - 1].symbol;
      var counts := Tally(front);
      assert cards == front + [cards[|cards| - 1]];
      CountOfSnoc(front, cards[|cards| - 1]);
      counts[s := (if s in counts then counts[s] else 0) + 1]
  }

  /** The tallied counts add up to the number of cards. */
  lemma TallySumsToSize(cards: seq<Card>)
    ensures SumOverSymbols(s => if s in Tally(cards) then Tally(cards)[s] else 0) == |cards|
  {
    CountsSumToSize(cards);
  }
}
