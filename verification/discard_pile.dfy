/** The discard pile (js/discardPile.js): cards in the order they were thrown
    away, the most recent last. */
module DiscardPiles {
  import opened Wrappers
  import opened Js
  import opened Cards

  datatype DiscardPile = DiscardPile(cards: seq<Card>)

  /** `new DiscardPile()` */
  function NewDiscardPile(): (p: DiscardPile)
    ensures IsEmpty(p)
  {
    DiscardPile([])
  }

  /** `pile.add(card)`: nothing for `null`; otherwise the card goes on top. */
  function Add(p: DiscardPile, card: Option<Card>): (r: DiscardPile)
    ensures card.None? ==> r == p
    ensures card.Some? ==> Size(r) == Size(p) + 1 && GetTopCard(r) == card
    ensures card.Some? ==> r.cards[..Size(p)] == p.cards
  {
    match card
    case None => p
    case Some(c) => DiscardPile(p.cards + [c])
  }

  /** `pile.addCard(card)`: another name for `add`. */
  function AddCard(p: DiscardPile, card: Option<Card>): (r: DiscardPile)
    ensures r == Add(p, card)
  {
    Add(p, card)
  }

  /** `pile.addMultiple(cards)`: nothing for a non-array; otherwise the non-null
      elements go on top in their order. */
  function AddMultiple(p: DiscardPile, arg: ArrayArg<Option<Card>>): (r: DiscardPile)
    ensures arg.NotArray? ==> r == p
    ensures arg.Array? ==> r.cards == p.cards + Compact(arg.items)
  {
    match arg
    case NotArray => p
    case Array(items) => DiscardPile(p.cards + Compact(items))
  }

  /** Adding the elements of an array one by one with `add`. */
  function AddEach(p: DiscardPile, items: seq<Option<Card>>): DiscardPile
    decreases |items|
  {
    if |items| == 0 then p else AddEach(Add(p, items[0]), items[1..])
  }

  /** `addMultiple` is `add` applied to each element in turn. */
  lemma {:induction false} AddMultipleIsRepeatedAdd(p: DiscardPile, items: seq<Option<Card>>)
    ensures AddMultiple(p, Array(items)) == AddEach(p, items)
    decreases |items|
  {
    if |items| > 0 {
      var first, rest := items[0], items[1..];
      var kept := Present(first);
      calc {
        AddMultiple(p, Array(items)).cards;
        { assert items == [first] + rest; }
        p.cards + Compact([first] + rest);
        { CompactCons(first, rest); }
        p.cards + (kept + Compact(rest));
        { ConcatAssoc(p.cards, kept, Compact(rest)); }
        (p.cards + kept) + Compact(rest);
        Add(p, first).cards + Compact(rest);
      }
      AddMultipleIsRepeatedAdd(Add(p, first), rest);
    }
  }

  /** `pile.size`: the number of cards, which is the sum of the per-symbol counts. */
  function Size(p: DiscardPile): (n: nat)
    ensures n == SumOverSymbols(s => CountOf(p.cards, s))
  {
    CountsSumToSize(p.cards);
    |p.cards|
  }

  /** `pile.isEmpty()` */
  function IsEmpty(p: DiscardPile): (r: bool)
    ensures r <==> Size(p) == 0
  {
    |p.cards| == 0
  }

  /** `pile.getTopCard()`: `null` for an empty pile, else the last card added. */
  function GetTopCard(p: DiscardPile): (r: Option<Card>)
    ensures r.None? <==> IsEmpty(p)
    ensures r.Some? ==> r.value == p.cards[Size(p) - 1]
  {
    if |p.cards| == 0 then None else Some(p.cards[|p.cards| - 1])
  }

  /** `pile.getAllCards()`: a copy of the cards, oldest first. */
  function GetAllCards(p: DiscardPile): (r: seq<Card>)
    ensures DiscardPile(r) == p
  {
    p.cards[..]
  }

  /** `pile.clear()` */
  function Clear(p: DiscardPile): (r: DiscardPile)
    ensures IsEmpty(r)
  {
    DiscardPile([])
  }

  /** `pile.countBySymbol()`: the count of each symbol present in the pile. */
  function CountBySymbol(p: DiscardPile): (counts: map<Symbol, nat>)
    ensures forall s :: s in counts <==> CountOf(p.cards, s) > 0
    ensures forall s :: s in counts ==> counts[s] == CountOf(p.cards, s)
  {
    Tally(p.cards)
  }

  /** Discarding a card raises exactly its own symbol's count by one. */
  lemma DiscardRaisesItsCount(p: DiscardPile, c: Card)
    ensures var after := CountBySymbol(Add(p, Some(c)));
      c.symbol in after
      && after[c.symbol] == (if c.symbol in CountBySymbol(p) then CountBySymbol(p)[c.symbol] else 0) + 1
    ensures forall s :: s != c.symbol ==>
      (s in CountBySymbol(Add(p, Some(c))) <==> s in CountBySymbol(p))
      && (s in CountBySymbol(p) ==> CountBySymbol(Add(p, Some(c)))[s] == CountBySymbol(p)[s])
  {
    CountOfSnoc(p.cards, c);
  }

  /** The counts add up to the size of the pile. */
  lemma CountsSumToPileSize(p: DiscardPile)
    ensures SumOverSymbols(s => if s in CountBySymbol(p) then CountBySymbol(p)[s] else 0) == Size(p)
  {
    TallySumsToSize(p.cards);
  }
}
