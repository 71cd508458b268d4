/** The computer player's choices (js/cpuAI.js): which card to play, which slot
    to fill, which completed line to resolve, which cards a CHERRY takes and
    which slot to clear on a full board. Each call of `Math.random()` is a
    parameter `u` (or a sequence of them, `rand`). */
module CpuAI {
  import opened Wrappers
  import opened Js
  import opened Cards
  import opened Hands
  import opened Boards

  // ---------------------------------------------------------------------------
  // randomChoice

  /** `randomChoice(array)`: `null` for a missing or empty array, otherwise the
      element at `Math.floor(u * array.length)`. */
  function RandomChoice<T(==)>(choices: Option<seq<T>>, u: Random): (r: Option<T>)
    ensures r.None? <==> choices.None? || |choices.value| == 0
    ensures r.Some? ==> r.value in choices.value
  {
    match choices
    case None => None
    case Some(items) => if |items| == 0 then None else Some(items[PickIndex(u, |items|)])
  }

  /** Every element of a non-empty array is the choice for some draw. */
  lemma RandomChoiceReachesEvery<T>(items: seq<T>, k: nat)
    requires k < |items|
    ensures exists u: Random :: RandomChoice(Some(items), u) == Some(items[k])
  {
    PickIndexReaches(k, |items|);
    var u: Random := (k as real) / (|items| as real);
    assert RandomChoice(Some(items), u) == Some(items[k]);
  }

  // ---------------------------------------------------------------------------
  // selectCardToPlay

  /** The filter of `selectCardToPlay` as written:
      `card.symbol !== SYMBOLS.RAINBOW_7 && card.symbol !== SYMBOLS.SILVER_3`. */
  predicate PreferredAsWritten(c: Card) {
    Some(c.symbol) != LookupSymbol("RAINBOW_7") && Some(c.symbol) != LookupSymbol("SILVER_3")
  }

  /** `SYMBOLS.RAINBOW_7` is `undefined`, so the filter only keeps SILVER_3 out. */
  lemma PreferredAsWrittenExcludesOnlySilver3(c: Card)
    ensures PreferredAsWritten(c) <==> c.symbol != Silver3
  {
    LookupSymbolName(Silver3);
  }

  /** `selectCardToPlay(hand, gamePhase)` as written. */
  function SelectCardToPlay(hand: Hand, gamePhase: string, u: Random): (r: Option<Card>)
    ensures r.None? <==> |hand.cards| == 0
    ensures r.Some? ==> r.value in hand.cards
    ensures |hand.cards| == 1 ==> r == Some(hand.cards[0])
    ensures |hand.cards| > 1 && (exists k :: 0 <= k < |hand.cards| && PreferredAsWritten(hand.cards[k]))
      ==> PreferredAsWritten(r.value)
  {
    var cards := hand.cards;
    if |cards| == 0 then None
    else if |cards| == 1 then Some(cards[0])
    else if gamePhase == "firstTurn" then
      var validCards := Filter(cards, PreferredAsWritten);
      if |validCards| > 0 then RandomChoice(Some(validCards), u) else RandomChoice(Some(cards), u)
    else
      var preferredCards := Filter(cards, PreferredAsWritten);
      if |preferredCards| > 0 then RandomChoice(Some(preferredCards), u) else RandomChoice(Some(cards), u)
  }

  /** The first-turn branch and the normal branch choose alike: the phase makes
      no difference to the card chosen. */
  lemma SelectCardIgnoresPhase(hand: Hand, phase: string, other: string, u: Random)
    ensures SelectCardToPlay(hand, phase, u) == SelectCardToPlay(hand, other, u)
  {
  }

  /** As written, every card of a hand of two or more that the filter accepts
      is chosen for some draw. */
  lemma ChoiceCoversPreferredAsWritten(hand: Hand, gamePhase: string, c: Card)
    requires |hand.cards| > 1 && c in hand.cards && PreferredAsWritten(c)
    ensures exists u: Random :: SelectCardToPlay(hand, gamePhase, u) == Some(c)
  {
    var valid := Filter(hand.cards, PreferredAsWritten);
    var k :| 0 <= k < |valid| && valid[k] == c;
    RandomChoiceReachesEvery(valid, k);
    var u: Random :| RandomChoice(Some(valid), u) == Some(valid[k]);
    assert SelectCardToPlay(hand, gamePhase, u) == Some(c);
  }

  /** As written, the first turn can pick GOLD_7 for the centre slot: with a
      GOLD_7 and a BELL in hand and a draw of 0, the GOLD_7 is chosen. */
  lemma FirstTurnMayPickGold7()
    ensures SelectCardToPlay(Hand("CPU", [Card(0, Gold7), Card(1, Bell)]), "firstTurn", 0.0)
         == Some(Card(0, Gold7))
  {
    var cards := [Card(0, Gold7), Card(1, Bell)];
    PreferredAsWrittenExcludesOnlySilver3(cards[0]);
    PreferredAsWrittenExcludesOnlySilver3(cards[1]);
    FilterKeepsAll(cards, PreferredAsWritten);
  }

  /** The filter the comments describe: neither the seven (GOLD_7, called
      RAINBOW_7 in the code) nor SILVER_3. */
  predicate Preferred(c: Card) {
    c.symbol != Gold7 && c.symbol != Silver3
  }

  /** `selectCardToPlay` with the filter it was meant to have. */
  function SelectCardToPlayIntended(hand: Hand, gamePhase: string, u: Random): (r: Option<Card>)
    ensures r.None? <==> |hand.cards| == 0
    ensures r.Some? ==> r.value in hand.cards
    ensures |hand.cards| == 1 ==> r == Some(hand.cards[0])
    ensures |hand.cards| > 1 && (exists k :: 0 <= k < |hand.cards| && Preferred(hand.cards[k]))
      ==> r.value.symbol != Gold7 && r.value.symbol != Silver3
  {
    var cards := hand.cards;
    if |cards| == 0 then None
    else if |cards| == 1 then Some(cards[0])
    else if gamePhase == "firstTurn" then
      var validCards := Filter(cards, Preferred);
      if |validCards| > 0 then RandomChoice(Some(validCards), u) else RandomChoice(Some(cards), u)
    else
      var preferredCards := Filter(cards, Preferred);
      if |preferredCards| > 0 then RandomChoice(Some(preferredCards), u) else RandomChoice(Some(cards), u)
  }

  /** With the intended filter every preferred card of a hand of two or more is
      chosen for some draw. */
  lemma IntendedChoiceCoversPreferred(hand: Hand, gamePhase: string, c: Card)
    requires |hand.cards| > 1 && c in hand.cards && Preferred(c)
    ensures exists u: Random :: SelectCardToPlayIntended(hand, gamePhase, u) == Some(c)
  {
    var valid := Filter(hand.cards, Preferred);
    var k :| 0 <= k < |valid| && valid[k] == c;
    RandomChoiceReachesEvery(valid, k);
    var u: Random :| RandomChoice(Some(valid), u) == Some(valid[k]);
    assert SelectCardToPlayIntended(hand, gamePhase, u) == Some(c);
  }

  // ---------------------------------------------------------------------------
  // findLineCompletingSlots

  /** Whether placing `card` on `slot` succeeds and `getCompletedLines()` then
      reports at least one line. */
  ghost predicate CompletesLine<L>(b: Board, slot: int, card: Option<Card>, completedLines: Board -> seq<L>) {
    b.Valid() && match PlaceCard(b, slot, card)
      case Success(placed) => |completedLines(placed)| > 0
      case Failure(_) => false
  }

  /** The slots of `slots`, in order, on which `card` completes a line. */
  ghost function CompletingAmong<L>(b: Board, card: Option<Card>, slots: seq<int>, completedLines: Board -> seq<L>): (r: seq<int>)
    ensures forall x :: x in r <==> x in slots && CompletesLine(b, x, card, completedLines)
  {
    if |slots| == 0 then []
    else
      var last := slots[|slots| - 1];
      assert slots == slots[..|slots| - 1] + [last];
      CompletingAmong(b, card, slots[..|slots| - 1], completedLines)
        + (if CompletesLine(b, last, card, completedLines) then [last] else [])
  }

  /** Placing on every slot of `slots[..n]` succeeds. */
  ghost predicate AllPlaceable(b: Board, card: Option<Card>, slots: seq<int>, n: nat)
    requires b.Valid() && n <= |slots|
  {
    forall k :: 0 <= k < n ==> PlaceCard(b, slots[k], card).Success?
  }

  /** `findLineCompletingSlots(board, card, emptySlots)`: tries the card on each
      slot in turn (placing, asking for completed lines, removing again). The
      first placement that throws ends the search with its error; otherwise the
      result lists the slots on which the card completes a line. The board is
      left as it was either way. `getCompletedLines` is the parameter
      `completedLines`. */
  method FindLineCompletingSlots<L>(board: Board, card: Option<Card>, emptySlots: seq<int>, completedLines: Board -> seq<L>)
    returns (r: Result<seq<int>>, after: Board)
    requires board.Valid()
    ensures after == board
    ensures r.Success? <==> AllPlaceable(board, card, emptySlots, |emptySlots|)
    ensures r.Success? ==> r.value == CompletingAmong(board, card, emptySlots, completedLines)
    ensures r.Success? ==> forall x :: x in r.value ==> x in emptySlots
    ensures r.Failure? ==>
              exists k :: 0 <= k < |emptySlots| && AllPlaceable(board, card, emptySlots, k)
                && PlaceCard(board, emptySlots[k], card).Failure?
                && r.error == PlaceCard(board, emptySlots[k], card).error
  {
    var b := board;
    var found: seq<int> := [];
    var i := 0;
    while i < |emptySlots|
      invariant 0 <= i <= |emptySlots|
      invariant b == board
      invariant AllPlaceable(board, card, emptySlots, i)
      invariant found == CompletingAmong(board, card, emptySlots[..i], completedLines)
    {
      var slot := emptySlots[i];
      var placed := PlaceCard(b, slot, card);
      if placed.Failure? {
        return Failure(placed.error), b;
      }
      var completed := completedLines(placed.value);
      PlaceThenRemove(b, slot, card.value);
      b := Boards.RemoveCard(placed.value, slot).value.board;
      assert emptySlots[..i + 1] == emptySlots[..i] + [slot];
      if |completed| > 0 {
        found := found + [slot];
      }
      i := i + 1;
    }
    assert emptySlots[..i] == emptySlots;
    return Success(found), b;
  }

  // ---------------------------------------------------------------------------
  // findOpponentBlockingSlots

  /** The eight lines: three rows, three columns and two diagonals. */
  const Lines: seq<seq<int>> := [
    [1, 2, 3], [8, 9, 4], [7, 6, 5],
    [1, 8, 7], [2, 9, 6], [3, 4, 5],
    [1, 9, 5], [3, 9, 7]
  ]

  /** There are eight lines: three rows, three columns and two diagonals. */
  lemma EightLines()
    ensures |Lines| == 8
  {
  }

  /** Each line is three distinct valid positions. */
  lemma LinesAreTriples(m: nat)
    requires m < |Lines|
    ensures |Lines[m]| == 3
    ensures forall k :: 0 <= k < 3 ==> ValidPosition(Lines[m][k])
    ensures Lines[m][0] != Lines[m][1] && Lines[m][0] != Lines[m][2] && Lines[m][1] != Lines[m][2]
  {
  }

  /** `line.map(slot => board.getCard(slot))` */
  function CardsAt(b: Board, slots: seq<int>): (r: seq<Option<Card>>)
    requires b.Valid() && forall k :: 0 <= k < |slots| ==> ValidPosition(slots[k])
    ensures |r| == |slots|
    ensures forall k :: 0 <= k < |slots| ==> r[k] == b.slots[slots[k]]
  {
    if |slots| == 0 then []
    else [Boards.GetCard(b, slots[0]).value] + CardsAt(b, slots[1..])
  }

  /** Two slots both hold cards, and the cards share a symbol. */
  predicate Matching(b: Board, p: int, q: int) {
    p in b.slots && q in b.slots && Pair(b.slots[p], b.slots[q])
  }

  /** `x` is the empty slot of a three-slot line whose other two slots hold
      cards of one symbol: filling `x` blocks that line. */
  predicate Blocks(b: Board, line: seq<int>, x: int) {
    |line| == 3 &&
    ((line[0] == x && IsSlotEmpty(b, x) && Matching(b, line[1], line[2]))
     || (line[1] == x && IsSlotEmpty(b, x) && Matching(b, line[0], line[2]))
     || (line[2] == x && IsSlotEmpty(b, x) && Matching(b, line[0], line[1])))
  }

  /** `x` blocks one of the first `n` lines. */
  ghost predicate BlocksSomeLine(b: Board, x: int, n: nat) {
    exists m :: 0 <= m < n && m < |Lines| && Blocks(b, Lines[m], x)
  }

  /** The test `slot => board.isSlotEmpty(slot)`. */
  function EmptyTest(b: Board): int -> bool {
    (slot: int) => IsSlotEmpty(b, slot)
  }

  /** The test the loop body applies to one line, as written: the non-null
      cards of the line, its empty slots, and if there are two cards of one
      symbol and one empty slot, that slot. */
  function LineThreat(b: Board, line: seq<int>): (r: Option<int>)
    requires b.Valid() && forall k :: 0 <= k < |line| ==> ValidPosition(line[k])
    ensures r.Some? ==> r.value in line && IsSlotEmpty(b, r.value)
  {
    ThreatOf(Compact(CardsAt(b, line)), Filter(line, EmptyTest(b)))
  }

  /** The slot `p` as a list of zero or one empty slot. */
  function Gap(o: Option<Card>, p: int): (r: seq<int>)
    ensures |r| == (if o.None? then 1 else 0)
  {
    if o.None? then [p] else []
  }

  /** The cards and the empty slots of a line, slot by slot. */
  lemma LineParts(b: Board, line: seq<int>)
    requires b.Valid() && |line| == 3 && forall k :: 0 <= k < 3 ==> ValidPosition(line[k])
    ensures Compact(CardsAt(b, line))
      == Present(b.slots[line[0]]) + Present(b.slots[line[1]]) + Present(b.slots[line[2]])
    ensures Filter(line, EmptyTest(b))
      == Gap(b.slots[line[0]], line[0]) + Gap(b.slots[line[1]], line[1]) + Gap(b.slots[line[2]], line[2])
  {
    var p, q, s := line[0], line[1], line[2];
    assert line == [p, q, s];
    assert CardsAt(b, line) == [b.slots[p], b.slots[q], b.slots[s]];
    CompactTriple(b.slots[p], b.slots[q], b.slots[s]);
    FilterTriple(p, q, s, EmptyTest(b));
  }

  /** The test applied to a line's non-null cards and empty slots. */
  function ThreatOf(cards: seq<Card>, emptyInLine: seq<int>): Option<int> {
    if |cards| == 2 && |emptyInLine| == 1 && cards[0].symbol == cards[1].symbol then Some(emptyInLine[0])
    else None
  }

  /** Two slots hold cards of one symbol. */
  predicate Pair(a: Option<Card>, c: Option<Card>) {
    a.Some? && c.Some? && a.value.symbol == c.value.symbol
  }

  /** The test reports a slot exactly when it is the one empty slot of the
      three and the other two hold a pair. */
  lemma ThreatOfTriple(a: Option<Card>, c: Option<Card>, d: Option<Card>, p: int, q: int, s: int)
    ensures ThreatOf(Present(a) + Present(c) + Present(d), Gap(a, p) + Gap(c, q) + Gap(d, s))
      == if a.None? && Pair(c, d) then Some(p)
         else if c.None? && Pair(a, d) then Some(q)
         else if d.None? && Pair(a, c) then Some(s)
         else None
  {
    var cards, gaps := Present(a) + Present(c) + Present(d), Gap(a, p) + Gap(c, q) + Gap(d, s);
    if a.None? && c.Some? && d.Some? {
      assert cards == [c.value, d.value] && gaps == [p];
    } else if a.Some? && c.None? && d.Some? {
      assert cards == [a.value, d.value] && gaps == [q];
    } else if a.Some? && c.Some? && d.None? {
      assert cards == [a.value, c.value] && gaps == [s];
    } else {
      assert |cards| != 2 || |gaps| != 1;
    }
  }

  /** The as-written test finds exactly the slot that blocks the line. */
  lemma LineThreatFindsBlockingSlot(b: Board, line: seq<int>, x: int)
    requires b.Valid() && |line| == 3 && forall k :: 0 <= k < 3 ==> ValidPosition(line[k])
    ensures LineThreat(b, line) == Some(x) <==> Blocks(b, line, x)
  {
    LineParts(b, line);
    ThreatOfTriple(b.slots[line[0]], b.slots[line[1]], b.slots[line[2]], line[0], line[1], line[2]);
  }

  /** `findOpponentBlockingSlots(board, emptySlots)`: the slots of `emptySlots`
      that block a line, each once. */
  method FindOpponentBlockingSlots(board: Board, emptySlots: seq<int>) returns (r: seq<int>)
    requires board.Valid()
    ensures Distinct(r)
    ensures forall x :: x in r <==> x in emptySlots && BlocksSomeLine(board, x, |Lines|)
  {
    r := [];
    for l := 0 to |Lines|
      invariant Distinct(r)
      invariant forall x :: x in r <==> x in emptySlots && BlocksSomeLine(board, x, l)
    {
      var line := Lines[l];
      LinesAreTriples(l);
      var threat := LineThreat(board, line);
      forall x ensures LineThreat(board, line) == Some(x) <==> Blocks(board, line, x) {
        LineThreatFindsBlockingSlot(board, line, x);
      }
      if threat.Some? && threat.value in emptySlots && threat.value !in r {
        r := r + [threat.value];
      }
      forall x ensures BlocksSomeLine(board, x, l + 1) <==> BlocksSomeLine(board, x, l) || Blocks(board, line, x) {
        if Blocks(board, line, x) {
          assert BlocksSomeLine(board, x, l + 1);
        }
      }
    }
  }

  // ---------------------------------------------------------------------------
  // selectSlotForCard

  /** Some empty slot lets `card` complete a line. */
  ghost predicate CanComplete<L>(b: Board, card: Option<Card>, completedLines: Board -> seq<L>) {
    exists x :: ValidPosition(x) && IsSlotEmpty(b, x) && CompletesLine(b, x, card, completedLines)
  }

  /** Some empty slot blocks a line. */
  ghost predicate CanBlock(b: Board) {
    exists x :: ValidPosition(x) && BlocksSomeLine(b, x, |Lines|)
  }

  /** `selectSlotForCard(board, card, gamePhase)`: slot 9 on the first turn;
      `null` on a full board; otherwise, in this order of priority, a slot that
      completes a line, the centre, a slot that blocks a line, any empty slot,
      the random ones chosen with `randomChoice` and draw `u`. A missing card
      makes the trial placements throw. */
  method SelectSlotForCard<L>(board: Board, card: Option<Card>, gamePhase: string, completedLines: Board -> seq<L>, u: Random)
    returns (r: Result<Option<int>>)
    requires board.Valid()
    ensures gamePhase == "firstTurn" ==> r == Success(Some(9))
    ensures gamePhase != "firstTurn" && |EmptySlots(board)| == 0 ==> r == Success(None)
    ensures gamePhase != "firstTurn" && |EmptySlots(board)| > 0 ==>
              (r.Failure? <==> card.None?) && (r.Failure? ==> r.error == CardNotProvided)
    ensures gamePhase != "firstTurn" && |EmptySlots(board)| > 0 && card.Some? ==>
              r.Success? && r.value.Some? && ValidPosition(r.value.value) && IsSlotEmpty(board, r.value.value)
    ensures gamePhase != "firstTurn" && card.Some? && CanComplete(board, card, completedLines) ==>
              r.Success? && r.value.Some? && CompletesLine(board, r.value.value, card, completedLines)
    ensures (gamePhase != "firstTurn" && card.Some? && !CanComplete(board, card, completedLines)
               && IsSlotEmpty(board, 9)) ==> r == Success(Some(9))
    ensures (gamePhase != "firstTurn" && card.Some? && !CanComplete(board, card, completedLines)
               && !IsSlotEmpty(board, 9) && CanBlock(board)) ==>
              r.Success? && r.value.Some? && BlocksSomeLine(board, r.value.value, |Lines|)
  {
    var emptySlots := EmptySlots(board);
    if gamePhase == "firstTurn" {
      return Success(Some(9));
    }
    if |emptySlots| == 0 {
      return Success(None);
    }
    var completing, _ := FindLineCompletingSlots(board, card, emptySlots, completedLines);
    if completing.Failure? {
      return Failure(completing.error);
    }
    assert card.Some?;
    if |completing.value| > 0 {
      return Success(RandomChoice(Some(completing.value), u));
    }
    assert !CanComplete(board, card, completedLines);
    if 9 in emptySlots {
      return Success(Some(9));
    }
    var blocking := FindOpponentBlockingSlots(board, emptySlots);
    if |blocking| > 0 {
      return Success(RandomChoice(Some(blocking), u));
    }
    assert !CanBlock(board);
    return Success(RandomChoice(Some(emptySlots), u));
  }

  // ---------------------------------------------------------------------------
  // selectLineToResolve

  /** `selectLineToResolve(completedLines)`: `null` for none, the only line when
      there is one, a random one otherwise. */
  function SelectLineToResolve<L(==)>(completedLines: Option<seq<L>>, u: Random): (r: Option<L>)
    ensures r.None? <==> completedLines.None? || |completedLines.value| == 0
    ensures r.Some? ==> r.value in completedLines.value
    ensures completedLines.Some? && |completedLines.value| == 1 ==> r == Some(completedLines.value[0])
  {
    match completedLines
    case None => None
    case Some(lines) =>
      if |lines| == 0 then None
      else if |lines| == 1 then Some(lines[0])
      else RandomChoice(completedLines, u)
  }

  /** The special case for a single line changes nothing: the choice is always
      `randomChoice`'s. */
  lemma SelectLineIsRandomChoice<L>(completedLines: Option<seq<L>>, u: Random)
    ensures SelectLineToResolve(completedLines, u) == RandomChoice(completedLines, u)
  {
    if completedLines.Some? && |completedLines.value| == 1 {
      assert PickIndex(u, 1) == 0;
    }
  }

  // ---------------------------------------------------------------------------
  // selectCardsForCherry

  /** The selection loop: up to `count` random picks from `available`, each
      pick removed (its first occurrence) before the next, draw `i` the
      `i`-th call of `Math.random()`. */
  function PickDistinct(available: seq<int>, count: int, rand: nat -> Random, i: nat): (r: seq<int>)
    ensures |r| == if count <= 0 then 0 else Min(count, |available|)
    ensures multiset(r) <= multiset(available)
    decreases |available|
  {
    if count <= 0 || |available| == 0 then []
    else
      var slot := RandomChoice(Some(available), rand(i)).value;
      var index := IndexOf(available, slot);
      var rest := PickDistinct(RemoveAt(available, index), count - 1, rand, i + 1);
      assert multiset(rest) + multiset{slot} <= multiset(available);
      [slot] + rest
  }

  /** `Math.min` of two integers. */
  function Min(a: int, b: int): int {
    if a <= b then a else b
  }

  /** `selectCardsForCherry(selectableSlots, maxCards)`: nothing for a missing
      or empty list; otherwise `Math.min(1, maxCards, length)` random slots,
      which for the easy CPU is one slot or none. */
  function SelectCardsForCherry(selectableSlots: Option<seq<int>>, maxCards: int, rand: nat -> Random): (selected: seq<int>)
    ensures selectableSlots.None? || |selectableSlots.value| == 0 ==> selected == []
    ensures selectableSlots.Some? && |selectableSlots.value| > 0 ==>
              |selected| == (if maxCards >= 1 then 1 else 0)
              && multiset(selected) <= multiset(selectableSlots.value)
    ensures Distinct(selected)
  {
    match selectableSlots
    case None => []
    case Some(slots) =>
      if |slots| == 0 then []
      else
        var numToSelect := Min(Min(1, maxCards), |slots|);
        if numToSelect == 0 then [] else PickDistinct(slots, numToSelect, rand, 0)
  }

  /** Every selectable slot is the choice for some draw when a card may be taken. */
  lemma CherryReachesEvery(slots: seq<int>, maxCards: int, k: nat)
    requires k < |slots| && maxCards >= 1
    ensures exists rand: nat -> Random :: SelectCardsForCherry(Some(slots), maxCards, rand) == [slots[k]]
  {
    PickIndexReaches(k, |slots|);
    var u: Random := (k as real) / (|slots| as real);
    var rand := (i: nat) => u;
    var rest := RemoveAt(slots, IndexOf(slots, slots[k]));
    assert PickDistinct(rest, 0, rand, 1) == [];
    assert SelectCardsForCherry(Some(slots), maxCards, rand) == [slots[k]];
  }

  // ---------------------------------------------------------------------------
  // selectSlotToDiscard

  /** The slots other than the centre. */
  const NonCenterSlots: seq<int> := [1, 2, 3, 4, 5, 6, 7, 8]

  /** The test `slot => !board.isSlotEmpty(slot)`. */
  function OccupiedTest(b: Board): int -> bool {
    (slot: int) => !IsSlotEmpty(b, slot)
  }

  /** `selectSlotToDiscard(board)`: a random occupied slot other than the
      centre, or `null` when there is none. */
  function SelectSlotToDiscard(b: Board, u: Random): (r: Option<int>)
    ensures r.None? <==> forall p :: 1 <= p <= 8 ==> IsSlotEmpty(b, p)
    ensures r.Some? ==> 1 <= r.value <= 8 && !IsSlotEmpty(b, r.value)
  {
    var occupied := Filter(NonCenterSlots, OccupiedTest(b));
    OccupiedNonCenter(b);
    if |occupied| == 0 then None else RandomChoice(Some(occupied), u)
  }

  /** `NonCenterSlots` lists exactly the positions 1 to 8. */
  lemma NonCenterSlotsCover()
    ensures forall p :: p in NonCenterSlots <==> 1 <= p <= 8
  {
    forall p | 1 <= p <= 8 ensures p in NonCenterSlots {
      assert NonCenterSlots[p - 1] == p;
    }
  }

  /** The filtered list holds exactly the occupied slots 1 to 8. */
  lemma OccupiedNonCenter(b: Board)
    ensures forall p :: p in Filter(NonCenterSlots, OccupiedTest(b)) <==> 1 <= p <= 8 && !IsSlotEmpty(b, p)
  {
    NonCenterSlotsCover();
  }

  /** Every occupied slot other than the centre is the choice for some draw. */
  lemma DiscardReachesEvery(b: Board, x: int)
    requires 1 <= x <= 8 && !IsSlotEmpty(b, x)
    ensures exists u: Random :: SelectSlotToDiscard(b, u) == Some(x)
  {
    var occupied := Filter(NonCenterSlots, OccupiedTest(b));
    OccupiedNonCenter(b);
    assert x in occupied;
    var k :| 0 <= k < |occupied| && occupied[k] == x;
    RandomChoiceReachesEvery(occupied, k);
    var u: Random :| RandomChoice(Some(occupied), u) == Some(x);
    assert SelectSlotToDiscard(b, u) == Some(x);
  }
}
