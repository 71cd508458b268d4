/** The 3x3 board (js/board.js): nine slots numbered 1 to 9, slot 9 the centre,
    each holding a card or `null`. */
module Boards {
  import opened Wrappers
  import opened Js
  import opened Cards

  /** `position` is an integer from 1 to 9. */
  predicate ValidPosition(position: int) {
    1 <= position <= 9
  }

  /** The slot map `_slots`; `None` is `null`. */
  datatype Board = Board(slots: map<int, Option<Card>>) {
    /** The class keeps exactly the keys 1 to 9. */
    ghost predicate Valid() {
      forall p :: p in slots <==> ValidPosition(p)
    }
  }

  /** `new Board()`: every slot 1 to 9 present and `null`. */
  function NewBoard(): (b: Board)
    ensures b.Valid()
    ensures forall p :: ValidPosition(p) ==> b.slots[p].None?
  {
    PositionsCoverBoard();
    Board(map p | p in Positions :: None)
  }

  /** `_assertValidPosition(position)`: passes for 1 to 9, throws otherwise. */
  function AssertValidPosition(position: int): (r: Outcome)
    ensures r.Pass? <==> ValidPosition(position)
    ensures r.Fail? ==> r.error == InvalidPosition
  {
    if position < 1 || position > 9 then Fail(InvalidPosition) else Pass
  }

  /** `board.isEmpty(position)`: whether the slot holds `null`. */
  function IsEmpty(b: Board, position: int): (r: Result<bool>)
    requires b.Valid()
    ensures !ValidPosition(position) ==> r == Failure(InvalidPosition)
    ensures ValidPosition(position) ==> r.Success? && (r.value <==> b.slots[position].None?)
  {
    if AssertValidPosition(position).Fail? then Failure(InvalidPosition)
    else Success(b.slots[position] == None)
  }

  /** `board.getCard(position)`: the card in the slot, or `null`. */
  function GetCard(b: Board, position: int): (r: Result<Option<Card>>)
    requires b.Valid()
    ensures !ValidPosition(position) ==> r == Failure(InvalidPosition)
    ensures ValidPosition(position) ==> r == Success(b.slots[position])
  {
    if AssertValidPosition(position).Fail? then Failure(InvalidPosition)
    else Success(b.slots[position])
  }

  /** `board.placeCard(position, card)`: the checks run in order (position,
      then a missing card, then an occupied slot); on success only that slot
      changes. */
  function PlaceCard(b: Board, position: int, card: Option<Card>): (r: Result<Board>)
    requires b.Valid()
    ensures !ValidPosition(position) ==> r == Failure(InvalidPosition)
    ensures ValidPosition(position) && card.None? ==> r == Failure(CardNotProvided)
    ensures ValidPosition(position) && card.Some? && b.slots[position].Some? ==> r == Failure(PositionOccupied)
    ensures r.Success? <==> ValidPosition(position) && card.Some? && b.slots[position].None?
    ensures r.Success? ==> r.value.Valid() && r.value.slots[position] == card
    ensures r.Success? ==> forall p :: p in b.slots && p != position ==> r.value.slots[p] == b.slots[p]
  {
    if AssertValidPosition(position).Fail? then Failure(InvalidPosition)
    else if card.None? then Failure(CardNotProvided)
    else if !IsEmpty(b, position).value then Failure(PositionOccupied)
    else Success(Board(b.slots[position := card]))
  }

  /** A removed card (or `null`) and the board left behind. */
  datatype Removed = Removed(card: Option<Card>, board: Board)

  /** `board.removeCard(position)`: returns the previous occupant, possibly
      `null`, and leaves the slot `null`; no other slot changes. */
  function RemoveCard(b: Board, position: int): (r: Result<Removed>)
    requires b.Valid()
    ensures !ValidPosition(position) ==> r == Failure(InvalidPosition)
    ensures ValidPosition(position) ==> r.Success? && r.value.card == b.slots[position]
    ensures r.Success? ==> r.value.board.Valid() && r.value.board.slots[position].None?
    ensures r.Success? ==> forall p :: p in b.slots && p != position ==> r.value.board.slots[p] == b.slots[p]
  {
    if AssertValidPosition(position).Fail? then Failure(InvalidPosition)
    else Success(Removed(b.slots[position], Board(b.slots[position := None])))
  }

  /** `board.getBoard()`: a copy of the slot map, holding what `getCard` reports. */
  function GetBoard(b: Board): (r: map<int, Option<Card>>)
    requires b.Valid()
    ensures forall p :: p in r <==> ValidPosition(p)
    ensures forall p :: p in r ==> GetCard(b, p) == Success(r[p])
  {
    map p | p in b.slots :: b.slots[p]
  }

  /** Placing a card on an empty slot and removing it again gives the card back
      and restores the board exactly. */
  lemma PlaceThenRemove(b: Board, position: int, c: Card)
    requires b.Valid() && ValidPosition(position) && b.slots[position].None?
    ensures PlaceCard(b, position, Some(c)).Success?
    ensures RemoveCard(PlaceCard(b, position, Some(c)).value, position) == Success(Removed(Some(c), b))
  {
    var placed := PlaceCard(b, position, Some(c)).value;
    assert placed.slots[position := None] == b.slots;
  }

  /** Removing a card and putting it back restores the board exactly. */
  lemma RemoveThenPlace(b: Board, position: int)
    requires b.Valid() && ValidPosition(position) && b.slots[position].Some?
    ensures var removed := RemoveCard(b, position).value;
      PlaceCard(removed.board, position, removed.card) == Success(b)
  {
    var removed := RemoveCard(b, position).value;
    assert removed.board.slots[position := b.slots[position]] == b.slots;
  }

  // ---------------------------------------------------------------------------
  // Queries the CPU player calls; board.js does not define them, so they are
  // defined here from the slot map.

  /** The slot numbers in ascending order. */
  const Positions: seq<int> := [1, 2, 3, 4, 5, 6, 7, 8, 9]

  /** `board.isSlotEmpty(slot)`: the slot exists and holds `null`. */
  predicate IsSlotEmpty(b: Board, slot: int) {
    slot in b.slots && b.slots[slot].None?
  }

  /** `board.getEmptySlots()`: the empty slots, in ascending order. */
  function EmptySlots(b: Board): (r: seq<int>)
    requires b.Valid()
    ensures forall p :: p in r <==> ValidPosition(p) && IsSlotEmpty(b, p)
    ensures Increasing(r)
  {
    PositionsCoverBoard();
    var empty := (p: int) => IsSlotEmpty(b, p);
    FilterKeepsOrder(Positions, empty);
    Filter(Positions, empty)
  }

  /** `Positions` lists exactly the valid positions, increasing. */
  lemma PositionsCoverBoard()
    ensures forall p :: p in Positions <==> ValidPosition(p)
    ensures Increasing(Positions)
  {
    forall p | ValidPosition(p) ensures p in Positions {
      assert Positions[p - 1] == p;
    }
  }

  /** The values strictly increase along `xs`. */
  predicate Increasing(xs: seq<int>) {
    forall i, j :: 0 <= i < j < |xs| ==> xs[i] < xs[j]
  }

  /** Filtering an increasing list leaves an increasing list. */
  lemma {:induction false} FilterKeepsOrder(xs: seq<int>, keep: int -> bool)
    requires Increasing(xs)
    ensures Increasing(Filter(xs, keep))
    decreases |xs|
  {
    if |xs| > 0 {
      var front, last := xs[..|xs| - 1], xs[|xs| - 1];
      assert Increasing(front) by {
        forall i, j | 0 <= i < j < |front| ensures front[i] < front[j] {
          assert front[i] == xs[i] && front[j] == xs[j];
        }
      }
      FilterKeepsOrder(front, keep);
      var f := Filter(front, keep);
      if keep(last) {
        assert Filter(xs, keep) == f + [last];
        forall k | 0 <= k < |f| ensures f[k] < last {
          assert f[k] in front;
          var m :| 0 <= m < |front| && front[m] == f[k];
          assert front[m] == xs[m];
        }
        IncreasingSnoc(f, last);
      } else {
        assert Filter(xs, keep) == f;
      }
    }
  }

  /** Appending a value above every element keeps a list increasing. */
  lemma IncreasingSnoc(f: seq<int>, last: int)
    requires Increasing(f)
    requires forall k :: 0 <= k < |f| ==> f[k] < last
    ensures Increasing(f + [last])
  {
  }
}
