/** A player (js/player.js): a name, a hand that may not have been dealt yet,
    and an elimination flag. */
module Players {
  import opened Wrappers
  import opened Hands

  datatype Player = Player(name: string, hand: Option<Hand>, isEliminated: bool)

  /** `new Player(name)`: no hand yet, not eliminated. */
  function NewPlayer(name: string): (p: Player)
    ensures p.name == name && p.hand.None?
    ensures !p.isEliminated && IsActive(p)
  {
    Player(name, None, false)
  }

  /** `player.eliminate()` */
  function Eliminate(p: Player): (r: Player)
    ensures !IsActive(r)
    ensures r.name == p.name && r.hand == p.hand
  {
    p.(isEliminated := true)
  }

  /** Eliminating twice is eliminating once, and an eliminated player is left as is. */
  lemma EliminateIsIdempotent(p: Player)
    ensures Eliminate(Eliminate(p)) == Eliminate(p)
    ensures p.isEliminated ==> Eliminate(p) == p
  {
  }

  /** `player.isActive()` */
  function IsActive(p: Player): (r: bool)
    ensures r <==> !p.isEliminated
  {
    !p.isEliminated
  }

  /** `player.hasEmptyHand()`: `this.hand && this.hand.isEmpty()`, which is
      `null` (falsy, here `false`) when there is no hand. */
  function HasEmptyHand(p: Player): (r: bool)
    ensures p.hand.None? ==> !r
    ensures p.hand.Some? ==> (r <==> IsEmpty(p.hand.value))
  {
    match p.hand
    case None => false
    case Some(h) => IsEmpty(h)
  }

  /** `player.getHandSize()`: 0 without a hand. */
  function GetHandSize(p: Player): (n: nat)
    ensures p.hand.None? ==> n == 0
    ensures p.hand.Some? ==> n == Size(p.hand.value)
  {
    match p.hand
    case None => 0
    case Some(h) => Size(h)
  }

  /** `player.getScore()`: 0 without a hand. */
  function GetScore(p: Player): (score: int)
    ensures p.hand.None? ==> score == 0
    ensures p.hand.Some? ==> score == CalculateScore(p.hand.value)
  {
    match p.hand
    case None => 0
    case Some(h) => CalculateScore(h)
  }

  /** A player has an empty hand exactly when a hand is dealt and its size is 0;
      a missing hand counts as size 0 but not as an empty hand. */
  lemma EmptyHandMeansSizeZero(p: Player)
    ensures HasEmptyHand(p) <==> p.hand.Some? && GetHandSize(p) == 0
    ensures p.hand.None? ==> GetHandSize(p) == 0 && !HasEmptyHand(p)
  {
  }

  /** Elimination does not touch the hand: size, score and emptiness stay. */
  lemma EliminateKeepsHand(p: Player)
    ensures GetHandSize(Eliminate(p)) == GetHandSize(p)
    ensures GetScore(Eliminate(p)) == GetScore(p)
    ensures HasEmptyHand(Eliminate(p)) == HasEmptyHand(p)
  {
  }
}
