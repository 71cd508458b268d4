/** Optional values, results of operations that may throw, and the errors the
    game's classes throw. */
module Wrappers {

  /** `None` stands for JavaScript's `null` (or `undefined`) where the game
      returns or accepts "no value". */
  datatype Option<+T> = None | Some(value: T)

  /** The result of an operation that may throw one of the game's errors. */
  datatype Result<+T> = Success(value: T) | Failure(error: Error)

  /** The result of a check that either passes or throws. */
  datatype Outcome = Pass | Fail(error: Error)

  /** The exceptions thrown by the modelled classes. */
  datatype Error =
    | InvalidCardSymbol(name: string)   // `Invalid card symbol: ...` from the Card constructor
    | InvalidPosition                   // `position must be an integer from 1 to 9`
    | CardNotProvided                   // `card must be provided`
    | PositionOccupied                  // `position is already occupied`
    | NullDereference                   // TypeError: reading a property of `null`
}
