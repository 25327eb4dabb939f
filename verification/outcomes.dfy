/**
 * Absence and failure, shared by every module of the model.
 *
 * Java's `null` becomes `None`; the exceptions the timeline code throws become
 * the `Err` side of a `Result`.
 */
module Outcomes {

  /** A possibly absent value: `None` stands for Java's `null`. */
  datatype Option<+T> = None | Some(value: T)

  /** The exceptions the core throws (or provokes) on purpose. */
  datatype Error =
    | IllegalArgument         // Preconditions.checkArgument / checkIndex
    | IllegalState            // re-entrant notification
    | NoSuchElement           // cursor moved past an end
    | ConcurrentModification  // cursor used after the tree changed
    | Unsupported             // cursor set/add/remove
    | ListenerFailure         // an exception escaping a listener callback
    | NullPointer             // a `null` result dereferenced
    | Arithmetic              // `Math.multiplyExact` / `addExact` overflowing a `long`
    | DateTime                // an `Instant` outside its supported range

  datatype Result<+T> = Ok(value: T) | Err(error: Error)

  /** A call that returns nothing but may throw. */
  datatype Outcome = Done | Fail(error: Error)
}
