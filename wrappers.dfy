/** Optional values and the failure outcomes of the library's operations. */
module Wrappers {

  /** A nullable reference of the original: `None` stands for `null`. */
  datatype Option<+T> = None | Some(value: T)

  /** The exceptions the library throws. */
  datatype Error =
    | IllegalArgument   // bad literal key, or a half-present parametric pairing
    | IllegalState      // a set-once slot written a second time
    | NullPointer       // merge with a missing tree or a missing wildcard child

  /** A value, or the exception thrown instead of returning it. */
  datatype Result<+T> = Ok(value: T) | Err(error: Error)

  /** The completion of a statement that returns nothing: normal, or by an exception. */
  datatype Outcome = Pass | Fail(error: Error)
}
