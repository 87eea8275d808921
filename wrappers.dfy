/** Failure-carrying results shared by every module of the model. */
module Wrappers {

  datatype Option<+T> = None | Some(value: T)

  /** The two kinds of exception the modelled functions throw. */
  datatype Error = TypeError | RangeError

  datatype Result<+R> = Success(value: R) | Failure(error: Error)

  /**
   * A JavaScript argument as far as the `typeof` / `Number.isInteger`
   * checks of the source can tell values apart.
   */
  datatype Value = Int(i: int) | NonIntegerNumber | Str(s: string) | Other
}
