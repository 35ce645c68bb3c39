/**
  Option, Result and the Java exceptions the modelled code can raise: the
  wrapper types the rest of the model is written in.
 */
module Wrappers {

  /** `None` stands for a Java `null` reference; `Some(v)` for a non-null one. */
  datatype Option<+T> = None | Some(value: T)

  /** The outcome of a Java call that either returns a value or throws. */
  datatype Result<+T, +E> = Ok(value: T) | Err(error: E)

  /** The exceptions the modelled code can raise. */
  datatype Error =
    | NullPointer            // a dereference of null, or an explicit null-argument guard
    | IllegalArgument        // the persistence context rejects a null key or a null instance
    | Arithmetic             // `% 0` when the batch size is zero
    | ArrayIndexOutOfBounds  // `values[0]` on an empty split result
}
