/** Failure-carrying values shared by the modules of the model. */
module Wrappers {

  /** A value that may be absent; Python's `None` is `None`. */
  datatype Option<+T> = None | Some(value: T)

  /** The exceptions the modelled code can raise. */
  datatype Error =
    | EmptyChoice   // `random.choice` was handed an empty list (an `IndexError`)

  /** The outcome of a call that returns a value or raises. */
  datatype Result<+T> = Ok(value: T) | Raised(error: Error)
}
