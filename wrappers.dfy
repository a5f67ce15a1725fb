/** Option, and the outcome of running Python code that may let an exception escape. */
module Wrappers {

  datatype Option<+T> = None | Some(value: T)

  /** `Raised` stands for any exception that leaves the modelled Python function uncaught. */
  datatype Outcome<+T> = Ok(value: T) | Raised
}
