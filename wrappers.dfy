/** Optional values and results that carry the exceptions the library throws. */
module Wrappers {

  /** A value that may be absent: a null shared pointer, an empty optional. */
  datatype Option<+T> = None | Some(value: T)

  /** The exception classes the modelled code throws. */
  datatype Exception =
    | InvalidArgument(what: string)
    | RuntimeError(what: string)
    | CheiralityException
    /** std::out_of_range, from a checked index such as vector::at. */
    | OutOfRange
    /** Values::insert on a key that is already present (an invalid_argument). */
    | ValuesKeyAlreadyExists

  /** The outcome of an operation that either returns a value or throws. */
  datatype Result<+T> = Ok(value: T) | Err(error: Exception)
}
