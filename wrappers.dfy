/** Option and Result: the absent/present and success/failure values the model
    uses where the source has `undefined` and thrown errors. */
module Wrappers {

  datatype Option<+T> = None | Some(value: T)

  datatype Result<+T, +E> = Ok(value: T) | Err(error: E)

  /** `x ?? fallback`: the value if present, else the default. */
  function OrElse<T>(o: Option<T>, fallback: T): T
  {
    match o
    case Some(v) => v
    case None => fallback
  }
}
