/** Small datatypes and arithmetic shared by every module of the model. */
module Prelude {

  datatype Option<+T> = None | Some(value: T)

  /** A call that returned, or the exception it raised. */
  datatype Result<+T, +E> = Ok(value: T) | Err(error: E)

  function Max(a: int, b: int): int { if a < b then b else a }

  function Min(a: int, b: int): int { if a < b then a else b }
}
