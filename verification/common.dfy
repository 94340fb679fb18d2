/** Small value types shared by the rest of the model: an optional value
    (Python's `None` or a value) and the outcome of a validator. */
module Common {

  /** A value that may be absent, as a Python `Optional[...]` field. */
  datatype Option<+T> = None | Some(value: T) {
    function GetOr(default: T): T {
      match this
      case Some(v) => v
      case None => default
    }
  }

  /** What a validator produces: the accepted value, or the reason it was refused. */
  datatype Result<+T, +E> = Ok(value: T) | Err(error: E)

  function Min(a: int, b: int): int {
    if a <= b then a else b
  }
}
