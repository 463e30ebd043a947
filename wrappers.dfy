/** Option and Result, the model's stand-ins for `null`/`undefined` and for thrown errors. */
module Wrappers {

  datatype Option<+T> = None | Some(value: T) {
    function GetOr(default: T): T {
      match this
      case Some(v) => v
      case None => default
    }
  }

  datatype Result<+T, +E> = Ok(value: T) | Err(error: E)

  /** A JavaScript `string | null | undefined` is truthy when it is a non-empty string. */
  predicate Filled(o: Option<string>) {
    o.Some? && o.value != []
  }
}
