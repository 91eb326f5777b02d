/** Types shared by the user store, the note store, authentication and the exception filter. */
module Common {

  /** A value that may be absent: `null`/`undefined` in the service code, or an omitted optional field. */
  datatype Option<+T> = None | Some(value: T) {
    /** The value when present, otherwise `default` (the `x ?? default` of a destructuring default). */
    function GetOr(default: T): T {
      match this
      case Some(v) => v
      case None => default
    }
  }

  /** The outcome of an operation that either returns a value or throws an exception of kind `E`. */
  datatype Result<+T, +E> = Ok(value: T) | Err(error: E)

  /**
   * A document id assigned by the store (a MongoDB ObjectId). The model hands ids out from a counter,
   * so a later document always has a larger id, as ObjectIds generated by one process do.
   */
  type Id = nat
}
