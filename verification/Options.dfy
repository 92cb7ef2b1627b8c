/** Optional values, and results that are either a value or an error. */
module Options {

  datatype Option<+T> = None | Some(value: T)
  {
    /** The value, or the given default when there is none. */
    function GetOr(default: T): T {
      match this
      case Some(v) => v
      case None => default
    }
  }

  datatype Result<+T, +E> = Ok(value: T) | Err(error: E)
}
