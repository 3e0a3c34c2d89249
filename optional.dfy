/** A value that may be absent: JavaScript's `T | undefined` (and `T | null`
    where the source treats null and undefined alike). */
module Optional {

  datatype Option<T> = None | Some(value: T) {

    /** `x ?? fallback` */
    function GetOr(fallback: T): T {
      match this
      case Some(v) => v
      case None => fallback
    }
  }

  /** A value, or the message of the error thrown while computing it. */
  datatype Result<T> = Ok(value: T) | Err(message: string)
}
