/** Failure-carrying datatypes and the error codes that the services raise. */
module Wrappers {

  datatype Option<+T> = None | Some(value: T)

  /** The HTTP statuses of the services' exceptions; ServerError stands for an
      exception that no handler expects (a NOT NULL or range violation, say). */
  datatype Error = BadRequest | Unauthorized | Forbidden | NotFound | Conflict | ServerError

  datatype Result<+T> = Ok(value: T) | Err(error: Error)

  /** One field of a partial update (`model_dump(exclude_unset=True)`): left out of
      the request, present as null, or present with a value. */
  datatype Patch<+T> = Unset | Null | Set(value: T)
  {
    /** The new value of a column that admits null. */
    function OnNullable(current: Option<T>): Option<T> {
      match this
      case Unset => current
      case Null => None
      case Set(v) => Some(v)
    }

    /** The new value of a NOT NULL column; a null is refused before this is used. */
    function OnRequired(current: T): T {
      match this
      case Set(v) => v
      case _ => current
    }
  }
}
