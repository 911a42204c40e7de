/** Null, exceptions and their kinds, as values. */
module Wrappers {

  /** A reference or string that may be null: `None` stands for C#'s `null`. */
  datatype Option<+T> = None | Some(value: T)

  /** The exceptions the unit of work lets escape, by kind. */
  datatype Error =
    | DatabaseError               // anything the database collaborator throws
    | NullPropertyName            // `Type.GetProperty(null)` throws ArgumentNullException
    | PropertyNotFound(name: string)  // `GetProperty` yields null and `SetValue` dereferences it
    | NullReference               // a member nulled by `Dispose` is used again
    | ArgumentNull                // LINQ's `Count()` is handed the list nulled by `Dispose`

  /** The value a call returns, or the exception it throws. */
  datatype Result<+T> = Ok(value: T) | Err(error: Error)

  /** The outcome of a call that returns nothing (`void` in C#). */
  datatype Outcome = Pass | Fail(error: Error)
}
