/** Shared result types of the blog backend model: optional values, results, and the
    HTTP-level errors the services raise. */
module Common {

  datatype Option<+T> = None | Some(value: T)

  /** The exceptions the services throw, by the HTTP status they surface as. */
  datatype HttpError =
    | BadRequest(message: string)     // 400
    | Unauthorized(message: string)   // 401
    | Forbidden(message: string)      // 403
    | NotFound(message: string)       // 404
    | ProgrammingError(message: string) // a plain `Error`, not caught anywhere

  datatype Result<+T> = Ok(value: T) | Err(error: HttpError) {
    predicate IsFailure() { Err? }
    function PropagateFailure<U>(): Result<U>
      requires Err?
    {
      Err(error)
    }
    function Extract(): T
      requires Ok?
    {
      value
    }
  }

  /** JavaScript truthiness of a string that may be missing: present and non-empty. */
  predicate IsTruthy(s: Option<string>) {
    s.Some? && s.value != ""
  }

  /** A JavaScript value that may be missing: `Maybe<T>` of the source. */
  datatype Maybe<+T> = Null | Undefined | Present(value: T) {
    predicate IsNullish() { Null? || Undefined? }
  }
}
