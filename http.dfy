/** Results and error replies shared by every route handler.
    A handler either succeeds with a payload or answers with an HTTP
    status code and the message the route sends back as `{error: ...}`. */
module Http {

  datatype Option<+T> = None | Some(value: T)

  /** An error reply: the status code and the `error` message. */
  datatype Error = Error(status: int, message: string)

  datatype Result<+T> = Ok(value: T) | Err(error: Error)

  /** A request to the tabular store failed (an unknown sheet, a title that
      already exists); every handler's catch block turns it into this reply.
      The store's own message text is not modelled. */
  const StoreFailure: Error := Error(500, "store request failed")

  /** JavaScript truthiness of an optional request-body string: absent and
      empty are both falsy. */
  predicate Present(field: Option<string>)
  {
    field.Some? && field.value != ""
  }

  /** `a || b` on an optional string: the field when it is truthy, else the fallback. */
  function OrElse(field: Option<string>, fallback: string): string
  {
    if Present(field) then field.value else fallback
  }
}
