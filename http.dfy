/** Outcomes of a request handler: a value on success, or an HTTP status
    with the error message the handler sends back. */
module Http {

  datatype Option<+T> = None | Some(value: T)

  datatype Outcome<+T> = Ok(value: T) | Fail(status: nat, message: string)

  const BadRequest: nat := 400
  const Forbidden: nat := 403
  const NotFound: nat := 404
  const ServerError: nat := 500

  /** A JavaScript string is falsy when it is missing or empty. */
  predicate TruthyString(s: Option<string>) {
    s.Some? && s.value != ""
  }
}
