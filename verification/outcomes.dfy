/**
  What an operation of the helper hands back: the session as it is left, and
  either a value or the kind of exception the operation throws. Session
  writes made before an exception are kept, as they are in the session
  store.
 */
module Outcomes {
  import opened SessionCache

  /** The exceptions the helper raises, one per distinct cause. */
  datatype Failure =
    | InsecureTransport               // the callback did not arrive over https
    | MissingState                    // the callback carries no `state` parameter
    | InvalidState                    // the callback's `state` is not an outstanding issued value
    | IdpReportedError(description: string)  // the identity provider answered with an error and this description
    | CodeRedemptionFailed            // the token library's authorization-code redemption threw
    | MissingReturnUrl                // no return address is stored to send the user back to
    | MalformedExpiry                 // a stored expiry does not read as a date

  datatype Result<+T> = Ok(value: T) | Err(failure: Failure)

  /** The session after an operation together with its result. */
  datatype Outcome<+T> = Outcome(session: Session, result: Result<T>)
}
