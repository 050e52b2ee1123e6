/** Result and failure shapes shared by every WorkHive service model. */
module Wrappers {

  /** A value that may be absent: Java's null reference, or a remote call that yielded nothing. */
  datatype Option<T> = None | Some(value: T) {

    /** The value, or `default` when absent (Java's `x != null ? x : default`). */
    function GetOr(default: T): T
    {
      match this
      case Some(v) => v
      case None => default
    }
  }

  /**
   * Why an operation failed, as the service method itself raises it. Where a circuit breaker
   * guards the operation, its fallback throws a different exception in place of this cause.
   */
  datatype Error =
    | NotFound                 // the primary entity of the request is not stored
    | RemoteCallFailed         // a call to another service threw
    | NotAManager              // team creation: the manager's role is not "MANAGER"
    | NotADeveloper(id: int)   // team creation: this developer's role is not "DEVELOPER"
    | UsernameTaken            // registration: the username is already stored
    | EmailTaken               // registration: the email is already stored
    | NullRole                 // registration: the request carries no role string
    | InvalidCredentials       // login: the password does not match

  /** The outcome of an operation that yields a value or fails. */
  datatype Result<T> = Success(value: T) | Failure(error: Error)

  /** The outcome of an operation that yields nothing (a Java `void` method that may throw). */
  datatype Outcome = Done | Failed(error: Error)

  /** Java's conversion of a possibly-null String inside a `+` concatenation: null prints as "null". */
  function JavaText(s: Option<string>): (t: string)
    ensures s.Some? ==> t == s.value
    ensures s.None? ==> t == "null"
  {
    s.GetOr("null")
  }
}
