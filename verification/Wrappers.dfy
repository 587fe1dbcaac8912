/** Outcomes of operations that return an error in the original. */
module Wrappers {

  datatype Option<+T> = None | Some(value: T)
  {
    function GetOr(default: T): T {
      match this
      case Some(v) => v
      case None => default
    }
  }

  /** Why an operation returned a non-nil error. */
  datatype Error =
    | ClientError       // a call to the chain or election service failed
    | InvalidLength     // a delegate name of an impossible length
    | InvalidHex        // a string that is not an even number of hexadecimal digits
    | MalformedLog      // a receipt log that cannot be decoded
    | DuplicateKey      // an INSERT that violates a unique key
    | SyntaxError       // an INSERT with an empty VALUES list
    | NotExist          // a SELECT that had to return rows returned none
    | Misconfigured     // a configuration value that the code refuses

  datatype Outcome = Pass | Fail(error: Error)

  datatype Result<+T> = Success(value: T) | Failure(error: Error)
}
