/** Option and Result values for the chaincodes' error returns (Go's `error`,
    TypeScript's thrown `Error`), usable with `:-`. */
module Wrappers {

  datatype Option<+T> = None | Some(value: T)

  datatype Result<+T, +E> = Ok(value: T) | Err(error: E) {

    predicate IsFailure() {
      Err?
    }

    function PropagateFailure<U>(): Result<U, E>
      requires Err?
    {
      Err(error)
    }

    function Extract(): T
      requires Ok?
    {
      value
    }
  }
}

/** The error conditions the chaincodes report. */
module Errors {

  datatype Error =
    | AlreadyExists(key: string)  // "... already exists": the key already holds a value
    | NotFound(key: string)       // "... not found" / "... does not exist": nothing stored at the key
    | InvalidKey                  // the shim refused a composite key or a range bound
    | Undecodable                 // the JSON text did not decode into the expected type
    | NotIssuer                   // "Only the issuer can revoke credentials"
}
