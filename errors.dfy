/** The exceptions the modelled Python code raises, and a result type that
    carries either a value or one of them. */
module Errors {

  /** The Python exception classes the core raises or lets escape. */
  datatype PyError =
    | ValueError      // argument checks, and tuple unpacking of the wrong arity
    | TypeError       // identifier or argument of an unsupported kind
    | AttributeError  // attribute access on None
    | IntegrityError  // a commit that would break a schema constraint

  datatype Result<+T> = Ok(value: T) | Err(error: PyError)

  datatype Option<+T> = None | Some(value: T)
}
