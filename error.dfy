/**
  The error taxonomy shared by the three decision engines, and the result type
  they return. `MathError` and `CryptoError` are part of the taxonomy but no
  engine raises them.
 */
module Errors {

  datatype AeonError = InvalidInput | MathError | InsufficientData | CryptoError

  datatype Result<T> = Ok(value: T) | Err(error: AeonError)
}
