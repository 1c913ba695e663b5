/**
 * Failure-carrying results and the exceptions the library throws.
 *
 * Every PHP `throw` of the modelled code becomes an `Err` carrying the
 * exception class and its exact message text.
 */
module Outcomes {

  datatype Option<+T> = None | Some(value: T)

  /** The exception classes thrown by the modelled code, with their messages. */
  datatype Error =
    | InvalidArgument(message: string)     // \InvalidArgumentException
    | Runtime(message: string)             // \RuntimeException
    | ObjectException(message: string)     // Omlex\Exception\ObjectException
    | NoSupportException(message: string)  // Omlex\Exception\NoSupportException
    | ConversionError(message: string)     // PHP's fatal "could not be converted to string"

  datatype Result<+T> = Ok(value: T) | Err(error: Error) {
    predicate IsFailure() { Err? }

    function PropagateFailure<U>(): Result<U>
      requires Err?
    {
      Err(error)
    }

    function Extract(): T
      requires Ok?
    {
      value
    }
  }
}
