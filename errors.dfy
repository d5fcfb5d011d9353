/** The exceptions the runtime raises, as values. */
module Errors {
  import opened Json

  datatype Error =
    | MalformedResponse(message: string) // MalformedResponseException
    | InvalidCast                        // a `(JObject)` cast of another token
    | Serialization                      // ToObject<T> met a token of the wrong shape
    | DuplicateKey(key: string)          // Dictionary.Add of a present key
    | InvalidMethod(name: string)        // ArgumentException "Invalid method name"
    | InvalidOperation                   // InvalidOperationException
    | ApiError(error: seq<Prop>)         // ApiRequestException from an `error` object
    | ApiErrorText(text: string)         // ApiRequestException from the body text
    | NotSupported                       // NotSupportedException
    | InvalidEnumArgument                // InvalidEnumArgumentException
    | Overflow                           // OverflowException

  /** A computation that either yields a value or raises one error. */
  datatype Result<T> = Ok(value: T) | Err(error: Error) {

    predicate IsFailure() {
      Err?
    }

    function PropagateFailure<U>(): Result<U>
      requires Err?
    {
      Err(error)
    }

    function Extract(): T
      requires Ok?
    {
      value
    }
  }
}
