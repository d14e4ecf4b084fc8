/** Option and Result, the failure-compatible wrappers every other module uses.
    An exception the source throws becomes an `Err` naming the .NET exception kind. */
module Wrappers {

  datatype Option<+T> = None | Some(value: T)

  /** The kinds of exception the modelled code throws. */
  datatype Error =
    | ArgumentError(reason: string)  // ArgumentException, ArgumentNullException
    | InvalidOperation               // InvalidOperationException, also `First()` of an empty sequence
    | KeyNotFound                    // a dictionary indexed with a missing key
    | IndexOutOfRange                // IndexOutOfRangeException: an array indexed out of range
    | ArgumentOutOfRange             // ArgumentOutOfRangeException: a list or `ElementAt` index out of range
    | NullReference                  // NullReferenceException
    | DivideByZero                   // DivideByZeroException
    | InvalidData                    // InvalidDataException: an illegal player action
    | NotImplemented                 // NotImplementedException: a blind that cannot be posted
    | Overflow                       // OverflowException: an array of negative length
    | Failure                        // a plain Exception
    | OutOfFuel                      // the sequence of player answers ran out before the betting ended

  datatype Result<+T> = Ok(value: T) | Err(error: Error) {
    predicate IsFailure() { Err? }

    function PropagateFailure<U>(): Result<U>
      requires Err?
    {
      Err(error)
    }

    function Extract(): T
      requires Ok?
    {
      value
    }
  }
}
