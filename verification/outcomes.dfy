/** The value an operation produces, or the exception the Python code raises. */
module Outcomes {

  /** The exceptions the modelled code can raise. */
  datatype Failure =
    | MissingKey        // KeyError: a dict lookup of an absent key
    | IndexOutOfRange   // IndexError: a list index past the end
    | DivisionByZero    // ZeroDivisionError
    | LogOfNonPositive  // ValueError: math.log of a value that is not positive
    | ProbabilityLost   // AssertionError: the probabilities do not sum to exactly 1

  datatype Option<+T> = None | Some(value: T)

  datatype Result<+T> = Ok(value: T) | Err(failure: Failure)
}
