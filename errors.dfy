/** The formatter's failure taxonomy and the failure-compatible wrappers used by every
    other module. Each `Error` variant stands for one exception that AlephFormatter
    throws to its caller. */
module Errors {

  datatype Error =
    /** A character inside a placeholder that is not a letter, a digit or '.' (with its template index). */
    | InvalidCharacterInParam(c: char, index: nat)
    /** A numeric head that does not index the positional argument list. */
    | InvalidPositionalArgumentValue(position: int)
    /** An empty member segment (`#{a..b}`) on a non-null value: the getter fallback takes the
        first character of an empty name and the resulting index exception is not caught. */
    | EmptyMemberName
    /** A name bound twice. */
    | ArgumentAlreadyExists(name: string)
    /** An odd number of items given as name/value pairs. */
    | InvalidNumberOfArguments(count: nat)
    /** An item in a name position that is not a string (the cast to String fails). */
    | NameNotAString(at: nat)

  datatype Option<+T> = None | Some(value: T)

  datatype Result<+T> = Ok(value: T) | Err(error: Error) {
    predicate IsFailure() { Err? }

    function PropagateFailure<U>(): Result<U>
      requires Err?
    {
      Err(error)
    }

    function Extract(): T
      requires Ok?
    {
      value
    }
  }

  /** The outcome of an operation that only changes state: it passes or fails with an error. */
  datatype Outcome = Pass | Fail(error: Error)
}
