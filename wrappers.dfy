/**
 * Shared result types. `Option` stands for Java's nullable references and
 * `Optional`; `Result` and `Outcome` stand for a return value or a thrown
 * exception, with `Error` naming the exception.
 */
module Wrappers {

  datatype Option<+T> = None | Some(value: T)

  /** The exceptions the modelled code lets escape. */
  datatype Error =
    | NotFound                 // NotFoundException
    | Unauthorized             // UnauthorizedOperationException
    | IllegalArgument          // IllegalArgumentException from Enum.valueOf or an argument check
    | NullPointer              // NullPointerException from unboxing a null number
    | DataIntegrityViolation   // the database refuses a row (null or over-long column)
    | StackOverflow            // unbounded recursion over a cyclic parent chain

  /** A value, or the exception thrown instead of returning it. */
  datatype Result<+T> = Ok(value: T) | Err(error: Error)

  /** The outcome of a `void` method: it returned, or it threw. */
  datatype Outcome = Pass | Fail(error: Error)
}
