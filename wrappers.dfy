/**
 * Option and Result wrappers, and the failures the services raise.
 *
 * Each Java exception class the services throw is mapped to one Kind:
 *   ResourceNotFoundException, CourseNotFoundException, UserNotFoundException,
 *   NotFoundRunTimeException and the "... not found" RuntimeExceptions   -> NotFound
 *   InvalidUserException and the role / ownership RuntimeExceptions      -> InvalidUser
 *   "already ..." RuntimeExceptions, QuizAlreadySubmittedException and
 *   database constraint violations                                       -> Conflict
 *   InvalidQuizGenerationException and "OTP is invalid"                  -> BadRequest
 *   UnauthorizedException and "not authorized to view" RuntimeExceptions -> Unauthorized
 *   NoSuchElementException from Optional.get(), index and argument errors -> Internal
 * The message is the literal string the source passes to the exception.
 */
module Wrappers {

  datatype Option<+T> = None | Some(value: T)

  datatype Kind = NotFound | InvalidUser | Conflict | BadRequest | Unauthorized | Internal

  datatype Failure = Failure(kind: Kind, message: string)

  datatype Result<+T> = Ok(value: T) | Err(error: Failure)
  {
    predicate IsFailure() { Err? }

    function PropagateFailure<U>(): Result<U>
      requires Err?
    {
      Err(error)
    }

    function Extract(): T
      requires Ok?
    {
      value
    }

    /** Whether this is a failure of the given kind and message. */
    predicate FailsWith(kind: Kind, message: string)
    {
      Err? && error == Failure(kind, message)
    }
  }

  /** Message of java.util.NoSuchElementException raised by Optional.get() on an empty Optional. */
  const NoValuePresent: string := "No value present"

  /** The decimal digits of n, most significant first. */
  function Digits(n: nat): (r: string)
    ensures |r| > 0 && forall i :: 0 <= i < |r| ==> '0' <= r[i] <= '9'
    decreases n
  {
    var d := ['0', '1', '2', '3', '4', '5', '6', '7', '8', '9'][n % 10];
    if n < 10 then [d] else Digits(n / 10) + [d]
  }

  /** The decimal text of a Long, as string concatenation renders it in an exception message. */
  function IdText(n: int): string
  {
    if n < 0 then "-" + Digits(-n) else Digits(n)
  }
}
