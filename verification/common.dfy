/**
 The failure-carrying datatypes shared by every stage of the compiler.

 In the C program every failure goes through `error_at`, which prints a caret
 diagnostic and calls `exit(1)`.  Here a failure is a value: the stage returns
 `Err(e)` and `e` records what `error_at` would have been told (the offending
 offset in the source text and which check failed).
 */
module Common {

  datatype Option<+T> = None | Some(value: T)

  /** What went wrong, and the source offset `error_at` would put the caret under. */
  datatype Error =
    | Untokenizable(at: nat)           // the lexer met a character it has no rule for
    | NotExpected(op: string, at: nat)  // `expect(op)` saw another token
    | NotANumber(at: nat)               // `expect_number()` saw a non-number token

  datatype Result<+T> = Ok(value: T) | Err(error: Error) {

    predicate IsFailure() {
      Err?
    }

    function PropagateFailure<U>(): Result<U>
      requires Err?
    {
      Err(error)
    }

    function Extract(): T
      requires Ok?
    {
      value
    }
  }
}
