/** The calculator's single flat error taxonomy and the failure-compatible
    wrappers used by every stage. */
module Results {
  import opened Tokens

  datatype Option<+T> = None | Some(value: T)

  /** Every way the pipeline can fail. Most constructors are a ValueError that
      calc.py raises with its own message; NotAFloat stands for the ValueError
      of Python's float(), and NoPrecedence for the KeyError of a lookup in the
      precedence table. */
  datatype Error =
    // lexer
    | InvalidNumberFormat             // a second '.' inside one number
    | DigitsSeparatedBySpace          // a number followed by blanks and a digit or '.'
    | InvalidCharacter(ch: char)      // a character the lexer does not know
    | NotAFloat(lexeme: string)       // float() rejects the lexeme (only "." here)
    // parser
    | UnexpectedEnd                   // an atom is expected but the tokens ran out
    | UnexpectedToken(kind: Kind)     // a token that cannot start an atom
    | InvalidExpression               // tokens left over after the expression
    | NoPrecedence(op: string)        // an operator token missing from the precedence table
    // evaluator
    | DivisionByZero
    | UnknownOperator(op: string)

  datatype Result<+T> = Success(value: T) | Failure(error: Error) {

    predicate IsFailure() {
      Failure?
    }

    function PropagateFailure<U>(): Result<U>
      requires Failure?
    {
      Failure(error)
    }

    function Extract(): T
      requires Success?
    {
      value
    }
  }
}
