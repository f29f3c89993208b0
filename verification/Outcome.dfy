/** Results and failures shared by every component of the model. A C++ exception and a
    `false` return with an error text are both a `Fail`. */
module Outcome {
  datatype Option<+T> = None | Some(value: T)

  /** Why an operation fails. The constructors separate the failures that the static
      analyses promise to exclude from the ones that depend on the data. */
  datatype Error =
    // Failures of the expression evaluator.
    | MissingSymbol(symbol: nat)
    | OperandType
    | BadLiteral
    | Overflow
    | DivisionByZero
    | MixedSign
    | FloatOverflow
    // An expression has a value of the wrong kind for its use.
    | NegativeSize
    | SizeNotInteger
    | ConditionNotBoolean
    // Failures that depend on the bytes or on the value.
    | AliasUnavailable
    | BeyondLimit
    | LimitExceeded
    | ValueMismatch
    | MissingField
    | AssertionMismatch
    | RequirementFailed
    | NoVariantCase
    | TooDeep
    | NoTerminator
    | BadSnapshot
    | NoProgress
    // Failures of plan construction.
    | DependencyCycle
    // Types and operations that a published plan does not contain.
    | InvalidType
    | ZeroAlignment
    // One of the extra tests of the strict mode.
    | NotStrict

  datatype Result<+T> = Ok(value: T) | Fail(error: Error) {
    predicate IsFailure() {
      Fail?
    }

    function PropagateFailure<U>(): Result<U>
      requires Fail?
    {
      Fail(error)
    }

    function Extract(): T
      requires Ok?
    {
      value
    }
  }
}
