/** The four domain errors, written as one tagged datatype instead of a class
    hierarchy under a common base exception. */
module DomainExceptions {

  /** Why a value object refused its input. The source renders each of these
      as a message string; the model keeps the structured payload. */
  datatype Reason =
    | MustBeFinite                                  // "must be a finite number"
    | MustBeBetween(min: real, max: real)           // "must be between {min} and {max}"
    | CannotBeEmpty                                 // "cannot be empty"
    | LengthMustBeBetween(minLength: nat, maxLength: nat)  // "must be between {min} and {max} characters"
    | InvalidParameters                             // "invalid parameters"

  datatype DomainError =
    | InvalidValue(field: string, reason: Reason)
    | MaxEvaluationsExceeded(limit: nat)
    | InvalidWeightSum(currentSum: real, expectedSum: real)
    | NoEvaluations
}
