/** The numeric limits of the domain layer, as named constants. */
module DomainConstants {

  /** Cap on the number of evaluations one student may hold. */
  const MaxEvaluationsPerStudent: nat := 10

  /** Closed range of an evaluation weight, in percent. */
  const MinEvaluationWeightPercentage: real := 0.0
  const MaxEvaluationWeightPercentage: real := 100.0

  /** Closed range of a grade. */
  const MinGrade: real := 0.0
  const MaxGrade: real := 20.0

  /** The total that the weights of all evaluations must add up to. */
  const TotalWeightPercentage: real := 100.0

  /** Number of decimal places kept when rounding a grade. */
  const GradeDecimalPrecision: nat := 2

  /** Absolute tolerance of the weight-sum check. */
  const WeightSumTolerance: real := 0.01

  /** Closed range of the trimmed length of a student identifier. */
  const MinStudentIdLength: nat := 3
  const MaxStudentIdLength: nat := 50

  /** Base of the rounding multiplier. */
  const DecimalBase: nat := 10

  /** `Math.pow` restricted to natural numbers. */
  function Pow(base: nat, exponent: nat): nat
  {
    if exponent == 0 then 1 else base * Pow(base, exponent - 1)
  }

  /** The multiplier used to round grades: `DecimalBase` raised to `GradeDecimalPrecision`. */
  function GradeRoundingMultiplier(): (m: real)
    ensures m == 100.0
  {
    Pow(DecimalBase, GradeDecimalPrecision) as real
  }
}
