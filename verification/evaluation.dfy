/** The `Evaluation` entity: one graded component, a grade paired with the
    weight it carries in the final grade. Never mutated after creation. */
module Evaluations {
  import opened Wrappers
  import opened Numbers
  import opened DomainConstants
  import opened DomainExceptions
  import Grades
  import WeightPercentages

  datatype Evaluation = Evaluation(grade: Grades.Grade, weightPercentage: WeightPercentages.WeightPercentage) {

    /** What `create` guarantees of every evaluation it hands out. */
    predicate Valid() {
      grade.Valid() && weightPercentage.Valid()
    }

    function GetGrade(): Grades.Grade {
      grade
    }

    function GetWeightPercentage(): WeightPercentages.WeightPercentage {
      weightPercentage
    }

    /** The part of the final grade this evaluation accounts for:
        the grade times the weight as a fraction of 100. */
    function CalculateWeightedContribution(): (c: real)
      ensures c * TotalWeightPercentage == grade.GetValue() * weightPercentage.GetValue()
      ensures Valid() ==> 0.0 <= c <= grade.GetValue() <= MaxGrade
    {
      var factor := weightPercentage.ToDecimalFactor();
      ContributionBounded(grade.GetValue(), factor);
      grade.GetValue() * factor
    }
  }

  /** A product of a non-negative value and a factor in [0, 1] lies between
      0 and the value. */
  lemma ContributionBounded(g: real, f: real)
    ensures 0.0 <= g && 0.0 <= f <= 1.0 ==> 0.0 <= g * f <= g
  {
    if 0.0 <= g && 0.0 <= f <= 1.0 {
      assert g * f <= g * 1.0;
    }
  }

  /** The `catch` clause of `Evaluation.create`: an invalid-value error is
      rethrown as is, anything else becomes a generic invalid-parameters error. */
  function Normalize(e: DomainError): (n: DomainError)
    ensures n.InvalidValue?
    ensures e.InvalidValue? ==> n == e
  {
    if e.InvalidValue? then e else InvalidValue("Evaluation", InvalidParameters)
  }

  /** `Evaluation.create`: the grade is validated before the weight, so with
      both invalid it is the grade's error that is raised; errors from the
      value objects reach the caller unchanged. */
  function Create(grade: Number, weightPercentage: Number): (r: Result<Evaluation, DomainError>)
    ensures r.Success? <==>
              Grades.Create(grade).Success? && WeightPercentages.Create(weightPercentage).Success?
    ensures r.Success? ==>
              && r.value.Valid()
              && r.value.GetGrade().GetValue() == grade.value
              && r.value.GetWeightPercentage().GetValue() == weightPercentage.value
    ensures Grades.Create(grade).Failure? ==> r == Failure(Grades.Create(grade).error)
    ensures Grades.Create(grade).Success? && WeightPercentages.Create(weightPercentage).Failure? ==>
              r == Failure(WeightPercentages.Create(weightPercentage).error)
    ensures r.Failure? ==> r.error.InvalidValue?
  {
    match Grades.Create(grade)
    case Failure(e) => Failure(Normalize(e))
    case Success(g) =>
      match WeightPercentages.Create(weightPercentage)
      case Failure(e) => Failure(Normalize(e))
      case Success(w) => Success(Evaluation(g, w))
  }

  /** `create` succeeds exactly on a finite grade in [0, 20] and a finite
      weight in [0, 100]. */
  lemma CreateSucceedsIffInRange(grade: Number, weightPercentage: Number)
    ensures Create(grade, weightPercentage).Success? <==>
              && grade.Finite? && MinGrade <= grade.value <= MaxGrade
              && weightPercentage.Finite?
              && MinEvaluationWeightPercentage <= weightPercentage.value <= MaxEvaluationWeightPercentage
  {
  }

  /** The contributions the test suite checks, and the grade error winning
      over the weight error. */
  lemma ContributionExamples()
    ensures Create(Finite(15.0), Finite(40.0)).value.CalculateWeightedContribution() == 6.0
    ensures Create(Finite(20.0), Finite(100.0)).value.CalculateWeightedContribution() == 20.0
    ensures Create(Finite(15.0), Finite(0.0)).value.CalculateWeightedContribution() == 0.0
    ensures Create(Finite(16.0), Finite(25.0)).value.CalculateWeightedContribution() == 4.0
    ensures Create(Finite(17.5), Finite(30.0)).value.CalculateWeightedContribution() == 5.25
    ensures Create(Finite(-5.0), Finite(-10.0)) ==
              Failure(InvalidValue("Grade", MustBeBetween(MinGrade, MaxGrade)))
  {
  }
}
