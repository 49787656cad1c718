/** Concrete scenarios of the `Student` aggregate: the examples of the
    project's test suite and the edges of the weight-sum tolerance. */
module StudentScenarios {
  import opened Wrappers
  import opened Numbers
  import opened DomainConstants
  import opened DomainExceptions
  import opened Grades
  import opened WeightPercentages
  import opened StudentIds
  import opened AttendancePolicies
  import opened ExtraPointsPolicies
  import opened Evaluations
  import opened Students

  function Eval(g: real, w: real): Evaluation {
    Evaluation(Grade(g), WeightPercentage(w))
  }

  function WithEvaluations(evaluations: seq<Evaluation>, attendance: bool, extraPoints: bool): Student {
    Student(StudentId("U202012345"), evaluations, AttendancePolicy(attendance), ExtraPointsPolicy(extraPoints))
  }

  lemma TwoEvaluationsTotal(a: Evaluation, b: Evaluation)
    ensures TotalWeight([a, b]) == a.GetWeightPercentage().GetValue() + b.GetWeightPercentage().GetValue()
    ensures BaseGrade([a, b]) == a.CalculateWeightedContribution() + b.CalculateWeightedContribution()
  {
    assert [a, b][..1] == [a];
    assert [a][..0] == [];
    assert BaseGrade([a]) == a.CalculateWeightedContribution();
  }

  /** (16, 60%) and (14, 40%) give 15.2, whatever the policy flags say. */
  lemma WeightedAverageExample(attendance: bool, extraPoints: bool)
    ensures WithEvaluations([Eval(16.0, 60.0), Eval(14.0, 40.0)], attendance, extraPoints)
              .CalculateFinalGrade() == Success(15.2)
  {
    TwoEvaluationsTotal(Eval(16.0, 60.0), Eval(14.0, 40.0));
  }

  /** (20, 50%) and (20, 50%) give exactly 20. */
  lemma PerfectScoreExample()
    ensures WithEvaluations([Eval(20.0, 50.0), Eval(20.0, 50.0)], true, true)
              .CalculateFinalGrade() == Success(20.0)
  {
    TwoEvaluationsTotal(Eval(20.0, 50.0), Eval(20.0, 50.0));
  }

  /** Weights of 40% and 40% are refused, reporting 80 against 100. */
  lemma UnbalancedExample()
    ensures WithEvaluations([Eval(16.0, 40.0), Eval(14.0, 40.0)], true, true)
              .CalculateFinalGrade() == Failure(InvalidWeightSum(80.0, 100.0))
  {
    TwoEvaluationsTotal(Eval(16.0, 40.0), Eval(14.0, 40.0));
  }

  /** The tolerance is inclusive at a deviation of exactly 0.01 on both
      sides, accepts 99.995, and refuses 100.02. */
  lemma ToleranceBoundaries()
    ensures WithEvaluations([Eval(15.0, 60.0), Eval(15.0, 39.99)], true, true).CalculateFinalGrade().Success?
    ensures WithEvaluations([Eval(15.0, 60.0), Eval(15.0, 40.01)], true, true).CalculateFinalGrade().Success?
    ensures WithEvaluations([Eval(15.0, 60.0), Eval(15.0, 39.995)], true, true).CalculateFinalGrade().Success?
    ensures WithEvaluations([Eval(15.0, 60.0), Eval(15.0, 40.02)], true, true).CalculateFinalGrade()
              == Failure(InvalidWeightSum(100.02, 100.0))
  {
    TwoEvaluationsTotal(Eval(15.0, 60.0), Eval(15.0, 39.99));
    TwoEvaluationsTotal(Eval(15.0, 60.0), Eval(15.0, 40.01));
    TwoEvaluationsTotal(Eval(15.0, 60.0), Eval(15.0, 39.995));
    TwoEvaluationsTotal(Eval(15.0, 60.0), Eval(15.0, 40.02));
  }

  /** The tolerance lets a perfect record end slightly above 20, which is
      why the bound proved of `CalculateFinalGrade` is 20 * 100.01 / 100. */
  lemma FinalGradeMayExceedMaxGrade()
    ensures WithEvaluations([Eval(20.0, 50.0), Eval(20.0, 50.01)], true, true).Valid()
    ensures WithEvaluations([Eval(20.0, 50.0), Eval(20.0, 50.01)], true, true)
              .CalculateFinalGrade() == Success(20.002)
  {
    TwoEvaluationsTotal(Eval(20.0, 50.0), Eval(20.0, 50.01));
  }

  /** With no evaluations the final grade is refused but the detail reports 0. */
  lemma EmptyStudentExample()
    ensures WithEvaluations([], true, true).CalculateFinalGrade() == Failure(NoEvaluations)
    ensures WithEvaluations([], true, true).GetCalculationDetail().Success?
    ensures WithEvaluations([], true, true).GetCalculationDetail().value.finalGrade == 0.0
  {
  }

  /** The detail of (16, 60%), (14, 40%) with both flags set. */
  lemma CalculationDetailExample()
    ensures var d := WithEvaluations([Eval(16.0, 60.0), Eval(14.0, 40.0)], true, true).GetCalculationDetail();
            && d.Success?
            && d.value.studentId == "U202012345"
            && |d.value.evaluations| == 2
            && d.value.evaluations[0] == EvaluationDetail(1, 16.0, 60.0, 9.6)
            && d.value.baseGrade == 15.2
            && d.value.canReceiveExtraPoints
            && d.value.finalGrade == 15.2
    ensures !WithEvaluations([Eval(16.0, 50.0), Eval(14.0, 50.0)], false, true)
               .GetCalculationDetail().value.canReceiveExtraPoints
  {
    TwoEvaluationsTotal(Eval(16.0, 60.0), Eval(14.0, 40.0));
    TwoEvaluationsTotal(Eval(16.0, 50.0), Eval(14.0, 50.0));
  }

  /** The final grade depends on the evaluations alone: neither the
      identifier nor the policy flags take part, so equal evaluation
      sequences give equal results. */
  lemma FinalGradeDependsOnEvaluationsOnly(s: Student, t: Student)
    requires s.GetEvaluations() == t.GetEvaluations()
    ensures s.CalculateFinalGrade() == t.CalculateFinalGrade()
  {
  }

  /** A full aggregate refuses an eleventh evaluation before looking at it,
      and leaves its evaluations as they were. */
  lemma EleventhEvaluationRefused(s: Student, grade: Number, weightPercentage: Number)
    requires |s.GetEvaluations()| == MaxEvaluationsPerStudent
    ensures s.AddEvaluation(grade, weightPercentage) == Failure(MaxEvaluationsExceeded(10))
  {
  }
}
