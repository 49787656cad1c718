/** End-to-end scenarios over the store, chaining the use cases as the
    project's integration tests do. */
module UseCaseScenarios {
  import opened Wrappers
  import opened Numbers
  import opened Text
  import opened DomainConstants
  import opened DomainExceptions
  import opened Students
  import opened InMemoryStudentRepository
  import opened UseCaseOutcomes
  import StudentScenarios
  import RegisterEvaluationUseCase
  import UpdateAttendanceUseCase
  import UpdateExtraPointsPolicyUseCase
  import CalculateFinalGradeUseCase
  import GetCalculationDetailUseCase

  /** A student created only by recording attendance has no evaluations, so
      calculating the final grade fails with `NoEvaluations`. */
  lemma AttendanceOnlyStudentHasNoFinalGrade(store: Store, studentId: string, flag: bool)
    requires WellFormed(store) && studentId !in store
    requires UpdateAttendanceUseCase.Execute(store, studentId, flag).result.Success?
    ensures var out := UpdateAttendanceUseCase.Execute(store, studentId, flag);
            CalculateFinalGradeUseCase.Execute(out.store, out.result.value.studentId)
              == Failure(Domain(NoEvaluations))
  {
  }

  /** Registering (16, 60%) and then (14, 40%) for a new, already trimmed
      identifier yields a final grade of 15.2. */
  lemma RegisterTwiceThenCalculate(store: Store, studentId: string)
    requires WellFormed(store) && studentId !in store
    requires Trim(studentId) == studentId
    requires MinStudentIdLength <= |studentId| <= MaxStudentIdLength
    ensures var first := RegisterEvaluationUseCase.Execute(store, studentId, Finite(16.0), Finite(60.0));
            && first.result.Success?
            && var second := RegisterEvaluationUseCase.Execute(first.store, studentId, Finite(14.0), Finite(40.0));
            && second.result.Success?
            && second.result.value.totalEvaluations == 2
            && CalculateFinalGradeUseCase.Execute(second.store, studentId).Success?
            && CalculateFinalGradeUseCase.Execute(second.store, studentId).value.finalGrade == 15.2
  {
    var first := RegisterEvaluationUseCase.Execute(store, studentId, Finite(16.0), Finite(60.0));
    assert first.result.Success?;
    var second := RegisterEvaluationUseCase.Execute(first.store, studentId, Finite(14.0), Finite(40.0));
    assert second.result.Success?;
    var evaluations := second.store[studentId].GetEvaluations();
    assert |evaluations| == 2;
    StudentScenarios.TwoEvaluationsTotal(evaluations[0], evaluations[1]);
    assert evaluations == [evaluations[0], evaluations[1]];
  }

  /** A stored student whose weights do not balance makes the detail fail
      as well as the final grade. */
  lemma UnbalancedStudentHasNoDetail(store: Store, studentId: string)
    requires studentId in store
    requires |store[studentId].GetEvaluations()| > 0
    requires CalculateFinalGradeUseCase.Execute(store, studentId).Failure?
    ensures GetCalculationDetailUseCase.Execute(store, studentId)
              == Failure(Domain(InvalidWeightSum(TotalWeight(store[studentId].GetEvaluations()), TotalWeightPercentage)))
  {
  }

  /** Updating either flag keeps the evaluations, hence the final grade. */
  lemma PolicyUpdatesKeepFinalGrade(store: Store, studentId: string, flag: bool)
    requires WellFormed(store) && studentId in store
    ensures CalculateFinalGradeUseCase.Execute(UpdateAttendanceUseCase.Execute(store, studentId, flag).store, studentId)
              == CalculateFinalGradeUseCase.Execute(store, studentId)
    ensures CalculateFinalGradeUseCase.Execute(UpdateExtraPointsPolicyUseCase.Execute(store, studentId, flag).store, studentId)
              == CalculateFinalGradeUseCase.Execute(store, studentId)
  {
  }
}
