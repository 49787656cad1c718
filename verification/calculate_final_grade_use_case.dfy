/** Calculating a student's final grade: look the student up by the raw
    identifier and delegate to the aggregate. Nothing is saved. */
module CalculateFinalGradeUseCase {
  import opened Wrappers
  import opened DomainConstants
  import opened Students
  import opened InMemoryStudentRepository
  import opened UseCaseOutcomes

  datatype CalculateFinalGradeResponse = CalculateFinalGradeResponse(studentId: string, finalGrade: real)

  /** `execute`: an unknown identifier is reported as not found; otherwise the
      aggregate's result, errors included, is passed through unchanged. */
  function Execute(store: Store, studentId: string): (r: Result<CalculateFinalGradeResponse, UseCaseError>)
    ensures studentId !in store ==> r == Failure(StudentNotFound(studentId))
    ensures studentId in store ==>
              && (r.Success? <==> store[studentId].CalculateFinalGrade().Success?)
              && (r.Success? ==>
                    && r.value.finalGrade == store[studentId].CalculateFinalGrade().value
                    && r.value.studentId == store[studentId].GetStudentId().GetValue())
              && (r.Failure? ==> r.error == Domain(store[studentId].CalculateFinalGrade().error))
    ensures WellFormed(store) && r.Success? ==>
              && r.value.studentId == studentId
              && 0.0 <= r.value.finalGrade
              && r.value.finalGrade <= MaxGrade * (TotalWeightPercentage + WeightSumTolerance) / TotalWeightPercentage
  {
    match FindById(store, studentId)
    case None => Failure(StudentNotFound(studentId))
    case Some(student) =>
      match student.CalculateFinalGrade()
      case Failure(e) => Failure(Domain(e))
      case Success(finalGrade) =>
        Success(CalculateFinalGradeResponse(student.GetStudentId().GetValue(), finalGrade))
  }
}
