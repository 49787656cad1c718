/** Viewing how a student's final grade is obtained: look the student up by
    the raw identifier and delegate to the aggregate. Nothing is saved. */
module GetCalculationDetailUseCase {
  import opened Wrappers
  import opened DomainConstants
  import opened DomainExceptions
  import opened Students
  import opened InMemoryStudentRepository
  import opened UseCaseOutcomes

  datatype GetCalculationDetailResponse = GetCalculationDetailResponse(detail: CalculationDetail)

  /** `execute`: an unknown identifier is reported as not found; otherwise the
      aggregate's detail is returned, and an unbalanced aggregate still fails
      because the detail computes the final grade. */
  function Execute(store: Store, studentId: string): (r: Result<GetCalculationDetailResponse, UseCaseError>)
    ensures studentId !in store ==> r == Failure(StudentNotFound(studentId))
    ensures studentId in store ==>
              && (r.Success? <==> store[studentId].GetCalculationDetail().Success?)
              && (r.Success? ==> r.value.detail == store[studentId].GetCalculationDetail().value)
              && (r.Failure? ==> r.error == Domain(store[studentId].GetCalculationDetail().error))
    ensures studentId in store && r.Failure? ==>
              && |store[studentId].GetEvaluations()| > 0
              && r.error == Domain(InvalidWeightSum(TotalWeight(store[studentId].GetEvaluations()), TotalWeightPercentage))
  {
    match FindById(store, studentId)
    case None => Failure(StudentNotFound(studentId))
    case Some(student) =>
      match student.GetCalculationDetail()
      case Failure(e) => Failure(Domain(e))
      case Success(detail) => Success(GetCalculationDetailResponse(detail))
  }
}
