/** Recording whether the teachers agreed to grant extra points: replace the
    flag of a stored student, or create one with attendance off and this
    flag, then save. */
module UpdateExtraPointsPolicyUseCase {
  import opened Wrappers
  import opened Text
  import opened DomainConstants
  import StudentIds
  import opened Students
  import opened InMemoryStudentRepository
  import opened UseCaseOutcomes

  datatype UpdateExtraPointsPolicyResponse = UpdateExtraPointsPolicyResponse(studentId: string, allYearsTeachers: bool)

  /** `execute`. Only an invalid identifier for a new student can fail, and
      then nothing is saved. */
  function Execute(store: Store, studentId: string, allYearsTeachers: bool)
    : (out: Execution<UpdateExtraPointsPolicyResponse>)
    ensures out.result.Failure? ==>
              && out.store == store
              && studentId !in store
              && StudentIds.Create(studentId).Failure?
              && out.result.error == Domain(StudentIds.Create(studentId).error)
    ensures studentId in store ==> out.result.Success?
    ensures studentId in store && WellFormed(store) ==>
              && out.result.value.studentId == studentId
              && out.store == store[studentId := store[studentId].UpdateExtraPointsPolicy(allYearsTeachers)]
    ensures studentId !in store ==>
              (out.result.Success? <==> MinStudentIdLength <= |Trim(studentId)| <= MaxStudentIdLength)
    ensures out.result.Success? && studentId !in store ==>
              && out.result.value.studentId == Trim(studentId)
              && Trim(studentId) in out.store
              && out.store[Trim(studentId)].GetEvaluations() == []
              && !out.store[Trim(studentId)].GetAttendancePolicy().GetValue()
    ensures out.result.Success? ==>
              var key := out.result.value.studentId;
              && key in out.store
              && out.store == store[key := out.store[key]]
              && out.result.value.allYearsTeachers == allYearsTeachers
              && out.store[key].GetExtraPointsPolicy().GetValue() == allYearsTeachers
    ensures WellFormed(store) ==> WellFormed(out.store)
  {
    var found := match FindById(store, studentId)
                 case Some(existing) => Success(existing.UpdateExtraPointsPolicy(allYearsTeachers))
                 case None => Students.Create(studentId, false, allYearsTeachers);
    match found
    case Failure(e) => Execution(store, Failure(Domain(e)))
    case Success(student) =>
      Execution(
        Save(store, student),
        Success(UpdateExtraPointsPolicyResponse(
          student.GetStudentId().GetValue(),
          student.GetExtraPointsPolicy().GetValue())))
  }
}
