/** Recording whether a student reached the minimum attendance: replace the
    flag of a stored student, or create one with this flag and extra points
    off, then save. */
module UpdateAttendanceUseCase {
  import opened Wrappers
  import opened Text
  import opened DomainConstants
  import StudentIds
  import opened Students
  import opened InMemoryStudentRepository
  import opened UseCaseOutcomes

  datatype UpdateAttendanceResponse = UpdateAttendanceResponse(studentId: string, hasReachedMinimumClasses: bool)

  /** `execute`. Only an invalid identifier for a new student can fail, and
      then nothing is saved. */
  function Execute(store: Store, studentId: string, hasReachedMinimumClasses: bool)
    : (out: Execution<UpdateAttendanceResponse>)
    ensures out.result.Failure? ==>
              && out.store == store
              && studentId !in store
              && StudentIds.Create(studentId).Failure?
              && out.result.error == Domain(StudentIds.Create(studentId).error)
    ensures studentId in store ==> out.result.Success?
    ensures studentId in store && WellFormed(store) ==>
              && out.result.value.studentId == studentId
              && out.store == store[studentId := store[studentId].UpdateAttendancePolicy(hasReachedMinimumClasses)]
    ensures studentId !in store ==>
              (out.result.Success? <==> MinStudentIdLength <= |Trim(studentId)| <= MaxStudentIdLength)
    ensures out.result.Success? && studentId !in store ==>
              && out.result.value.studentId == Trim(studentId)
              && Trim(studentId) in out.store
              && out.store[Trim(studentId)].GetEvaluations() == []
              && !out.store[Trim(studentId)].GetExtraPointsPolicy().GetValue()
    ensures out.result.Success? ==>
              var key := out.result.value.studentId;
              && key in out.store
              && out.store == store[key := out.store[key]]
              && out.result.value.hasReachedMinimumClasses == hasReachedMinimumClasses
              && out.store[key].GetAttendancePolicy().GetValue() == hasReachedMinimumClasses
    ensures WellFormed(store) ==> WellFormed(out.store)
  {
    var found := match FindById(store, studentId)
                 case Some(existing) => Success(existing.UpdateAttendancePolicy(hasReachedMinimumClasses))
                 case None => Students.Create(studentId, hasReachedMinimumClasses, false);
    match found
    case Failure(e) => Execution(store, Failure(Domain(e)))
    case Success(student) =>
      Execution(
        Save(store, student),
        Success(UpdateAttendanceResponse(
          student.GetStudentId().GetValue(),
          student.GetAttendancePolicy().GetValue())))
  }

  /** Setting the flag and then clearing it leaves it cleared. */
  lemma SetThenClear(store: Store, studentId: string)
    requires WellFormed(store)
    requires Execute(store, studentId, true).result.Success?
    ensures var first := Execute(store, studentId, true);
            var second := Execute(first.store, first.result.value.studentId, false);
            && second.result.Success?
            && second.result.value.studentId == first.result.value.studentId
            && !second.store[first.result.value.studentId].GetAttendancePolicy().GetValue()
  {
  }
}
