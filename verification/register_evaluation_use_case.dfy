/** Registering an evaluation: look the student up by the raw identifier,
    create one with both flags off when absent, append the evaluation and
    save the aggregate under its trimmed identifier. */
module RegisterEvaluationUseCase {
  import opened Wrappers
  import opened Numbers
  import opened Text
  import opened DomainConstants
  import opened DomainExceptions
  import StudentIds
  import Evaluations
  import opened Students
  import opened InMemoryStudentRepository
  import opened UseCaseOutcomes

  datatype RegisterEvaluationResponse = RegisterEvaluationResponse(studentId: string, totalEvaluations: nat)

  /** `execute`. Any validation failure or the cap is raised before `save`,
      so a failed call leaves the store as it was. */
  function Execute(store: Store, studentId: string, grade: Number, weightPercentage: Number)
    : (out: Execution<RegisterEvaluationResponse>)
    ensures out.result.Failure? ==> out.store == store && out.result.error.Domain?
    ensures studentId in store ==>
              && (out.result.Success? <==> store[studentId].AddEvaluation(grade, weightPercentage).Success?)
              && (out.result.Failure? ==>
                    out.result.error == Domain(store[studentId].AddEvaluation(grade, weightPercentage).error))
    ensures studentId !in store ==>
              (out.result.Success? <==>
                 StudentIds.Create(studentId).Success? && Evaluations.Create(grade, weightPercentage).Success?)
    ensures studentId !in store && StudentIds.Create(studentId).Failure? ==>
              out.result == Failure(Domain(StudentIds.Create(studentId).error))
    ensures studentId !in store && StudentIds.Create(studentId).Success?
            && Evaluations.Create(grade, weightPercentage).Failure? ==>
              out.result == Failure(Domain(Evaluations.Create(grade, weightPercentage).error))
    ensures out.result.Success? ==>
              var key := out.result.value.studentId;
              && key in out.store
              && out.store == store[key := out.store[key]]
              && out.result.value.totalEvaluations == |out.store[key].GetEvaluations()|
    ensures out.result.Success? && studentId in store && WellFormed(store) ==>
              var before := store[studentId].GetEvaluations();
              var after := out.store[studentId].GetEvaluations();
              && out.result.value.studentId == studentId
              && |after| == |before| + 1
              && after[..|before|] == before
              && after[|before|].GetGrade().GetValue() == grade.value
              && after[|before|].GetWeightPercentage().GetValue() == weightPercentage.value
              && out.store[studentId].GetAttendancePolicy() == store[studentId].GetAttendancePolicy()
              && out.store[studentId].GetExtraPointsPolicy() == store[studentId].GetExtraPointsPolicy()
    ensures out.result.Success? && studentId !in store ==>
              && out.result.value.studentId == Trim(studentId)
              && Trim(studentId) in out.store
              && var created := out.store[Trim(studentId)];
              && |created.GetEvaluations()| == 1
              && created.GetEvaluations()[0].GetGrade().GetValue() == grade.value
              && created.GetEvaluations()[0].GetWeightPercentage().GetValue() == weightPercentage.value
              && !created.GetAttendancePolicy().GetValue()
              && !created.GetExtraPointsPolicy().GetValue()
    ensures WellFormed(store) ==> WellFormed(out.store)
  {
    var found := match FindById(store, studentId)
                 case Some(existing) => Success(existing)
                 case None => Students.Create(studentId, false, false);
    match found
    case Failure(e) => Execution(store, Failure(Domain(e)))
    case Success(student) =>
      match student.AddEvaluation(grade, weightPercentage)
      case Failure(e) => Execution(store, Failure(Domain(e)))
      case Success(updated) =>
        Execution(
          Save(store, updated),
          Success(RegisterEvaluationResponse(updated.GetStudentId().GetValue(), |updated.GetEvaluations()|)))
  }

  /** The eleventh registration for one identifier fails with the cap and
      saves nothing, whatever grade and weight it carries. */
  lemma EleventhRegistrationRefused(store: Store, studentId: string, grade: Number, weightPercentage: Number)
    requires studentId in store && |store[studentId].GetEvaluations()| == MaxEvaluationsPerStudent
    ensures Execute(store, studentId, grade, weightPercentage) ==
              Execution(store, Failure(Domain(MaxEvaluationsExceeded(10))))
  {
  }

  /** Lookup uses the raw identifier while `save` files under the trimmed
      one, so an identifier with whitespace around it never finds a stored
      student. */
  lemma PaddedIdIsNeverFound(store: Store, studentId: string)
    requires WellFormed(store)
    requires Trim(studentId) != studentId
    ensures FindById(store, studentId) == None
  {
    if studentId in store {
      StudentIds.ValidIdIsFixedByTrim(store[studentId].GetStudentId());
    }
  }

  /** Consequently, registering under a padded form of a stored identifier
      replaces that student by a fresh one: its earlier evaluations and
      policy flags are lost. */
  lemma {:induction false} PaddedIdReplacesStoredStudent(
    store: Store, studentId: string, grade: Number, weightPercentage: Number)
    requires WellFormed(store)
    requires Trim(studentId) != studentId && Trim(studentId) in store
    requires Evaluations.Create(grade, weightPercentage).Success?
    ensures Execute(store, studentId, grade, weightPercentage).result.Success?
    ensures var after := Execute(store, studentId, grade, weightPercentage).store;
            && |after[Trim(studentId)].GetEvaluations()| == 1
            && !after[Trim(studentId)].GetAttendancePolicy().GetValue()
            && !after[Trim(studentId)].GetExtraPointsPolicy().GetValue()
  {
    PaddedIdIsNeverFound(store, studentId);
    StudentIds.ValidIdIsFixedByTrim(store[Trim(studentId)].GetStudentId());
  }
}
