/** The `Student` aggregate root: an identifier, an append-only sequence of
    at most ten evaluations in registration order, and two replaceable policy
    flags. Every operation returns the updated aggregate instead of mutating
    it in place. */
module Students {
  import opened Wrappers
  import opened Numbers
  import opened Text
  import opened DomainConstants
  import opened DomainExceptions
  import Grades
  import WeightPercentages
  import StudentIds
  import AttendancePolicies
  import ExtraPointsPolicies
  import opened Evaluations

  /** The shape of the per-evaluation rows of a calculation detail. */
  datatype EvaluationDetail = EvaluationDetail(
    evaluationNumber: nat,
    grade: real,
    weight: real,
    contribution: real)

  /** A read-only snapshot of how the final grade is obtained. */
  datatype CalculationDetail = CalculationDetail(
    studentId: string,
    evaluations: seq<EvaluationDetail>,
    baseGrade: real,
    hasReachedMinimumClasses: bool,
    allYearsTeachers: bool,
    canReceiveExtraPoints: bool,
    finalGrade: real)

  predicate AllValid(evaluations: seq<Evaluation>) {
    forall i :: 0 <= i < |evaluations| ==> evaluations[i].Valid()
  }

  /** Sum of the weights, accumulated left to right as `reduce` does. */
  function TotalWeight(evaluations: seq<Evaluation>): (t: real)
    ensures AllValid(evaluations) ==>
              0.0 <= t <= MaxEvaluationWeightPercentage * |evaluations| as real
  {
    if |evaluations| == 0 then 0.0
    else
      var prefix := evaluations[..|evaluations| - 1];
      assert AllValid(evaluations) ==> AllValid(prefix);
      TotalWeight(prefix) + evaluations[|evaluations| - 1].GetWeightPercentage().GetValue()
  }

  /** Sum of the weighted contributions, accumulated left to right as
      `reduce` does. */
  function BaseGrade(evaluations: seq<Evaluation>): real
  {
    if |evaluations| == 0 then 0.0
    else
      BaseGrade(evaluations[..|evaluations| - 1])
      + evaluations[|evaluations| - 1].CalculateWeightedContribution()
  }

  /** The base grade of valid evaluations is non-negative and bounded by the
      best grade applied to the total weight. */
  lemma {:induction false} BaseGradeBounded(evaluations: seq<Evaluation>)
    ensures AllValid(evaluations) ==>
              0.0 <= BaseGrade(evaluations)
              && BaseGrade(evaluations) * TotalWeightPercentage <= MaxGrade * TotalWeight(evaluations)
    decreases |evaluations|
  {
    if |evaluations| > 0 && AllValid(evaluations) {
      var prefix := evaluations[..|evaluations| - 1];
      var last := evaluations[|evaluations| - 1];
      assert AllValid(prefix) && last.Valid();
      BaseGradeBounded(prefix);
      ContributionAtMostBestShare(last);
    }
  }

  /** One evaluation contributes at most what a perfect grade would at its weight. */
  lemma ContributionAtMostBestShare(e: Evaluation)
    ensures e.Valid() ==>
              e.CalculateWeightedContribution() * TotalWeightPercentage
                <= MaxGrade * e.GetWeightPercentage().GetValue()
  {
    if e.Valid() {
      var g, w := e.GetGrade().GetValue(), e.GetWeightPercentage().GetValue();
      ScaledBound(e.CalculateWeightedContribution(), g, w);
    }
  }

  /** If `c * 100 == g * w` with `0 <= w` and `g <= 20`, then `c * 100 <= 20 * w`. */
  lemma ScaledBound(c: real, g: real, w: real)
    requires c * TotalWeightPercentage == g * w
    requires 0.0 <= w && g <= MaxGrade
    ensures c * TotalWeightPercentage <= MaxGrade * w
  {
    assert (MaxGrade - g) * w >= 0.0;
  }

  /** Reference definition of the weighted total: the plain sum of grade
      times weight, with the division by 100 left to the caller. */
  function WeightedTotal(evaluations: seq<Evaluation>): real
  {
    if |evaluations| == 0 then 0.0
    else
      var last := evaluations[|evaluations| - 1];
      WeightedTotal(evaluations[..|evaluations| - 1])
      + last.GetGrade().GetValue() * last.GetWeightPercentage().GetValue()
  }

  /** The left-to-right sum of contributions is the reference weighted
      total over 100. */
  lemma {:induction false} BaseGradeIsWeightedAverage(evaluations: seq<Evaluation>)
    ensures BaseGrade(evaluations) * TotalWeightPercentage == WeightedTotal(evaluations)
    decreases |evaluations|
  {
    if |evaluations| > 0 {
      var prefix := evaluations[..|evaluations| - 1];
      var last := evaluations[|evaluations| - 1];
      BaseGradeIsWeightedAverage(prefix);
      ScaledSum(BaseGrade(evaluations), BaseGrade(prefix), last.CalculateWeightedContribution(),
                WeightedTotal(evaluations), WeightedTotal(prefix),
                last.GetGrade().GetValue() * last.GetWeightPercentage().GetValue());
    }
  }

  /** Scaling by 100 distributes over one step of the sum. */
  lemma ScaledSum(total: real, x: real, c: real, reference: real, y: real, z: real)
    requires total == x + c && reference == y + z
    requires x * TotalWeightPercentage == y && c * TotalWeightPercentage == z
    ensures total * TotalWeightPercentage == reference
  {
  }

  /** The base grade of a concatenation is the sum of the base grades, and
      swapping the two blocks leaves it unchanged. */
  lemma {:induction false} BaseGradeConcat(a: seq<Evaluation>, b: seq<Evaluation>)
    ensures BaseGrade(a + b) == BaseGrade(a) + BaseGrade(b)
    ensures BaseGrade(a + b) == BaseGrade(b + a)
    decreases |b|
  {
    if |b| == 0 {
      assert a + b == a;
      assert b + a == a;
    } else {
      var front := b[..|b| - 1];
      assert (a + b)[..|a + b| - 1] == a + front;
      assert (a + b)[|a + b| - 1] == b[|b| - 1];
      BaseGradeConcat(a, front);
      BaseGradeConcat(b, []);
      BaseGradeConcatLeft(b, a);
    }
  }

  /** Auxiliary to `BaseGradeConcat`: additivity with the shorter side first. */
  lemma {:induction false} BaseGradeConcatLeft(b: seq<Evaluation>, a: seq<Evaluation>)
    ensures BaseGrade(b + a) == BaseGrade(b) + BaseGrade(a)
    decreases |a|
  {
    if |a| == 0 {
      assert b + a == b;
    } else {
      var front := a[..|a| - 1];
      assert (b + a)[..|b + a| - 1] == b + front;
      assert (b + a)[|b + a| - 1] == a[|a| - 1];
      BaseGradeConcatLeft(b, front);
    }
  }

  /** The base grade does not depend on the order of the evaluations: any
      reordering of the same evaluations has the same base grade. */
  lemma {:induction false} BaseGradePermutation(a: seq<Evaluation>, b: seq<Evaluation>)
    requires multiset(a) == multiset(b)
    ensures BaseGrade(a) == BaseGrade(b)
    decreases |a|
  {
    if |a| == 0 {
      assert |b| == |multiset(b)| == 0;
    } else {
      var front, x := a[..|a| - 1], a[|a| - 1];
      assert a == front + [x];
      assert x in multiset(b);
      var i :| 0 <= i < |b| && b[i] == x;
      var b1, b2 := b[..i], b[i + 1..];
      assert b == b1 + [x] + b2;
      CancelOne(front, x, b1, b2);
      BaseGradePermutation(front, b1 + b2);
      BaseGradeConcat(b1, b2);
      BaseGradeConcat(b1 + [x], b2);
      BaseGradeConcat(b1, [x]);
      assert [x][..0] == [];
    }
  }

  /** Removing one occurrence of `x` from both sides keeps two sequences
      permutations of each other. */
  lemma CancelOne(front: seq<Evaluation>, x: Evaluation, b1: seq<Evaluation>, b2: seq<Evaluation>)
    requires multiset(front + [x]) == multiset(b1 + [x] + b2)
    ensures multiset(front) == multiset(b1 + b2)
  {
    assert multiset(front + [x]) == multiset(front) + multiset{x};
    assert multiset(b1 + [x] + b2) == multiset(b1) + multiset{x} + multiset(b2);
    assert multiset(b1 + b2) == multiset(b1) + multiset(b2);
    forall y: Evaluation
      ensures multiset(front)[y] == multiset(b1 + b2)[y]
    {
      assert (multiset(front) + multiset{x})[y] == (multiset(b1) + multiset{x} + multiset(b2))[y];
    }
  }

  /** The rows of a calculation detail: row `i` is numbered `i + 1` and
      reports the grade, the weight and the contribution of evaluation `i`. */
  function EvaluationDetails(evaluations: seq<Evaluation>): (rows: seq<EvaluationDetail>)
  {
    seq(|evaluations|, i requires 0 <= i < |evaluations| =>
      EvaluationDetail(
        i + 1,
        evaluations[i].GetGrade().GetValue(),
        evaluations[i].GetWeightPercentage().GetValue(),
        evaluations[i].CalculateWeightedContribution()))
  }

  datatype Student = Student(
    studentId: StudentIds.StudentId,
    evaluations: seq<Evaluation>,
    attendancePolicy: AttendancePolicies.AttendancePolicy,
    extraPointsPolicy: ExtraPointsPolicies.ExtraPointsPolicy)
  {

    /** The invariant the aggregate keeps: a valid identifier and at most
        ten valid evaluations. */
    predicate Valid() {
      && studentId.Valid()
      && |evaluations| <= MaxEvaluationsPerStudent
      && AllValid(evaluations)
    }

    function GetStudentId(): StudentIds.StudentId {
      studentId
    }

    /** Sequences are values, so the caller's copy can never alias the
        aggregate's own evaluations. */
    function GetEvaluations(): seq<Evaluation> {
      evaluations
    }

    function GetAttendancePolicy(): AttendancePolicies.AttendancePolicy {
      attendancePolicy
    }

    function GetExtraPointsPolicy(): ExtraPointsPolicies.ExtraPointsPolicy {
      extraPointsPolicy
    }

    /** `addEvaluation`: the cap is checked before the grade and the weight
        are validated; on success exactly one evaluation is appended at the
        end and nothing else changes. */
    function AddEvaluation(grade: Number, weightPercentage: Number): (r: Result<Student, DomainError>)
      ensures |evaluations| >= MaxEvaluationsPerStudent ==>
                r == Failure(MaxEvaluationsExceeded(MaxEvaluationsPerStudent))
      ensures |evaluations| < MaxEvaluationsPerStudent ==>
                (r.Success? <==> Evaluations.Create(grade, weightPercentage).Success?)
      ensures |evaluations| < MaxEvaluationsPerStudent && Evaluations.Create(grade, weightPercentage).Failure? ==>
                r == Failure(Evaluations.Create(grade, weightPercentage).error)
      ensures r.Success? ==>
                && r.value.studentId == studentId
                && r.value.attendancePolicy == attendancePolicy
                && r.value.extraPointsPolicy == extraPointsPolicy
                && |r.value.evaluations| == |evaluations| + 1
                && r.value.evaluations[..|evaluations|] == evaluations
                && r.value.evaluations[|evaluations|].GetGrade().GetValue() == grade.value
                && r.value.evaluations[|evaluations|].GetWeightPercentage().GetValue() == weightPercentage.value
      ensures Valid() && r.Success? ==> r.value.Valid()
    {
      if |evaluations| >= MaxEvaluationsPerStudent then
        Failure(MaxEvaluationsExceeded(MaxEvaluationsPerStudent))
      else
        var evaluation :- Evaluations.Create(grade, weightPercentage);
        assert AllValid(evaluations) ==> AllValid(evaluations + [evaluation]);
        Success(this.(evaluations := evaluations + [evaluation]))
    }

    /** `updateAttendancePolicy`: replaces the attendance flag only. */
    function UpdateAttendancePolicy(hasReachedMinimumClasses: bool): (s: Student)
      ensures s.GetAttendancePolicy().GetValue() == hasReachedMinimumClasses
      ensures s.studentId == studentId && s.evaluations == evaluations
      ensures s.extraPointsPolicy == extraPointsPolicy
      ensures Valid() ==> s.Valid()
    {
      this.(attendancePolicy := AttendancePolicies.Create(hasReachedMinimumClasses))
    }

    /** `updateExtraPointsPolicy`: replaces the extra-points flag only. */
    function UpdateExtraPointsPolicy(allYearsTeachers: bool): (s: Student)
      ensures s.GetExtraPointsPolicy().GetValue() == allYearsTeachers
      ensures s.studentId == studentId && s.evaluations == evaluations
      ensures s.attendancePolicy == attendancePolicy
      ensures Valid() ==> s.Valid()
    {
      this.(extraPointsPolicy := ExtraPointsPolicies.Create(allYearsTeachers))
    }

    /** `validateWeightSum`: the weights must add up to 100 within an absolute
        tolerance of 0.01, the boundary itself being accepted. */
    function ValidateWeightSum(): (r: Result<(), DomainError>)
      ensures r.Success? <==>
                TotalWeightPercentage - WeightSumTolerance <= TotalWeight(evaluations)
                                                           <= TotalWeightPercentage + WeightSumTolerance
      ensures r.Failure? ==> r.error == InvalidWeightSum(TotalWeight(evaluations), TotalWeightPercentage)
    {
      var totalWeight := TotalWeight(evaluations);
      if Abs(totalWeight - TotalWeightPercentage) > WeightSumTolerance then
        Failure(InvalidWeightSum(totalWeight, TotalWeightPercentage))
      else
        Success(())
    }

    /** `calculateBaseGrade`: the weighted average of the grades. */
    function CalculateBaseGrade(): (b: real)
      ensures b * TotalWeightPercentage == WeightedTotal(evaluations)
      ensures Valid() ==> 0.0 <= b && b * TotalWeightPercentage <= MaxGrade * TotalWeight(evaluations)
    {
      BaseGradeIsWeightedAverage(evaluations);
      BaseGradeBounded(evaluations);
      BaseGrade(evaluations)
    }

    /** `calculateFinalGrade`: refuses an empty aggregate first, then an
        unbalanced one, and otherwise returns the weighted average. The
        policy flags are not read. Since the tolerance lets the weights add
        up to 100.01, the result may exceed 20 by a little. */
    function CalculateFinalGrade(): (r: Result<real, DomainError>)
      ensures r == Failure(NoEvaluations) <==> |evaluations| == 0
      ensures |evaluations| > 0 && ValidateWeightSum().Failure? ==>
                r == Failure(InvalidWeightSum(TotalWeight(evaluations), TotalWeightPercentage))
      ensures r.Success? <==>
                && |evaluations| > 0
                && TotalWeightPercentage - WeightSumTolerance <= TotalWeight(evaluations)
                                                              <= TotalWeightPercentage + WeightSumTolerance
      ensures r.Success? ==> r.value * TotalWeightPercentage == WeightedTotal(evaluations)
      ensures Valid() && r.Success? ==>
                0.0 <= r.value <= MaxGrade * (TotalWeightPercentage + WeightSumTolerance) / TotalWeightPercentage
    {
      if |evaluations| == 0 then
        Failure(NoEvaluations)
      else
        var _ :- ValidateWeightSum();
        Success(CalculateBaseGrade())
    }

    /** `getCalculationDetail`: an empty aggregate reports 0 for both grades
        without failing; otherwise the final grade is computed and an
        unbalanced aggregate still fails with `InvalidWeightSum`. Extra points
        are reported as eligibility only and never added to the grade. */
    function GetCalculationDetail(): (r: Result<CalculationDetail, DomainError>)
      ensures r.Failure? <==> |evaluations| > 0 && ValidateWeightSum().Failure?
      ensures r.Failure? ==> r.error == InvalidWeightSum(TotalWeight(evaluations), TotalWeightPercentage)
      ensures |evaluations| == 0 ==> r.Success? && r.value.baseGrade == 0.0 && r.value.finalGrade == 0.0
      ensures r.Success? && |evaluations| > 0 ==>
                && CalculateFinalGrade() == Success(r.value.finalGrade)
                && r.value.baseGrade == r.value.finalGrade
      ensures r.Success? ==>
                && r.value.studentId == studentId.GetValue()
                && r.value.hasReachedMinimumClasses == attendancePolicy.MeetsMinimumRequirement()
                && r.value.allYearsTeachers == extraPointsPolicy.AllowsExtraPoints()
                && (r.value.canReceiveExtraPoints <==>
                      attendancePolicy.GetValue() && extraPointsPolicy.GetValue())
      ensures r.Success? ==>
                && |r.value.evaluations| == |evaluations|
                && forall i :: 0 <= i < |evaluations| ==>
                     && r.value.evaluations[i].evaluationNumber == i + 1
                     && r.value.evaluations[i].grade == evaluations[i].GetGrade().GetValue()
                     && r.value.evaluations[i].weight == evaluations[i].GetWeightPercentage().GetValue()
                     && r.value.evaluations[i].contribution == evaluations[i].CalculateWeightedContribution()
    {
      var baseGrade := if |evaluations| > 0 then CalculateBaseGrade() else 0.0;
      var meetsAttendance := attendancePolicy.MeetsMinimumRequirement();
      var allowsExtraPoints := extraPointsPolicy.AllowsExtraPoints();
      var finalGrade :- if |evaluations| > 0 then CalculateFinalGrade() else Success(0.0);
      Success(CalculationDetail(
        studentId.GetValue(),
        EvaluationDetails(evaluations),
        baseGrade,
        meetsAttendance,
        allowsExtraPoints,
        meetsAttendance && allowsExtraPoints,
        finalGrade))
    }
  }

  /** `Student.create`: fails exactly when the identifier is invalid;
      otherwise an aggregate with no evaluations and the two flags as given. */
  function Create(studentId: string, hasReachedMinimumClasses: bool, allYearsTeachers: bool)
    : (r: Result<Student, DomainError>)
    ensures r.Success? <==> MinStudentIdLength <= |Trim(studentId)| <= MaxStudentIdLength
    ensures r.Failure? ==> r.error == StudentIds.Create(studentId).error
    ensures r.Success? ==>
              && r.value.Valid()
              && r.value.GetStudentId().GetValue() == Trim(studentId)
              && r.value.GetEvaluations() == []
              && r.value.GetAttendancePolicy().GetValue() == hasReachedMinimumClasses
              && r.value.GetExtraPointsPolicy().GetValue() == allYearsTeachers
  {
    var id :- StudentIds.Create(studentId);
    Success(Student(
      id,
      [],
      AttendancePolicies.Create(hasReachedMinimumClasses),
      ExtraPointsPolicies.Create(allYearsTeachers)))
  }
}
