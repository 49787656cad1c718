/** Whether a student reached the minimum number of classes required by the
    academic regulations. Any boolean is a legal policy and there is no
    mutator: the policy changes only by replacing the whole value. */
module AttendancePolicies {

  datatype AttendancePolicy = AttendancePolicy(hasReachedMinimumClasses: bool) {

    function MeetsMinimumRequirement(): bool {
      hasReachedMinimumClasses
    }

    function GetValue(): bool {
      hasReachedMinimumClasses
    }
  }

  /** `AttendancePolicy.create` never fails and both accessors report its input. */
  function Create(hasReachedMinimumClasses: bool): (p: AttendancePolicy)
    ensures p.MeetsMinimumRequirement() == hasReachedMinimumClasses
    ensures p.GetValue() == hasReachedMinimumClasses
  {
    AttendancePolicy(hasReachedMinimumClasses)
  }

  /** The named predicate and the raw getter always agree, and the policy is
      determined by its flag. */
  lemma AccessorsAgree(p: AttendancePolicy)
    ensures p.MeetsMinimumRequirement() == p.GetValue()
    ensures p == Create(p.GetValue())
  {
  }
}
