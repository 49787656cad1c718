/** Whether the teachers of the course agreed to grant extra points. Any
    boolean is a legal policy and there is no mutator: the policy changes
    only by replacing the whole value. */
module ExtraPointsPolicies {

  datatype ExtraPointsPolicy = ExtraPointsPolicy(allYearsTeachers: bool) {

    function AllowsExtraPoints(): bool {
      allYearsTeachers
    }

    function GetValue(): bool {
      allYearsTeachers
    }
  }

  /** `ExtraPointsPolicy.create` never fails and both accessors report its input. */
  function Create(allYearsTeachers: bool): (p: ExtraPointsPolicy)
    ensures p.AllowsExtraPoints() == allYearsTeachers
    ensures p.GetValue() == allYearsTeachers
  {
    ExtraPointsPolicy(allYearsTeachers)
  }

  /** The named predicate and the raw getter always agree, and the policy is
      determined by its flag. */
  lemma AccessorsAgree(p: ExtraPointsPolicy)
    ensures p.AllowsExtraPoints() == p.GetValue()
    ensures p == Create(p.GetValue())
  {
  }
}
