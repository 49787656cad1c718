/** The `Grade` value object: a finite number in the closed range [0, 20]. */
module Grades {
  import opened Wrappers
  import opened Numbers
  import opened DomainConstants
  import opened DomainExceptions

  datatype Grade = Grade(value: real) {

    /** What `create` guarantees of every grade it hands out. */
    predicate Valid() {
      MinGrade <= value <= MaxGrade
    }

    function GetValue(): real {
      value
    }

    /** `Math.round(value * 100) / 100`, where `Math.round(x)` is
        `floor(x + 0.5)`: the nearest hundredth, ties rounded upwards. */
    function GetRoundedValue(): (r: real)
      ensures value - 0.005 < r <= value + 0.005
      ensures (r * 100.0).Floor as real == r * 100.0
      ensures Valid() ==> MinGrade <= r <= MaxGrade
    {
      var multiplier := GradeRoundingMultiplier();
      (value * multiplier + 0.5).Floor as real / multiplier
    }

    /** Grades are equal exactly when their values are. */
    function Equals(other: Grade): (b: bool)
      ensures b <==> this == other
    {
      value == other.value
    }
  }

  /** `Grade.create`: finiteness is checked first, then the inclusive range;
      the accepted value is stored unchanged. */
  function Create(n: Number): (r: Result<Grade, DomainError>)
    ensures r.Success? <==> n.Finite? && MinGrade <= n.value <= MaxGrade
    ensures r.Success? ==> r.value.Valid() && r.value.GetValue() == n.value
    ensures n.NonFinite? ==> r == Failure(InvalidValue("Grade", MustBeFinite))
    ensures n.Finite? && !(MinGrade <= n.value <= MaxGrade) ==>
              r == Failure(InvalidValue("Grade", MustBeBetween(MinGrade, MaxGrade)))
  {
    if !n.IsFinite() then
      Failure(InvalidValue("Grade", MustBeFinite))
    else if n.value < MinGrade || n.value > MaxGrade then
      Failure(InvalidValue("Grade", MustBeBetween(MinGrade, MaxGrade)))
    else
      Success(Grade(n.value))
  }

  /** Every valid grade is obtained back by creating it from its own value. */
  lemma CreateOfValue(g: Grade)
    requires g.Valid()
    ensures Create(Finite(g.GetValue())) == Success(g)
  {
  }

  /** Rounding a value that already has at most two decimals changes nothing,
      so rounding is idempotent. */
  lemma RoundedValueIsStable(g: Grade)
    ensures Grade(g.GetRoundedValue()).GetRoundedValue() == g.GetRoundedValue()
  {
    var r := g.GetRoundedValue();
    var n := (r * 100.0).Floor;
    assert r * 100.0 == n as real;
    assert (r * 100.0 + 0.5).Floor == n;
  }

  /** The rounding examples the test suite checks, and the two boundaries. */
  lemma RoundingExamples()
    ensures Grade(15.12345).GetRoundedValue() == 15.12
    ensures Grade(15.126).GetRoundedValue() == 15.13
    ensures Grade(15.0).GetRoundedValue() == 15.0
    ensures Grade(15.125).GetRoundedValue() == 15.13
    ensures Create(Finite(0.0)).Success? && Create(Finite(20.0)).Success?
    ensures Create(Finite(-1.0)) == Failure(InvalidValue("Grade", MustBeBetween(0.0, 20.0)))
    ensures Create(Finite(21.0)) == Failure(InvalidValue("Grade", MustBeBetween(0.0, 20.0)))
  {
  }
}
