/** The `WeightPercentage` value object: a finite percentage in [0, 100]. */
module WeightPercentages {
  import opened Wrappers
  import opened Numbers
  import opened DomainConstants
  import opened DomainExceptions

  datatype WeightPercentage = WeightPercentage(value: real) {

    /** What `create` guarantees of every weight it hands out. */
    predicate Valid() {
      MinEvaluationWeightPercentage <= value <= MaxEvaluationWeightPercentage
    }

    function GetValue(): real {
      value
    }

    /** The weight as a fraction of the whole: the percentage over 100. */
    function ToDecimalFactor(): (f: real)
      ensures f * MaxEvaluationWeightPercentage == value
      ensures Valid() ==> 0.0 <= f <= 1.0
    {
      value / MaxEvaluationWeightPercentage
    }

    /** Weights are equal exactly when their values are. */
    function Equals(other: WeightPercentage): (b: bool)
      ensures b <==> this == other
    {
      value == other.value
    }
  }

  /** `WeightPercentage.create`: finiteness first, then the inclusive range;
      the accepted value is stored unchanged. */
  function Create(n: Number): (r: Result<WeightPercentage, DomainError>)
    ensures r.Success? <==>
              n.Finite? && MinEvaluationWeightPercentage <= n.value <= MaxEvaluationWeightPercentage
    ensures r.Success? ==> r.value.Valid() && r.value.GetValue() == n.value
    ensures n.NonFinite? ==> r == Failure(InvalidValue("WeightPercentage", MustBeFinite))
    ensures n.Finite? && !(MinEvaluationWeightPercentage <= n.value <= MaxEvaluationWeightPercentage) ==>
              r == Failure(InvalidValue("WeightPercentage",
                                        MustBeBetween(MinEvaluationWeightPercentage, MaxEvaluationWeightPercentage)))
  {
    if !n.IsFinite() then
      Failure(InvalidValue("WeightPercentage", MustBeFinite))
    else if n.value < MinEvaluationWeightPercentage || n.value > MaxEvaluationWeightPercentage then
      Failure(InvalidValue("WeightPercentage",
                           MustBeBetween(MinEvaluationWeightPercentage, MaxEvaluationWeightPercentage)))
    else
      Success(WeightPercentage(n.value))
  }

  /** Every valid weight is obtained back by creating it from its own value. */
  lemma CreateOfValue(w: WeightPercentage)
    requires w.Valid()
    ensures Create(Finite(w.GetValue())) == Success(w)
  {
  }

  /** The decimal factors the test suite checks, and a value kept unrounded. */
  lemma DecimalFactorExamples()
    ensures WeightPercentage(100.0).ToDecimalFactor() == 1.0
    ensures WeightPercentage(50.0).ToDecimalFactor() == 0.5
    ensures WeightPercentage(25.0).ToDecimalFactor() == 0.25
    ensures WeightPercentage(0.0).ToDecimalFactor() == 0.0
    ensures Create(Finite(33.33)) == Success(WeightPercentage(33.33))
  {
  }
}
