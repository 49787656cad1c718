/** Numeric inputs of the grade calculator. The source receives IEEE doubles;
    here a number is either a finite real or the single tag `NonFinite`,
    which stands for NaN and both infinities alike. */
module Numbers {

  datatype Number = Finite(value: real) | NonFinite {

    /** `Number.isFinite` */
    predicate IsFinite() {
      Finite?
    }
  }

  /** `Math.abs` */
  function Abs(x: real): (a: real)
    ensures 0.0 <= a && (a == x || a == -x)
  {
    if x < 0.0 then -x else x
  }
}
