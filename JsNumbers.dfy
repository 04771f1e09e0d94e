/**
 * JavaScript numbers, as far as the model compares them: a finite value,
 * one of the two infinities, or NaN. Floating-point rounding is not modelled;
 * a finite number is an exact real.
 */
module JsNumbers {

  datatype Num = Finite(value: real) | PosInfinity | NegInfinity | NaN

  /** `a === b` on numbers: equal values, except that NaN equals nothing, not even itself. */
  predicate StrictEquals(a: Num, b: Num) {
    a == b && !a.NaN?
  }

  /** JavaScript truthiness of a number: every number except 0 and NaN. */
  predicate Truthy(n: Num) {
    !n.NaN? && n != Finite(0.0)
  }

  /** NaN is the one number that `===` never relates, and `===` is symmetric otherwise. */
  lemma StrictEqualsFacts(a: Num, b: Num)
    ensures StrictEquals(a, b) <==> StrictEquals(b, a)
    ensures a.NaN? ==> !StrictEquals(a, b) && !StrictEquals(b, a)
    ensures !a.NaN? ==> StrictEquals(a, a)
  {
  }
}
