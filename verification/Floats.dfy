/** Binary floating point, reduced to what the model needs of it. */
module Floats {

  /** A float by the real number it stands for; the two zeros are one value. */
  datatype Float = NaN | Inf(negative: bool) | Finite(value: real)

  /** What is assumed of rounding to a binary format: it fixes its own results and zero, never
      rounds a number of magnitude one or more to zero, and reaches all 64-bit integers. */
  ghost predicate Lawful(round: real -> Float) {
    && round(0.0) == Finite(0.0)
    && (forall r: real :: round(r).Finite? ==> round(round(r).value) == round(r))
    && (forall r: real :: r >= 1.0 || r <= -1.0 ==> round(r) != Finite(0.0))
    && (forall r: real :: round(r) != NaN)
    && (forall r: real :: -18446744073709551616.0 <= r <= 18446744073709551616.0 ==> round(r).Finite?)
  }
}
