/**
 * The Java runtime notions the models rely on: the 32-bit `int`, an
 * abstract `double`, and the kinds of exception the modelled code throws.
 */
module JavaLang {

  /** Java's `int`: 32-bit two's complement. */
  type Int32 = x: int | -0x8000_0000 <= x < 0x8000_0000

  /** True when `x` is representable as a Java `int`, so computing it did not wrap. */
  predicate InInt32(x: int) {
    -0x8000_0000 <= x < 0x8000_0000
  }

  /**
   * A Java `double`, abstracted: finite values are reals (rounding and the
   * sign of zero are not modelled), plus the two infinities and NaN.
   */
  datatype Double = Finite(v: real) | PosInf | NegInf | NaN

  /** Java's `x > c` for a finite constant `c`: false whenever `x` is NaN. */
  predicate GreaterThan(x: Double, c: real) {
    match x
    case Finite(v) => v > c
    case PosInf => true
    case NegInf => false
    case NaN => false
  }

  /** Java's `x != c` for a finite constant `c`: true whenever `x` is NaN. */
  predicate NotEqual(x: Double, c: real) {
    match x
    case Finite(v) => v != c
    case _ => true
  }

  /** `Double.isInfinite`. */
  predicate IsInfinite(x: Double) {
    x.PosInf? || x.NegInf?
  }

  /** `Double.isNaN`. */
  predicate IsNaN(x: Double) {
    x.NaN?
  }

  /**
   * The exceptions the modelled code throws: IllegalArgumentException,
   * IllegalStateException, ClassCastException and NumberFormatException.
   */
  datatype Exception = IllegalArgument | IllegalState | ClassCast | NumberFormat
}
