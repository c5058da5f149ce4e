/**
 Floating-point numbers without rounding: exact reals, and what a division by zero yields.
 */
module Doubles {
  import opened Numbers

  datatype Double = Finite(value: real) | Infinity | MinusInfinity | NotANumber

  /** The quotient of finite numbers; a zero divisor is a positive zero. */
  function Quotient(x: real, y: real): Double {
    if y != 0.0 then Finite(x / y)
    else if x > 0.0 then Infinity
    else if x < 0.0 then MinusInfinity
    else NotANumber
  }

  /** Division by a positive whole number leaves what is not finite as it is. */
  function Divided(d: Double, k: Positive): Double {
    if d.Finite? then Finite(d.value / k as real) else d
  }

  /** So does multiplication by a positive number. */
  function Scaled(d: Double, x: real): Double
    requires x > 0.0
  {
    if d.Finite? then Finite(d.value * x) else d
  }

  /** The comparison of C++: nothing is less than, or greater than, what is no number. */
  predicate Less(a: Double, b: Double) {
    match (a, b)
    case (Finite(x), Finite(y)) => x < y
    case (Finite(_), Infinity) => true
    case (MinusInfinity, Finite(_)) => true
    case (MinusInfinity, Infinity) => true
    case _ => false
  }
}
