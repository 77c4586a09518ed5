/**
 * numpy float64 values with the finite ones taken as exact reals: NaN, the
 * two infinities, and a finite value. The operations follow IEEE 754 for the
 * special values; signed zero is not distinguished, and a division by zero is
 * a division by +0 (the model's divisors are differences `x - x`, which are +0).
 */
module Ext {

  datatype Value = NaN | PosInf | NegInf | Finite(r: real)

  /** `a - b`. */
  function Sub(a: Value, b: Value): Value {
    match (a, b)
    case (NaN, _) => NaN
    case (_, NaN) => NaN
    case (PosInf, PosInf) => NaN
    case (NegInf, NegInf) => NaN
    case (PosInf, _) => PosInf
    case (NegInf, _) => NegInf
    case (Finite(_), PosInf) => NegInf
    case (Finite(_), NegInf) => PosInf
    case (Finite(x), Finite(y)) => Finite(x - y)
  }

  /** `a / b`; a non-zero value over zero is an infinity of its sign, `0/0` is NaN. */
  function Div(a: Value, b: Value): Value {
    match (a, b)
    case (NaN, _) => NaN
    case (_, NaN) => NaN
    case (Finite(_), PosInf) => Finite(0.0)
    case (Finite(_), NegInf) => Finite(0.0)
    case (Finite(x), Finite(y)) =>
      if y != 0.0 then Finite(x / y)
      else if x > 0.0 then PosInf
      else if x < 0.0 then NegInf
      else NaN
    case (PosInf, Finite(y)) => if y < 0.0 then NegInf else PosInf
    case (NegInf, Finite(y)) => if y < 0.0 then PosInf else NegInf
    case (_, _) => NaN
  }

  /** `a * g` for a finite factor `g`. */
  function Scale(a: Value, g: real): Value {
    match a
    case NaN => NaN
    case Finite(x) => Finite(x * g)
    case PosInf => if g > 0.0 then PosInf else if g < 0.0 then NegInf else NaN
    case NegInf => if g > 0.0 then NegInf else if g < 0.0 then PosInf else NaN
  }

  /**
   * `np.log10(a)`: `log10` gives the logarithm of a positive finite value;
   * zero gives -inf, a negative value or -inf gives NaN, +inf stays +inf.
   */
  function Log10(log10: real -> real, a: Value): Value {
    match a
    case NaN => NaN
    case PosInf => PosInf
    case NegInf => NaN
    case Finite(x) => if x > 0.0 then Finite(log10(x)) else if x == 0.0 then NegInf else NaN
  }

  /**
   * `np.power(10, a)`: `pow10` gives the power of a finite exponent (which
   * may overflow to +inf); -inf gives 0, +inf stays +inf, NaN stays NaN.
   */
  function Pow10(pow10: real -> Value, a: Value): Value {
    match a
    case NaN => NaN
    case PosInf => PosInf
    case NegInf => Finite(0.0)
    case Finite(x) => pow10(x)
  }
}
