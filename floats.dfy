/** Python floats as the scripts use them. A value is either finite, and then
    an exact real (rounding is not modelled), or non-finite: `nan`, `inf` and
    `-inf` share the one tag `NonFinite`.

    Arithmetic with a non-finite operand is non-finite, as IEEE-754 addition,
    subtraction and multiplication are. A comparison involving `NonFinite` is
    false, which is exact for `nan`; the scripts compare a possibly infinite
    value only after checking it is finite, and the carried resistance is
    always finite or `nan`, so the one tag loses nothing the scripts observe. */
module Floats {

  datatype Num = Fin(v: real) | NonFinite

  /** `math.isfinite` */
  predicate IsFinite(x: Num) { x.Fin? }

  function Add(x: Num, y: Num): Num {
    if x.Fin? && y.Fin? then Fin(x.v + y.v) else NonFinite
  }

  function Sub(x: Num, y: Num): Num {
    if x.Fin? && y.Fin? then Fin(x.v - y.v) else NonFinite
  }

  function Mul(x: Num, y: Num): Num {
    if x.Fin? && y.Fin? then Fin(x.v * y.v) else NonFinite
  }

  /** `x > bound` for a float `x` and a finite `bound`: false when `x` is `nan`. */
  predicate Exceeds(x: Num, bound: real) { x.Fin? && x.v > bound }

  /** Python's `max(x, y)` on finite values: `x` unless `y` is greater. */
  function Max(x: real, y: real): real { if y > x then y else x }

  /** Python's `min(x, y)` on finite values: `x` unless `y` is smaller. */
  function Min(x: real, y: real): real { if y < x then y else x }
}
