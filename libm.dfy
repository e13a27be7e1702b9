/**
  The two `libm` helpers the engines use, on finite operands: `fminf` and
  `fmaxf` return the smaller and the larger of their arguments.
 */
module Libm {

  function FMin(a: real, b: real): (r: real)
    ensures r <= a && r <= b && (r == a || r == b)
  {
    if a <= b then a else b
  }

  function FMax(a: real, b: real): (r: real)
    ensures r >= a && r >= b && (r == a || r == b)
  {
    if a >= b then a else b
  }
}
