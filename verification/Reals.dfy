/** Arithmetic of real numbers that the other modules share. */
module Reals {
  function Abs(x: real): real {
    if x < 0.0 then -x else x
  }

  function Max(x: real, y: real): real {
    if x < y then y else x
  }

  function Min(x: real, y: real): real {
    if y < x then y else x
  }

  lemma QuotientTimes(x: real, y: real, q: real)
    requires y != 0.0 && q == x / y
    ensures q * y == x
  {}

  lemma QuotientOfProduct(x: real, d: real, product: real)
    requires d != 0.0 && product == x * d
    ensures product / d == x
  {}

  lemma Cancel(x: real, y: real, v: real)
    requires v > 0.0 && x * v <= y * v
    ensures x <= y
  {}

  lemma NonNegativeProduct(x: real, y: real)
    requires x >= 0.0 && y >= 0.0
    ensures x * y >= 0.0
  {}

  lemma NonZeroProduct(x: real, y: real, product: real)
    requires x != 0.0 && y != 0.0 && product == x * y
    ensures product != 0.0
  {}
}
