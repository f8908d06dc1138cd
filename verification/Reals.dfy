/** Absolute values, and the signs of products. */
module Reals {
  function Abs(x: real): (r: real)
    ensures r >= 0.0
  {
    if x >= 0.0 then x else -x
  }

  lemma Product(x: real, y: real)
    requires 0.0 <= x && 0.0 <= y
    ensures 0.0 <= x * y
  {
  }

  lemma Square(x: real)
    ensures 0.0 <= x * x
  {
  }

  /** Both at once, for a positive factor. */
  lemma Positive(x: real, k: real)
    requires 0.0 < k
    ensures 0.0 <= x ==> 0.0 <= x * k
    ensures 0.0 < x ==> 0.0 < x * k
  {
  }

  /** A positive product, by name. */
  lemma PositiveProduct(x: real, y: real) returns (p: real)
    requires 0.0 < x && 0.0 < y
    ensures p == x * y && 0.0 < p
  {
    p := x * y;
  }

  lemma NegativeSquare(x: real) returns (p: real)
    requires x < 0.0
    ensures p == x * x && 0.0 < p
  {
    p := PositiveProduct(-x, -x);
  }
}
