/** Exact arithmetic that several models share. Products are wrapped, so that proofs can reason by their laws alone. */
module Reals {

  function RMin(a: real, b: real): real { if a <= b then a else b }

  function RMax(a: real, b: real): real { if a >= b then a else b }

  function Clamp01(x: real): real { RMax(0.0, RMin(1.0, x)) }

  function Product(a: real, b: real): real { a * b }

  lemma ProductLaws(a: real, b: real, x: real)
    ensures a >= 0.0 && 0.0 <= x <= 1.0 ==> 0.0 <= Product(a, x) <= a
    ensures Product(a, x) + Product(b, x) == Product(a + b, x)
    ensures a <= b && x >= 0.0 ==> Product(a, x) <= Product(b, x)
    ensures Product(a, 0.0) == 0.0 && Product(a, 1.0) == a && Product(0.0, x) == 0.0
  {
  }

  lemma ProductOverGap(a: real, b: real, s: real)
    ensures Product(a, s) + Product(b - a, s) == Product(b, s)
    ensures Product(0.0, s) == 0.0
    ensures 0.0 <= a && 0.0 <= s ==> 0.0 <= Product(a, s)
  {
  }

  lemma ProductNonNegative(a: real, b: real)
    requires 0.0 <= a && 0.0 <= b
    ensures 0.0 <= Product(a, b)
  {
  }

  lemma ProductMonotone(x: real, y: real, z: real)
    requires x <= y && 0.0 <= z
    ensures Product(x, z) <= Product(y, z)
  {
  }

  lemma ProductIs(a: real, b: real)
    ensures Product(a, b) == a * b
  {
  }
}
