// Facts about real products and quotients that the solver should not search for
// in the middle of other proofs.
module Reals {

  function Abs(x: real): real { if x < 0.0 then -x else x }
  function Max(x: real, y: real): real { if x < y then y else x }

  lemma ProductNonnegative(a: real, b: real)
    requires a >= 0.0 && b >= 0.0
    ensures a * b >= 0.0
  {
  }

  lemma ProductMonotone(a: real, b: real, c: real)
    requires a <= b && c >= 0.0
    ensures a * c <= b * c
  {
    ProductNonnegative(b - a, c);
  }

  lemma QuotientMonotone(a: real, b: real, c: real)
    requires a <= b && c > 0.0
    ensures a / c <= b / c
  {
    assert (b - a) / c >= 0.0;
  }

  lemma SquareMonotone(a: real, b: real)
    requires 0.0 <= a <= b
    ensures a * a <= b * b
  {
    ProductNonnegative(b - a, b + a);
    assert (b - a) * (b + a) == b * b - a * a;
  }

  lemma SquareOfAbs(x: real)
    ensures Abs(x) * Abs(x) == x * x >= 0.0
  {
  }

  lemma ProductPositive(a: real, b: real)
    requires a > 0.0 && b > 0.0
    ensures a * b > 0.0
  {
  }

  lemma ProductStrictlyMonotone(a: real, b: real, c: real)
    requires a < b && c > 0.0
    ensures a * c < b * c
  {
    ProductPositive(b - a, c);
    assert (b - a) * c == b * c - a * c;
  }

  lemma SquareStrictlyMonotone(a: real, b: real)
    requires 0.0 <= a < b
    ensures a * a < b * b
  {
    ProductPositive(b - a, b + a);
    assert (b - a) * (b + a) == b * b - a * a;
  }

  lemma SquareReflectsOrder(x: real, b: real)
    requires b >= 0.0 && x * x <= b * b
    ensures Abs(x) <= b
  {
    SquareOfAbs(x);
    if b < Abs(x) {
      SquareStrictlyMonotone(b, Abs(x));
    }
  }

  lemma QuotientTimes(a: real, c: real)
    requires c != 0.0
    ensures a / c * c == a
  {
  }

  lemma SelfQuotient(c: real)
    requires c != 0.0
    ensures c / c == 1.0
  {
  }

  // With q == a / c: q <= b exactly when a <= b * c.
  lemma QuotientBound(q: real, a: real, b: real, c: real)
    requires c > 0.0 && q * c == a
    ensures q <= b <==> a <= b * c
  {
    if q <= b {
      ProductMonotone(q, b, c);
    } else {
      ProductStrictlyMonotone(b, q, c);
    }
  }
}
