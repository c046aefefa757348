/** Sign rules for products of reals that the solver does not find by itself. */
module Reals {

  function Abs(x: real): real { if x < 0.0 then -x else x }

  function Min(a: real, b: real): real { if a <= b then a else b }

  function Max(a: real, b: real): real { if a <= b then b else a }

  // A product as a function application, for contexts where the solver should not multiply.
  function Times(x: real, y: real): real { x * y }

  lemma MulNonneg(a: real, b: real)
    requires a >= 0.0 && b >= 0.0
    ensures a * b >= 0.0
  {
  }

  lemma MulPos(a: real, b: real)
    requires a > 0.0 && b > 0.0
    ensures a * b > 0.0
  {
  }

  // The same fact about named products, for contexts where the solver does not match equal products.
  lemma MonoProduct(a: real, b: real, c: real, x: real, y: real)
    requires a <= b && c >= 0.0 && x == a * c && y == b * c
    ensures x <= y
  {
    MulNonneg(b - a, c);
  }

  lemma TimesMono(a: real, b: real, c: real)
    requires a <= b && c >= 0.0
    ensures Times(a, c) <= Times(b, c)
  {
    MonoProduct(a, b, c, Times(a, c), Times(b, c));
  }

  lemma MulMono(a: real, b: real, c: real)
    requires a <= b && c >= 0.0
    ensures a * c <= b * c
  {
    MulNonneg(b - a, c);
  }

  lemma MulMonoIff(c: real, a: real, b: real)
    requires c > 0.0
    ensures c * a <= c * b <==> a <= b
  {
    if a <= b { MulNonneg(c, b - a); } else { MulPos(c, a - b); }
  }

  lemma TimesZero(a: real, z: real)
    requires z == 0.0
    ensures a * z == 0.0 && z * a == 0.0
  {
  }

  lemma SquareNonneg(a: real)
    ensures a * a >= 0.0
  {
    if a >= 0.0 { MulNonneg(a, a); } else { MulNonneg(-a, -a); }
  }

  lemma SquareAtMostOne(t: real)
    ensures -1.0 <= t <= 1.0 <==> t * t <= 1.0
  {
    if -1.0 <= t <= 1.0 {
      MulNonneg(1.0 - t, 1.0 + t);
    } else if t > 1.0 {
      MulPos(t - 1.0, t + 1.0);
    } else {
      MulPos(-t - 1.0, 1.0 - t);
    }
  }

  /** |a t| <= |a| when |t| <= 1. */
  lemma AbsShrink(a: real, t: real)
    requires -1.0 <= t <= 1.0
    ensures Abs(a * t) <= Abs(a)
  {
    MulNonneg(Abs(a), 1.0 - t);
    MulNonneg(Abs(a), 1.0 + t);
  }
}
