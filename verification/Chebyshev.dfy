/** Chebyshev polynomials of the first kind and the series every gate polynomial denotes. */
module Chebyshev {
  import opened Reals

  function T(n: nat, x: real): real
  {
    if n == 0 then 1.0
    else if n == 1 then x
    else 2.0 * x * T(n - 1, x) - T(n - 2, x)
  }

  // The algebra below is stated for any basis f: nat -> real. This keeps the definition of T out of
  // the nonlinear steps; Basis(x) is the instance that matters.

  function Basis(x: real): nat -> real { (k: nat) => T(k, x) }

  /** sum_{k < |c|} c[k] * f(k) */
  function Combination(c: seq<real>, f: nat -> real): real
  {
    if |c| == 0 then 0.0
    else Combination(c[..|c| - 1], f) + c[|c| - 1] * f(|c| - 1)
  }

  /** sum_{k < |c|} c[k] * T_k(x) */
  function Series(c: seq<real>, x: real): real
  {
    Combination(c, Basis(x))
  }

  ghost predicate Steps(f: nat -> real, x: real, n: nat)
  {
    f(n + 2) == 2.0 * x * f(n + 1) - f(n)
  }

  ghost predicate IsChebyshev(f: nat -> real, x: real)
  {
    f(0) == 1.0 && f(1) == x && forall n: nat :: Steps(f, x, n)
  }

  lemma BasisIsChebyshev(x: real)
    ensures IsChebyshev(Basis(x), x)
  {
  }

  /** 2 T_a T_b == T_{a+b} + T_{a-b}, the identity behind every memoised basis step. */
  lemma {:induction false} ProductRule(f: nat -> real, x: real, a: nat, b: nat)
    requires IsChebyshev(f, x)
    requires b <= a
    ensures 2.0 * f(a) * f(b) == f(a + b) + f(a - b)
    decreases b
  {
    if b == 1 {
      assert Steps(f, x, a - 1);
    } else if b > 1 {
      ProductRule(f, x, a, b - 1);
      ProductRule(f, x, a, b - 2);
      assert Steps(f, x, b - 2) && Steps(f, x, a + b - 2) && Steps(f, x, a - b);
      assert 2.0 * f(a) * f(b) == 2.0 * x * (2.0 * f(a) * f(b - 1)) - 2.0 * f(a) * f(b - 2);
    }
  }

  // The second-kind companion of f in the Pell identity, shifted: Companion(f, x, n) is U_{n-1}(x).
  function Companion(f: nat -> real, x: real, n: nat): real
  {
    if n == 0 then 0.0 else x * Companion(f, x, n - 1) + f(n - 1)
  }

  lemma CompanionFacts(f: nat -> real, x: real, n: nat)
    requires IsChebyshev(f, x) && n > 0
    ensures Companion(f, x, n) == x * Companion(f, x, n - 1) + f(n - 1)
    ensures f(n + 1) == 2.0 * x * f(n) - f(n - 1)
  {
    assert Steps(f, x, n - 1);
  }

  lemma CompanionBase(f: nat -> real, x: real)
    requires IsChebyshev(f, x)
    ensures f(0 + 1) == x * f(0) - (1.0 - x * x) * Companion(f, x, 0)
  {
    TimesZero(1.0 - x * x, Companion(f, x, 0));
  }

  lemma {:induction false} StepByCompanion(f: nat -> real, x: real, n: nat)
    requires IsChebyshev(f, x)
    ensures f(n + 1) == x * f(n) - (1.0 - x * x) * Companion(f, x, n)
  {
    if n == 0 {
      CompanionBase(f, x);
    } else {
      StepByCompanion(f, x, n - 1);
      CompanionFacts(f, x, n);
      hide *;
      StepAlgebra(x, f(n - 1), Companion(f, x, n - 1), f(n), Companion(f, x, n), f(n + 1));
    }
  }

  lemma StepAlgebra(x: real, t: real, u: real, t1: real, u1: real, t2: real)
    requires t1 == x * t - (1.0 - x * x) * u
    requires u1 == x * u + t
    requires t2 == 2.0 * x * t1 - t
    ensures t2 == x * t1 - (1.0 - x * x) * u1
  {
  }

  /** t^2 + (1 - x^2) u^2 == 1 */
  ghost predicate PellHolds(x: real, t: real, u: real) { t * t + (1.0 - x * x) * (u * u) == 1.0 }

  // One step of both sequences of the Pell identity.
  ghost predicate PellStep(x: real, t: real, u: real, t1: real, u1: real)
  {
    t1 == x * t - (1.0 - x * x) * u && u1 == x * u + t
  }

  /** Pell: T_n^2 + (1 - x^2) U_{n-1}^2 == 1 for every real x. */
  lemma {:induction false} Pell(f: nat -> real, x: real, n: nat)
    requires IsChebyshev(f, x)
    ensures PellHolds(x, f(n), Companion(f, x, n))
  {
    if n == 0 {
      PellBase(x, f(0), Companion(f, x, 0));
    } else {
      Pell(f, x, n - 1);
      PellStepAt(f, x, n);
      hide *;
      PellKept(x, f(n - 1), Companion(f, x, n - 1), f(n), Companion(f, x, n));
    }
  }

  lemma PellStepAt(f: nat -> real, x: real, n: nat)
    requires IsChebyshev(f, x) && n > 0
    ensures PellStep(x, f(n - 1), Companion(f, x, n - 1), f(n), Companion(f, x, n))
  {
    StepByCompanion(f, x, n - 1);
  }

  lemma PellBase(x: real, t: real, u: real)
    requires t == 1.0 && u == 0.0
    ensures PellHolds(x, t, u)
  {
    assert u * u == 0.0;
    TimesZero(1.0 - x * x, u * u);
  }

  lemma PellKept(x: real, t: real, u: real, t1: real, u1: real)
    requires PellStep(x, t, u, t1, u1) && PellHolds(x, t, u)
    ensures PellHolds(x, t1, u1)
  {
    assert t1 * t1 + (1.0 - x * x) * (u1 * u1) == t * t + (1.0 - x * x) * (u * u);
  }

  /** |T_n| <= 1 on [-1, 1]. */
  lemma UnitBound(f: nat -> real, x: real, n: nat)
    requires IsChebyshev(f, x)
    requires -1.0 <= x <= 1.0
    ensures -1.0 <= f(n) <= 1.0
  {
    Pell(f, x, n);
    var u := Companion(f, x, n);
    SquareAtMostOne(x);
    SquareNonneg(u);
    MulNonneg(1.0 - x * x, u * u);
    SquareAtMostOne(f(n));
  }

  /** The coefficient l1 norm that the gate certificate squares. */
  function L1(c: seq<real>): real
  {
    if |c| == 0 then 0.0 else L1(c[..|c| - 1]) + Abs(c[|c| - 1])
  }

  lemma {:induction false} CombinationBound(c: seq<real>, f: nat -> real)
    requires forall k: nat :: -1.0 <= f(k) <= 1.0
    ensures Abs(Combination(c, f)) <= L1(c)
  {
    if |c| > 0 {
      CombinationBound(c[..|c| - 1], f);
      var last, t := c[|c| - 1], f(|c| - 1);
      AbsShrink(last, t);
      assert Combination(c, f) == Combination(c[..|c| - 1], f) + last * t;
    }
  }

  /** |sum c_k T_k(x)| <= sum |c_k| on the whole domain. */
  lemma SeriesBound(c: seq<real>, x: real)
    requires -1.0 <= x <= 1.0
    ensures Abs(Series(c, x)) <= L1(c)
  {
    BasisIsChebyshev(x);
    forall k: nat ensures -1.0 <= Basis(x)(k) <= 1.0 { UnitBound(Basis(x), x, k); }
    CombinationBound(c, Basis(x));
  }

  function Magnitudes(c: seq<real>): (r: seq<real>)
    ensures |r| == |c|
  {
    seq(|c|, k requires 0 <= k < |c| => Abs(c[k]))
  }

  lemma {:induction false} OnesAtOne(k: nat)
    ensures T(k, 1.0) == 1.0
  {
    if k > 1 {
      OnesAtOne(k - 1);
      OnesAtOne(k - 2);
    }
  }

  /** The norm is no larger than needed: the series with the same magnitudes and no signs attains it at 1. */
  lemma {:induction false} NormAttained(c: seq<real>)
    ensures Series(Magnitudes(c), 1.0) == L1(c)
    decreases |c|
  {
    if |c| > 0 {
      var rest, n := c[..|c| - 1], |c| - 1;
      NormAttained(rest);
      OnesAtOne(n);
      hide T;
      assert Magnitudes(c)[..n] == Magnitudes(rest);
    }
  }
}
