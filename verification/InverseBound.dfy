/**
 Public bounds on the iterates of an inverse square root
 (native/fideslib_stage0/include/stage1_normalization.hpp:49-62): what the rounded product and the rounded root bound,
 and exactly when the root is safe.
 */
module InverseBound {
  import Bernstein
  import opened Binary64
  import opened Reals
  import opened Options
  import opened Powers
  import opened Normalization

  // sqrt(75) and its reciprocal as 53-bit integers over 2^49 and 2^56.
  const POW2_49 := 562949953421312
  const POW2_56 := 72057594037927936
  const SQRT_75 := 4875289607221227
  const ROOT_75 := 8320494262990892

  /** seed * a_0 * ... * a_(n-1), each product rounded upward. */
  function UpwardProduct(coefficients: seq<Pair>, seed: real, up: real -> real, n: nat): real
    requires n <= |coefficients|
  {
    if n == 0 then seed else up(Times(UpwardProduct(coefficients, seed, up, n - 1), coefficients[n - 1].a))
  }

  lemma UpwardNext(coefficients: seq<Pair>, seed: real, up: real -> real, j: nat, bound: real)
    requires j < |coefficients| && bound == UpwardProduct(coefficients, seed, up, j)
    ensures up(Times(bound, coefficients[j].a)) == UpwardProduct(coefficients, seed, up, j + 1)
  {
    hide Times;
    var n := j + 1;
    assert UpwardProduct(coefficients, seed, up, n)
        == up(Times(UpwardProduct(coefficients, seed, up, n - 1), coefficients[n - 1].a));
  }

  method NormalizationInverseBound(s: Schedule, completed: int, up: real -> real, root: real) returns (r: Option<real>)
    ensures r.None? <==> completed < 1 || completed > |s.coefficients|
    ensures r.Some? ==> r.value == Reals.Min(UpwardProduct(s.coefficients, s.seed, up, completed), up(root))
  {
    if completed < 1 || completed > |s.coefficients| { return None; }
    var bound := s.seed;
    for j := 0 to completed
      invariant bound == UpwardProduct(s.coefficients, s.seed, up, j)
    {
      UpwardNext(s.coefficients, s.seed, up, j, bound);
      hide *;
      bound := up(Times(bound, s.coefficients[j].a));
    }
    r := Some(Reals.Min(bound, up(root)));
  }

  /** seed * a_0 * ... * a_(n-1) without rounding. */
  function ExactProduct(coefficients: seq<Pair>, seed: real, n: nat): real
    requires n <= |coefficients|
  {
    if n == 0 then seed else Times(ExactProduct(coefficients, seed, n - 1), coefficients[n - 1].a)
  }

  /** Rounding goes up, by no more than a factor of growth. */
  ghost predicate RoundsUpWithin(up: real -> real, growth: real)
  {
    growth >= 1.0 && forall x: real :: x >= 0.0 ==> x <= up(x) <= Times(x, growth)
  }

  lemma UpwardStep(product: real, rounded: real, power: real, a: real, growth: real, next: real)
    requires 0.0 <= product <= rounded <= Times(product, power) && a >= 0.0 && growth >= 1.0
    requires Times(rounded, a) <= next <= Times(Times(rounded, a), growth)
    ensures 0.0 <= Times(product, a) <= next <= Times(Times(product, a), Times(power, growth))
  {
    Reals.MulNonneg(product, a);
    Reals.MonoProduct(product, rounded, a, Times(product, a), Times(rounded, a));
    Reals.MonoProduct(rounded, Times(product, power), a, Times(rounded, a), Times(Times(product, power), a));
    Reals.MonoProduct(Times(rounded, a), Times(Times(product, power), a), growth, Times(Times(rounded, a), growth),
                      Times(Times(Times(product, power), a), growth));
    Rearranged(product, power, a, growth);
    hide Times;
  }

  lemma Rearranged(product: real, power: real, a: real, growth: real)
    ensures Times(Times(Times(product, power), a), growth) == Times(Times(product, a), Times(power, growth))
  {
    assert (product * power) * a == (product * a) * power;
  }

  /** The rounded product is the exact one up to one rounding per factor, upward. */
  lemma {:induction false} UpwardProductNear(coefficients: seq<Pair>, seed: real, up: real -> real, growth: real,
                                             n: nat)
    requires n <= |coefficients| && seed >= 0.0 && RoundsUpWithin(up, growth)
    requires forall i :: 0 <= i < |coefficients| ==> coefficients[i].a >= 0.0
    ensures 0.0 <= ExactProduct(coefficients, seed, n) <= UpwardProduct(coefficients, seed, up, n)
    ensures UpwardProduct(coefficients, seed, up, n)
            <= Times(ExactProduct(coefficients, seed, n), Bernstein.Power(growth, n))
    decreases n
  {
    if n == 0 {
      assert Times(seed, Bernstein.Power(growth, 0)) == seed;
    } else {
      UpwardProductNear(coefficients, seed, up, growth, n - 1);
      UpwardProductSteps(coefficients, seed, up, growth, n);
    }
  }

  lemma UpwardProductSteps(coefficients: seq<Pair>, seed: real, up: real -> real, growth: real, n: nat)
    requires 0 < n <= |coefficients| && RoundsUpWithin(up, growth) && coefficients[n - 1].a >= 0.0
    requires 0.0 <= ExactProduct(coefficients, seed, n - 1) <= UpwardProduct(coefficients, seed, up, n - 1)
    requires UpwardProduct(coefficients, seed, up, n - 1)
             <= Times(ExactProduct(coefficients, seed, n - 1), Bernstein.Power(growth, n - 1))
    ensures 0.0 <= ExactProduct(coefficients, seed, n) <= UpwardProduct(coefficients, seed, up, n)
    ensures UpwardProduct(coefficients, seed, up, n)
            <= Times(ExactProduct(coefficients, seed, n), Bernstein.Power(growth, n))
  {
    var rounded, a, next := UpwardProduct(coefficients, seed, up, n - 1), coefficients[n - 1].a,
                            UpwardProduct(coefficients, seed, up, n);
    PowerNext(growth, n);
    RoundedUp(up, growth, rounded, a);
    assert next == up(Times(rounded, a)) && ExactProduct(coefficients, seed, n)
        == Times(ExactProduct(coefficients, seed, n - 1), a);
    hide *;
    UpwardStep(ExactProduct(coefficients, seed, n - 1), rounded, Bernstein.Power(growth, n - 1), a, growth, next);
  }

  lemma RoundedUp(up: real -> real, growth: real, rounded: real, a: real)
    requires RoundsUpWithin(up, growth) && rounded >= 0.0 && a >= 0.0
    ensures Times(rounded, a) <= up(Times(rounded, a)) <= Times(Times(rounded, a), growth)
  {
    Reals.MulNonneg(rounded, a);
    assert Times(rounded, a) >= 0.0;
    hide Times;
  }

  lemma PowerNext(growth: real, n: nat)
    requires n > 0
    ensures Bernstein.Power(growth, n) == Times(Bernstein.Power(growth, n - 1), growth)
  {
  }

  lemma UpdateBelow(v: real, y: real, p: Pair, i: Interval, bound: real)
    requires 0.0 < y <= bound && ImageAccepted(i, p) && i.Contains(Residual(v, y))
    ensures Update(y, v, p) <= Times(bound, p.a)
  {
    var u := Residual(v, y);
    UpdatePositive(v, y, p, i, u);
    Reals.MulPos(p.b, u);
    hide Residual;
    BelowAlgebra(y, p.a - p.b * u, p.a, bound, Update(y, v, p));
  }

  lemma BelowAlgebra(y: real, f: real, a: real, bound: real, next: real)
    requires next == y * f && 0.0 < y <= bound && f <= a && a > 0.0
    ensures next <= Times(bound, a)
  {
    Reals.MulMono(f, a, y);
    Reals.MulMono(y, bound, a);
    Commute(f, a, y);
  }

  /** Along a certified trace y never exceeds the rounded product. */
  lemma {:induction false} ProductBounds(s: Schedule, bits: nat, trace: seq<Interval>, v: real,
                                         up: real -> real, n: nat)
    requires ScheduleAccepted(s) && InRange(s, v) && Traced(s, bits, trace) && n < |trace| && n <= |s.coefficients|
    requires forall x :: up(x) >= x
    ensures Iterate(Recipe(s.coefficients), v, s.seed, n) <= UpwardProduct(s.coefficients, s.seed, up, n)
    decreases n
  {
    if n > 0 {
      ProductBounds(s, bits, trace, v, up, n - 1);
      TraceContains(s, bits, trace, v, n - 1);
      assert Steps(s, bits, trace, n - 1);
      var y, p := Iterate(Recipe(s.coefficients), v, s.seed, n - 1), s.coefficients[n - 1];
      UpdateBelow(v, y, p, trace[n - 1], UpwardProduct(s.coefficients, s.seed, up, n - 1));
      hide Update;
      hide Residual;
    }
  }

  lemma RootBounds(lo: real, v: real, y: real, root: real)
    requires 0.0 < lo <= v && y > 0.0 && Residual(v, y) <= 1.0 && root >= 0.0 && lo * Square(root) >= 1.0
    ensures y <= root
  {
    ResidualGrows(lo, v, y);
    if y > root { ScaledSquareGrows(lo, root, y); }
  }

  lemma ScaledSquareGrows(lo: real, root: real, y: real)
    requires lo > 0.0 && 0.0 <= root < y
    ensures lo * Square(root) < Residual(lo, y)
  {
    var gap := (y - root) * (y + root);
    Reals.MulPos(y - root, y + root);
    assert Square(y) == Square(root) + gap;
    Reals.MulPos(lo, gap);
    ScaledSum(lo, Square(root), gap, Square(y));
  }

  lemma ScaledSum(lo: real, a: real, gap: real, b: real)
    requires b == a + gap
    ensures lo * b == lo * a + lo * gap
  {
  }

  /** For a certified schedule both bounds hold after every stage, once the rounded root is not below 1/sqrt(lo). */
  lemma InverseBoundSound(s: Schedule, bits: nat, c: Certificate, v: real, up: real -> real, root: real, completed: nat)
    requires ScheduleAccepted(s) && VerdictHolds(s, bits, c) && c.verdict.Certified? && InRange(s, v)
    requires (forall x :: up(x) >= x) && up(root) >= 0.0 && s.lo * Square(up(root)) >= 1.0
    requires completed <= |s.coefficients|
    ensures Iterate(s.coefficients, v, s.seed, completed)
            <= Reals.Min(UpwardProduct(s.coefficients, s.seed, up, completed), up(root))
  {
    IteratePrefix(s.coefficients, [NEWTON], v, s.seed, completed);
    ProductBounds(s, bits, c.trace, v, up, completed);
    TraceContains(s, bits, c.trace, v, completed);
    UnitAt(s, bits, c, completed);
    hide Iterate;
    hide Traced;
    hide VerdictHolds;
    RootBounds(s.lo, v, Iterate(s.coefficients, v, s.seed, completed), up(root));
  }

  lemma UnitAt(s: Schedule, bits: nat, c: Certificate, n: nat)
    requires VerdictHolds(s, bits, c) && c.verdict.Certified? && n <= |s.coefficients|
    ensures Traced(s, bits, c.trace) && n < |c.trace| && InUnit(c.trace[n])
  {
    if n < |c.trace| - 1 { assert Steps(s, bits, c.trace, n); }
  }

  /** The bound that the program returns for s after n stages is respected at v. */
  predicate BoundHolds(s: Schedule, v: real, up: real -> real, root: real, n: nat)
    requires n <= |s.coefficients|
  {
    Iterate(s.coefficients, v, s.seed, n) <= Reals.Min(UpwardProduct(s.coefficients, s.seed, up, n), up(root))
  }

  ghost predicate PairReadable(p: Pair) { Finite(p.a) && Finite(p.b) && p.a > 0.0 && p.b > 0.0 }

  /** A recipe that can be stored and read back: finite numbers and at most sixty-four stages. */
  ghost predicate Readable(s: Schedule)
  {
    ScheduleAccepted(s) && Finite(s.lo) && Finite(s.hi) && Finite(s.seed) && Finite(s.tolerance) &&
    |s.coefficients| <= 64 && forall i :: 0 <= i < |s.coefficients| ==> PairReadable(s.coefficients[i])
  }

  /** v is in the interval of a readable schedule certified from lo upward, and n counts some completed stages. */
  ghost predicate CertifiedAt(s: Schedule, bits: nat, c: Certificate, lo: real, v: real, n: nat)
  {
    s.lo == lo && Readable(s) && VerdictHolds(s, bits, c) && c.verdict.Certified? && InRange(s, v) &&
    1 <= n <= |s.coefficients|
  }

  /** The bound is respected by every readable certified schedule over intervals that start at lo, after every stage. */
  ghost predicate BoundsAll(lo: real, up: real -> real, root: real)
  {
    forall s: Schedule, bits: nat, c: Certificate, v: real, n: nat ::
      CertifiedAt(s, bits, c, lo, v, n) ==> BoundHolds(s, v, up, root, n)
  }

  // ---------- Newton recipes are certified ----------

  predicate UpperRange(i: Interval) { 0.25 <= i.lo <= i.hi <= 1.0 }

  // A scale whose quarter is whole.
  ghost predicate Quartered(scale: real, n: nat) { scale == (4 * n) as real }

  lemma RoundsInside(x: real, scale: real, n: nat)
    requires Quartered(scale, n) && scale > 0.0
    ensures x >= 0.25 ==> RoundDown(x, scale) >= 0.25
    ensures x <= 1.0 ==> RoundUp(x, scale) <= 1.0
  {
    hide Quartered;
    var scaled := x * scale;
    if x >= 0.25 { RoundsAbove(x, scale, n, scaled, scaled.Floor); }
    if x <= 1.0 { RoundsBelow(x, scale, n, scaled, Ceiling(scaled)); }
  }

  lemma RoundsAbove(x: real, scale: real, n: nat, scaled: real, f: int)
    requires Quartered(scale, n) && scale > 0.0 && x >= 0.25 && scaled == x * scale && f == scaled.Floor
    ensures f as real / scale >= 0.25
  {
    Reals.MonoProduct(0.25, x, scale, n as real, scaled);
    AtLeast(scaled, n);
    FloorAbove(0.25, scale, f as real, n as real) by { hide *; }
  }

  lemma RoundsBelow(x: real, scale: real, n: nat, scaled: real, f: int)
    requires Quartered(scale, n) && scale > 0.0 && x <= 1.0 && scaled == x * scale && f == Ceiling(scaled)
    ensures f as real / scale <= 1.0
  {
    Reals.MonoProduct(x, 1.0, scale, scaled, scale);
    AtLeast(-scaled, -(4 * n));
    FloorBelow(1.0, scale, f as real, scale) by { hide *; }
  }

  lemma AtLeast(x: real, n: int)
    requires x >= n as real
    ensures x.Floor >= n
  {
  }

  lemma OutwardInside(lo: real, hi: real, bits: nat)
    requires bits >= 2 && 0.25 <= lo <= hi <= 1.0
    ensures UpperRange(Outward(lo, hi, bits))
  {
    assert Pow2(bits) == 2 * Pow2(bits - 1) && Pow2(bits - 1) == 2 * Pow2(bits - 2);
    OutwardContains(lo, hi, bits);
    hide RoundDown;
    hide RoundUp;
    hide Pow2;
    RoundsInside(lo, Pow2(bits) as real, Pow2(bits - 2));
    RoundsInside(hi, Pow2(bits) as real, Pow2(bits - 2));
  }

  /** A Newton step maps [1/4, 1] into itself. */
  lemma NewtonImage(u: real)
    requires 0.25 <= u <= 1.0
    ensures 0.25 <= Image(u, NEWTON) <= 1.0
  {
    var f, w := 1.5 - 0.5 * u, 1.0 - u;
    Reals.MonoProduct(1.0, f, f, f, Square(f));
    Reals.MonoProduct(1.0, Square(f), u, u, Times(Square(f), u));
    Reals.MonoProduct(0.0, 4.0 - u, Square(w), 0.0, Times(4.0 - u, Square(w)));
    NewtonGap(u, f, w);
    hide Times;
  }

  lemma NewtonGap(u: real, f: real, w: real)
    requires f == 1.5 - 0.5 * u && w == 1.0 - u
    ensures 4.0 * (1.0 - Image(u, NEWTON)) == Times(4.0 - u, Square(w)) && Image(u, NEWTON) == Times(Square(f), u)
    ensures Square(w) >= 0.0
  {
    Reals.SquareNonneg(w);
    assert Square(f) == 2.25 - 1.5 * u + 0.25 * (u * u) && Square(w) == 1.0 - 2.0 * u + u * u;
  }

  lemma NewtonInterval(i: Interval, bits: nat)
    requires UpperRange(i) && bits >= 2
    ensures ImageInterval(i, NEWTON, bits).Some? && UpperRange(ImageInterval(i, NEWTON, bits).value)
  {
    NewtonImage(i.lo);
    NewtonImage(i.hi);
    assert Peak(NEWTON) == 1.0;
    var x, y := Image(i.lo, NEWTON), Image(i.hi, NEWTON);
    var low, high := Reals.Min(x, y), Reals.Max(x, y);
    hide Image;
    hide Peak;
    OutwardInside(low, high, bits);
    OutwardInside(Reals.Min(low, 1.0), Reals.Max(high, 1.0), bits);
    hide Outward;
  }

  function Newtons(n: nat): (pairs: seq<Pair>)
    ensures |pairs| == n
  {
    seq(n, _ => NEWTON)
  }

  /** Nothing but Newton steps, to relative tolerance 1/2. */
  function NewtonSchedule(lo: real, hi: real, seed: real, n: nat): Schedule
  {
    Schedule(lo, hi, seed, Newtons(n), 0.5)
  }

  ghost predicate NewtonStep(i: Interval, j: Interval, bits: nat)
  {
    UpperRange(i) && UpperRange(j) && ImageInterval(i, NEWTON, bits) == Some(j)
  }

  lemma {:induction false} NewtonTraced(i: Interval, bits: nat, n: nat) returns (trace: seq<Interval>)
    requires UpperRange(i) && bits >= 2
    ensures |trace| == n + 1 && trace[0] == i && UpperRange(trace[n])
    ensures forall k :: 0 <= k < n ==> NewtonStep(trace[k], trace[k + 1], bits)
  {
    hide ImageInterval;
    if n == 0 {
      trace := [i];
    } else {
      var before := NewtonTraced(i, bits, n - 1);
      NewtonInterval(before[n - 1], bits);
      trace := before + [ImageInterval(before[n - 1], NEWTON, bits).value];
      forall k | 0 <= k < n ensures NewtonStep(trace[k], trace[k + 1], bits) {
        if k < n - 1 { assert NewtonStep(before[k], before[k + 1], bits); }
      }
    }
  }

  lemma NewtonCertified(lo: real, hi: real, seed: real, n: nat, bits: nat) returns (c: Certificate)
    requires 0.0 < lo < hi && seed > 0.0 && 0.25 <= Residual(lo, seed) && Residual(hi, seed) <= 1.0
    requires bits >= 2 && n >= 1
    ensures var s := NewtonSchedule(lo, hi, seed, n);
            ScheduleAccepted(s) && VerdictHolds(s, bits, c) && c.verdict.Certified?
  {
    var s := NewtonSchedule(lo, hi, seed, n);
    ResidualGrows(lo, hi, seed);
    hide Residual;
    OutwardInside(Residual(lo, seed), Residual(hi, seed), bits);
    hide Outward;
    var trace := NewtonTraced(StartInterval(s, bits), bits, n + 1);
    assert Square(0.5) == 0.25;
    hide ImageInterval;
    hide StartInterval;
    c := Certificate(Certified, trace);
    forall k | 0 <= k < |trace| - 1 ensures Steps(s, bits, trace, k) {
      assert NewtonStep(trace[k], trace[k + 1], bits) && Recipe(s.coefficients)[k] == NEWTON;
    }
  }

  // ---------- Newton recipes converge ----------

  lemma NewtonRises(v: real, y: real)
    requires y > 0.0 && Residual(v, y) <= 1.0
    ensures Update(y, v, NEWTON) >= y
  {
    var f := 1.5 - 0.5 * Residual(v, y);
    Reals.MulMono(1.0, f, y);
    Commute(1.0, f, y);
  }

  lemma SquareMono(x: real, y: real)
    requires 0.0 <= x <= y
    ensures 0.0 <= Square(x) <= Square(y)
  {
    BothBelow(x, x, y);
    Reals.SquareNonneg(x);
  }

  /** A Newton step squares the gap of v*y^2 below one. */
  lemma GapSquares(u: real, d: real)
    requires 0.0 <= 1.0 - u <= d <= 1.0
    ensures 0.0 <= 1.0 - Image(u, NEWTON) <= Square(d) <= d
  {
    var w := 1.0 - u;
    NewtonGap(u, 1.5 - 0.5 * u, w);
    SquareMono(w, d);
    hide Image;
    Reals.MonoProduct(0.0, 4.0 - u, Square(w), 0.0, Times(4.0 - u, Square(w)));
    Reals.MonoProduct(4.0 - u, 4.0, Square(w), Times(4.0 - u, Square(w)), 4.0 * Square(w));
    Reals.MonoProduct(d, 1.0, d, Square(d), d);
  }

  /** d squared n times. */
  function Squared(d: real, n: nat): real
  {
    if n == 0 then d else Square(Squared(d, n - 1))
  }

  // After n stages v*y^2 is at least one less the gap squared n times, and y has not fallen.
  ghost predicate Closes(v: real, seed: real, y: real, d: real)
  {
    y >= seed && 0.0 <= 1.0 - Residual(v, y) <= d <= 1.0
  }

  lemma ClosesNext(v: real, seed: real, y: real, d: real)
    requires seed > 0.0 && Closes(v, seed, y, d)
    ensures Closes(v, seed, Update(y, v, NEWTON), Square(d))
  {
    NewtonRises(v, y);
    UpdateResidual(v, y, NEWTON, Residual(v, y), Update(y, v, NEWTON));
    hide Update;
    GapSquares(Residual(v, y), d);
    hide Residual;
  }

  lemma {:induction false} GapAfter(v: real, seed: real, count: nat, n: nat, d: real)
    requires n <= count && seed > 0.0 && Closes(v, seed, seed, d)
    ensures Closes(v, seed, Iterate(Newtons(count), v, seed, n), Squared(d, n))
    decreases n
  {
    hide Closes;
    if n > 0 {
      GapAfter(v, seed, count, n - 1, d);
      ClosesNext(v, seed, Iterate(Newtons(count), v, seed, n - 1), Squared(d, n - 1));
      hide Update;
      hide Square;
    }
  }

  /** Two stages bring a gap of 3/4 below 1/2, and every later one doubles the exponent. */
  lemma {:induction false} SquaredSmall(n: nat)
    ensures 0.0 <= Squared(0.75, n + 2) <= Ldexp(0 - Pow2(n))
  {
    if n == 0 {
      ThreeQuarters();
      HalfLdexp();
    } else {
      SquaredSmall(n - 1);
      SquareMono(Squared(0.75, n + 1), Ldexp(0 - Pow2(n - 1)));
      LdexpSum(0 - Pow2(n - 1), 0 - Pow2(n - 1));
      hide Ldexp;
      SquareTimes(Ldexp(0 - Pow2(n - 1)));
    }
  }

  lemma SquareTimes(x: real)
    ensures Square(x) == Times(x, x)
  {
  }

  lemma ThreeQuarters()
    ensures 0.0 <= Squared(0.75, 2) <= 0.5
  {
    assert Squared(0.75, 1) == Square(0.75) == 0.5625;
    assert Squared(0.75, 2) == Square(0.5625);
  }

  // ---------- a readable recipe that exceeds a root that is too low ----------

  /** A power of two brings lo * seed^2 into [1/4, 1). */
  lemma SeedFor(lo: real) returns (h: int)
    requires Finite(lo) && lo > 0.0
    ensures -536 <= h <= 512 && Ldexp(2 * h - 2) <= lo < Ldexp(2 * h)
    ensures 0.25 <= Residual(lo, Ldexp(-h)) < 1.0
  {
    var t := Bracket(lo);
    h := (t + 1) / 2;
    LdexpMono(2 * h - 2, t - 1);
    LdexpMono(t, 2 * h);
    ScaledSeed(lo, h);
    ScaledSeed(Ldexp(2 * h), h);
    ScaledSeed(Ldexp(2 * h - 2), h);
    LdexpSum(2 * h, -2 * h);
    LdexpSum(2 * h - 2, -2 * h);
    QuarterLdexp();
    hide *;
    TimesMono(Ldexp(2 * h - 2), lo, Ldexp(-2 * h));
    LessTimes(lo, Ldexp(2 * h), Ldexp(-2 * h));
  }

  lemma QuarterLdexp()
    ensures Ldexp(0) == 1.0 && Ldexp(-2) == 0.25
  {
    UnitInverse();
    LdexpNext(-1);
    LdexpNext(-2);
  }

  lemma ScaledSeed(v: real, h: int)
    ensures Residual(v, Ldexp(-h)) == Times(v, Ldexp(-2 * h)) && Ldexp(-2 * h) > 0.0
  {
    LdexpSum(-h, -h);
    assert -h + -h == -2 * h;
    SquareTimes(Ldexp(-h));
    hide Ldexp;
    hide Square;
    ResidualNamed(v, Ldexp(-h), Ldexp(-2 * h));
  }

  lemma ResidualNamed(v: real, y: real, q: real)
    requires q == Square(y)
    ensures Residual(v, y) == Times(v, q)
  {
  }

  /** The top of the interval: 1 / seed^2, or the largest finite number when that overflows. */
  function TopOf(h: int): real { if h < 512 then Ldexp(2 * h) else Largest() }

  lemma TopInside(lo: real, h: int)
    requires -536 <= h <= 512 && lo < Ldexp(2 * h) && lo < Largest()
    ensures lo < TopOf(h) && Finite(TopOf(h)) && Residual(TopOf(h), Ldexp(-h)) <= 1.0
  {
    ScaledSeed(TopOf(h), h);
    LdexpSum(2 * h, -2 * h);
    QuarterLdexp();
    if h < 512 { PowerFinite(2 * h); } else { LargestFinite(2 * h); }
    hide Ldexp;
    hide Largest;
    if h == 512 { LessTimes(Largest(), Ldexp(2 * h), Ldexp(-2 * h)); }
  }

  lemma ConstantsFinite()
    ensures PairReadable(NEWTON) && Finite(0.5)
  {
    HalfLdexp();
    assert Encodes(1.5, 3, -1) && Encodes(0.5, 1, -1);
  }

  lemma NewtonReadable(lo: real, hi: real, seed: real, n: nat)
    requires 0.0 < lo < hi && seed > 0.0 && Finite(lo) && Finite(hi) && Finite(seed) && 1 <= n <= 64
    ensures Readable(NewtonSchedule(lo, hi, seed, n))
  {
    ConstantsFinite();
    hide Finite;
  }

  /** A product of one and the square of another finite number that is below one is not too close to it. */
  lemma FiniteGap(lo: real, y: real, bits: nat)
    requires Finite(lo) && Finite(y) && lo > 0.0 && y > 0.0 && Residual(lo, y) < 1.0 && bits == 53
    ensures 1.0 - Residual(lo, y) >= Ldexp(-(3 * bits + 1))
  {
    var k: int, e: int :| Encodes(lo, k, e);
    var j: int, f: int :| Encodes(y, j, f);
    PositiveSignificand(lo, k, e);
    PositiveSignificand(y, j, f);
    ResidualEncodes(lo, k, e, y, j, f);
    SignificandPower(bits);
    ThreeFactors(k, j, bits);
    hide Ldexp;
    hide Residual;
    hide Pow2;
    StepBelow(k * j * j, e + 2 * f, 3 * bits);
  }

  lemma ThreeFactors(k: nat, j: nat, bits: nat)
    requires k < Pow2(bits) && j < Pow2(bits)
    ensures 0 <= k * j * j < Pow2(3 * bits)
  {
    var p, jj := Pow2(bits), j * j;
    Pow2Sum(bits, bits);
    Pow2Sum(2 * bits, bits);
    hide Pow2;
    LessProduct(j, p, j, p);
    LessProduct(jj, p * p, k, p);
    Regroup(k, j, jj);
  }

  lemma Regroup(k: nat, j: nat, jj: nat)
    requires jj == j * j
    ensures k * j * j == jj * k
  {
  }

  lemma LessProduct(a: nat, b: nat, c: nat, d: nat)
    requires a < b && c < d
    ensures 0 <= a * c < b * d
  {
    assert b * d - a * c == b * (d - c) + (b - a) * c;
  }

  lemma ResidualEncodes(lo: real, k: nat, e: int, y: real, j: nat, f: int)
    requires lo == Times(k as real, Ldexp(e)) && y == Times(j as real, Ldexp(f))
    ensures k * j * j >= 0 && Residual(lo, y) == Times((k * j * j) as real, Ldexp(e + 2 * f))
  {
    LdexpSum(f, f);
    LdexpSum(e, 2 * f);
    assert f + f == 2 * f;
    hide Ldexp;
    EncodedAlgebra(k as real, Ldexp(e), j as real, Ldexp(f), Ldexp(2 * f), Ldexp(e + 2 * f), lo, y);
    IntegerProduct(k, j);
  }

  lemma IntegerProduct(k: nat, j: nat)
    ensures k * j * j >= 0 && (k * j * j) as real == Times(k as real, Times(j as real, j as real))
  {
    assert k * j >= 0;
    assert (k * j) as real == k as real * j as real;
  }

  lemma EncodedAlgebra(k: real, p: real, j: real, q: real, qq: real, pqq: real, lo: real, y: real)
    requires lo == Times(k, p) && y == Times(j, q) && qq == Times(q, q) && pqq == Times(p, qq)
    ensures Residual(lo, y) == Times(Times(k, Times(j, j)), pqq)
  {
    assert (j * q) * (j * q) == (j * j) * (q * q);
    assert (k * p) * ((j * j) * (q * q)) == (k * (j * j)) * (p * (q * q));
  }

  lemma RootExceeded(lo: real, y: real, root: real)
    requires lo > 0.0 && y > 0.0 && Residual(lo, y) > Residual(lo, root)
    ensures y > root
  {
    if y <= root {
      SquareMono(y, root);
      Reals.MonoProduct(Square(y), Square(root), lo, Residual(lo, y), Residual(lo, root));
    }
  }

  // Ten Newton stages from a power of two come closer to 1/sqrt(lo) than any finite number below it.
  lemma TenStagesExceed(lo: real, seed: real, root: real)
    requires Finite(lo) && lo > 0.0 && Finite(root) && root > 0.0 && Residual(lo, root) < 1.0
    requires seed > 0.0 && 0.25 <= Residual(lo, seed) <= 1.0
    ensures Iterate(Newtons(10), lo, seed, 10) > root
  {
    var bits, eight := 53, 8;
    FiniteGap(lo, root, bits);
    assert Pow2(eight) == 256;
    SquaredSmall(eight);
    LdexpMono(-256, -161);
    LdexpNext(-161);
    hide Ldexp;
    hide Squared;
    hide Residual;
    GapAfter(lo, seed, 10, eight + 2, 0.75);
    hide Iterate;
    RootExceeded(lo, Iterate(Newtons(10), lo, seed, 10), root);
  }

  /** A finite root below 1/sqrt(lo) is exceeded by a readable certified schedule of ten stages, at v == lo. */
  lemma LowRootFails(lo: real, up: real -> real, root: real)
    requires Finite(lo) && 0.0 < lo < Largest() && Finite(up(root)) && up(root) > 0.0 && lo * Square(up(root)) < 1.0
    ensures !BoundsAll(lo, up, root)
  {
    assert Residual(lo, up(root)) == lo * Square(up(root));
    var h := SeedFor(lo);
    TopInside(lo, h);
    PowerFinite(-h);
    hide *;
    var c := NewtonCertified(lo, TopOf(h), Ldexp(-h), 10, 128);
    NewtonReadable(lo, TopOf(h), Ldexp(-h), 10);
    TenStagesExceed(lo, Ldexp(-h), up(root));
    Exceeded(lo, TopOf(h), Ldexp(-h), 10, 128, c, up, root);
  }

  lemma Exceeded(lo: real, hi: real, seed: real, n: nat, bits: nat, c: Certificate, up: real -> real, root: real)
    requires lo < hi && n >= 1 && Readable(NewtonSchedule(lo, hi, seed, n))
    requires VerdictHolds(NewtonSchedule(lo, hi, seed, n), bits, c) && c.verdict.Certified?
    requires Iterate(Newtons(n), lo, seed, n) > up(root)
    ensures !BoundHolds(NewtonSchedule(lo, hi, seed, n), lo, up, root, n) && !BoundsAll(lo, up, root)
  {
    hide Iterate;
    hide VerdictHolds;
    hide Readable;
    assert CertifiedAt(NewtonSchedule(lo, hi, seed, n), bits, c, lo, lo, n);
  }

  /**
   The returned bound is safe for every certified schedule that can be read exactly when the rounded root, after its
   upward step, is not below 1/sqrt(lo). No interval starts at the largest finite number.
   */
  lemma InverseBoundExact(lo: real, up: real -> real, root: real)
    requires Finite(lo) && 0.0 < lo < Largest() && Finite(up(root)) && up(root) > 0.0 && forall x :: up(x) >= x
    ensures BoundsAll(lo, up, root) <==> lo * Square(up(root)) >= 1.0
  {
    hide Readable;
    hide Finite;
    if lo * Square(up(root)) >= 1.0 {
      forall s: Schedule, bits: nat, c: Certificate, v: real, n: nat |
        CertifiedAt(s, bits, c, lo, v, n)
        ensures BoundHolds(s, v, up, root, n)
      {
        ReadableAccepted(s);
        InverseBoundSound(s, bits, c, v, up, root, n);
      }
    } else {
      LowRootFails(lo, up, root);
    }
  }

  lemma ReadableAccepted(s: Schedule)
    requires Readable(s)
    ensures ScheduleAccepted(s)
  {
  }

  lemma RecipeFor75()
    ensures Readable(NewtonSchedule(75.0, 75.25, 59.0 / 512.0, 3))
  {
    QuarterLdexp();
    assert Pow2(9) == 512;
    assert Encodes(75.0, 75, 0) && Encodes(75.25, 301, -2) && Encodes(59.0 / 512.0, 59, -9);
    hide Encodes;
    NewtonReadable(75.0, 75.25, 59.0 / 512.0, 3);
  }

  lemma ThreeStagesAt75(seed: real, next: real)
    requires seed == 59.0 / 512.0 && next == (ROOT_75 + 1) as real / POW2_56 as real
    ensures Residual(75.0, next) < 1.0 && Iterate(Newtons(3), 75.0, seed, 3) > next
  {
    assert Residual(75.0, seed) == 261075.0 / 262144.0;
    assert 100 * 75 * (ROOT_75 + 1) * (ROOT_75 + 1) < 100 * POW2_56 * POW2_56 - 300000000000000000;
    assert Residual(75.0, next) < 1.0 - 0.0000000000000000005;
    GapAfter(75.0, seed, 3, 3, 0.0041);
    assert Squared(0.0041, 1) == Square(0.0041) == 0.00001681;
    assert Squared(0.0041, 2) == Square(0.00001681) <= 0.0000000003;
    SquareMono(Squared(0.0041, 2), 0.0000000003);
    hide Iterate;
    RootExceeded(75.0, Iterate(Newtons(3), 75.0, seed, 3), next);
  }

  /**
   One upward step is not always enough. For lo == 75 take the 53-bit number nearest its root, the one nearest the
   reciprocal of that, and the next one up, which is still below 1/sqrt(75): a recipe of three Newton stages on
   [75, 75.25] is certified and exceeds the bound.
   */
  lemma OneStepTooLow(up: real -> real) returns (c: Certificate)
    requires forall x :: up(x) >= x
    requires up(ROOT_75 as real / POW2_56 as real) == (ROOT_75 + 1) as real / POW2_56 as real
    ensures 4503599627370496 <= SQRT_75 < 9007199254740992 && 4503599627370496 <= ROOT_75 < 9007199254740992
    ensures (2 * SQRT_75 - 1) * (2 * SQRT_75 - 1) < 300 * POW2_49 * POW2_49 < (2 * SQRT_75 + 1) * (2 * SQRT_75 + 1)
    ensures (2 * ROOT_75 - 1) * SQRT_75 < 2 * POW2_49 * POW2_56 < (2 * ROOT_75 + 1) * SQRT_75
    ensures var s := NewtonSchedule(75.0, 75.25, 59.0 / 512.0, 3);
            Readable(s) && VerdictHolds(s, 128, c) && c.verdict.Certified? &&
            !BoundHolds(s, 75.0, up, ROOT_75 as real / POW2_56 as real, 3)
  {
    var seed := 59.0 / 512.0;
    RecipeFor75();
    assert Residual(75.0, seed) == 261075.0 / 262144.0 && Residual(75.25, seed) <= 1.0;
    c := NewtonCertified(75.0, 75.25, seed, 3, 128);
    ThreeStagesAt75(seed, (ROOT_75 + 1) as real / POW2_56 as real);
    hide Residual;
    hide Iterate;
    Exceeded(75.0, 75.25, seed, 3, 128, c, up, ROOT_75 as real / POW2_56 as real);
  }
}
