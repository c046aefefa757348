/**
 Certified inverse square roots (src/fhemamba/normalization.py:18-227,
 native/fideslib_stage0/include/stage1_normalization.hpp:15-38, 64-138): interval images of u = v*y^2 and the evaluation
 orders of one polynomial.
 */
module Normalization {
  import opened Reals
  import opened Options
  import opened Powers

  // One update y := y * (a - b * v * y^2).
  datatype Pair = Pair(a: real, b: real)

  datatype Schedule = Schedule(lo: real, hi: real, seed: real, coefficients: seq<Pair>, tolerance: real)

  predicate ScheduleAccepted(s: Schedule)
  {
    0.0 < s.lo < s.hi && s.seed > 0.0 && 0.0 < s.tolerance < 1.0 && s.coefficients != []
  }

  /** The last update is always an ordinary Newton step. */
  const NEWTON := Pair(1.5, 0.5)

  function Recipe(coefficients: seq<Pair>): seq<Pair> { coefficients + [NEWTON] }

  function Square(y: real): real { y * y }

  function Residual(v: real, y: real): real { v * Square(y) }

  function Update(y: real, v: real, p: Pair): real { y * (p.a - p.b * Residual(v, y)) }

  /** The first n updates, from the seed. */
  function Iterate(pairs: seq<Pair>, v: real, seed: real, n: nat): real
    requires n <= |pairs|
  {
    if n == 0 then seed else Update(Iterate(pairs, v, seed, n - 1), v, pairs[n - 1])
  }

  lemma {:induction false} IteratePrefix(pairs: seq<Pair>, more: seq<Pair>, v: real, seed: real, n: nat)
    requires n <= |pairs|
    ensures Iterate(pairs + more, v, seed, n) == Iterate(pairs, v, seed, n)
    decreases n
  {
    if n > 0 { IteratePrefix(pairs, more, v, seed, n - 1); }
  }

  /** The value of the whole recipe. */
  function Evaluate(coefficients: seq<Pair>, v: real, seed: real): real
  {
    Iterate(Recipe(coefficients), v, seed, |coefficients| + 1)
  }

  lemma EvaluateLast(coefficients: seq<Pair>, v: real, seed: real, y: real)
    requires y == Iterate(coefficients, v, seed, |coefficients|)
    ensures Evaluate(coefficients, v, seed) == Update(y, v, NEWTON)
  {
    IteratePrefix(coefficients, [NEWTON], v, seed, |coefficients|);
  }

  // ---------- interval images ----------

  datatype Interval = Interval(lo: real, hi: real)
  {
    predicate Contains(x: real) { lo <= x <= hi }
  }

  function Ceiling(x: real): int { -((-x).Floor) }

  function RoundDown(x: real, scale: real): real
    requires scale > 0.0
  {
    (x * scale).Floor as real / scale
  }

  function RoundUp(x: real, scale: real): real
    requires scale > 0.0
  {
    Ceiling(x * scale) as real / scale
  }

  lemma RoundsOutward(x: real, scale: real)
    requires scale > 0.0
    ensures RoundDown(x, scale) <= x <= RoundUp(x, scale)
  {
    var scaled := x * scale;
    FloorBelow(x, scale, scaled.Floor as real, scaled);
    FloorAbove(x, scale, Ceiling(scaled) as real, scaled);
  }

  /** Outward rounding to multiples of 2^-bits. */
  function Outward(lo: real, hi: real, bits: nat): Interval
  {
    Interval(RoundDown(lo, Pow2(bits) as real), RoundUp(hi, Pow2(bits) as real))
  }

  lemma OutwardContains(lo: real, hi: real, bits: nat)
    ensures Outward(lo, hi, bits).lo <= lo && hi <= Outward(lo, hi, bits).hi
  {
    RoundsOutward(lo, Pow2(bits) as real);
    RoundsOutward(hi, Pow2(bits) as real);
    hide RoundDown;
    hide RoundUp;
  }

  lemma FloorBelow(x: real, scale: real, f: real, scaled: real)
    requires scale > 0.0 && scaled == x * scale && f <= scaled
    ensures f / scale <= x
  {
    var q := f / scale;
    assert q * scale == f;
    if q > x { Reals.MulPos(q - x, scale); }
  }

  lemma FloorAbove(x: real, scale: real, f: real, scaled: real)
    requires scale > 0.0 && scaled == x * scale && f >= scaled
    ensures f / scale >= x
  {
    var q := f / scale;
    assert q * scale == f;
    if q < x { Reals.MulPos(x - q, scale); }
  }

  /** How one update acts on u = v*y^2. */
  function Image(u: real, p: Pair): real { u * Square(p.a - p.b * u) }

  /** The largest value of the image over all u below a/b, taken at a/(3b). */
  function Peak(p: Pair): real
    requires p.b > 0.0
  {
    4.0 * p.a * p.a * p.a / (27.0 * p.b)
  }

  predicate ImageAccepted(i: Interval, p: Pair)
  {
    0.0 < i.lo <= i.hi && p.b > 0.0 && p.a - p.b * i.hi > 0.0
  }

  function ImageInterval(i: Interval, p: Pair, bits: nat): Option<Interval>
  {
    if !ImageAccepted(i, p) then None
    else
      var low, high := Reals.Min(Image(i.lo, p), Image(i.hi, p)), Reals.Max(Image(i.lo, p), Image(i.hi, p));
      var critical := p.a / (3.0 * p.b);
      if i.lo <= critical <= i.hi
        then Some(Outward(Reals.Min(low, Peak(p)), Reals.Max(high, Peak(p)), bits))
        else Some(Outward(low, high, bits))
  }

  // Image difference: b*f(x) - b*f(y) == (X - Y) * ((a - X - Y)^2 - X*Y) with X = b*x and Y = b*y.
  lemma ImageDifference(a: real, x: real, y: real)
    ensures x * Square(a - x) - y * Square(a - y) == (x - y) * (Square(a - x - y) - x * y)
  {
  }

  lemma BothBelow(x: real, y: real, d: real)
    requires 0.0 <= x <= d && 0.0 <= y <= d
    ensures x * y <= d * d
  {
    Reals.MulMono(x, d, y);
    Reals.MulMono(y, d, d);
    assert d * y == y * d;
  }

  lemma RisingAlgebra(a: real, x: real, y: real)
    requires 0.0 <= x <= y && 3.0 * y <= a
    ensures x * Square(a - x) <= y * Square(a - y)
  {
    ImageDifference(a, x, y);
    BothBelow(x, y, a - x - y);
    Reals.MulNonneg(y - x, Square(a - x - y) - x * y);
    SignedProduct(x - y, Square(a - x - y) - x * y);
  }

  lemma FallingAlgebra(a: real, x: real, y: real)
    requires 0.0 <= a <= 3.0 * x && x <= y <= a
    ensures x * Square(a - x) >= y * Square(a - y)
  {
    ImageDifference(a, x, y);
    var d := Reals.Abs(a - x - y);
    assert Square(a - x - y) == d * d;
    BothAbove(x, y, d);
    Reals.MulNonneg(y - x, x * y - Square(a - x - y));
    SignedProduct(x - y, Square(a - x - y) - x * y);
  }

  lemma BothAbove(x: real, y: real, d: real)
    requires 0.0 <= d <= x && d <= y
    ensures d * d <= x * y
  {
    Reals.MulMono(d, x, d);
    Reals.MulMono(d, y, x);
    assert x * d == d * x && y * x == x * y;
  }

  lemma SignedProduct(m: real, g: real)
    ensures (-m) * g == -(m * g) && (-m) * (-g) == m * g
  {
  }

  ghost predicate ScaledBy(b: real, u: real, x: real) { x == b * u }

  lemma ImageScaled(u: real, p: Pair, x: real)
    requires ScaledBy(p.b, u, x)
    ensures p.b * Image(u, p) == x * Square(p.a - x)
  {
    ScaledAlgebra(p.b, u, Square(p.a - x), x);
  }

  lemma ScaledAlgebra(b: real, u: real, q: real, x: real)
    requires x == b * u
    ensures b * (u * q) == x * q
  {
  }

  /** Below a/(3b) the image rises, above it falls. */
  lemma ImageRises(p: Pair, u: real, w: real, x: real, y: real)
    requires p.b > 0.0 && 0.0 < u <= w && ScaledBy(p.b, u, x) && ScaledBy(p.b, w, y) && 3.0 * y <= p.a
    ensures Image(u, p) <= Image(w, p)
  {
    ScaledOrder(p.b, u, w, x, y);
    hide *;
    ImageScaled(u, p, x);
    ImageScaled(w, p, y);
    RisingAlgebra(p.a, x, y);
    Reals.MulMonoIff(p.b, Image(u, p), Image(w, p));
  }

  lemma ImageFalls(p: Pair, u: real, w: real, x: real, y: real)
    requires p.b > 0.0 && 0.0 < u <= w && ScaledBy(p.b, u, x) && ScaledBy(p.b, w, y)
    requires 0.0 <= p.a <= 3.0 * x && y <= p.a
    ensures Image(u, p) >= Image(w, p)
  {
    ImageScaled(u, p, x);
    ImageScaled(w, p, y);
    Reals.MulMonoIff(p.b, u, w);
    FallingAlgebra(p.a, x, y);
    hide *;
    Reals.MulMonoIff(p.b, Image(w, p), Image(u, p));
  }

  lemma CriticalPoint(p: Pair, c: real)
    requires p.b > 0.0 && p.a > 0.0 && c == p.a / (3.0 * p.b)
    ensures c > 0.0 && 3.0 * (p.b * c) == p.a
    ensures Image(c, p) == Peak(p)
  {
    var d := 3.0 * p.b;
    assert c * d == p.a;
    TimesThree(p.b, c, p.a);
    if c <= 0.0 { Reals.MulNonneg(-c, d); SignedProduct(c, d); }
    ImageScaled(c, p, p.a / 3.0);
    hide Image;
    PeakAlgebra(p.a, p.b, Image(c, p), Peak(p));
  }

  lemma TimesThree(b: real, c: real, a: real)
    requires c * (3.0 * b) == a
    ensures 3.0 * (b * c) == a
  {
  }

  lemma PeakAlgebra(a: real, b: real, image: real, peak: real)
    requires b > 0.0 && peak == 4.0 * a * a * a / (27.0 * b)
    requires b * image == (a / 3.0) * Square(a - a / 3.0)
    ensures image == peak
  {
    var cube := a * a * a;
    assert Square(a - a / 3.0) == 4.0 * (a * a) / 9.0;
    assert (a / 3.0) * (4.0 * (a * a) / 9.0) == 4.0 * cube / 27.0;
    QuotientOnce(4.0 * cube, b, peak);
    SameQuotient(b, image, peak);
  }

  lemma QuotientOnce(x: real, b: real, peak: real)
    requires b > 0.0 && peak == x / (27.0 * b)
    ensures b * peak == x / 27.0
  {
    assert peak * (27.0 * b) == x;
  }

  lemma SameQuotient(b: real, x: real, y: real)
    requires b > 0.0 && b * x == b * y
    ensures x == y
  {
    Reals.MulMonoIff(b, x, y);
    Reals.MulMonoIff(b, y, x);
  }

  /** Every image of the interval lies between the smaller end value and the larger end value or the peak. */
  lemma ImageBounds(i: Interval, p: Pair, u: real)
    requires ImageAccepted(i, p) && i.Contains(u)
    ensures Reals.Min(Image(i.lo, p), Image(i.hi, p)) <= Image(u, p)
    ensures var c := p.a / (3.0 * p.b);
            Image(u, p) <= if i.lo <= c <= i.hi then Reals.Max(Reals.Max(Image(i.lo, p), Image(i.hi, p)), Peak(p))
                           else Reals.Max(Image(i.lo, p), Image(i.hi, p))
  {
    var c := p.a / (3.0 * p.b);
    Reals.MulPos(p.b, i.hi);
    CriticalPoint(p, c);
    OrderedImages(i, p, u, c, p.b * i.lo, p.b * u, p.b * i.hi, p.b * c);
  }

  lemma ScaledOrder(b: real, u: real, w: real, x: real, y: real)
    requires b > 0.0 && ScaledBy(b, u, x) && ScaledBy(b, w, y)
    ensures x <= y <==> u <= w
    ensures u > 0.0 ==> x > 0.0
  {
    Reals.MulMonoIff(b, u, w);
    if u > 0.0 { Reals.MulPos(b, u); }
  }

  lemma OrderedImages(i: Interval, p: Pair, u: real, c: real, xlo: real, xu: real, xhi: real, xc: real)
    requires p.b > 0.0 && 0.0 < i.lo <= u <= i.hi && c > 0.0 && xhi < p.a && 3.0 * xc == p.a
    requires ScaledBy(p.b, i.lo, xlo) && ScaledBy(p.b, u, xu) && ScaledBy(p.b, i.hi, xhi) && ScaledBy(p.b, c, xc)
    ensures u <= c ==> Image(i.lo, p) <= Image(u, p) <= Image(c, p)
    ensures u >= c ==> Image(c, p) >= Image(u, p) >= Image(i.hi, p)
    ensures i.hi <= c ==> Image(u, p) <= Image(i.hi, p)
    ensures i.lo >= c ==> Image(u, p) <= Image(i.lo, p)
  {
    ScaledOrder(p.b, u, i.hi, xu, xhi);
    hide *;
    if u <= c {
      RisesBelow(p, i.lo, u, c, xlo, xu, xc);
      RisesBelow(p, u, c, c, xu, xc, xc);
    }
    if u >= c {
      FallsAbove(p, c, u, c, xc, xu, xc);
      FallsAbove(p, u, i.hi, c, xu, xhi, xc);
    }
    if i.hi <= c { RisesBelow(p, u, i.hi, c, xu, xhi, xc); }
    if i.lo >= c { FallsAbove(p, i.lo, u, c, xlo, xu, xc); }
  }

  lemma RisesBelow(p: Pair, u: real, w: real, c: real, xu: real, xw: real, xc: real)
    requires p.b > 0.0 && 0.0 < u <= w <= c && 3.0 * xc == p.a
    requires ScaledBy(p.b, u, xu) && ScaledBy(p.b, w, xw) && ScaledBy(p.b, c, xc)
    ensures Image(u, p) <= Image(w, p)
  {
    ScaledOrder(p.b, w, c, xw, xc);
    hide *;
    ImageRises(p, u, w, xu, xw);
  }

  lemma FallsAbove(p: Pair, u: real, w: real, c: real, xu: real, xw: real, xc: real)
    requires p.b > 0.0 && 0.0 < c <= u <= w && 3.0 * xc == p.a && xw < p.a
    requires ScaledBy(p.b, u, xu) && ScaledBy(p.b, w, xw) && ScaledBy(p.b, c, xc)
    ensures Image(u, p) >= Image(w, p)
  {
    ScaledOrder(p.b, c, u, xc, xu);
    hide *;
    ImageFalls(p, u, w, xu, xw);
  }

  /** The computed interval contains the image of every point of the given one. */
  lemma ImageSound(i: Interval, p: Pair, bits: nat, u: real)
    requires i.Contains(u) && ImageInterval(i, p, bits).Some?
    ensures ImageInterval(i, p, bits).value.Contains(Image(u, p))
  {
    var low, high := Reals.Min(Image(i.lo, p), Image(i.hi, p)), Reals.Max(Image(i.lo, p), Image(i.hi, p));
    ImageBounds(i, p, u);
    OutwardContains(Reals.Min(low, Peak(p)), Reals.Max(high, Peak(p)), bits);
    OutwardContains(low, high, bits);
    hide Image;
    hide Peak;
    hide Outward;
  }

  // ---------- the certificate ----------

  datatype Verdict = Certified | OutsideAtStart | ImageRefused | LeavesUnit | NotReached

  datatype Certificate = Certificate(verdict: Verdict, trace: seq<Interval>)

  predicate InUnit(i: Interval) { 0.0 < i.lo <= i.hi <= 1.0 }

  function StartInterval(s: Schedule, bits: nat): Interval
  {
    Outward(Residual(s.lo, s.seed), Residual(s.hi, s.seed), bits)
  }

  /** The interval after each update so far, all but possibly the last inside (0, 1]. */
  predicate Traced(s: Schedule, bits: nat, trace: seq<Interval>)
  {
    1 <= |trace| <= |s.coefficients| + 2 && trace[0] == StartInterval(s, bits) &&
    forall k :: 0 <= k < |trace| - 1 ==> Steps(s, bits, trace, k)
  }

  predicate Steps(s: Schedule, bits: nat, trace: seq<Interval>, k: nat)
    requires k + 1 < |trace| <= |s.coefficients| + 2
  {
    InUnit(trace[k]) && ImageInterval(trace[k], Recipe(s.coefficients)[k], bits) == Some(trace[k + 1])
  }

  predicate Reaches(s: Schedule, i: Interval) { i.lo >= Square(1.0 - s.tolerance) }

  /** What each verdict says about the trace it comes with. */
  predicate VerdictHolds(s: Schedule, bits: nat, c: Certificate)
  {
    Traced(s, bits, c.trace) &&
    var n, last := |c.trace|, c.trace[|c.trace| - 1];
    match c.verdict
    case Certified => n == |s.coefficients| + 2 && InUnit(last) && Reaches(s, last)
    case NotReached => n == |s.coefficients| + 2 && InUnit(last) && !Reaches(s, last)
    case OutsideAtStart => n == 1 && !InUnit(last)
    case LeavesUnit => n > 1 && !InUnit(last)
    case ImageRefused => n < |s.coefficients| + 2 && InUnit(last) && !ImageAccepted(last, Recipe(s.coefficients)[n - 1])
  }

  method CertifySchedule(s: Schedule, bits: int) returns (r: Option<Certificate>)
    ensures r.None? <==> bits < 32 || bits > 512
    ensures r.Some? ==> VerdictHolds(s, bits, r.value)
  {
    if bits < 32 || bits > 512 { return None; }
    var i := StartInterval(s, bits);
    var trace := [i];
    if !InUnit(i) { return Some(Certificate(OutsideAtStart, trace)); }
    var pairs := Recipe(s.coefficients);
    for k := 0 to |pairs|
      invariant |trace| == k + 1 && trace[k] == i && InUnit(i) && Traced(s, bits, trace)
    {
      var image := ImageInterval(i, pairs[k], bits);
      if image.None? { return Some(Certificate(ImageRefused, trace)); }
      TraceGrows(s, bits, trace, image.value);
      hide *;
      i := image.value;
      trace := trace + [i];
      if !InUnit(i) {
        LeftUnit(s, bits, trace);
        return Some(Certificate(LeavesUnit, trace));
      }
    }
    r := Some(Certificate(if Reaches(s, i) then Certified else NotReached, trace));
  }

  lemma LeftUnit(s: Schedule, bits: nat, trace: seq<Interval>)
    requires Traced(s, bits, trace) && |trace| > 1 && !InUnit(trace[|trace| - 1])
    ensures VerdictHolds(s, bits, Certificate(LeavesUnit, trace))
  {
  }

  lemma TraceGrows(s: Schedule, bits: nat, trace: seq<Interval>, next: Interval)
    requires Traced(s, bits, trace) && |trace| < |s.coefficients| + 2 && InUnit(trace[|trace| - 1])
    requires ImageInterval(trace[|trace| - 1], Recipe(s.coefficients)[|trace| - 1], bits) == Some(next)
    ensures Traced(s, bits, trace + [next])
  {
    hide ImageInterval;
    hide InUnit;
    hide StartInterval;
    var longer := trace + [next];
    forall k | 0 <= k < |longer| - 1 ensures Steps(s, bits, longer, k) {
      if k < |trace| - 1 { assert Steps(s, bits, trace, k); }
    }
  }

  // ---------- soundness ----------

  /** One update acts on v*y^2 as the image. */
  lemma UpdateResidual(v: real, y: real, p: Pair, u: real, next: real)
    requires u == Residual(v, y) && next == Update(y, v, p)
    ensures Residual(v, next) == Image(u, p)
  {
    var f := p.a - p.b * u;
    assert next == y * f;
    ResidualAlgebra(v, y, f);
  }

  lemma ResidualAlgebra(v: real, y: real, f: real)
    ensures Residual(v, y * f) == Residual(v, y) * Square(f)
  {
    assert Square(y * f) == Square(y) * Square(f);
  }

  lemma UpdatePositive(v: real, y: real, p: Pair, i: Interval, u: real)
    requires y > 0.0 && ImageAccepted(i, p) && u == Residual(v, y) && i.Contains(u)
    ensures Update(y, v, p) > 0.0 && p.a - p.b * u > 0.0
  {
    Reals.MulMono(u, i.hi, p.b);
    Commute(u, i.hi, p.b);
    Reals.MulPos(y, p.a - p.b * u);
  }

  lemma Commute(a: real, b: real, c: real)
    ensures a * c == c * a && b * c == c * b
  {
  }

  predicate InRange(s: Schedule, v: real) { s.lo <= v <= s.hi }

  lemma StartSound(s: Schedule, bits: nat, v: real)
    requires ScheduleAccepted(s) && InRange(s, v)
    ensures StartInterval(s, bits).Contains(Residual(v, s.seed))
  {
    ResidualGrows(s.lo, v, s.seed);
    ResidualGrows(v, s.hi, s.seed);
    hide Residual;
    hide Outward;
    OutwardContains(Residual(s.lo, s.seed), Residual(s.hi, s.seed), bits);
  }

  lemma ResidualGrows(v: real, w: real, y: real)
    requires v <= w
    ensures Residual(v, y) <= Residual(w, y)
  {
    Reals.SquareNonneg(y);
    Reals.MulMono(v, w, Square(y));
  }

  /** Along a trace every reachable v*y^2 lies in the recorded interval, and y stays positive. */
  lemma {:induction false} TraceContains(s: Schedule, bits: nat, trace: seq<Interval>, v: real, n: nat)
    requires ScheduleAccepted(s) && InRange(s, v) && Traced(s, bits, trace) && n < |trace|
    ensures var y := Iterate(Recipe(s.coefficients), v, s.seed, n); y > 0.0 && trace[n].Contains(Residual(v, y))
    decreases n
  {
    if n == 0 {
      StartSound(s, bits, v);
    } else {
      TraceContains(s, bits, trace, v, n - 1);
      assert Steps(s, bits, trace, n - 1);
      var y, p := Iterate(Recipe(s.coefficients), v, s.seed, n - 1), Recipe(s.coefficients)[n - 1];
      TraceStep(v, y, p, trace[n - 1], trace[n], bits);
      hide Update;
      hide Residual;
    }
  }

  lemma TraceStep(v: real, y: real, p: Pair, i: Interval, j: Interval, bits: nat)
    requires y > 0.0 && i.Contains(Residual(v, y)) && ImageInterval(i, p, bits) == Some(j)
    ensures Update(y, v, p) > 0.0 && j.Contains(Residual(v, Update(y, v, p)))
  {
    var u := Residual(v, y);
    UpdatePositive(v, y, p, i, u);
    UpdateResidual(v, y, p, u, Update(y, v, p));
    ImageSound(i, p, bits, u);
    hide *;
  }

  /** A certified schedule is an inverse square root to relative tolerance, from below, on the whole interval. */
  lemma CertificateSound(s: Schedule, bits: nat, c: Certificate, v: real)
    requires ScheduleAccepted(s) && VerdictHolds(s, bits, c) && c.verdict.Certified? && InRange(s, v)
    ensures var y := Evaluate(s.coefficients, v, s.seed);
            y > 0.0 && Square(1.0 - s.tolerance) <= Residual(v, y) <= 1.0
  {
    TraceContains(s, bits, c.trace, v, |s.coefficients| + 1);
    hide Iterate;
    hide Residual;
    hide Square;
    hide Traced;
  }

  // ---------- evaluation orders ----------

  // Coupled: u = v*y^2 is carried along and multiplied by the squared factors.
  method CoupledStages(coefficients: seq<Pair>, v: real, seed: real) returns (y: real)
    ensures y == Iterate(coefficients, v, seed, |coefficients|)
  {
    var u := v * seed * seed;
    y := seed;
    SeedResidual(v, seed);
    for i := 0 to |coefficients|
      invariant y == Iterate(coefficients, v, seed, i)
      invariant i < |coefficients| ==> u == Residual(v, y)
    {
      var p := coefficients[i];
      var factor := p.a - p.b * u;
      ghost var before := y;
      CoupledStep(v, y, p, u, factor);
      hide *;
      y := y * factor;
      if i + 1 < |coefficients| { u := u * (factor * factor); }
      IterateNext(coefficients, v, seed, i, before, y);
    }
  }

  lemma SeedResidual(v: real, seed: real)
    ensures v * seed * seed == Residual(v, seed)
  {
  }

  lemma CoupledStep(v: real, y: real, p: Pair, u: real, factor: real)
    requires u == Residual(v, y) && factor == p.a - p.b * u
    ensures y * factor == Update(y, v, p) && u * (factor * factor) == Residual(v, y * factor)
  {
    ResidualAlgebra(v, y, factor);
  }

  lemma IterateNext(pairs: seq<Pair>, v: real, seed: real, i: nat, before: real, y: real)
    requires i < |pairs| && before == Iterate(pairs, v, seed, i) && y == Update(before, v, pairs[i])
    ensures y == Iterate(pairs, v, seed, i + 1)
  {
  }

  lemma NewtonForms(v: real, y: real, residual: real)
    requires residual == v * (y * y) || residual == (v * y) * y
    ensures Update(y, v, NEWTON) == y * (1.5 - 0.5 * residual)
    ensures Update(y, v, NEWTON) == y * (residual * -0.5 + 1.5)
  {
    assert (v * y) * y == v * (y * y);
  }

  method EvaluateCoupled(s: Schedule, v: real) returns (result: real)
    ensures result == Evaluate(s.coefficients, v, s.seed)
  {
    var y := CoupledStages(s.coefficients, v, s.seed);
    EvaluateLast(s.coefficients, v, s.seed, y);
    var residual := v * (y * y);
    NewtonForms(v, y, residual);
    hide *;
    result := y * (1.5 - 0.5 * residual);
  }

  lemma BalancedForm(v: real, y: real, p: Pair)
    ensures p.a * y + ((-p.b * v) * y) * (y * y) == Update(y, v, p)
  {
    var q := y * y;
    BalancedAlgebra(p.a, p.b, v, y, q);
  }

  lemma BalancedAlgebra(a: real, b: real, v: real, y: real, q: real)
    ensures a * y + ((-b * v) * y) * q == y * (a - b * (v * q))
  {
    assert ((-b * v) * y) * q == -(y * (b * (v * q)));
    assert y * (a - b * (v * q)) == y * a - y * (b * (v * q));
  }

  lemma FirstStage(v: real, seed: real, p: Pair)
    ensures (p.a - p.b * (v * seed * seed)) * seed == Update(seed, v, p)
  {
    SeedResidual(v, seed);
    hide Residual;
    assert (p.a - p.b * Residual(v, seed)) * seed == seed * (p.a - p.b * Residual(v, seed));
  }

  /** Balanced: v*y^2 is recomputed from v at every stage; a checkpoint may replace y before each later stage. */
  function Checkpointed(pairs: seq<Pair>, v: real, seed: real, checkpoint: (real, nat) -> real, n: nat): real
    requires n <= |pairs|
  {
    if n == 0 then seed
    else
      var y := Checkpointed(pairs, v, seed, checkpoint, n - 1);
      Update(if n == 1 then y else checkpoint(y, n - 1), v, pairs[n - 1])
  }

  lemma {:induction false} NoCheckpoint(pairs: seq<Pair>, v: real, seed: real, n: nat)
    requires n <= |pairs|
    ensures Checkpointed(pairs, v, seed, Identity, n) == Iterate(pairs, v, seed, n)
    decreases n
  {
    if n > 0 { NoCheckpoint(pairs, v, seed, n - 1); }
  }

  function Identity(y: real, i: nat): real { y }

  method EvaluateBalancedNormalization(v: real, s: Schedule, checkpoint: (real, nat) -> real)
    returns (before: real, output: real)
    requires s.coefficients != []
    ensures var n := |s.coefficients|;
            before == checkpoint(Checkpointed(Recipe(s.coefficients), v, s.seed, checkpoint, n), n)
    ensures output == Checkpointed(Recipe(s.coefficients), v, s.seed, checkpoint, |s.coefficients| + 1)
    ensures output == Update(before, v, NEWTON)
  {
    var pairs, n := Recipe(s.coefficients), |s.coefficients|;
    var p := s.coefficients[0];
    FirstStage(v, s.seed, p);
    var y := (p.a - p.b * (v * s.seed * s.seed)) * s.seed;
    before := y;
    FirstCheckpoint(pairs, v, s.seed, checkpoint);
    hide Update;
    hide Recipe;
    for i := 1 to n + 1
      invariant y == Checkpointed(pairs, v, s.seed, checkpoint, i)
      invariant i == n + 1 ==> before == checkpoint(Checkpointed(pairs, v, s.seed, checkpoint, n), n) &&
                               y == Update(before, v, pairs[n])
    {
      CheckpointNext(pairs, v, s.seed, checkpoint, i);
      hide *;
      y := checkpoint(y, i);
      if i == n { before := y; }
      p := pairs[i];
      BalancedForm(v, y, p);
      y := p.a * y + ((-p.b * v) * y) * (y * y);
    }
    output := y;
    LastPair(s.coefficients);
  }

  lemma CheckpointNext(pairs: seq<Pair>, v: real, seed: real, checkpoint: (real, nat) -> real, i: nat)
    requires 1 <= i < |pairs|
    ensures Checkpointed(pairs, v, seed, checkpoint, i + 1)
            == Update(checkpoint(Checkpointed(pairs, v, seed, checkpoint, i), i), v, pairs[i])
  {
    hide Update;
  }

  lemma LastPair(coefficients: seq<Pair>)
    ensures Recipe(coefficients)[|coefficients|] == NEWTON
  {
  }

  lemma FirstCheckpoint(pairs: seq<Pair>, v: real, seed: real, checkpoint: (real, nat) -> real)
    requires pairs != []
    ensures Checkpointed(pairs, v, seed, checkpoint, 1) == Update(seed, v, pairs[0])
  {
  }

  // ---------- hoisted coefficient ratios ----------

  /** The b a weighted evaluation really uses: the first one times every rounded ratio so far. */
  function EffectiveB(coefficients: seq<Pair>, ratio: (real, real) -> real, i: nat): real
    requires i < |coefficients|
  {
    if i == 0 then coefficients[0].b
    else Times(EffectiveB(coefficients, ratio, i - 1), ratio(coefficients[i].b, coefficients[i - 1].b))
  }

  function Effective(coefficients: seq<Pair>, ratio: (real, real) -> real): (pairs: seq<Pair>)
    ensures |pairs| == |coefficients|
  {
    seq(|coefficients|, i requires 0 <= i < |coefficients| =>
      Pair(coefficients[i].a, EffectiveB(coefficients, ratio, i)))
  }

  lemma WeightedStep(v: real, y: real, p: Pair, r: real, factor: real, ratio: real, b: real)
    requires r == -p.b * Residual(v, y) && factor == p.a + r && b == Times(p.b, ratio)
    ensures y * factor == Update(y, v, p)
    ensures (r * ratio) * (factor * factor) == -b * Residual(v, y * factor)
  {
    var u := Residual(v, y);
    assert factor == p.a - p.b * u;
    CoupledStep(v, y, p, u, factor);
    WeightedAlgebra(p.b, u, ratio, factor * factor, r, b, Residual(v, y * factor));
  }

  lemma WeightedAlgebra(pb: real, u: real, ratio: real, q: real, r: real, b: real, next: real)
    requires r == -pb * u && b == pb * ratio && u * q == next
    ensures (r * ratio) * q == -b * next
  {
    assert (r * ratio) * q == -(b * (u * q));
  }

  // After i weighted stages: r = -B*v*y^2 for the previous y, B being the effective coefficient.
  ghost predicate WeightedAt(pairs: seq<Pair>, v: real, seed: real, i: nat,
                             before: real, r: real, factor: real, y: real)
  {
    0 < i <= |pairs| && before == Iterate(pairs, v, seed, i - 1) && y == before * factor &&
    r == -pairs[i - 1].b * Residual(v, before) && factor == pairs[i - 1].a + r
  }

  lemma WeightedDone(pairs: seq<Pair>, v: real, seed: real, i: nat, before: real, r: real, factor: real, y: real)
    requires WeightedAt(pairs, v, seed, i, before, r, factor, y)
    ensures y == Iterate(pairs, v, seed, i)
  {
    WeightedStep(v, before, pairs[i - 1], r, factor, 1.0, Times(pairs[i - 1].b, 1.0));
    hide Update;
    hide Residual;
  }

  lemma WeightedNext(pairs: seq<Pair>, v: real, seed: real, i: nat, before: real, r: real, factor: real, y: real,
                     ratio: real, nextR: real, nextFactor: real, nextY: real)
    requires WeightedAt(pairs, v, seed, i, before, r, factor, y) && i < |pairs|
    requires pairs[i].b == Times(pairs[i - 1].b, ratio)
    requires nextR == (r * ratio) * (factor * factor) && nextFactor == pairs[i].a + nextR && nextY == y * nextFactor
    ensures WeightedAt(pairs, v, seed, i + 1, y, nextR, nextFactor, nextY)
  {
    WeightedDone(pairs, v, seed, i, before, r, factor, y);
    WeightedStep(v, before, pairs[i - 1], r, factor, ratio, pairs[i].b);
    SameResidual(v, before, factor, y);
    hide Residual;
    hide Iterate;
  }

  lemma SameResidual(v: real, before: real, factor: real, y: real)
    requires y == before * factor
    ensures Residual(v, before * factor) == Residual(v, y)
  {
  }

  /** No ratio divides by zero (Python raises ZeroDivisionError otherwise). */
  predicate RatiosDefined(coefficients: seq<Pair>)
  {
    forall i :: 0 <= i < |coefficients| - 1 ==> coefficients[i].b != 0.0
  }

  method WeightedStages(coefficients: seq<Pair>, v: real, seed: real, ratio: (real, real) -> real) returns (y: real)
    requires coefficients != []
    ensures y == Iterate(Effective(coefficients, ratio), v, seed, |coefficients|)
  {
    ghost var pairs := Effective(coefficients, ratio);
    var b := coefficients[0].b;
    var r := v * seed * seed * (-b);
    SeedResidual(v, seed);
    CommuteNegated(Residual(v, seed), b);
    var factor := coefficients[0].a + r;
    y := seed * factor;
    ghost var before := seed;
    hide Residual;
    assert WeightedAt(pairs, v, seed, 1, before, r, factor, y);
    for i := 1 to |coefficients|
      invariant WeightedAt(pairs, v, seed, i, before, r, factor, y) && b == coefficients[i - 1].b
    {
      var p := coefficients[i];
      EffectiveNext(coefficients, ratio, i);
      hide *;
      var scale := ratio(p.b, b);
      var nextR := (r * scale) * (factor * factor);
      var nextFactor := p.a + nextR;
      WeightedNext(pairs, v, seed, i, before, r, factor, y, scale, nextR, nextFactor, y * nextFactor);
      before, r, factor, y := y, nextR, nextFactor, y * nextFactor;
      b := p.b;
    }
    WeightedDone(pairs, v, seed, |coefficients|, before, r, factor, y);
  }

  lemma CommuteNegated(u: real, b: real)
    ensures u * (-b) == -b * u
  {
  }

  lemma EffectiveNext(coefficients: seq<Pair>, ratio: (real, real) -> real, i: nat)
    requires 0 < i < |coefficients|
    ensures var pairs := Effective(coefficients, ratio);
            pairs[i].b == Times(pairs[i - 1].b, ratio(coefficients[i].b, coefficients[i - 1].b)) &&
            pairs[i].a == coefficients[i].a
  {
  }

  lemma EffectivePair(coefficients: seq<Pair>, ratio: (real, real) -> real, i: nat, b: real)
    requires 0 < i < |coefficients| && b == Effective(coefficients, ratio)[i - 1].b
    ensures var pairs := Effective(coefficients, ratio);
            pairs[i] == Pair(coefficients[i].a, Times(b, ratio(coefficients[i].b, coefficients[i - 1].b))) &&
            pairs[..i + 1] == pairs[..i] + [pairs[i]]
  {
    hide Times;
  }

  method EvaluateWeighted(s: Schedule, v: real, ratio: (real, real) -> real) returns (result: Option<real>)
    requires s.coefficients != []
    ensures result.Some? <==> RatiosDefined(s.coefficients)
    ensures result.Some? ==> result.value == Evaluate(Effective(s.coefficients, ratio), v, s.seed)
  {
    if !RatiosDefined(s.coefficients) { return None; }
    var y := WeightedStages(s.coefficients, v, s.seed, ratio);
    EvaluateLast(Effective(s.coefficients, ratio), v, s.seed, y);
    var residual := (v * y) * y;
    NewtonForms(v, y, residual);
    hide *;
    result := Some(y * (1.5 - 0.5 * residual));
  }

  // The final Newton step, with the residual associated as the mode does.
  method FinalStep(v: real, y: real, weighted: bool) returns (output: real)
    ensures output == Update(y, v, NEWTON)
  {
    var residual := if weighted then (v * y) * y else v * (y * y);
    NewtonForms(v, y, residual);
    hide *;
    output := y * (residual * -0.5 + 1.5);
  }

  /** The three orders of the native evaluator, with the value before the final Newton step. */
  method EvaluateNormalization(v: real, s: Schedule, balanced: bool, weighted: bool, ratio: (real, real) -> real)
    returns (r: Option<(real, real)>)
    requires s.coefficients != []
    ensures r.None? <==> balanced && weighted
    ensures r.Some? ==> var pairs := if weighted then Effective(s.coefficients, ratio) else s.coefficients;
                        r.value.0 == Iterate(pairs, v, s.seed, |pairs|) && r.value.1 == Evaluate(pairs, v, s.seed)
  {
    if balanced && weighted { return None; }
    if balanced {
      var before, output := EvaluateBalancedNormalization(v, s, Identity);
      BalancedMeans(s.coefficients, v, s.seed);
      return Some((before, output));
    }
    ghost var pairs := if weighted then Effective(s.coefficients, ratio) else s.coefficients;
    var y: real;
    if weighted {
      y := WeightedStages(s.coefficients, v, s.seed, ratio);
    } else {
      y := CoupledStages(s.coefficients, v, s.seed);
    }
    EvaluateLast(pairs, v, s.seed, y);
    hide *;
    var output := FinalStep(v, y, weighted);
    r := Some((y, output));
  }

  lemma BalancedMeans(coefficients: seq<Pair>, v: real, seed: real)
    ensures Checkpointed(Recipe(coefficients), v, seed, Identity, |coefficients|)
            == Iterate(coefficients, v, seed, |coefficients|)
    ensures Checkpointed(Recipe(coefficients), v, seed, Identity, |coefficients| + 1) == Evaluate(coefficients, v, seed)
  {
    NoCheckpoint(Recipe(coefficients), v, seed, |coefficients|);
    NoCheckpoint(Recipe(coefficients), v, seed, |coefficients| + 1);
    IteratePrefix(coefficients, [NEWTON], v, seed, |coefficients|);
  }

  /** The weighted polynomial is certified as the schedule of its effective coefficients. */
  method CertifyWeightedSchedule(s: Schedule, bits: int, ratio: (real, real) -> real) returns (r: Option<Certificate>)
    requires s.coefficients != []
    ensures r.None? <==> !RatiosDefined(s.coefficients) || bits < 32 || bits > 512
    ensures r.Some? ==> VerdictHolds(s.(coefficients := Effective(s.coefficients, ratio)), bits, r.value)
  {
    if !RatiosDefined(s.coefficients) { return None; }
    var b := s.coefficients[0].b;
    var effective := [s.coefficients[0]];
    ghost var pairs := Effective(s.coefficients, ratio);
    for i := 1 to |s.coefficients|
      invariant effective == pairs[..i] && b == pairs[i - 1].b
    {
      EffectivePair(s.coefficients, ratio, i, b);
      hide *;
      b := Times(b, ratio(s.coefficients[i].b, s.coefficients[i - 1].b));
      effective := effective + [Pair(s.coefficients[i].a, b)];
    }
    assert pairs[..|pairs|] == pairs;
    hide *;
    r := CertifySchedule(s.(coefficients := effective), bits);
  }

  /**
   A certified weighted schedule bounds what the weighted order returns: that value is an inverse square root of every v
   in the interval, from below and to the relative tolerance, whatever the rounded ratios are.
   */
  lemma WeightedSound(s: Schedule, bits: nat, c: Certificate, ratio: (real, real) -> real, v: real)
    requires ScheduleAccepted(s) && InRange(s, v) && c.verdict.Certified?
    requires VerdictHolds(s.(coefficients := Effective(s.coefficients, ratio)), bits, c)
    ensures var y := Evaluate(Effective(s.coefficients, ratio), v, s.seed);
            y > 0.0 && Square(1.0 - s.tolerance) <= Residual(v, y) <= 1.0
  {
    var weighted := s.(coefficients := Effective(s.coefficients, ratio));
    hide Effective;
    hide VerdictHolds;
    CertificateSound(weighted, bits, c, v);
  }
}
