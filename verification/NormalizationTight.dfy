/**
 How tight the intervals of a schedule certificate are (src/fhemamba/normalization.py:18-36, 173-210): every end is less
 than 2^-bits from a value that is taken, so a refusal is about values and not about loose intervals.
 */
module NormalizationTight {
  import opened Reals
  import opened Options
  import opened Powers
  import opened Normalization

  /** 2^-bits, the step of the outward rounding. */
  function Grain(bits: nat): real { 1.0 / Pow2(bits) as real }

  lemma QuotientNear(x: real, scale: real, f: real, scaled: real)
    requires scale > 0.0 && scaled == x * scale && scaled - 1.0 < f < scaled + 1.0
    ensures x - 1.0 / scale < f / scale < x + 1.0 / scale
  {
    var q, grain := f / scale, 1.0 / scale;
    assert scale * (q + grain) == f + 1.0 && scale * (q - grain) == f - 1.0 && scale * x == scaled;
    Reals.MulMonoIff(scale, q + grain, x);
    Reals.MulMonoIff(scale, x, q - grain);
  }

  /** Outward rounding moves each end by less than one step. */
  lemma OutwardTight(lo: real, hi: real, bits: nat)
    ensures Outward(lo, hi, bits).lo <= lo < Outward(lo, hi, bits).lo + Grain(bits)
    ensures Outward(lo, hi, bits).hi - Grain(bits) < hi <= Outward(lo, hi, bits).hi
  {
    OutwardContains(lo, hi, bits);
    var scale := Pow2(bits) as real;
    QuotientNear(lo, scale, (lo * scale).Floor as real, lo * scale);
    QuotientNear(hi, scale, Ceiling(hi * scale) as real, hi * scale);
  }

  /** The start interval ends within one step of v * seed^2 at both ends of the declared interval. */
  lemma StartTight(s: Schedule, bits: nat)
    requires ScheduleAccepted(s)
    ensures var i := StartInterval(s, bits);
            i.lo <= Residual(s.lo, s.seed) < i.lo + Grain(bits) &&
            i.hi - Grain(bits) < Residual(s.hi, s.seed) <= i.hi && i.lo <= i.hi
  {
    hide Residual;
    hide Outward;
    hide Grain;
    ResidualGrows(s.lo, s.hi, s.seed);
    OutwardTight(Residual(s.lo, s.seed), Residual(s.hi, s.seed), bits);
  }

  /** Updates are accepted exactly when the factor a - b*u stays positive on a positive interval. */
  lemma AcceptedMeans(i: Interval, p: Pair)
    ensures ImageAccepted(i, p)
            <==> 0.0 < i.lo <= i.hi && p.b > 0.0 && forall u: real :: i.Contains(u) ==> p.a - p.b * u > 0.0
  {
    if ImageAccepted(i, p) {
      forall u: real | i.Contains(u) ensures p.a - p.b * u > 0.0 { Reals.MulMonoIff(p.b, u, i.hi); }
    } else if 0.0 < i.lo <= i.hi {
      assert i.Contains(i.hi);
    }
  }

  /** Both ends of an image interval are within one step of the image of some point of the given interval. */
  lemma ImageTight(i: Interval, p: Pair, bits: nat) returns (u: real, w: real)
    requires ImageInterval(i, p, bits).Some?
    ensures i.Contains(u) && i.Contains(w)
    ensures var j := ImageInterval(i, p, bits).value;
            j.lo <= Image(u, p) < j.lo + Grain(bits) && j.hi - Grain(bits) < Image(w, p) <= j.hi && j.lo <= j.hi
  {
    var low, high := Reals.Min(Image(i.lo, p), Image(i.hi, p)), Reals.Max(Image(i.lo, p), Image(i.hi, p));
    u := if Image(i.lo, p) <= Image(i.hi, p) then i.lo else i.hi;
    w := if Image(i.lo, p) <= Image(i.hi, p) then i.hi else i.lo;
    var c := p.a / (3.0 * p.b);
    PositiveSlope(i, p);
    CriticalPoint(p, c);
    hide Image;
    hide Peak;
    hide Outward;
    hide Grain;
    if i.lo <= c <= i.hi {
      OutwardTight(Reals.Min(low, Peak(p)), Reals.Max(high, Peak(p)), bits);
      if Peak(p) < low { u := c; }
      if Peak(p) > high { w := c; }
    } else {
      OutwardTight(low, high, bits);
    }
  }

  lemma PositiveSlope(i: Interval, p: Pair)
    requires ImageAccepted(i, p)
    ensures p.b > 0.0 && p.a > 0.0
  {
    Reals.MulPos(p.b, i.hi);
  }

  // An interval passes an end of (0, 1], and so, up to one step, does a value it was rounded from.
  ghost predicate Escapes(i: Interval, least: real, most: real, bits: nat)
  {
    (i.lo <= 0.0 && least < Grain(bits)) || (i.hi > 1.0 && most > 1.0 - Grain(bits))
  }

  ghost predicate ImageEscapes(before: Interval, p: Pair, last: Interval, bits: nat)
  {
    exists u: real, w: real ::
      before.Contains(u) && before.Contains(w) && Escapes(last, Image(u, p), Image(w, p), bits)
  }

  ghost predicate ImageFallsShort(before: Interval, p: Pair, target: real, bits: nat)
  {
    exists u: real :: before.Contains(u) && Image(u, p) < target + Grain(bits)
  }

  /** What the values do when a schedule is not certified, reason by reason. */
  ghost predicate RefusalReal(s: Schedule, bits: nat, c: Certificate)
    requires 1 <= |c.trace| <= |s.coefficients| + 2
  {
    var n, last := |c.trace|, c.trace[|c.trace| - 1];
    match c.verdict
    case Certified => true
    case OutsideAtStart => Escapes(last, Residual(s.lo, s.seed), Residual(s.hi, s.seed), bits)
    case LeavesUnit => n > 1 && ImageEscapes(c.trace[n - 2], Recipe(s.coefficients)[n - 2], last, bits)
    case ImageRefused =>
      n < |s.coefficients| + 2 &&
      var p := Recipe(s.coefficients)[n - 1];
      p.b <= 0.0 || exists u: real :: last.Contains(u) && Denied(p, u)
    case NotReached =>
      var target := Square(1.0 - s.tolerance);
      n == |s.coefficients| + 2 && last.lo < target && ImageFallsShort(c.trace[n - 2], NEWTON, target, bits)
  }

  predicate Denied(p: Pair, u: real) { p.a - p.b * u <= 0.0 }

  /**
   A refusal is real up to one rounding step: it names an interval that passes an end of (0, 1] together with a value
   that comes within one step of doing so, an update factor that is not positive, or a value that misses the target by
   less than one step or more.
   */
  lemma RefusalMeans(s: Schedule, bits: nat, c: Certificate)
    requires ScheduleAccepted(s) && VerdictHolds(s, bits, c)
    ensures 1 <= |c.trace| <= |s.coefficients| + 2 && RefusalReal(s, bits, c)
  {
    var n, last := |c.trace|, c.trace[|c.trace| - 1];
    StartTight(s, bits);
    hide Image;
    hide Residual;
    hide Square;
    hide Grain;
    hide ImageInterval;
    hide StartInterval;
    if c.verdict.LeavesUnit? {
      assert Steps(s, bits, c.trace, n - 2);
      StepEscapes(c.trace[n - 2], Recipe(s.coefficients)[n - 2], bits, last);
    } else if c.verdict.NotReached? {
      assert Steps(s, bits, c.trace, n - 2);
      assert Recipe(s.coefficients)[n - 2] == NEWTON;
      StepFallsShort(c.trace[n - 2], NEWTON, bits, last, Square(1.0 - s.tolerance));
    } else if c.verdict.ImageRefused? {
      assert last.Contains(last.hi);
      assert Recipe(s.coefficients)[n - 1].b <= 0.0 || Denied(Recipe(s.coefficients)[n - 1], last.hi);
    }
  }

  lemma StepEscapes(i: Interval, p: Pair, bits: nat, j: Interval)
    requires ImageInterval(i, p, bits) == Some(j) && !InUnit(j)
    ensures ImageEscapes(i, p, j, bits)
  {
    var u, w := ImageTight(i, p, bits);
    hide Image;
    hide Grain;
    assert Escapes(j, Image(u, p), Image(w, p), bits);
  }

  lemma StepFallsShort(i: Interval, p: Pair, bits: nat, j: Interval, target: real)
    requires ImageInterval(i, p, bits) == Some(j) && j.lo < target
    ensures ImageFallsShort(i, p, target, bits)
  {
    var u, w := ImageTight(i, p, bits);
    hide Image;
    hide Grain;
  }
}
