/**
 The gate p, q with decay 1 - p^2 and write p^2 q^2: evaluation by Clenshaw recursion
 (src/fhemamba/selective_gates.py:113-135), its certificate (src/fhemamba/polynomial_certificate.py:206-229)
 and the state bound the certificate is for.
 */
module DissipativeGate {
  import opened Reals
  import opened Chebyshev
  import opened Bernstein
  import opened Options
  import opened PolynomialCertificate
  import opened BernsteinProver
  import opened IntegerProver

  // ---------- Clenshaw ----------

  /** The backward recursion yields the Chebyshev series at t. */
  method Clenshaw(c: seq<real>, t: real) returns (value: real)
    requires |c| > 0
    ensures value == Series(c, t)
  {
    ghost var f := Basis(t);
    BasisIsChebyshev(t);
    var previous, before := 0.0, 0.0;
    var j := |c|;
    assert c[..|c|] == c;
    hide Combination;
    while j > 1
      invariant 1 <= j <= |c|
      invariant Unread(c, f, j, previous, before)
    {
      ClenshawStep(c, f, t, j, previous, before);
      j := j - 1;
      previous, before := 2.0 * t * previous - before + c[j], previous;
    }
    ClenshawEnd(c, f, t, previous, before);
    value := t * previous - before + c[0];
  }

  // The coefficients below j, plus the two running values against the basis, make up the whole series.
  ghost predicate Unread(c: seq<real>, f: nat -> real, j: nat, previous: real, before: real)
    requires 1 <= j <= |c|
  {
    Combination(c, f) == Combination(c[..j], f) + previous * f(j) - before * f(j - 1)
  }

  lemma ClenshawStep(c: seq<real>, f: nat -> real, t: real, j: nat, previous: real, before: real)
    requires IsChebyshev(f, t) && 2 <= j <= |c| && Unread(c, f, j, previous, before)
    ensures Unread(c, f, j - 1, 2.0 * t * previous - before + c[j - 1], previous)
  {
    var v, f0, f1, f2 := c[j - 1], f(j - 2), f(j - 1), f(j);
    var whole, upper, lower := Combination(c, f), Combination(c[..j], f), Combination(c[..j - 1], f);
    assert Steps(f, t, j - 2);
    ExtendNamed(c, j - 1, f, v, f1, lower, upper);
    UnreadNamed(c, f, j, previous, before, f2, f1, upper, whole);
    hide Combination;
    ClenshawAlgebra(t, v, f0, f1, f2, previous, before, lower, upper, whole);
  }

  lemma ClenshawAlgebra(t: real, v: real, f0: real, f1: real, f2: real, p: real, b: real,
                        lower: real, upper: real, whole: real)
    requires f2 == 2.0 * t * f1 - f0 && upper == lower + v * f1
    requires whole == upper + p * f2 - b * f1
    ensures whole == lower + (2.0 * t * p - b + v) * f1 - p * f0
  {
    assert p * f2 == 2.0 * t * p * f1 - p * f0;
  }

  lemma ClenshawEnd(c: seq<real>, f: nat -> real, t: real, previous: real, before: real)
    requires IsChebyshev(f, t) && |c| > 0 && Unread(c, f, 1, previous, before)
    ensures Combination(c, f) == t * previous - before + c[0]
  {
    var upper, whole, f0, f1, v := Combination(c[..1], f), Combination(c, f), f(0), f(1), c[0];
    assert Combination(c[..0], f) == 0.0;
    ExtendNamed(c, 0, f, v, f0, 0.0, upper);
    UnreadNamed(c, f, 1, previous, before, f1, f0, upper, whole);
    hide *;
    ClenshawLast(t, previous, before, f1, f0, v, upper, whole);
  }

  lemma UnreadNamed(c: seq<real>, f: nat -> real, j: nat, previous: real, before: real,
                    f1: real, f0: real, upper: real, whole: real)
    requires 1 <= j <= |c| && Unread(c, f, j, previous, before)
    requires f1 == f(j) && f0 == f(j - 1) && upper == Combination(c[..j], f) && whole == Combination(c, f)
    ensures whole == upper + previous * f1 - before * f0
  {
    hide Combination;
  }

  lemma ClenshawLast(t: real, p: real, b: real, f1: real, f0: real, v: real, upper: real, whole: real)
    requires f1 == t && f0 == 1.0 && upper == 0.0 + v * f0 && whole == upper + p * f1 - b * f0
    ensures whole == t * p - b + v
  {
  }

  // ---------- the gate ----------

  datatype Gate = Gate(lo: real, hi: real, p: seq<real>, q: seq<real>)
  {
    predicate Valid() { lo < hi && |p| > 0 && |q| > 0 }

    /** The affine map of the head's domain onto [-1, 1]. */
    function Normalize(z: real): real
      requires lo < hi
    {
      (2.0 * z - (lo + hi)) / (hi - lo)
    }

    /** The affine map of [-1, 1] onto the head's domain: -1 to lo and 1 to hi. */
    function Argument(x: real): real { lo + (hi - lo) * (x + 1.0) / 2.0 }

    function Decay(x: real): real { 1.0 - Series(p, x) * Series(p, x) }

    function Write(x: real): real { Series(p, x) * Series(p, x) * (Series(q, x) * Series(q, x)) }

    /** s' = decay * s + write * v at gate argument x. */
    function Step(x: real, s: real, v: real): real { Decay(x) * s + Write(x) * v }
  }

  method EvaluateGate(gate: Gate, z: real) returns (write: real, decay: real)
    requires gate.Valid()
    ensures forall x: real :: gate.Argument(x) == z ==> write == gate.Write(x) && decay == gate.Decay(x)
    ensures gate.Argument(gate.Normalize(z)) == z
  {
    var t := gate.Normalize(z);
    NormalizeInverts(gate, z);
    forall x: real | gate.Argument(x) == z ensures x == t { NormalizedOnly(gate, x); }
    hide Gate.Normalize;
    hide Gate.Argument;
    var p := Clenshaw(gate.p, t);
    var q := Clenshaw(gate.q, t);
    hide Series;
    var dissipation := p * p;
    write, decay := dissipation * (q * q), 1.0 - dissipation;
  }

  /** Normalising undoes that map, in both directions. */
  lemma NormalizeInverts(gate: Gate, z: real)
    requires gate.lo < gate.hi
    ensures gate.Argument(gate.Normalize(z)) == z
    ensures gate.Normalize(gate.lo) == -1.0 && gate.Normalize(gate.hi) == 1.0
  {
    var w, a := gate.hi - gate.lo, 2.0 * z - (gate.lo + gate.hi);
    QuotientTimes(a, w, a / w);
    QuotientIs(2.0 * gate.lo - (gate.lo + gate.hi), w, -1.0);
    QuotientIs(2.0 * gate.hi - (gate.lo + gate.hi), w, 1.0);
  }

  lemma NormalizedOnly(gate: Gate, x: real)
    requires gate.lo < gate.hi
    ensures gate.Normalize(gate.Argument(x)) == x
  {
    var w, a := gate.hi - gate.lo, 2.0 * gate.Argument(x) - (gate.lo + gate.hi);
    assert a == x * w;
    QuotientIs(a, w, x);
  }

  lemma QuotientTimes(a: real, w: real, q: real)
    requires w > 0.0 && q == a / w
    ensures q * w == a && w * (q + 1.0) == a + w
  {
    assert q * w == a;
  }

  lemma QuotientIs(a: real, w: real, x: real)
    requires w > 0.0 && a == x * w
    ensures a / w == x
  {
  }

  /** Arguments in the head's domain land in [-1, 1]. */
  lemma DomainMaps(gate: Gate, z: real)
    requires gate.lo < gate.hi && gate.lo <= z <= gate.hi
    ensures -1.0 <= gate.Normalize(z) <= 1.0
  {
    var w := gate.hi - gate.lo;
    QuotientBound(2.0 * z - (gate.lo + gate.hi), w);
  }

  lemma QuotientBound(a: real, w: real)
    requires w > 0.0 && -w <= a <= w
    ensures -1.0 <= a / w <= 1.0
  {
    var x := a / w;
    assert a == x * w;
    if x > 1.0 { MulPos(x - 1.0, w); }
    if x < -1.0 { MulPos(-1.0 - x, w); }
  }

  // ---------- certify_dissipative_gate ----------

  const DEFAULT_LIMITS := Limits(16, 4096)

  /** The rational verdict on -1 <= sum p_k T_k <= 1. */
  function ProveUnit(p: seq<real>, limits: Limits): Verdict
  {
    Prove(UnitPower(p), BoundsOf(Fraction(-1, 1), Fraction(1, 1)), limits)
  }

  datatype GateCertificate = GateCertificate(certified: bool, gain: real, contraction: Verdict)

  /** The exact bound (sum |q_k|)^2. */
  function SquaredNorm(q: seq<real>): real { L1(q) * L1(q) }

  method EquilibriumBound(q: seq<Rational>) returns (bound: real)
    ensures bound == SquaredNorm(Values(q))
  {
    var norm := 0.0;
    for i := 0 to |q|
      invariant norm == L1(Values(q)[..i])
    {
      assert Values(q)[..i + 1][..i] == Values(q)[..i];
      norm := norm + Abs(ValueOf(q[i]));
    }
    assert Values(q)[..|q|] == Values(q);
    bound := norm * norm;
  }

  /**
   nearest and successor stand for float(bound), which may overflow, and the next binary64 after it: rounding to nearest
   leaves the exact bound at most one step above. The returned gain never falls below the exact bound.
   */
  method CertifyDissipativeGate(p: seq<Rational>, q: seq<Rational>, nearest: Option<real>, successor: real)
    returns (r: Option<GateCertificate>)
    requires nearest.Some? && nearest.value < SquaredNorm(Values(q)) ==> successor >= SquaredNorm(Values(q))
    ensures r.None? <==> q == [] || nearest.None? || p == []
    ensures r.Some? ==> r.value.gain >= SquaredNorm(Values(q))
    ensures r.Some? ==> r.value.gain == if nearest.value >= SquaredNorm(Values(q)) then nearest.value else successor
    ensures r.Some? ==> r.value.contraction == ProveUnit(Values(p), DEFAULT_LIMITS)
    ensures r.Some? ==> (r.value.certified <==> r.value.contraction.Certified?)
  {
    if q == [] { return None; }
    var bound := EquilibriumBound(q);
    if nearest.None? { return None; }
    var gain := if nearest.value < bound then successor else nearest.value;
    if p == [] { return None; }
    var contraction := CertifyChebyshevBounds(p, Fraction(-1, 1), Fraction(1, 1), DEFAULT_LIMITS);
    r := Some(GateCertificate(contraction.Certified?, gain, contraction));
    hide SquaredNorm;
  }

  /** A certified dissipation root is at most one in magnitude on the whole domain. */
  lemma CertifiedRoot(p: seq<real>, limits: Limits, x: real)
    requires ProveUnit(p, limits).Certified?
    requires -1.0 <= x <= 1.0
    ensures -1.0 <= Series(p, x) <= 1.0
  {
    var t := (x + 1.0) / 2.0;
    var bounds := BoundsOf(Fraction(-1, 1), Fraction(1, 1));
    ProveSound(UnitPower(p), bounds, limits);
    assert bounds.Allows(Eval(UnitPower(p), t));
    UnitPowerValue(p, |p|, t);
    assert 2.0 * t - 1.0 == x;
  }

  // ---------- the state bound over whole runs ----------

  /** The recurrence along a sequence of raw gate arguments and inputs. */
  function Run(gate: Gate, s: real, zs: seq<real>, vs: seq<real>): real
    requires |zs| == |vs| && gate.lo < gate.hi
    decreases |zs|
  {
    if |zs| == 0 then s
    else
      var n := |zs| - 1;
      gate.Step(gate.Normalize(zs[n]), Run(gate, s, zs[..n], vs[..n]), vs[n])
  }

  /** One step: with |p| <= 1 and |q|^2 <= gain the new state is a sub-average of old bounds. */
  lemma StepBound(p: real, q: real, gain: real, s: real, v: real, bound: real)
    requires -1.0 <= p <= 1.0 && q * q <= gain
    requires Abs(v) <= bound && Abs(s) <= gain * bound
    ensures Abs((1.0 - p * p) * s + p * p * (q * q) * v) <= gain * bound
  {
    var d, w, m := p * p, q * q, gain * bound;
    SquareAtMostOne(p);
    SquareNonneg(p);
    SquareNonneg(q);
    MulNonneg(1.0 - d, m - s);
    MulNonneg(1.0 - d, m + s);
    WriteBound(w, gain, v, bound);
    MulNonneg(d, m - w * v);
    MulNonneg(d, m + w * v);
    assert p * p * (q * q) * v == d * (w * v);
    hide *;
    AverageBound(d, s, w * v, m, (1.0 - d) * s + d * (w * v));
  }

  lemma AverageBound(d: real, s: real, x: real, m: real, r: real)
    requires (1.0 - d) * (m - s) >= 0.0 && (1.0 - d) * (m + s) >= 0.0
    requires d * (m - x) >= 0.0 && d * (m + x) >= 0.0 && r == (1.0 - d) * s + d * x
    ensures -m <= r <= m
  {
  }

  lemma WriteBound(w: real, gain: real, v: real, bound: real)
    requires 0.0 <= w <= gain && Abs(v) <= bound
    ensures -(gain * bound) <= w * v <= gain * bound
  {
    MulNonneg(w, bound - v);
    MulNonneg(w, bound + v);
    MulNonneg(gain - w, bound);
  }

  ghost predicate InDomain(gate: Gate, zs: seq<real>) { forall i :: 0 <= i < |zs| ==> gate.lo <= zs[i] <= gate.hi }

  ghost predicate BoundedBy(vs: seq<real>, bound: real) { forall i :: 0 <= i < |vs| ==> Abs(vs[i]) <= bound }

  /**
   The claim of the certificate: for every run with arguments in the head's domain and inputs bounded by V, a state that
   starts within gain * V stays within gain * V.
   */
  lemma {:induction false} CertifiedStateBound(gate: Gate, limits: Limits, gain: real, s: real, zs: seq<real>,
                                               vs: seq<real>, bound: real)
    requires gate.lo < gate.hi && ProveUnit(gate.p, limits).Certified?
    requires gain >= SquaredNorm(gate.q)
    requires |zs| == |vs| && InDomain(gate, zs) && BoundedBy(vs, bound) && Abs(s) <= gain * bound
    ensures Abs(Run(gate, s, zs, vs)) <= gain * bound
    decreases |zs|
  {
    hide Gate.Step;
    hide Gate.Normalize;
    if |zs| > 0 {
      var n := |zs| - 1;
      CertifiedStateBound(gate, limits, gain, s, zs[..n], vs[..n], bound);
      DomainMaps(gate, zs[n]);
      CertifiedStep(gate, limits, gain, gate.Normalize(zs[n]), Run(gate, s, zs[..n], vs[..n]), vs[n], bound);
    }
  }

  lemma CertifiedStep(gate: Gate, limits: Limits, gain: real, x: real, s: real, v: real, bound: real)
    requires ProveUnit(gate.p, limits).Certified? && gain >= SquaredNorm(gate.q)
    requires -1.0 <= x <= 1.0 && Abs(v) <= bound && Abs(s) <= gain * bound
    ensures Abs(gate.Step(x, s, v)) <= gain * bound
  {
    var p, q := Series(gate.p, x), Series(gate.q, x);
    CertifiedRoots(gate, limits, gain, x, p, q);
    hide *;
    GateStepBound(gate, gain, x, p, q, s, v, bound);
  }

  lemma CertifiedRoots(gate: Gate, limits: Limits, gain: real, x: real, p: real, q: real)
    requires ProveUnit(gate.p, limits).Certified? && gain >= SquaredNorm(gate.q) && -1.0 <= x <= 1.0
    requires p == Series(gate.p, x) && q == Series(gate.q, x)
    ensures -1.0 <= p <= 1.0 && q * q <= gain
  {
    CertifiedRoot(gate.p, limits, x);
    SeriesBound(gate.q, x);
    hide Series;
    hide L1;
    SquareBelow(q, L1(gate.q));
  }

  lemma GateStepBound(gate: Gate, gain: real, x: real, p: real, q: real, s: real, v: real, bound: real)
    requires p == Series(gate.p, x) && q == Series(gate.q, x) && -1.0 <= p <= 1.0 && q * q <= gain
    requires Abs(v) <= bound && Abs(s) <= gain * bound
    ensures Abs(gate.Step(x, s, v)) <= gain * bound
  {
    StepBound(p, q, gain, s, v, bound);
    hide Series;
    StepNamed(gate, x, p, q, s, v);
  }

  lemma StepNamed(gate: Gate, x: real, p: real, q: real, s: real, v: real)
    requires p == Series(gate.p, x) && q == Series(gate.q, x)
    ensures gate.Step(x, s, v) == (1.0 - p * p) * s + p * p * (q * q) * v
  {
    hide Series;
  }

  lemma SquareBelow(a: real, b: real)
    requires Abs(a) <= b
    ensures a * a <= b * b
  {
    MulNonneg(b - Abs(a), b + Abs(a));
  }
}
