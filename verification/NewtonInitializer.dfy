/**
 certify_newton_initializer (src/fhemamba/polynomial_certificate.py:232-265): a polynomial first guess whose
 Newton normalisation is non-expansive on the whole variance interval.
 */
module NewtonInitializer {
  import opened Reals
  import opened Chebyshev
  import opened Bernstein
  import opened Options
  import opened PolynomialCertificate
  import opened Sequences
  import opened BernsteinProver

  datatype Kind = PolyNewton | SquarePolyNewton

  datatype Spec = Spec(kind: Kind, lo: real, hi: real, damping: real, iterations: int, coeffs: seq<real>)
  {
    predicate Valid() { 0.0 <= lo < hi && damping > 0.0 && iterations >= 1 && coeffs != [] }

    /** The variance at position t of the interval. */
    function Variance(t: real): real { lo + (hi - lo) * t }

    /** The position of a variance in the interval. */
    function Position(v: real): real
      requires lo < hi
    {
      (v - lo) / (hi - lo)
    }

    /** The polynomial initializer there. */
    function Guess(t: real): real
    {
      var s := Series(coeffs, 2.0 * t - 1.0);
      damping * (if kind.PolyNewton? then s else s * s)
    }
  }

  const NEWTON_LIMITS := Limits(16, 4096)

  datatype Certificate = Certificate(certified: bool, nonnegative: Option<Verdict>, basin: Verdict)

  ghost predicate InBasin(v: real, y: real) { y >= 0.0 && v * (y * y) <= 3.0 }

  ghost predicate NonExpansive(v: real, y: real) { y >= 0.0 && v * (y * y) <= 1.0 }

  // Entrywise scaling of a coefficient list.
  function Scale(s: real, p: seq<real>): (r: seq<real>)
    ensures |r| == |p|
  {
    seq(|p|, i requires 0 <= i < |p| => s * p[i])
  }

  lemma ScaleValue(s: real, p: seq<real>, f: nat -> real, v: real, r: real)
    requires |p| > 0 && v == Combination(p, f) && r == Combination(Scale(s, p), f)
    ensures r == s * v
  {
    ZeroCombination(Zeros(|p|), f);
    CombinationAffine(Zeros(|p|), s, p, Scale(s, p), f);
    hide Combination;
  }

  // ---------- the certified polynomials ----------

  /** The initializer as a power polynomial, without its damping. */
  function InitialPolynomial(spec: Spec): seq<real>
  {
    var series := UnitPower(spec.coeffs);
    if spec.kind.PolyNewton? then series else Product(series, series, |series|)
  }

  /** variance * initializer^2 as a power polynomial. */
  function BasinPolynomial(spec: Spec): seq<real>
  {
    var scaled := Scale(spec.damping, InitialPolynomial(spec));
    Product([spec.lo, spec.hi - spec.lo], Product(scaled, scaled, |scaled|), 2)
  }

  lemma ProductDenotes(a: seq<real>, b: seq<real>, t: real, va: real, vb: real, v: real)
    requires va == Eval(a, t) && vb == Eval(b, t) && v == Eval(Product(a, b, |a|), t)
    ensures v == va * vb
  {
    assert a[..|a|] == a;
    ProductValue(a, b, |a|, t, va, vb, v);
  }

  lemma InitialValue(spec: Spec, t: real, g: real)
    requires spec.coeffs != [] && g == Eval(InitialPolynomial(spec), t)
    ensures InitialPolynomial(spec) != [] && spec.Guess(t) == spec.damping * g
    ensures spec.kind.SquarePolyNewton? ==> g >= 0.0
  {
    var series, s := UnitPower(spec.coeffs), Series(spec.coeffs, 2.0 * t - 1.0);
    hide Series;
    hide Eval;
    UnitPowerValue(spec.coeffs, |spec.coeffs|, t);
    assert s == Eval(series, t);
    if spec.kind.SquarePolyNewton? {
      ProductDenotes(series, series, t, s, s, g);
      SquareNonneg(s);
    }
  }

  lemma BasinValue(spec: Spec, t: real, g: real, y: real, v: real, b: real)
    requires spec.coeffs != [] && g == Eval(InitialPolynomial(spec), t) && y == spec.damping * g
    requires v == spec.Variance(t) && b == Eval(BasinPolynomial(spec), t)
    ensures b == v * (y * y)
  {
    InitialValue(spec, t, g);
    var scaled := Scale(spec.damping, InitialPolynomial(spec));
    var square := Product(scaled, scaled, |scaled|);
    LineValue(spec.lo, spec.hi - spec.lo, t);
    ScaleValue(spec.damping, InitialPolynomial(spec), Monomials(t), g, Eval(scaled, t));
    hide Eval;
    hide InitialPolynomial;
    ProductDenotes(scaled, scaled, t, y, y, Eval(square, t));
    ProductDenotes([spec.lo, spec.hi - spec.lo], square, t, v, Eval(square, t), b);
    hide *;
    SquareNamed(v, y, Eval(square, t), b);
  }

  lemma SquareNamed(v: real, y: real, q: real, b: real)
    requires q == y * y && b == v * q
    ensures b == v * (y * y)
  {
  }

  /** The two polynomial bounds together are exactly the basin condition. */
  lemma BasinIsBounded(spec: Spec, t: real)
    requires spec.Valid()
    ensures InBasin(spec.Variance(t), spec.Guess(t))
            <==> Eval(InitialPolynomial(spec), t) >= 0.0 && Eval(BasinPolynomial(spec), t) <= 3.0
  {
    var g, b := Eval(InitialPolynomial(spec), t), Eval(BasinPolynomial(spec), t);
    InitialValue(spec, t, g);
    BasinValue(spec, t, g, spec.damping * g, spec.Variance(t), b);
    hide Eval;
    hide InitialPolynomial;
    hide BasinPolynomial;
    SameSign(spec.damping, g);
  }

  lemma SameSign(d: real, g: real)
    requires d > 0.0
    ensures d * g >= 0.0 <==> g >= 0.0
  {
    if g >= 0.0 { MulNonneg(d, g); } else { MulPos(d, -g); }
  }

  // ---------- the certificate ----------

  /** The certificate is the two verdicts: a square needs no test of its sign. */
  predicate CertificateExact(spec: Spec, c: Certificate)
  {
    c.nonnegative == (if spec.kind.SquarePolyNewton? then None
                      else Some(Prove(InitialPolynomial(spec), Bounds(Some(0.0), None), NEWTON_LIMITS))) &&
    c.basin == Prove(BasinPolynomial(spec), Bounds(None, Some(3.0)), NEWTON_LIMITS) &&
    (c.certified <==> (c.nonnegative.Some? ==> c.nonnegative.value.Certified?) && c.basin.Certified?)
  }

  // The undamped guess and, unless it is a square, the verdict on its sign.
  method CertifySign(spec: Spec) returns (guess: seq<real>, nonnegative: Option<Verdict>)
    requires spec.coeffs != []
    ensures guess == InitialPolynomial(spec)
    ensures nonnegative == if spec.kind.SquarePolyNewton? then None
                           else Some(Prove(InitialPolynomial(spec), Bounds(Some(0.0), None), NEWTON_LIMITS))
  {
    hide Prove;
    hide IsProduct;
    var power := ChebyshevUnitPower(spec.coeffs);
    guess := power.value;
    if spec.kind.SquarePolyNewton? {
      guess := PolynomialProduct(guess, guess);
      nonnegative := None;
    } else {
      var positive := CertifyBounds(guess, Bounds(Some(0.0), None), NEWTON_LIMITS);
      nonnegative := Some(positive);
    }
  }

  method CertifyBasin(spec: Spec, guess: seq<real>) returns (basin: Verdict)
    requires guess == InitialPolynomial(spec)
    ensures basin == Prove(BasinPolynomial(spec), Bounds(None, Some(3.0)), NEWTON_LIMITS)
  {
    hide Prove;
    hide IsProduct;
    hide InitialPolynomial;
    var scaled := Scale(spec.damping, guess);
    var squared := PolynomialProduct(scaled, scaled);
    var product := PolynomialProduct([spec.lo, spec.hi - spec.lo], squared);
    basin := CertifyBounds(product, Bounds(None, Some(3.0)), NEWTON_LIMITS);
  }

  method CertifyNewtonInitializer(spec: Spec) returns (r: Option<Certificate>)
    ensures r.None? <==> !spec.Valid()
    ensures r.Some? ==> CertificateExact(spec, r.value)
  {
    if !(0.0 <= spec.lo < spec.hi) || spec.damping <= 0.0 || spec.iterations < 1 || spec.coeffs == [] { return None; }
    var guess, nonnegative := CertifySign(spec);
    var basin := CertifyBasin(spec, guess);
    hide Prove;
    hide InitialPolynomial;
    hide BasinPolynomial;
    r := Some(Certificate((nonnegative.Some? ==> nonnegative.value.Certified?) && basin.Certified?,
                          nonnegative, basin));
  }

  /**
   A certified initializer lies in the Newton basin over the whole variance interval; a counterexample of either
   verdict is a variance at which it does not.
   */
  lemma InitializerSound(spec: Spec, c: Certificate)
    requires spec.Valid() && CertificateExact(spec, c)
    ensures c.certified ==> forall t: real :: 0.0 <= t <= 1.0 ==> InBasin(spec.Variance(t), spec.Guess(t))
    ensures c.basin.Counterexample? || (c.nonnegative.Some? && c.nonnegative.value.Counterexample?) ==>
              exists t: real :: 0.0 <= t <= 1.0 && !InBasin(spec.Variance(t), spec.Guess(t))
  {
    var guess, basin := InitialPolynomial(spec), BasinPolynomial(spec);
    ProveSound(basin, Bounds(None, Some(3.0)), NEWTON_LIMITS);
    ProveSound(guess, Bounds(Some(0.0), None), NEWTON_LIMITS);
    hide Prove;
    hide Eval;
    hide InBasin;
    hide InitialPolynomial;
    hide BasinPolynomial;
    forall t: real | 0.0 <= t <= 1.0 && c.certified ensures InBasin(spec.Variance(t), spec.Guess(t)) {
      BasinIsBounded(spec, t);
      InitialValue(spec, t, Eval(guess, t));
      assert Bounds(None, Some(3.0)).Allows(Eval(basin, t));
      if c.nonnegative.Some? { assert Bounds(Some(0.0), None).Allows(Eval(guess, t)); }
    }
    if c.basin.Counterexample? {
      var t :| 0.0 <= t <= 1.0 && !Bounds(None, Some(3.0)).Allows(Eval(basin, t));
      BasinIsBounded(spec, t);
    }
    if c.nonnegative.Some? && c.nonnegative.value.Counterexample? {
      var t :| 0.0 <= t <= 1.0 && !Bounds(Some(0.0), None).Allows(Eval(guess, t));
      BasinIsBounded(spec, t);
    }
  }

  lemma LineValue(a: real, b: real, t: real)
    ensures Eval([a, b], t) == a + b * t
  {
    var m := Monomials(t);
    assert [a, b][..1] == [a] && [a][..0] == [];
    assert m(0) == 1.0 && m(1) == t * Power(t, 0) == t;
    assert Combination([a, b], m) == Combination([a], m) + b * m(1);
    assert Combination([a], m) == a * m(0);
  }

  // ---------- what the basin buys ----------

  /** y' = y (3 - v y^2) / 2 */
  function NewtonStep(v: real, y: real): real { y * (1.5 - 0.5 * (v * (y * y))) }

  function Newton(v: real, y: real, n: nat): real
  {
    if n == 0 then y else NewtonStep(v, Newton(v, y, n - 1))
  }

  /** From anywhere in the basin one step reaches v y^2 <= 1; the sign never flips. */
  lemma StepContracts(v: real, y: real)
    requires v >= 0.0 && InBasin(v, y)
    ensures NonExpansive(v, NewtonStep(v, y))
  {
    var u := v * (y * y);
    SquareNonneg(y);
    MulNonneg(v, y * y);
    MulNonneg(y, 1.5 - 0.5 * u);
    SquareNonneg(1.0 - u);
    MulNonneg((1.0 - u) * (1.0 - u), 4.0 - u);
    hide *;
    NewtonAlgebra(v, y, u, y * (1.5 - 0.5 * u));
  }

  lemma NewtonAlgebra(v: real, y: real, u: real, z: real)
    requires u == v * (y * y) && z == y * (1.5 - 0.5 * u)
    requires (1.0 - u) * (1.0 - u) * (4.0 - u) >= 0.0
    ensures v * (z * z) <= 1.0
  {
    assert z * z == (y * y) * ((1.5 - 0.5 * u) * (1.5 - 0.5 * u));
    assert v * (z * z) == u * ((1.5 - 0.5 * u) * (1.5 - 0.5 * u));
    assert 4.0 - 4.0 * (u * ((1.5 - 0.5 * u) * (1.5 - 0.5 * u))) == (1.0 - u) * (1.0 - u) * (4.0 - u);
  }

  /** Newton normalisation from a point in the basin is non-expansive after every positive number of steps. */
  lemma {:induction false} NewtonNonExpansive(v: real, y: real, n: nat)
    requires v >= 0.0 && InBasin(v, y) && n >= 1
    ensures NonExpansive(v, Newton(v, y, n))
  {
    if n > 1 { NewtonNonExpansive(v, y, n - 1); }
    hide NewtonStep;
    StepContracts(v, Newton(v, y, n - 1));
  }

  lemma PositionInside(spec: Spec, v: real)
    requires spec.Valid() && spec.lo <= v <= spec.hi
    ensures 0.0 <= spec.Position(v) <= 1.0 && spec.Variance(spec.Position(v)) == v
  {
    QuotientInside(v - spec.lo, spec.hi - spec.lo, spec.Position(v));
  }

  lemma QuotientInside(x: real, w: real, t: real)
    requires 0.0 <= x <= w && w > 0.0 && t == x / w
    ensures 0.0 <= t <= 1.0 && w * t == x
  {
    if t < 0.0 { MulPos(w, -t); }
    if t > 1.0 { MulPos(w, t - 1.0); }
  }

  lemma GuessInBasin(spec: Spec, c: Certificate, v: real)
    requires spec.Valid() && CertificateExact(spec, c) && c.certified && spec.lo <= v <= spec.hi
    ensures v >= 0.0 && InBasin(v, spec.Guess(spec.Position(v)))
  {
    InitializerSound(spec, c);
    PositionInside(spec, v);
    hide InBasin;
    hide CertificateExact;
  }

  /**
   The certificate's claim: a certified initializer starts a non-expansive normalization, y >= 0 and v*y^2 <= 1 after
   every positive number of steps, at every variance of the interval.
   */
  lemma CertifiedNonExpansive(spec: Spec, c: Certificate, v: real, n: nat)
    requires spec.Valid() && CertificateExact(spec, c) && c.certified
    requires spec.lo <= v <= spec.hi && n >= 1
    ensures NonExpansive(v, Newton(v, spec.Guess(spec.Position(v)), n))
  {
    GuessInBasin(spec, c, v);
    hide *;
    NewtonNonExpansive(v, spec.Guess(spec.Position(v)), n);
  }
}
