/**
 The exact-rational Bernstein prover (src/fhemamba/polynomial_certificate.py:16-111): polynomial
 products, the conversion of a Chebyshev series to the unit interval, and the subdivision search.
 Fractions are modelled as reals.
 */
module PolynomialCertificate {
  import opened Sequences
  import opened Reals
  import opened Chebyshev
  import opened Bernstein
  import opened Options

  // ---------- linear algebra of coefficient lists ----------

  lemma {:induction false} PointUpdate(c: seq<real>, f: nat -> real, i: nat, v: real)
    requires i < |c|
    ensures Combination(c[i := c[i] + v], f) == Combination(c, f) + v * f(i)
    decreases |c|
  {
    var n := |c| - 1;
    var d := c[i := c[i] + v];
    Unfold(c, f);
    Unfold(d, f);
    if i < n {
      assert Init(d) == Init(c)[i := Init(c)[i] + v];
      PointUpdate(Init(c), f, i, v);
    } else {
      assert Init(d) == Init(c);
      UpdateAlgebra(c[n], v, f(n), Combination(Init(c), f), Combination(c, f), Combination(d, f));
    }
  }

  // The same update with every factor named, so that callers need no reasoning about products.
  lemma UpdateNamed(c: seq<real>, f: nat -> real, i: nat, v: real, q: real, before: real, after: real)
    requires i < |c| && q == f(i)
    requires before == Combination(c, f) && after == Combination(c[i := c[i] + v], f)
    ensures after == before + v * q
  {
    PointUpdate(c, f, i, v);
  }

  lemma UpdateAlgebra(a: real, v: real, f: real, s: real, c: real, d: real)
    requires c == s + a * f && d == s + (a + v) * f
    ensures d == c + v * f
  {
  }

  lemma {:induction false} ZeroCombination(c: seq<real>, f: nat -> real)
    requires forall i :: 0 <= i < |c| ==> c[i] == 0.0
    ensures Combination(c, f) == 0.0
  {
    if |c| > 0 { ZeroCombination(Init(c), f); Unfold(c, f); }
  }

  /** A combination is linear in its coefficients. */
  lemma {:induction false} CombinationAffine(a: seq<real>, s: real, b: seq<real>, c: seq<real>, f: nat -> real)
    requires Affine(a, s, b, c)
    ensures Combination(c, f) == Combination(a, f) + s * Combination(b, f)
    decreases |a|
  {
    var n := |a| - 1;
    Unfold(a, f);
    Unfold(b, f);
    Unfold(c, f);
    if n > 0 {
      CombinationAffine(Init(a), s, Init(b), Init(c), f);
    } else {
      assert Combination(Init(a), f) == Combination(Init(b), f) == Combination(Init(c), f) == 0.0;
    }
    assert c[n] == a[n] + s * b[n];
    AffineStep(s, a[n], b[n], c[n], f(n), Combination(Init(a), f), Combination(Init(b), f),
               Combination(Init(c), f), Combination(a, f), Combination(b, f), Combination(c, f)) by { hide *; }
  }

  lemma AffineStep(s: real, a: real, b: real, c: real, f: real,
                   ca: real, cb: real, cc: real, ta: real, tb: real, tc: real)
    requires c == a + s * b && cc == ca + s * cb
    requires ta == ca + a * f && tb == cb + b * f && tc == cc + c * f
    ensures tc == ta + s * tb
  {
  }

  // ---------- polynomial_product ----------

  lemma {:induction false} PowerSum(t: real, i: nat, j: nat, p: real, q: real, pq: real)
    requires p == Power(t, i) && q == Power(t, j) && pq == Power(t, i + j)
    ensures pq == p * q
    decreases i
  {
    if i > 0 {
      var p0, pq0 := Power(t, i - 1), Power(t, i + j - 1);
      PowerSum(t, i - 1, j, p0, q, pq0);
      PowerSumAlgebra(t, p0, q, p, pq0, pq);
    }
  }

  lemma PowerSumAlgebra(t: real, p: real, q: real, p1: real, r: real, r1: real)
    requires p1 == t * p && r == p * q && r1 == t * r
    ensures r1 == p1 * q
  {
  }

  /** The list b written at offset i into a list of zeros. */
  function Placed(b: seq<real>, i: nat, length: nat): (r: seq<real>)
    ensures |r| == length
  {
    seq(length, m requires 0 <= m => if 0 <= m - i < |b| then b[m - i] else 0.0)
  }

  /** Writing b at offset i multiplies the polynomial by t^i (the values are named to stay linear). */
  lemma {:induction false} PlacedValue(b: seq<real>, i: nat, length: nat, t: real,
                                       p: real, value: real, placed: real)
    requires i + |b| <= length
    requires p == Monomials(t)(i) && value == Eval(b, t) && placed == Eval(Placed(b, i, length), t)
    ensures placed == p * value
    decreases |b|
  {
    var m, n := Monomials(t), |b| - 1;
    if n < 0 {
      ZeroCombination(Placed(b, i, length), m);
      ZeroCombination(b, m);
      TimesZero(p, value);
    } else {
      var before := Placed(Init(b), i, length);
      var value0, placed0 := Combination(Init(b), m), Combination(before, m);
      PlacedValue(Init(b), i, length, t, p, value0, placed0);
      assert Placed(b, i, length) == before[i + n := before[i + n] + b[n]];
      PowerSum(t, i, n, p, m(n), m(i + n));
      PlacedStep(b, before, i + n, m, b[n], p, m(n), m(i + n), value0, value, placed0, placed) by { hide Combination; }
    }
  }

  lemma PlacedStep(b: seq<real>, before: seq<real>, k: nat, m: nat -> real, v: real, p: real, q: real, pq: real,
                   value0: real, value: real, placed0: real, placed: real)
    requires |b| > 0 && k < |before| && v == b[|b| - 1]
    requires q == m(|b| - 1) && pq == m(k) && pq == p * q
    requires value0 == Combination(Init(b), m) && value == Combination(b, m)
    requires placed0 == Combination(before, m) && placed == Combination(before[k := before[k] + v], m)
    requires placed0 == p * value0
    ensures placed == p * value
  {
    UpdateNamed(before, m, k, v, pq, placed0, placed);
    UnfoldNamed(b, m, v, q, value0, value);
    hide *;
    PlacedAlgebra(p, q, pq, v, value0, value, placed0, placed);
  }

  lemma PlacedAlgebra(p: real, q: real, pq: real, v: real, s: real, s1: real, e: real, e1: real)
    requires pq == p * q && s1 == s + v * q && e == p * s && e1 == e + v * pq
    ensures e1 == p * s1
  {
  }

  /** Coefficient m of the first rows of the product: sum_{i < rows} a_i b_{m-i}. */
  function Convolution(a: seq<real>, b: seq<real>, rows: nat, m: int): real
    requires rows <= |a|
  {
    if rows == 0 then 0.0
    else
      var i := rows - 1;
      Convolution(a, b, i, m) + (if 0 <= m - i < |b| then a[i] * b[m - i] else 0.0)
  }

  function Product(a: seq<real>, b: seq<real>, rows: nat): (r: seq<real>)
    requires rows <= |a|
    ensures |r| == if |a| + |b| == 0 then 0 else |a| + |b| - 1
  {
    seq(if |a| + |b| == 0 then 0 else |a| + |b| - 1, m => Convolution(a, b, rows, m))
  }

  /** Convolving coefficient lists multiplies the polynomials they denote. */
  lemma {:induction false} ProductValue(a: seq<real>, b: seq<real>, rows: nat, t: real,
                                        va: real, vb: real, v: real)
    requires rows <= |a|
    requires va == Eval(a[..rows], t) && vb == Eval(b, t) && v == Eval(Product(a, b, rows), t)
    ensures v == va * vb
    decreases rows
  {
    var m, r := Monomials(t), Product(a, b, rows);
    if rows == 0 {
      ZeroCombination(r, m);
      ZeroCombination(a[..0], m);
      TimesZero(vb, va);
    } else if |b| == 0 {
      forall k | 0 <= k < |r| ensures r[k] == 0.0 { NoColumns(a, b, rows, k); }
      ZeroCombination(r, m);
      ZeroCombination(b, m);
      TimesZero(va, vb);
    } else {
      var i := rows - 1;
      ProductValue(a, b, i, t, Eval(a[..i], t), vb, Eval(Product(a, b, i), t));
      ProductRow(a, b, i, t, Eval(a[..i], t), va, vb, Eval(Product(a, b, i), t), v);
    }
  }

  lemma ProductRow(a: seq<real>, b: seq<real>, i: nat, t: real, va0: real, va: real, vb: real, v0: real, v: real)
    requires i < |a| && |b| > 0
    requires va0 == Eval(a[..i], t) && va == Eval(a[..i + 1], t) && vb == Eval(b, t)
    requires v0 == Eval(Product(a, b, i), t) && v == Eval(Product(a, b, i + 1), t)
    requires v0 == va0 * vb
    ensures v == va * vb
  {
    hide Combination;
    hide Power;
    var m, r := Monomials(t), Product(a, b, i + 1);
    var row := Placed(b, i, |r|);
    PlacedValue(b, i, |r|, t, m(i), vb, Eval(row, t));
    CombinationAffine(Product(a, b, i), a[i], row, r, m);
    Extend(a, i, m);
    RowProduct(a[i], m(i), vb, va0, va, v0, Combination(row, m), v);
  }

  lemma {:induction false} NoColumns(a: seq<real>, b: seq<real>, rows: nat, m: int)
    requires rows <= |a| && b == []
    ensures Convolution(a, b, rows, m) == 0.0
  {
    if rows > 0 { NoColumns(a, b, rows - 1, m); }
  }

  lemma RowProduct(a: real, p: real, b: real, s: real, s1: real, e: real, placed: real, e1: real)
    requires s1 == s + a * p && e == s * b && placed == p * b && e1 == e + a * placed
    ensures e1 == s1 * b
  {
  }

  lemma ProductRowDone(a: seq<real>, b: seq<real>, i: nat, r: seq<real>)
    requires i < |a| && |r| == |a| + |b| - 1
    requires forall m :: 0 <= m < |r| ==>
               r[m] == Convolution(a, b, i, m) + (if 0 <= m - i < |b| then a[i] * b[m - i] else 0.0)
    ensures r == Product(a, b, i + 1)
  {
    forall m | 0 <= m < |r| ensures r[m] == Product(a, b, i + 1)[m] {
      assert Convolution(a, b, i + 1, m)
          == Convolution(a, b, i, m) + (if 0 <= m - i < |b| then a[i] * b[m - i] else 0.0);
    }
  }

  ghost predicate IsProduct(r: seq<real>, a: seq<real>, b: seq<real>)
  {
    forall t: real :: Eval(r, t) == Eval(a, t) * Eval(b, t)
  }

  method PolynomialProduct(a: seq<real>, b: seq<real>) returns (r: seq<real>)
    ensures r == Product(a, b, |a|)
    ensures IsProduct(r, a, b)
  {
    r := Zeros(if |a| + |b| == 0 then 0 else |a| + |b| - 1);
    for i := 0 to |a|
      invariant r == Product(a, b, i)
    {
      for j := 0 to |b|
        invariant |r| == |a| + |b| - 1
        invariant forall m :: 0 <= m < |r| ==>
                    r[m] == Convolution(a, b, i, m) + (if 0 <= m - i < j then a[i] * b[m - i] else 0.0)
      {
        r := r[i + j := r[i + j] + a[i] * b[j]];
      }
      ProductRowDone(a, b, i, r);
    }
    forall t: real ensures Eval(r, t) == Eval(a, t) * Eval(b, t) {
      assert a[..|a|] == a;
      ProductValue(a, b, |a|, t, Eval(a, t), Eval(b, t), Eval(r, t));
    }
  }

  lemma {:induction false} ConvolutionByLine(a: seq<real>, u: real, v: real, rows: nat, m: int)
    requires rows <= |a|
    ensures Convolution(a, [u, v], rows, m) ==
            (if 0 <= m < rows then a[m] * u else 0.0) + (if 0 <= m - 1 < rows then a[m - 1] * v else 0.0)
  {
    if rows > 0 { ConvolutionByLine(a, u, v, rows - 1, m); }
  }

  // ---------- chebyshev_unit_power ----------

  /** Coefficient of t^i in T_k(2t - 1), by the recurrence the source runs on lists. */
  function UnitCoefficient(k: nat, i: int): int
    decreases k
  {
    if i < 0 || i > k then 0
    else if k == 0 then 1
    else if k == 1 then (if i == 0 then -1 else 2)
    else -2 * UnitCoefficient(k - 1, i) + 4 * UnitCoefficient(k - 1, i - 1) - UnitCoefficient(k - 2, i)
  }

  function Column(i: nat): nat -> real { (k: nat) => UnitCoefficient(k, i) as real }

  /** Power coefficients of sum_k c[k] T_k(2t - 1), padded to the given length. */
  function UnitPowerTo(c: seq<real>, length: nat): (r: seq<real>)
    ensures |r| == length
  {
    seq(length, i requires 0 <= i => Combination(c, Column(i)))
  }

  function UnitPower(c: seq<real>): (r: seq<real>)
    ensures |r| == |c|
  {
    UnitPowerTo(c, |c|)
  }

  /** T_k(2t - 1) as a list of given length. */
  function UnitRow(k: nat, length: nat): (r: seq<real>)
    ensures |r| == length
  {
    seq(length, i requires 0 <= i => UnitCoefficient(k, i) as real)
  }

  function Scaled(a: seq<real>, s: real, b: seq<real>): (c: seq<real>)
    requires |a| == |b| > 0
    ensures Affine(a, s, b, c)
  {
    seq(|a|, i requires 0 <= i < |a| => a[i] + s * b[i])
  }

  lemma RowBase(length: nat, t: real)
    requires 0 < length
    ensures Eval(UnitRow(0, length), t) == 1.0
    ensures 1 < length ==> Eval(UnitRow(1, length), t) == 2.0 * t - 1.0
  {
    var m, z := Monomials(t), Zeros(length);
    ZeroCombination(z, m);
    PointUpdate(z, m, 0, 1.0);
    assert UnitRow(0, length) == z[0 := z[0] + 1.0];
    assert m(0) == 1.0;
    if 1 < length {
      var w := z[0 := z[0] + -1.0];
      PointUpdate(z, m, 0, -1.0);
      PointUpdate(w, m, 1, 2.0);
      assert UnitRow(1, length) == w[1 := w[1] + 2.0];
      assert m(1) == t * Power(t, 0) == t;
    }
  }

  /** The k-th row denotes T_k(2t - 1). */
  lemma {:induction false} RowValue(k: nat, length: nat, t: real)
    requires k < length
    ensures Eval(UnitRow(k, length), t) == Basis(2.0 * t - 1.0)(k)
    decreases k
  {
    if k >= 2 {
      RowValue(k - 1, length, t);
      RowValue(k - 1, length - 1, t);
      RowValue(k - 2, length, t);
      RowRecurrence(k, length, t, Basis(2.0 * t - 1.0));
    } else {
      RowBase(length, t);
    }
  }

  lemma RowRecurrence(k: nat, length: nat, t: real, f: nat -> real)
    requires 2 <= k < length && f == Basis(2.0 * t - 1.0)
    requires Eval(UnitRow(k - 1, length), t) == Eval(UnitRow(k - 1, length - 1), t) == f(k - 1)
    requires Eval(UnitRow(k - 2, length), t) == f(k - 2)
    ensures Eval(UnitRow(k, length), t) == f(k)
  {
    hide *;
    var x, shifted := 2.0 * t - 1.0, Eval(Placed(UnitRow(k - 1, length - 1), 1, length), t);
    BasisIsChebyshev(x);
    StepBack(f, x, k);
    ShiftedRow(k, length, t, f(k - 1), shifted);
    RowStep(k, length, t);
    RowAlgebra(t, x, f(k - 2), f(k - 1), f(k), shifted);
  }

  lemma ShiftedRow(k: nat, length: nat, t: real, v: real, shifted: real)
    requires 2 <= k < length && v == Eval(UnitRow(k - 1, length - 1), t)
    requires shifted == Eval(Placed(UnitRow(k - 1, length - 1), 1, length), t)
    ensures shifted == t * v
  {
    FirstMonomial(t);
    hide Combination;
    hide Power;
    PlacedValue(UnitRow(k - 1, length - 1), 1, length, t, t, v, shifted);
  }

  lemma FirstMonomial(t: real)
    ensures Monomials(t)(1) == t
  {
    assert Power(t, 0) == 1.0;
  }

  lemma StepBack(f: nat -> real, x: real, k: nat)
    requires k >= 2 && IsChebyshev(f, x)
    ensures f(k) == 2.0 * x * f(k - 1) - f(k - 2)
  {
    assert Steps(f, x, k - 2);
  }

  lemma RowAlgebra(t: real, x: real, t0: real, t1: real, t2: real, s: real)
    requires x == 2.0 * t - 1.0 && t2 == 2.0 * x * t1 - t0 && s == t * t1
    ensures 4.0 * s - 2.0 * t1 - t0 == t2
  {
  }

  lemma RowStep(k: nat, length: nat, t: real)
    requires 2 <= k < length
    ensures Eval(UnitRow(k, length), t) ==
            4.0 * Eval(Placed(UnitRow(k - 1, length - 1), 1, length), t) - 2.0 * Eval(UnitRow(k - 1, length), t)
            - Eval(UnitRow(k - 2, length), t)
  {
    hide Combination;
    var m, z := Monomials(t), Zeros(length);
    var up := Placed(UnitRow(k - 1, length - 1), 1, length);
    var s1 := Scaled(z, 4.0, up);
    var s2 := Scaled(s1, -2.0, UnitRow(k - 1, length));
    ZeroCombination(z, m);
    CombinationAffine(z, 4.0, up, s1, m);
    CombinationAffine(s1, -2.0, UnitRow(k - 1, length), s2, m);
    forall i | 0 <= i < length
      ensures UnitRow(k, length)[i] == s2[i] + -1.0 * UnitRow(k - 2, length)[i]
    {
      assert UnitCoefficient(k, i)
          == -2 * UnitCoefficient(k - 1, i) + 4 * UnitCoefficient(k - 1, i - 1) - UnitCoefficient(k - 2, i);
      assert up[i] == UnitCoefficient(k - 1, i - 1) as real;
    }
    CombinationAffine(s2, -1.0, UnitRow(k - 2, length), UnitRow(k, length), m);
  }

  /** The unit-interval power coefficients denote the Chebyshev series in 2t - 1. */
  lemma {:induction false} UnitPowerValue(c: seq<real>, length: nat, t: real)
    requires |c| <= length
    ensures Eval(UnitPowerTo(c, length), t) == Series(c, 2.0 * t - 1.0)
  {
    hide Combination;
    var m, b := Monomials(t), Basis(2.0 * t - 1.0);
    var n := |c| - 1;
    if n < 0 {
      ZeroCombination(c, b);
      forall i | 0 <= i < length ensures UnitPowerTo(c, length)[i] == 0.0 { ZeroCombination(c, Column(i)); }
      ZeroCombination(UnitPowerTo(c, length), m);
    } else {
      UnitPowerValue(Init(c), length, t);
      RowValue(n, length, t);
      forall i | 0 <= i < length
        ensures UnitPowerTo(c, length)[i] == UnitPowerTo(Init(c), length)[i] + c[n] * UnitRow(n, length)[i]
      {
        Unfold(c, Column(i));
      }
      CombinationAffine(UnitPowerTo(Init(c), length), c[n], UnitRow(n, length), UnitPowerTo(c, length), m);
      Unfold(c, b);
    }
  }

  ghost predicate Lists(list: seq<real>, k: nat)
  {
    |list| == k + 1 && forall i :: 0 <= i <= k ==> list[i] == UnitCoefficient(k, i) as real
  }

  ghost predicate Accumulates(result: seq<real>, c: seq<real>, terms: nat)
    requires terms <= |c|
  {
    |result| == |c| && forall i :: 0 <= i < |c| ==> result[i] == Combination(c[..terms], Column(i))
  }

  ghost predicate RowAdded(before: seq<real>, scale: real, row: seq<real>, after: seq<real>)
  {
    |row| <= |before| == |after| &&
    (forall i :: 0 <= i < |row| ==> after[i] == before[i] + scale * row[i]) &&
    (forall i :: |row| <= i < |after| ==> after[i] == before[i])
  }

  /** One pass of the list recurrence advances the degree. */
  lemma NextList(previous: seq<real>, current: seq<real>, k: nat, following: seq<real>)
    requires 1 <= k && Lists(previous, k - 1) && Lists(current, k)
    requires RowAdded(Product(current, [-2.0, 4.0], k + 1), -1.0, previous, following)
    ensures Lists(following, k + 1)
  {
    forall i | 0 <= i <= k + 1 ensures following[i] == UnitCoefficient(k + 1, i) as real {
      ConvolutionByLine(current, -2.0, 4.0, k + 1, i);
      assert UnitCoefficient(k + 1, i)
          == -2 * UnitCoefficient(k, i) + 4 * UnitCoefficient(k, i - 1) - UnitCoefficient(k - 1, i);
    }
  }

  lemma FirstTerm(c: seq<real>, result: seq<real>)
    requires |c| > 0 && result == Zeros(|c|)[0 := c[0]]
    ensures Accumulates(result, c, 1)
  {
    forall i | 0 <= i < |c| ensures result[i] == Combination(c[..1], Column(i)) {
      Extend(c, 0, Column(i));
      ZeroCombination(c[..0], Column(i));
    }
  }

  lemma NextTerm(c: seq<real>, k: nat, current: seq<real>, before: seq<real>, result: seq<real>)
    requires 1 <= k < |c| && Lists(current, k)
    requires Accumulates(before, c, k) && RowAdded(before, c[k], current, result)
    ensures Accumulates(result, c, k + 1)
  {
    forall i | 0 <= i < |c| ensures result[i] == Combination(c[..k + 1], Column(i)) {
      Extend(c, k, Column(i));
      hide Combination;
      if i > k { TimesZero(c[k], Column(i)(k)); }
    }
  }

  // result[i] += scale * row[i] for the entries of row
  method AddRow(result: seq<real>, scale: real, row: seq<real>) returns (r: seq<real>)
    requires |row| <= |result|
    ensures RowAdded(result, scale, row, r)
  {
    r := result;
    for i := 0 to |row|
      invariant |r| == |result|
      invariant forall j :: 0 <= j < i ==> r[j] == result[j] + scale * row[j]
      invariant forall j :: i <= j < |r| ==> r[j] == result[j]
    {
      r := r[i := r[i] + scale * row[i]];
    }
  }

  /** Each power coefficient of the series, computed by the list recurrence. */
  method ChebyshevUnitPower(c: seq<real>) returns (r: Option<seq<real>>)
    ensures r.None? <==> c == []
    ensures r.Some? ==> r.value == UnitPower(c)
  {
    if c == [] { return None; }
    var previous, current := [1.0], [-1.0, 2.0];
    var result := Zeros(|c|)[0 := c[0]];
    FirstTerm(c, result);
    for degree := 1 to |c|
      invariant Accumulates(result, c, degree)
      invariant Lists(previous, degree - 1) && Lists(current, degree)
    {
      ghost var before := result;
      result := AddRow(result, c[degree], current);
      NextTerm(c, degree, current, before, result);
      var following := PolynomialProduct(current, [-2.0, 4.0]);
      following := AddRow(following, -1.0, previous);
      NextList(previous, current, degree, following);
      previous, current := current, following;
    }
    assert c[..|c|] == c;
    assert result == UnitPower(c);
    r := Some(result);
  }
}
