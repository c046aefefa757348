/**
 Bernstein segments on [0, 1]: their value, the convex hull, midpoint subdivision and the change of
 basis from monomials (src/fhemamba/polynomial_certificate.py).
 */
module Bernstein {
  import opened Reals
  import opened Chebyshev

  function Power(t: real, k: nat): real
  {
    if k == 0 then 1.0 else t * Power(t, k - 1)
  }

  function Monomials(t: real): nat -> real { (k: nat) => Power(t, k) }

  /** sum_k p[k] t^k */
  function Eval(p: seq<real>, t: real): real
  {
    Combination(p, Monomials(t))
  }

  function Choose(n: nat, k: nat): nat
  {
    if k == 0 then 1
    else if n == 0 then 0
    else Choose(n - 1, k - 1) + Choose(n - 1, k)
  }

  lemma {:induction false} ChooseSupport(n: nat, k: nat)
    ensures Choose(n, k) > 0 <==> k <= n
    decreases n
  {
    if n > 0 && k > 0 {
      ChooseSupport(n - 1, k - 1);
      ChooseSupport(n - 1, k);
    }
  }

  // ---------- value of a segment ----------

  /** The i-th Bernstein polynomial of degree n. */
  function Bernstein(n: nat, t: real, i: nat): real
  {
    if n < i then 0.0 else Choose(n, i) as real * (Power(t, i) * Power(1.0 - t, n - i))
  }

  function BernsteinBasis(n: nat, t: real): nat -> real { (i: nat) => Bernstein(n, t, i) }

  /** The polynomial with Bernstein coefficients b, at t: sum_i b[i] C(n,i) t^i (1-t)^(n-i). */
  function Value(b: seq<real>, t: real): real
    requires |b| > 0
  {
    Combination(b, BernsteinBasis(|b| - 1, t))
  }

  // Segments are handled through any functional g that blends neighbours as de Casteljau does.

  type Functional = seq<real> -> real

  function Init(b: seq<real>): seq<real>
    requires |b| > 0
  {
    b[..|b| - 1]
  }

  ghost predicate Blends(g: Functional, t: real, b: seq<real>)
  {
    (|b| == 1 ==> g(b) == b[0]) &&
    (|b| > 1 ==> g(b) == (1.0 - t) * g(Init(b)) + t * g(b[1..]))
  }

  ghost predicate DeCasteljau(g: Functional, t: real)
  {
    forall b: seq<real> :: Blends(g, t, b)
  }

  /** Bernstein recursion: B(n,i) == (1-t) B(n-1,i) + t B(n-1,i-1). */
  lemma BernsteinStep(n: nat, t: real, i: nat)
    requires n > 0
    ensures Bernstein(n, t, i) ==
            (1.0 - t) * Bernstein(n - 1, t, i) + t * (if i == 0 then 0.0 else Bernstein(n - 1, t, i - 1))
  {
    if i == 0 {
      BernsteinFirst(n, t);
    } else if i < n {
      BernsteinMiddle(n, t, i);
    } else if i == n {
      BernsteinLast(n, t);
    } else {
      TimesZero(1.0 - t, 0.0);
      TimesZero(t, 0.0);
    }
  }

  lemma BernsteinFirst(n: nat, t: real)
    requires n > 0
    ensures Bernstein(n, t, 0) == (1.0 - t) * Bernstein(n - 1, t, 0) + t * 0.0
  {
    BernsteinAlgebra(t, 1.0, 1.0, 0.0, 1.0, 0.0, Power(1.0 - t, n - 1), Power(1.0 - t, n));
  }

  lemma BernsteinMiddle(n: nat, t: real, i: nat)
    requires 0 < i < n
    ensures Bernstein(n, t, i) == (1.0 - t) * Bernstein(n - 1, t, i) + t * Bernstein(n - 1, t, i - 1)
  {
    var c, c0, c1 := Choose(n, i) as real, Choose(n - 1, i) as real, Choose(n - 1, i - 1) as real;
    assert c == c0 + c1;
    hide Choose;
    BernsteinAlgebra(t, c, c0, c1, Power(t, i), Power(t, i - 1), Power(1.0 - t, n - 1 - i), Power(1.0 - t, n - i));
    hide Power;
  }

  lemma BernsteinLast(n: nat, t: real)
    requires n > 0
    ensures Bernstein(n, t, n) == (1.0 - t) * Bernstein(n - 1, t, n) + t * Bernstein(n - 1, t, n - 1)
  {
    ChooseSupport(n - 1, n);
    assert Choose(n, n) == Choose(n - 1, n - 1);
    hide Choose;
    TimesZero(1.0 - t, 0.0);
    BernsteinTop(t, Choose(n, n) as real, Power(t, n - 1), Power(t, n), Power(1.0 - t, 0));
  }

  lemma BernsteinAlgebra(t: real, c: real, c0: real, c1: real, pi: real, pi1: real, q: real, q1: real)
    requires c == c0 + c1 && q1 == (1.0 - t) * q
    requires c1 == 0.0 || pi == t * pi1
    ensures c * (pi * q1) == (1.0 - t) * (c0 * (pi * q)) + t * (c1 * (pi1 * q1))
  {
  }

  lemma BernsteinTop(t: real, c: real, p: real, p1: real, q: real)
    requires p1 == t * p
    ensures c * (p1 * q) == t * (c * (p * q))
  {
  }

  function ValueAt(t: real): Functional { (b: seq<real>) => if |b| == 0 then 0.0 else Value(b, t) }

  ghost predicate Triangle(f: nat -> real, h: nat -> real, t: real, i: nat)
  {
    f(i) == (1.0 - t) * h(i) + t * (if i == 0 then 0.0 else h(i - 1))
  }

  lemma Unfold(b: seq<real>, f: nat -> real)
    requires |b| > 0
    ensures Combination(b, f) == Combination(Init(b), f) + b[|b| - 1] * f(|b| - 1)
  {
  }

  // The same step with every factor named, so that callers need no reasoning about products.
  lemma UnfoldNamed(b: seq<real>, f: nat -> real, v: real, q: real, rest: real, whole: real)
    requires |b| > 0 && v == b[|b| - 1] && q == f(|b| - 1)
    requires rest == Combination(Init(b), f) && whole == Combination(b, f)
    ensures whole == rest + v * q
  {
  }

  lemma ExtendNamed(b: seq<real>, j: nat, f: nat -> real, v: real, q: real, rest: real, whole: real)
    requires j < |b| && v == b[j] && q == f(j)
    requires rest == Combination(b[..j], f) && whole == Combination(b[..j + 1], f)
    ensures whole == rest + v * q
  {
    assert Init(b[..j + 1]) == b[..j];
    UnfoldNamed(b[..j + 1], f, v, q, rest, whole);
  }

  lemma Extend(b: seq<real>, j: nat, f: nat -> real)
    requires j < |b|
    ensures Combination(b[..j + 1], f) == Combination(b[..j], f) + b[j] * f(j)
  {
    assert b[..j + 1][..j] == b[..j];
  }

  /** A combination of degree-n functions splits into two of degree n-1. */
  lemma {:induction false} SplitStep(b: seq<real>, f: nat -> real, h: nat -> real, t: real,
                                     cf: real, ch: real, ct: real)
    requires |b| > 0
    requires forall i: nat :: Triangle(f, h, t, i)
    requires cf == Combination(b, f) && ch == Combination(b, h) && ct == Combination(b[1..], h)
    ensures cf == (1.0 - t) * ch + t * ct
    decreases |b|
  {
    var n := |b| - 1;
    var i := Init(b);
    if n == 0 {
      SplitEntry(b, f, h, t, 0, b[0], f(0), h(0), 0.0, 0.0, 0.0, 0.0, cf, ch, ct);
    } else {
      SplitStep(i, f, h, t, Combination(i, f), Combination(i, h), Combination(i[1..], h));
      assert i[1..] == Init(b[1..]);
      UnfoldNamed(b[1..], h, b[n], h(n - 1), Combination(i[1..], h), ct);
      SplitEntry(b, f, h, t, n, b[n], f(n), h(n), h(n - 1), Combination(i, f), Combination(i, h),
                 Combination(i[1..], h), cf, ch, ct);
    }
  }

  lemma SplitEntry(b: seq<real>, f: nat -> real, h: nat -> real, t: real, n: nat, v: real, fn: real, hn: real, hm: real,
                   cf0: real, ch0: real, ct0: real, cf: real, ch: real, ct: real)
    requires |b| == n + 1 && v == b[n] && fn == f(n) && hn == h(n) && hm == if n == 0 then 0.0 else h(n - 1)
    requires Triangle(f, h, t, n)
    requires cf0 == Combination(Init(b), f) && ch0 == Combination(Init(b), h)
    requires cf == Combination(b, f) && ch == Combination(b, h) && ct == ct0 + v * hm
    requires cf0 == (1.0 - t) * ch0 + t * ct0
    ensures cf == (1.0 - t) * ch + t * ct
  {
    UnfoldNamed(b, f, v, fn, cf0, cf);
    UnfoldNamed(b, h, v, hn, ch0, ch);
    TriangleNamed(f, h, t, n, fn, hn, hm);
    hide *;
    SplitAlgebra(t, v, fn, hn, hm, cf0, ch0, ct0, cf, ch, ct);
  }

  lemma TriangleNamed(f: nat -> real, h: nat -> real, t: real, n: nat, fn: real, hn: real, hm: real)
    requires Triangle(f, h, t, n)
    requires fn == f(n) && hn == h(n) && hm == if n == 0 then 0.0 else h(n - 1)
    ensures fn == (1.0 - t) * hn + t * hm
  {
  }

  lemma SplitAlgebra(t: real, v: real, f: real, h: real, h1: real, cf: real, ch: real, ct: real,
                     cf1: real, ch1: real, ct1: real)
    requires f == (1.0 - t) * h + t * h1
    requires cf == (1.0 - t) * ch + t * ct
    requires cf1 == cf + v * f && ch1 == ch + v * h && ct1 == ct + v * h1
    ensures cf1 == (1.0 - t) * ch1 + t * ct1
  {
  }

  lemma BasisTriangle(n: nat, t: real, i: nat)
    requires n > 0
    ensures Triangle(BernsteinBasis(n, t), BernsteinBasis(n - 1, t), t, i)
  {
    BernsteinStep(n, t, i);
  }

  lemma TopVanishes(b: seq<real>, h: nat -> real)
    requires |b| > 0 && h(|b| - 1) == 0.0
    ensures Combination(b, h) == Combination(Init(b), h)
  {
  }

  lemma Singleton(v: real, h: nat -> real)
    requires h(0) == 1.0
    ensures Combination([v], h) == v
  {
    assert Combination([v][..0], h) == 0.0;
  }

  lemma ValueStep(b: seq<real>, t: real, v: real, v0: real, v1: real)
    requires |b| > 1 && v == Value(b, t) && v0 == Value(Init(b), t) && v1 == Value(b[1..], t)
    ensures v == (1.0 - t) * v0 + t * v1
  {
    var n := |b| - 1;
    var f, h := BernsteinBasis(n, t), BernsteinBasis(n - 1, t);
    forall i: nat ensures Triangle(f, h, t, i) { BasisTriangle(n, t, i); }
    TopVanishes(b, h);
    hide Combination;
    SplitStep(b, f, h, t, v, v0, v1);
  }

  /** The textbook value of a segment satisfies de Casteljau's recursion. */
  lemma ValueBlends(t: real)
    ensures DeCasteljau(ValueAt(t), t)
  {
    var g := ValueAt(t);
    forall b: seq<real> ensures Blends(g, t, b) {
      if |b| == 1 {
        assert b == [b[0]];
        Singleton(b[0], BernsteinBasis(0, t));
      } else if |b| > 1 {
        ValueStep(b, t, g(b), g(Init(b)), g(b[1..]));
      }
      hide Value;
    }
  }

  // ---------- segments under an arbitrary de Casteljau functional ----------

  ghost predicate Affine(a: seq<real>, s: real, b: seq<real>, c: seq<real>)
  {
    |a| == |b| == |c| > 0 && forall i :: 0 <= i < |a| ==> c[i] == a[i] + Times(s, b[i])
  }

  lemma BlendAt(g: Functional, t: real, b: seq<real>)
    requires DeCasteljau(g, t) && |b| > 1
    ensures g(b) == (1.0 - t) * g(Init(b)) + t * g(b[1..])
  {
    assert Blends(g, t, b);
  }

  /** Linearity: if c = a + s*b coefficientwise then the values agree the same way. */
  lemma {:induction false} Linear(g: Functional, t: real, a: seq<real>, s: real, b: seq<real>, c: seq<real>)
    requires DeCasteljau(g, t)
    requires Affine(a, s, b, c)
    ensures g(c) == g(a) + s * g(b)
    decreases |a|
  {
    if |a| == 1 {
      assert Blends(g, t, a) && Blends(g, t, b) && Blends(g, t, c);
    } else {
      BlendAt(g, t, a);
      BlendAt(g, t, b);
      BlendAt(g, t, c);
      Linear(g, t, Init(a), s, Init(b), Init(c));
      Linear(g, t, a[1..], s, b[1..], c[1..]);
      hide *;
      LinearAlgebra(t, s, g(Init(a)), g(a[1..]), g(Init(b)), g(b[1..]), g(Init(c)), g(c[1..]), g(a), g(b), g(c));
    }
  }

  lemma LinearAlgebra(t: real, s: real, a0: real, a1: real, b0: real, b1: real, c0: real, c1: real,
                      a: real, b: real, c: real)
    requires c0 == a0 + s * b0 && c1 == a1 + s * b1
    requires a == (1.0 - t) * a0 + t * a1 && b == (1.0 - t) * b0 + t * b1 && c == (1.0 - t) * c0 + t * c1
    ensures c == a + s * b
  {
    assert s * b == (1.0 - t) * (s * b0) + t * (s * b1);
  }

  lemma BlendBounds(t: real, x: real, y: real, x1: real, y1: real)
    requires 0.0 <= t <= 1.0 && x <= x1 && y <= y1
    ensures (1.0 - t) * x + t * y <= (1.0 - t) * x1 + t * y1
    ensures x == y ==> (1.0 - t) * x + t * y == x
    ensures x1 == y1 ==> (1.0 - t) * x1 + t * y1 == x1
  {
    MulNonneg(1.0 - t, x1 - x);
    MulNonneg(t, y1 - y);
  }

  /** Convex hull: on [0, 1] a segment stays above any lower bound of its coefficients ... */
  lemma {:induction false} HullLower(g: Functional, t: real, b: seq<real>, lo: real)
    requires DeCasteljau(g, t) && 0.0 <= t <= 1.0 && |b| > 0
    requires forall i :: 0 <= i < |b| ==> lo <= b[i]
    ensures lo <= g(b)
    decreases |b|
  {
    assert Blends(g, t, b);
    if |b| > 1 {
      HullLower(g, t, Init(b), lo);
      HullLower(g, t, b[1..], lo);
      BlendBounds(t, lo, lo, g(Init(b)), g(b[1..]));
    }
  }

  /** ... and below any upper bound of them. */
  lemma {:induction false} HullUpper(g: Functional, t: real, b: seq<real>, hi: real)
    requires DeCasteljau(g, t) && 0.0 <= t <= 1.0 && |b| > 0
    requires forall i :: 0 <= i < |b| ==> b[i] <= hi
    ensures g(b) <= hi
    decreases |b|
  {
    assert Blends(g, t, b);
    if |b| > 1 {
      HullUpper(g, t, Init(b), hi);
      HullUpper(g, t, b[1..], hi);
      BlendBounds(t, g(Init(b)), g(b[1..]), hi, hi);
    }
  }

  /** The end coefficients are the exact values at 0 and 1. */
  lemma {:induction false} EndpointValue(g: Functional, b: seq<real>, right: bool)
    requires DeCasteljau(g, if right then 1.0 else 0.0) && |b| > 0
    ensures g(b) == if right then b[|b| - 1] else b[0]
    decreases |b|
  {
    assert Blends(g, if right then 1.0 else 0.0, b);
    if |b| > 1 {
      EndpointValue(g, if right then b[1..] else Init(b), right);
    }
  }

  // ---------- midpoint subdivision ----------

  function Midpoints(b: seq<real>): (r: seq<real>)
    requires |b| > 0
    ensures |r| == |b| - 1
  {
    seq(|b| - 1, i requires 0 <= i < |b| - 1 => (b[i] + b[i + 1]) / 2.0)
  }

  /** First column of the de Casteljau triangle at 1/2. */
  function LeftHalf(b: seq<real>): (r: seq<real>)
    requires |b| > 0
    ensures |r| == |b|
    decreases |b|
  {
    if |b| == 1 then b else [b[0]] + LeftHalf(Midpoints(b))
  }

  /** Last diagonal of the same triangle. */
  function RightHalf(b: seq<real>): (r: seq<real>)
    requires |b| > 0
    ensures |r| == |b|
    decreases |b|
  {
    if |b| == 1 then b else RightHalf(Midpoints(b)) + [b[|b| - 1]]
  }

  lemma {:induction false} LeftPrefix(b: seq<real>)
    requires |b| > 1
    ensures Init(LeftHalf(b)) == LeftHalf(Init(b))
    decreases |b|
  {
    if |b| > 2 {
      LeftPrefix(Midpoints(b));
      assert Init(Midpoints(b)) == Midpoints(Init(b));
      assert Init(LeftHalf(b)) == [b[0]] + Init(LeftHalf(Midpoints(b)));
    }
  }

  lemma {:induction false} RightSuffix(b: seq<real>)
    requires |b| > 1
    ensures RightHalf(b)[1..] == RightHalf(b[1..])
    decreases |b|
  {
    if |b| > 2 {
      RightSuffix(Midpoints(b));
      assert Midpoints(b)[1..] == Midpoints(b[1..]);
      assert RightHalf(b)[1..] == RightHalf(Midpoints(b))[1..] + [b[|b| - 1]];
    }
  }

  lemma MidpointValue(g: Functional, t: real, b: seq<real>)
    requires DeCasteljau(g, t) && |b| > 1
    ensures g(Midpoints(b)) == (g(Init(b)) + g(b[1..])) / 2.0
  {
    // (x + y)/2 == x + (y - x)/2
    var d := seq(|b| - 1, i requires 0 <= i < |b| - 1 => b[i + 1] - b[i]);
    Linear(g, t, Init(b), 1.0, d, b[1..]);
    Linear(g, t, Init(b), 0.5, d, Midpoints(b));
  }

  /** The left half traversed on [0, 1] is the segment traversed on [0, 1/2]. */
  lemma {:induction false} LeftValue(g: Functional, h: Functional, t: real, b: seq<real>)
    requires DeCasteljau(g, t) && DeCasteljau(h, t / 2.0) && |b| > 0
    ensures g(LeftHalf(b)) == h(b)
    decreases |b|
  {
    assert Blends(g, t, LeftHalf(b)) && Blends(h, t / 2.0, b);
    if |b| > 1 {
      LeftPrefix(b);
      assert LeftHalf(b)[1..] == LeftHalf(Midpoints(b));
      LeftValue(g, h, t, Init(b));
      LeftValue(g, h, t, Midpoints(b));
      MidpointValue(h, t / 2.0, b);
      HalfAlgebra(t, h(Init(b)), h(b[1..]));
    }
  }

  /** The right half traversed on [0, 1] is the segment traversed on [1/2, 1]. */
  lemma {:induction false} RightValue(g: Functional, h: Functional, t: real, b: seq<real>)
    requires DeCasteljau(g, t) && DeCasteljau(h, (1.0 + t) / 2.0) && |b| > 0
    ensures g(RightHalf(b)) == h(b)
    decreases |b|
  {
    assert Blends(g, t, RightHalf(b)) && Blends(h, (1.0 + t) / 2.0, b);
    if |b| > 1 {
      RightSuffix(b);
      assert Init(RightHalf(b)) == RightHalf(Midpoints(b));
      RightValue(g, h, t, b[1..]);
      RightValue(g, h, t, Midpoints(b));
      MidpointValue(h, (1.0 + t) / 2.0, b);
      HalfAlgebra(t, h(Init(b)), h(b[1..]));
    }
  }

  lemma HalfAlgebra(t: real, p: real, q: real)
    ensures (1.0 - t) * p + t * ((p + q) / 2.0) == (1.0 - t / 2.0) * p + t / 2.0 * q
    ensures (1.0 - t) * ((p + q) / 2.0) + t * q == (1.0 - (1.0 + t) / 2.0) * p + (1.0 + t) / 2.0 * q
  {
  }

  // ---------- from the power basis ----------

  /** The Bernstein coefficients of C(n, k) t^k: the binomials C(0, k), ..., C(n, k). */
  function BinomialRow(n: nat, k: nat): (r: seq<real>)
    ensures |r| == n + 1
  {
    seq(n + 1, i requires 0 <= i => Choose(i, k) as real)
  }

  lemma {:induction false} MonomialValue(g: Functional, t: real, n: nat, k: nat, c: real, p: real)
    requires DeCasteljau(g, t)
    requires c == Choose(n, k) as real && p == Power(t, k)
    ensures g(BinomialRow(n, k)) == c * p
    decreases n
  {
    if k == 0 {
      ConstantRow(g, t, n);
    } else if n == 0 {
      EmptyRow(g, t, k, c, p);
    } else {
      var c0, c1, p1 := Choose(n - 1, k) as real, Choose(n - 1, k - 1) as real, Power(t, k - 1);
      MonomialValue(g, t, n - 1, k, c0, p);
      MonomialValue(g, t, n - 1, k - 1, c1, p1);
      PascalStep(g, t, n, k, c, c0, c1, p, p1);
    }
  }

  // Row 0 is all ones, so every blend is one.
  lemma {:induction false} ConstantRow(g: Functional, t: real, n: nat)
    requires DeCasteljau(g, t)
    ensures g(BinomialRow(n, 0)) == 1.0
  {
    var b := BinomialRow(n, 0);
    assert Blends(g, t, b);
    if n > 0 {
      ConstantRow(g, t, n - 1);
      assert Init(b) == BinomialRow(n - 1, 0) && b[1..] == BinomialRow(n - 1, 0);
    }
  }

  lemma EmptyRow(g: Functional, t: real, k: nat, c: real, p: real)
    requires DeCasteljau(g, t) && k > 0 && c == Choose(0, k) as real
    ensures g(BinomialRow(0, k)) == c * p
  {
    var b := BinomialRow(0, k);
    assert Blends(g, t, b) && b[0] == 0.0;
    TimesZero(p, c);
  }

  lemma PascalStep(g: Functional, t: real, n: nat, k: nat, c: real, c0: real, c1: real, p: real, p1: real)
    requires DeCasteljau(g, t) && n > 0 && k > 0
    requires c == c0 + c1 && p == t * p1
    requires g(BinomialRow(n - 1, k)) == c0 * p && g(BinomialRow(n - 1, k - 1)) == c1 * p1
    ensures g(BinomialRow(n, k)) == c * p
  {
    var b, row, below := BinomialRow(n, k), BinomialRow(n - 1, k), BinomialRow(n - 1, k - 1);
    BlendAt(g, t, b);
    assert Init(b) == row;
    assert Affine(row, 1.0, below, b[1..]);
    Linear(g, t, row, 1.0, below, b[1..]);
    hide *;
    PascalAlgebra(t, c, c0, c1, p, p1, g(row), g(b[1..]), g(b));
  }

  lemma PascalAlgebra(t: real, c: real, c0: real, c1: real, p: real, p1: real, v0: real, v1: real, v: real)
    requires c == c0 + c1 && p == t * p1
    requires v0 == c0 * p && v1 == v0 + 1.0 * (c1 * p1)
    requires v == (1.0 - t) * v0 + t * v1
    ensures v == c * p
  {
  }

  /** The Bernstein coefficients Certificate code builds: b_i = sum_{k<=i} p_k C(i,k) / C(n,k). */
  function ToBernstein(power: seq<real>): (r: seq<real>)
    requires |power| > 0
    ensures |r| == |power|
  {
    seq(|power|, i requires 0 <= i < |power| => Weighted(power, i, i + 1))
  }

  /** sum_{k < m} power[k] C(i,k) / C(n,k) */
  function Weighted(power: seq<real>, i: nat, m: nat): real
    requires m <= |power|
  {
    if m == 0 then 0.0
    else
      var k, n := m - 1, |power| - 1;
      ChooseSupport(n, k);
      Weighted(power, i, m - 1) + Times(power[k], Ratio(Choose(i, k), Choose(n, k)))
  }

  function Ratio(a: nat, b: nat): real
    requires b > 0
  {
    a as real / b as real
  }

  lemma WeightedNamed(power: seq<real>, i: nat, k: nat, p: real, ci: nat, c: nat, rest: real, whole: real)
    requires k < |power| && p == power[k] && ci == Choose(i, k) && c == Choose(|power| - 1, k)
    requires rest == Weighted(power, i, k) && whole == Weighted(power, i, k + 1)
    ensures c > 0 && whole == rest + p * (ci as real / c as real)
  {
    ChooseSupport(|power| - 1, k);
    WeightedNext(power, i, k);
    hide Weighted;
    hide Choose;
  }

  lemma WeightedNext(power: seq<real>, i: nat, k: nat)
    requires k < |power| && Choose(|power| - 1, k) > 0
    ensures Weighted(power, i, k + 1)
         == Weighted(power, i, k) + Times(power[k], Ratio(Choose(i, k), Choose(|power| - 1, k)))
  {
    hide Choose;
    hide Times;
    hide Ratio;
  }

  /** Terms above the diagonal vanish, so the triangular sum is the full one. */
  lemma {:induction false} WeightedFull(power: seq<real>, i: nat, m: nat)
    requires i + 1 <= m <= |power|
    ensures Weighted(power, i, m) == Weighted(power, i, i + 1)
  {
    if m > i + 1 {
      WeightedFull(power, i, m - 1);
      ChooseSupport(i, m - 1);
      ChooseSupport(|power| - 1, m - 1);
      Quotient(power[m - 1], 0.0, Choose(|power| - 1, m - 1) as real);
    }
  }

  function Partial(power: seq<real>, m: nat): (r: seq<real>)
    requires m <= |power|
    ensures |r| == |power|
  {
    seq(|power|, i requires 0 <= i => Weighted(power, i, m))
  }

  lemma PartialAffine(power: seq<real>, k: nat, c: real)
    requires k < |power| && c == Choose(|power| - 1, k) as real && c != 0.0
    ensures Affine(Partial(power, k), power[k] / c, BinomialRow(|power| - 1, k), Partial(power, k + 1))
  {
    var b, row, next, s := Partial(power, k), BinomialRow(|power| - 1, k), Partial(power, k + 1), power[k] / c;
    forall i | 0 <= i < |power| ensures next[i] == b[i] + Times(s, row[i]) {
      PartialEntry(power, k, i, Choose(i, k), Choose(|power| - 1, k), b[i], next[i], row[i], s);
    }
    hide Choose;
    hide Weighted;
    hide Times;
  }

  lemma PartialEntry(power: seq<real>, k: nat, i: nat, ci: nat, c: nat, rest: real, whole: real, r: real, s: real)
    requires k < |power| && ci == Choose(i, k) && c == Choose(|power| - 1, k) && c != 0
    requires rest == Weighted(power, i, k) && whole == Weighted(power, i, k + 1)
    requires r == ci as real && s == power[k] / c as real
    ensures whole == rest + Times(s, r)
  {
    WeightedNext(power, i, k);
    hide Weighted;
    hide Choose;
    RatioTimes(power[k], ci, c, s, r);
    hide *;
  }

  lemma RatioTimes(p: real, a: nat, c: nat, s: real, r: real)
    requires c != 0 && s == p / c as real && r == a as real
    ensures Times(p, Ratio(a, c)) == Times(s, r)
  {
    Quotient(p, r, c as real);
  }

  lemma {:induction false} PartialValue(g: Functional, t: real, power: seq<real>, m: nat)
    requires DeCasteljau(g, t) && 0 < |power| && m <= |power|
    ensures g(Partial(power, m)) == Combination(power[..m], Monomials(t))
  {
    if m == 0 {
      var b := Partial(power, m);
      ZeroTimes(1.0);
      assert Affine(b, 1.0, b, b);
      Linear(g, t, b, 1.0, b, b);
    } else {
      var k := m - 1;
      var row := BinomialRow(|power| - 1, k);
      var c, p, q := Choose(|power| - 1, k) as real, Power(t, k), power[k];
      ChooseSupport(|power| - 1, k);
      var s := q / c;
      PartialValue(g, t, power, k);
      MonomialValue(g, t, |power| - 1, k, c, p);
      PartialAffine(power, k, c);
      Linear(g, t, Partial(power, k), s, row, Partial(power, m));
      ExtendNamed(power, k, Monomials(t), q, p, g(Partial(power, k)), Combination(power[..m], Monomials(t)));
      Divided(q, c, s);
      hide *;
      PartialAlgebra(q, p, c, s, g(Partial(power, k)), g(row), g(Partial(power, m)));
    }
  }

  lemma ZeroTimes(s: real)
    ensures Times(s, 0.0) == 0.0
  {
  }

  lemma Divided(q: real, c: real, s: real)
    requires c != 0.0 && s == q / c
    ensures s * c == q
  {
  }

  lemma PartialAlgebra(q: real, p: real, c: real, s: real, v0: real, r: real, v: real)
    requires s * c == q && r == c * p && v == v0 + s * r
    ensures v == v0 + q * p
  {
    assert s * (c * p) == (s * c) * p;
  }

  lemma Quotient(a: real, b: real, c: real)
    requires c != 0.0
    ensures a * (b / c) == a / c * b
    ensures a / c * (c * b) == a * b
  {
  }

  /** Change of basis: the Bernstein segment denotes the same polynomial as the power coefficients. */
  lemma BasisChange(power: seq<real>, t: real)
    requires |power| > 0
    ensures Value(ToBernstein(power), t) == Eval(power, t)
  {
    ValueBlends(t);
    PartialValue(ValueAt(t), t, power, |power|);
    assert power[..|power|] == power;
    forall i | 0 <= i < |power| ensures ToBernstein(power)[i] == Partial(power, |power|)[i] {
      WeightedFull(power, i, |power|);
    }
    assert ToBernstein(power) == Partial(power, |power|);
  }

  /** The halves of a split segment denote the polynomial on the two halves of its interval. */
  lemma LeftHalfValue(b: seq<real>, t: real)
    requires |b| > 0
    ensures ValueAt(t)(LeftHalf(b)) == ValueAt(t / 2.0)(b)
  {
    ValueBlends(t);
    ValueBlends(t / 2.0);
    LeftValue(ValueAt(t), ValueAt(t / 2.0), t, b);
  }

  lemma RightHalfValue(b: seq<real>, t: real)
    requires |b| > 0
    ensures ValueAt(t)(RightHalf(b)) == ValueAt((1.0 + t) / 2.0)(b)
  {
    ValueBlends(t);
    ValueBlends((1.0 + t) / 2.0);
    RightValue(ValueAt(t), ValueAt((1.0 + t) / 2.0), t, b);
  }
}
