/**
 evaluate_joint_roots (native/fideslib_stage0/include/stage1_joint_gates.hpp:68-126): vector-coefficient
 Paterson-Stockmeyer evaluation over a memoised Chebyshev basis shared by all heads.
 */
module JointGates {
  import opened Binary64
  import opened Reals
  import opened Chebyshev
  import opened Bernstein
  import opened Options
  import opened PolynomialCertificate
  import opened Sequences
  import opened Powers

  // ---------- slotwise values with their multiplicative depth ----------

  datatype Value = Value(slots: seq<real>, depth: nat)

  function MaxNat(a: nat, b: nat): nat { if a <= b then b else a }

  function Multiply(a: Value, b: Value): (r: Value)
    requires |a.slots| == |b.slots|
    ensures |r.slots| == |a.slots|
  {
    Value(seq(|a.slots|, h requires 0 <= h < |a.slots| => a.slots[h] * b.slots[h]), 1 + MaxNat(a.depth, b.depth))
  }

  function Add(a: Value, b: Value): (r: Value)
    requires |a.slots| == |b.slots|
    ensures |r.slots| == |a.slots|
  {
    Value(seq(|a.slots|, h requires 0 <= h < |a.slots| => a.slots[h] + b.slots[h]), MaxNat(a.depth, b.depth))
  }

  function Subtract(a: Value, b: Value): (r: Value)
    requires |a.slots| == |b.slots|
    ensures |r.slots| == |a.slots|
  {
    Value(seq(|a.slots|, h requires 0 <= h < |a.slots| => a.slots[h] - b.slots[h]), MaxNat(a.depth, b.depth))
  }

  function ScalarAdd(a: Value, s: real): (r: Value)
    ensures |r.slots| == |a.slots|
  {
    Value(seq(|a.slots|, h requires 0 <= h < |a.slots| => a.slots[h] + s), a.depth)
  }

  function CoefficientProduct(a: Value, row: seq<real>): (r: Value)
    requires |a.slots| == |row|
    ensures |r.slots| == |a.slots|
  {
    Value(seq(|row|, h requires 0 <= h < |row| => a.slots[h] * row[h]), 1 + a.depth)
  }

  // A product with one public number, such as the power of two that undoes a block rescale.
  function Rescale(a: Value, s: real): (r: Value)
    ensures |r.slots| == |a.slots|
  {
    Value(seq(|a.slots|, h requires 0 <= h < |a.slots| => a.slots[h] * s), 1 + a.depth)
  }

  function Constant(row: seq<real>): Value { Value(row, 0) }

  // ---------- logarithms ----------

  function CeilLog2(n: nat): nat
  {
    if n <= 1 then 0 else 1 + CeilLog2((n + 1) / 2)
  }

  lemma {:induction false} CeilLog2Monotone(m: nat, n: nat)
    requires m <= n
    ensures CeilLog2(m) <= CeilLog2(n)
    decreases n
  {
    if m > 1 { CeilLog2Monotone((m + 1) / 2, (n + 1) / 2); }
  }

  lemma {:induction false} CeilLog2OfPower(j: nat)
    ensures CeilLog2(Pow2(j)) == j
  {
    if j > 0 { CeilLog2OfPower(j - 1); }
  }

  /** Anything above 2^j needs one more level. */
  lemma {:induction false} CeilLog2AbovePower(j: nat, n: nat)
    requires n > Pow2(j)
    ensures CeilLog2(n) >= j + 1
  {
    if j > 0 { CeilLog2AbovePower(j - 1, (n + 1) / 2); }
  }

  // ---------- the series split ----------

  /** Coefficients [a_k, 2 a_{k+1}, ..., 2 a_{n-1}] multiplying T_k. */
  function RightPart(a: seq<real>, k: nat): (r: seq<real>)
    requires k < |a|
    ensures |r| == |a| - k
  {
    seq(|a| - k, j requires 0 <= j < |a| - k => if j == 0 then a[k + j] else 2.0 * a[k + j])
  }

  /** The low coefficients after subtracting the reflection of those above k. */
  function LeftPart(a: seq<real>, k: nat): (r: seq<real>)
    requires k < |a| <= 2 * k
    ensures |r| == k
  {
    seq(k, m requires 0 <= m < k => if 2 * k - m < |a| then a[m] - a[2 * k - m] else a[m])
  }

  /** sum a_i T_i == sum left_i T_i + T_k * sum right_i T_i, by 2 T_k T_j == T_{k+j} + T_{k-j}. */
  lemma {:induction false} SplitSeries(a: seq<real>, k: nat, f: nat -> real, x: real,
                                       whole: real, left: real, right: real, fk: real)
    requires IsChebyshev(f, x) && 0 < k < |a| <= 2 * k
    requires whole == Combination(a, f) && fk == f(k)
    requires left == Combination(LeftPart(a, k), f) && right == Combination(RightPart(a, k), f)
    ensures whole == left + fk * right
    decreases |a|
  {
    var n := |a| - 1;
    if n == k {
      SplitBase(a, k, f, whole, left, right, fk);
    } else {
      var b := Init(a);
      var whole0, left0, right0 := Combination(b, f), Combination(LeftPart(b, k), f), Combination(RightPart(b, k), f);
      SplitSeries(b, k, f, x, whole0, left0, right0, fk);
      ReflectionNamed(f, x, k, n, fk, f(n - k), f(n), f(2 * k - n));
      hide *;
      SplitStepUp(a, k, f, a[n], -a[n], 2.0 * a[n], f(n), f(n - k), f(2 * k - n), fk, whole0, left0, right0,
                  whole, left, right);
    }
  }

  // T_n is reflected at k to T_(2k - n).
  lemma ReflectionNamed(f: nat -> real, x: real, k: nat, n: nat, fk: real, fj: real, fn: real, fr: real)
    requires IsChebyshev(f, x) && k <= n <= 2 * k
    requires fk == f(k) && fj == f(n - k) && fn == f(n) && fr == f(2 * k - n)
    ensures 2.0 * fk * fj == fn + fr
  {
    hide IsChebyshev;
    assert k + (n - k) == n && k - (n - k) == 2 * k - n;
    ProductRule(f, x, k, n - k);
  }

  lemma SplitBase(a: seq<real>, k: nat, f: nat -> real, whole: real, left: real, right: real, fk: real)
    requires f(0) == 1.0 && 0 < k && |a| == k + 1
    requires whole == Combination(a, f) && fk == f(k)
    requires left == Combination(LeftPart(a, k), f) && right == Combination(RightPart(a, k), f)
    ensures whole == left + fk * right
  {
    assert LeftPart(a, k) == Init(a);
    assert RightPart(a, k) == [a[k]];
    UnfoldNamed(a, f, a[k], fk, left, whole);
    Singleton(a[k], f);
    hide Combination;
  }

  lemma SplitStepUp(a: seq<real>, k: nat, f: nat -> real, v: real, u: real, w: real, fn: real, fj: real, fr: real,
                    fk: real,
                    whole0: real, left0: real, right0: real, whole: real, left: real, right: real)
    requires 0 < k && k + 1 < |a| <= 2 * k
    requires v == a[|a| - 1] && u == -v && w == 2.0 * v
    requires fn == f(|a| - 1) && fj == f(|a| - 1 - k) && fr == f(2 * k - (|a| - 1))
    requires 2.0 * fk * fj == fn + fr
    requires whole0 == Combination(Init(a), f) && whole == Combination(a, f)
    requires left0 == Combination(LeftPart(Init(a), k), f) && left == Combination(LeftPart(a, k), f)
    requires right0 == Combination(RightPart(Init(a), k), f) && right == Combination(RightPart(a, k), f)
    requires whole0 == left0 + fk * right0
    ensures whole == left + fk * right
  {
    var n := |a| - 1;
    var lower := LeftPart(Init(a), k);
    var m := 2 * k - n;
    PartsGrow(a, k, u, w);
    hide *;
    UnfoldNamed(a, f, v, fn, whole0, whole);
    UpdateNamed(lower, f, m, u, fr, left0, left);
    UnfoldNamed(RightPart(a, k), f, w, fj, right0, right);
    hide *;
    SplitUpAlgebra(v, u, w, fn, fj, fr, fk, whole0, left0, right0, whole, left, right);
  }

  lemma PartsGrow(a: seq<real>, k: nat, u: real, w: real)
    requires 0 < k && k + 1 < |a| <= 2 * k && u == -a[|a| - 1] && w == 2.0 * a[|a| - 1]
    ensures var lower, m := LeftPart(Init(a), k), 2 * k - (|a| - 1);
            LeftPart(a, k) == lower[m := lower[m] + u]
    ensures Init(RightPart(a, k)) == RightPart(Init(a), k) && RightPart(a, k)[|a| - 1 - k] == w
  {
  }

  lemma SplitUpAlgebra(v: real, u: real, w: real, fn: real, fj: real, fr: real, fk: real, whole0: real, left0: real,
                       right0: real, whole: real, left: real, right: real)
    requires 2.0 * fk * fj == fn + fr && whole0 == left0 + fk * right0 && u == -v && w == 2.0 * v
    requires whole == whole0 + v * fn && left == left0 + u * fr && right == right0 + w * fj
    ensures whole == left + fk * right
  {
    assert fk * (2.0 * v * fj) == v * (2.0 * fk * fj);
  }

  // ---------- coefficient matrices, one row per degree and one column per head ----------

  type Rows = seq<seq<real>>

  ghost predicate Rectangular(c: Rows, heads: nat)
  {
    forall i :: 0 <= i < |c| ==> |c[i]| == heads
  }

  ghost function Column(c: Rows, h: nat): (r: seq<real>)
    requires forall i :: 0 <= i < |c| ==> h < |c[i]|
    ensures |r| == |c|
  {
    seq(|c|, i requires 0 <= i < |c| => c[i][h])
  }

  /** Every slot of v holds T_n of its own argument. */
  ghost predicate IsBasis(v: Value, n: nat, x: seq<real>)
  {
    |v.slots| == |x| && forall h :: 0 <= h < |x| ==> v.slots[h] == Basis(x[h])(n)
  }

  /** Every slot of v holds the series of its own column at its own argument. */
  ghost predicate Denotes(v: Value, c: Rows, x: seq<real>)
    requires Rectangular(c, |x|)
  {
    |v.slots| == |x| && forall h :: 0 <= h < |x| ==> v.slots[h] == Combination(Column(c, h), Basis(x[h]))
  }

  lemma BasisDouble(left: Value, right: Value, n: nat, x: seq<real>, input: Value)
    requires n >= 2 && IsBasis(left, (n + 1) / 2, x) && IsBasis(right, n / 2, x)
    requires input.slots == x
    ensures var product := Multiply(left, right);
            var doubled := Add(product, product);
            IsBasis(if n % 2 == 0 then ScalarAdd(doubled, -1.0) else Subtract(doubled, input), n, x)
  {
    var product := Multiply(left, right);
    var doubled := Add(product, product);
    var v := if n % 2 == 0 then ScalarAdd(doubled, -1.0) else Subtract(doubled, input);
    forall h | 0 <= h < |x| ensures v.slots[h] == Basis(x[h])(n) {
      DoubleAt(Basis(x[h]), x[h], n, left.slots[h], right.slots[h]);
    }
  }

  lemma DoubleAt(f: nat -> real, x: real, n: nat, a: real, b: real)
    requires f == Basis(x) && n >= 2 && a == f((n + 1) / 2) && b == f(n / 2)
    ensures f(n) == a * b + a * b - (if n % 2 == 0 then 1.0 else x)
  {
    var i, j := (n + 1) / 2, n / 2;
    BasisIsChebyshev(x);
    hide Basis;
    ProductRule(f, x, i, j);
    assert i + j == n && i - j == n % 2;
    DoubleAlgebra(a, b, f(i), f(j), f(n), f(n % 2)) by { hide *; }
  }

  lemma DoubleAlgebra(a: real, b: real, fi: real, fj: real, fn: real, fr: real)
    requires a == fi && b == fj && 2.0 * fi * fj == fn + fr
    ensures fn == a * b + a * b - fr
  {
  }

  // ---------- low-degree blocks ----------

  lemma FirstDenotes(c: Rows, x: seq<real>)
    requires Rectangular(c, |x|) && |c| > 0
    ensures Denotes(Constant(c[0]), c[..1], x)
  {
    forall h | 0 <= h < |x| ensures c[0][h] == Combination(Column(c[..1], h), Basis(x[h])) {
      assert Column(c[..1], h) == [c[0][h]];
      Singleton(c[0][h], Basis(x[h]));
    }
  }

  lemma TermDenotes(result: Value, v: Value, c: Rows, i: nat, x: seq<real>)
    requires Rectangular(c, |x|) && i < |c| && Denotes(result, c[..i], x) && IsBasis(v, i, x)
    ensures Denotes(Add(result, CoefficientProduct(v, c[i])), c[..i + 1], x)
  {
    var next := Add(result, CoefficientProduct(v, c[i]));
    forall h | 0 <= h < |x| ensures next.slots[h] == Combination(Column(c[..i + 1], h), Basis(x[h])) {
      var f := Basis(x[h]);
      assert Init(Column(c[..i + 1], h)) == Column(c[..i], h);
      UnfoldNamed(Column(c[..i + 1], h), f, c[i][h], v.slots[h], result.slots[h],
                  Combination(Column(c[..i + 1], h), f)) by { hide Combination; }
    }
  }

  lemma ZeroRowDenotes(result: Value, c: Rows, i: nat, x: seq<real>)
    requires Rectangular(c, |x|) && i < |c| && Denotes(result, c[..i], x)
    requires forall h :: 0 <= h < |x| ==> c[i][h] == 0.0
    ensures Denotes(result, c[..i + 1], x)
  {
    forall h | 0 <= h < |x| ensures result.slots[h] == Combination(Column(c[..i + 1], h), Basis(x[h])) {
      var f := Basis(x[h]);
      assert Init(Column(c[..i + 1], h)) == Column(c[..i], h);
      var q, whole := f(i), Combination(Column(c[..i + 1], h), f);
      UnfoldNamed(Column(c[..i + 1], h), f, 0.0, q, result.slots[h], whole) by { hide Combination; }
      TimesZero(q, 0.0);
    }
  }

  function ScaleRows(c: Rows, s: real): (r: Rows)
    ensures |r| == |c|
    ensures forall i :: 0 <= i < |c| ==> |r[i]| == |c[i]|
  {
    seq(|c|, i requires 0 <= i < |c| => seq(|c[i]|, h requires 0 <= h < |c[i]| => c[i][h] * s))
  }

  /** Scaling a whole block up and its value back down changes nothing. */
  lemma RescaleDenotes(v: Value, c: Rows, s: real, back: real, x: seq<real>)
    requires Rectangular(c, |x|) && Denotes(v, ScaleRows(c, s), x) && s * back == 1.0
    ensures Denotes(Rescale(v, back), c, x)
  {
    forall h | 0 <= h < |x| ensures Rescale(v, back).slots[h] == Combination(Column(c, h), Basis(x[h])) {
      RescaleHead(v, c, s, back, x, h, v.slots[h]);
    }
  }

  lemma RescaleHead(v: Value, c: Rows, s: real, back: real, x: seq<real>, h: nat, vh: real)
    requires Rectangular(c, |x|) && Denotes(v, ScaleRows(c, s), x) && s * back == 1.0
    requires |v.slots| == |x| && h < |x| && vh == v.slots[h]
    ensures Rescale(v, back).slots[h] == Combination(Column(c, h), Basis(x[h]))
  {
    var a, b := Column(c, h), Column(ScaleRows(c, s), h);
    DenotedAt(v, ScaleRows(c, s), x, h);
    assert Rescale(v, back).slots[h] == vh * back;
    assert forall i :: 0 <= i < |a| ==> b[i] == a[i] * s;
    hide *;
    RescaleAt(a, b, s, back, Basis(x[h]), vh, Combination(a, Basis(x[h])));
  }

  lemma RescaleAt(a: seq<real>, b: seq<real>, s: real, back: real, f: nat -> real, v: real, w: real)
    requires |a| == |b| && forall i :: 0 <= i < |a| ==> b[i] == a[i] * s
    requires s * back == 1.0 && v == Combination(b, f) && w == Combination(a, f)
    ensures v * back == w
  {
    if |a| == 0 {
      TimesZero(back, v);
    } else {
      ZeroCombination(Zeros(|a|), f);
      CombinationAffine(Zeros(|a|), s, a, b, f);
      hide Combination;
      RescaleAlgebra(s, back, v, w);
    }
  }

  lemma RescaleAlgebra(s: real, back: real, v: real, w: real)
    requires s * back == 1.0 && v == s * w
    ensures v * back == w
  {
    assert v * back == (s * back) * w;
  }

  predicate AllZero(row: seq<real>) { forall h :: 0 <= h < |row| ==> row[h] == 0.0 }

  function RowMax(row: seq<real>): real
  {
    if row == [] then 0.0 else Max(RowMax(row[..|row| - 1]), Abs(row[|row| - 1]))
  }

  /** The smallest row maximum that is not zero, or 1 if none is smaller. */
  function BlockMinimum(c: Rows): (m: real)
    ensures m > 0.0
  {
    if c == [] then 1.0
    else
      var rest, maximum := BlockMinimum(c[..|c| - 1]), RowMax(c[|c| - 1]);
      if maximum > 0.0 then Min(rest, maximum) else rest
  }

  const MAX_SHIFT := 50
  const SMALLEST := 0.00000001

  /** The exponent by which a block with tiny rows is lifted; exponent is the rounded difference of logarithms. */
  function BlockShift(c: Rows, exponent: real -> int): int
  {
    if BlockMinimum(c) < SMALLEST then exponent(BlockMinimum(c)) else 0
  }

  // ---------- high-degree split on matrices ----------

  function RightRow(c: Rows, k: nat, j: nat): (r: seq<real>)
    requires k + j < |c|
    ensures |r| == |c[k + j]|
  {
    if j == 0 then c[k] else Doubled(c[k + j])
  }

  function RightRows(c: Rows, k: nat): (r: Rows)
    requires k < |c|
    ensures |r| == |c| - k
  {
    seq(|c| - k, j requires 0 <= j < |c| - k => RightRow(c, k, j))
  }

  function Doubled(row: seq<real>): (r: seq<real>)
    ensures |r| == |row|
  {
    seq(|row|, h requires 0 <= h < |row| => 2.0 * row[h])
  }

  function Minus(row: seq<real>, other: seq<real>): (r: seq<real>)
    requires |row| == |other|
    ensures |r| == |row|
  {
    seq(|row|, h requires 0 <= h < |row| => row[h] - other[h])
  }

  function LeftRow(c: Rows, k: nat, upto: nat, m: nat): (r: seq<real>)
    requires m < k < upto <= |c| <= 2 * k && |c[m]| == |c[0]| && (2 * k - m < |c| ==> |c[2 * k - m]| == |c[0]|)
    ensures |r| == |c[0]|
  {
    if 2 * k - m < upto then Minus(c[m], c[2 * k - m]) else c[m]
  }

  function LeftRows(c: Rows, k: nat, upto: nat): (r: Rows)
    requires k < upto <= |c| <= 2 * k && forall i :: 0 <= i < |c| ==> |c[i]| == |c[0]|
    ensures |r| == k
  {
    seq(k, m requires 0 <= m < k => LeftRow(c, k, upto, m))
  }

  lemma PartsRectangular(c: Rows, k: nat, heads: nat)
    requires Rectangular(c, heads) && 0 < k < |c| <= 2 * k
    ensures Rectangular(LeftRows(c, k, |c|), heads) && Rectangular(RightRows(c, k), heads)
  {
    forall j | 0 <= j < |c| - k ensures |RightRows(c, k)[j]| == heads { assert |c[k + j]| == heads; }
  }

  lemma SplitDenotes(left: Value, right: Value, tk: Value, c: Rows, k: nat, x: seq<real>)
    requires Rectangular(c, |x|) && 0 < k < |c| <= 2 * k
    requires Rectangular(LeftRows(c, k, |c|), |x|) && Rectangular(RightRows(c, k), |x|)
    requires Denotes(left, LeftRows(c, k, |c|), x) && Denotes(right, RightRows(c, k), x) && IsBasis(tk, k, x)
    ensures |left.slots| == |right.slots| == |tk.slots| == |x| && Denotes(Add(left, Multiply(tk, right)), c, x)
  {
    forall h | 0 <= h < |x|
      ensures Add(left, Multiply(tk, right)).slots[h] == Combination(Column(c, h), Basis(x[h]))
    {
      SplitHead(left, right, tk, c, k, x, h, left.slots[h], right.slots[h], tk.slots[h]);
      hide *;
    }
  }

  lemma SplitHead(left: Value, right: Value, tk: Value, c: Rows, k: nat, x: seq<real>, h: nat,
                  l: real, r: real, t: real)
    requires Rectangular(c, |x|) && 0 < k < |c| <= 2 * k && h < |x|
    requires Rectangular(LeftRows(c, k, |c|), |x|) && Rectangular(RightRows(c, k), |x|)
    requires Denotes(left, LeftRows(c, k, |c|), x) && Denotes(right, RightRows(c, k), x) && IsBasis(tk, k, x)
    requires l == left.slots[h] && r == right.slots[h] && t == tk.slots[h]
    ensures |left.slots| == |right.slots| == |tk.slots| == |x|
    ensures Add(left, Multiply(tk, right)).slots[h] == Combination(Column(c, h), Basis(x[h]))
  {
    SplitColumns(c, k, h, |x|);
    DenotedAt(left, LeftRows(c, k, |c|), x, h);
    DenotedAt(right, RightRows(c, k), x, h);
    SplitSlot(left, right, tk, h, l, r, t);
    assert t == Basis(x[h])(k);
    hide *;
    SplitAt(Column(c, h), k, Basis(x[h]), x[h], l, r, t);
  }

  lemma DenotedAt(v: Value, c: Rows, x: seq<real>, h: nat)
    requires Rectangular(c, |x|) && Denotes(v, c, x) && h < |x|
    ensures |v.slots| == |x| && v.slots[h] == Combination(Column(c, h), Basis(x[h]))
  {
    hide Combination;
  }

  lemma SplitSlot(left: Value, right: Value, tk: Value, h: nat, l: real, r: real, t: real)
    requires |left.slots| == |right.slots| == |tk.slots| && h < |left.slots|
    requires l == left.slots[h] && r == right.slots[h] && t == tk.slots[h]
    ensures Add(left, Multiply(tk, right)).slots[h] == l + t * r
  {
  }

  lemma SplitColumns(c: Rows, k: nat, h: nat, heads: nat)
    requires Rectangular(c, heads) && h < heads && 0 < k < |c| <= 2 * k
    ensures Rectangular(LeftRows(c, k, |c|), heads) && Rectangular(RightRows(c, k), heads)
    ensures Column(LeftRows(c, k, |c|), h) == LeftPart(Column(c, h), k)
    ensures Column(RightRows(c, k), h) == RightPart(Column(c, h), k)
  {
    PartsRectangular(c, k, heads);
    var l, r, a := LeftRows(c, k, |c|), RightRows(c, k), Column(c, h);
    forall j | 0 <= j < |r| ensures r[j][h] == RightPart(a, k)[j] {
      assert r[j] == RightRow(c, k, j) && a[k + j] == c[k + j][h];
    }
    forall m | 0 <= m < k ensures l[m][h] == LeftPart(a, k)[m] {
      assert l[m] == LeftRow(c, k, |c|, m) && a[m] == c[m][h];
      if 2 * k - m < |c| { assert a[2 * k - m] == c[2 * k - m][h]; }
    }
  }

  lemma SplitAt(a: seq<real>, k: nat, f: nat -> real, x: real, left: real, right: real, fk: real)
    requires 0 < k < |a| <= 2 * k && f == Basis(x) && fk == f(k)
    requires left == Combination(LeftPart(a, k), f) && right == Combination(RightPart(a, k), f)
    ensures left + fk * right == Combination(a, f)
  {
    BasisIsChebyshev(x);
    hide Combination;
    hide Basis;
    SplitSeries(a, k, f, x, Combination(a, f), left, right, fk);
  }

  // ---------- the split point ----------

  /** Where a degree-n series is split: the first baby * 2^j with n < 2k. */
  function SplitPoint(n: nat, k: nat): (r: nat)
    requires 0 < k <= n
    ensures k <= r <= n < 2 * r
    decreases n - k
  {
    if 2 * k - 1 < n then SplitPoint(n, 2 * k) else k
  }

  lemma {:induction false} SplitPointPower(n: nat, j: nat) returns (i: nat)
    requires Pow2(j) <= n
    ensures SplitPoint(n, Pow2(j)) == Pow2(i)
    decreases n - Pow2(j)
  {
    if 2 * Pow2(j) - 1 < n {
      assert Pow2(j + 1) == 2 * Pow2(j);
      i := SplitPointPower(n, j + 1);
    } else {
      i := j;
    }
  }

  /** No block of the recursion needs a rescale beyond the supported encoding range. */
  ghost predicate Encodable(c: Rows, baby: nat, exponent: real -> int)
    requires |c| > 0 && baby > 0 && forall i :: 0 <= i < |c| ==> |c[i]| == |c[0]|
    decreases |c|
  {
    if |c| - 1 < baby then BlockShift(c, exponent) <= MAX_SHIFT
    else
      var k := SplitPoint(|c| - 1, baby);
      PartsRectangular(c, k, |c[0]|);
      Encodable(LeftRows(c, k, |c|), baby, exponent) && Encodable(RightRows(c, k), baby, exponent)
  }

  /** Some block of the recursion is rescaled, which costs a level of its own. */
  ghost predicate Rescaled(c: Rows, baby: nat, exponent: real -> int)
    requires |c| > 0 && baby > 0 && forall i :: 0 <= i < |c| ==> |c[i]| == |c[0]|
    decreases |c|
  {
    if |c| - 1 < baby then BlockShift(c, exponent) != 0
    else
      var k := SplitPoint(|c| - 1, baby);
      PartsRectangular(c, k, |c[0]|);
      Rescaled(LeftRows(c, k, |c|), baby, exponent) || Rescaled(RightRows(c, k), baby, exponent)
  }

  ghost function RescaleLevels(c: Rows, baby: nat, exponent: real -> int): nat
    requires |c| > 0 && baby > 0 && forall i :: 0 <= i < |c| ==> |c[i]| == |c[0]|
  {
    if Rescaled(c, baby, exponent) then 1 else 0
  }

  lemma EvaluatedBlock(c: Rows, baby: nat, exponent: real -> int)
    requires 0 < |c| <= baby && forall i :: 0 <= i < |c| ==> |c[i]| == |c[0]|
    ensures Encodable(c, baby, exponent) <==> BlockShift(c, exponent) <= MAX_SHIFT
    ensures RescaleLevels(c, baby, exponent) == if BlockShift(c, exponent) != 0 then 1 else 0
  {
  }

  lemma EvaluatedSplit(c: Rows, baby: nat, k: nat, exponent: real -> int)
    requires |c| > baby > 0 && (forall i :: 0 <= i < |c| ==> |c[i]| == |c[0]|) && k == SplitPoint(|c| - 1, baby)
    ensures Rectangular(LeftRows(c, k, |c|), |c[0]|) && Rectangular(RightRows(c, k), |c[0]|)
    ensures Encodable(c, baby, exponent)
            <==> Encodable(LeftRows(c, k, |c|), baby, exponent) && Encodable(RightRows(c, k), baby, exponent)
    ensures RescaleLevels(c, baby, exponent)
            == MaxNat(RescaleLevels(LeftRows(c, k, |c|), baby, exponent),
                      RescaleLevels(RightRows(c, k), baby, exponent))
  {
    PartsRectangular(c, k, |c[0]|);
  }

  /** The memo holds the input at 1, and under every key that basis polynomial at the depth of a balanced product. */
  ghost predicate BasisHolds(basis: map<nat, Value>, input: Value)
  {
    1 in basis && basis[1] == input && forall n :: n in basis ==> BasisAt(basis[n], n, input)
  }

  ghost predicate BasisAt(v: Value, n: nat, input: Value)
  {
    n >= 1 && IsBasis(v, n, input.slots) && v.depth <= input.depth + CeilLog2(n)
  }

  lemma DoubledBasis(left: Value, right: Value, n: nat, input: Value)
    requires n >= 2 && BasisAt(left, (n + 1) / 2, input) && BasisAt(right, n / 2, input)
    ensures |left.slots| == |right.slots| == |input.slots|
    ensures var product := Multiply(left, right);
            var doubled := Add(product, product);
            BasisAt(if n % 2 == 0 then ScalarAdd(doubled, -1.0) else Subtract(doubled, input), n, input)
  {
    BasisDouble(left, right, n, input.slots, input);
    CeilLog2Monotone(n / 2, (n + 1) / 2);
    hide IsBasis;
  }

  class Evaluator {
    const input: Value
    var basis: map<nat, Value>

    ghost predicate Valid()
      reads this
    {
      BasisHolds(basis, input)
    }

    constructor (input: Value)
      ensures Valid() && this.input == input
    {
      this.input := input;
      basis := map[1 := input];
      new;
      forall h | 0 <= h < |input.slots| ensures input.slots[h] == Basis(input.slots[h])(1) {}
    }

    /** The memoised basis: T_n of every slot, at most ceil(log2 n) multiplications deep. */
    method Get(n: nat) returns (v: Value)
      requires Valid() && n >= 1
      modifies this
      ensures Valid() && n in basis && v == basis[n]
      ensures forall m :: m in old(basis) ==> m in basis && basis[m] == old(basis[m])
      ensures BasisAt(v, n, input)
      decreases n
    {
      hide BasisAt;
      if n in basis { return basis[n]; }
      var left := Get((n + 1) / 2);
      var right := Get(n / 2);
      DoubledBasis(left, right, n, input);
      var product := Multiply(left, right);
      var doubled := Add(product, product);
      v := if n % 2 == 0 then ScalarAdd(doubled, -1.0) else Subtract(doubled, input);
      hide Multiply;
      basis := basis[n := v];
    }

    /** One Paterson-Stockmeyer block: rescale, accumulate the non-zero rows, undo the rescale. */
    method EvaluateBlock(c: Rows, exponent: real -> int) returns (r: Option<Value>)
      requires Valid() && |c| > 0 && Rectangular(c, |input.slots|)
      modifies this
      ensures Valid()
      ensures r.None? <==> BlockShift(c, exponent) > MAX_SHIFT
      ensures r.Some? ==>
                Denotes(r.value, c, input.slots) &&
                r.value.depth <= input.depth + CeilLog2(|c|) + 1 + if BlockShift(c, exponent) != 0 then 1 else 0
    {
      hide CeilLog2;
      hide Denotes;
      hide BlockShift;
      hide BasisHolds;
      hide Ldexp;
      var shift := BlockShift(c, exponent);
      if shift > MAX_SHIFT { return None; }
      if shift == 0 {
        var plain := Accumulate(c);
        return Some(plain);
      }
      var result := Accumulate(ScaleRows(c, Ldexp(shift)));
      LdexpUndone(shift);
      RescaleDenotes(result, c, Ldexp(shift), Ldexp(-shift), input.slots);
      r := Some(Rescale(result, Ldexp(-shift)));
    }

    method Accumulate(c: Rows) returns (result: Value)
      requires Valid() && |c| > 0 && Rectangular(c, |input.slots|)
      modifies this
      ensures Valid() && Denotes(result, c, input.slots) && result.depth <= input.depth + CeilLog2(|c|) + 1
    {
      result := Constant(c[0]);
      FirstDenotes(c, input.slots);
      hide Denotes;
      hide IsBasis;
      for i := 1 to |c|
        invariant Valid() && |result.slots| == |input.slots| && Denotes(result, c[..i], input.slots)
        invariant result.depth <= input.depth + CeilLog2(|c|) + 1
      {
        if AllZero(c[i]) {
          ZeroRowDenotes(result, c, i, input.slots);
        } else {
          var v := Get(i);
          CeilLog2Monotone(i, |c|);
          BasisSlots(v, i, input.slots);
          TermDenotes(result, v, c, i, input.slots);
          result := Add(result, CoefficientProduct(v, c[i]));
        }
      }
      assert c[..|c|] == c;
    }

    /** The recursive evaluator: splits at k = baby * 2^j until the degree is below baby. */
    method Evaluate(c: Rows, baby: nat, exponent: real -> int, ghost log: nat) returns (r: Option<Value>)
      requires Valid() && |c| > 0 && Rectangular(c, |input.slots|) && baby == Pow2(log)
      modifies this
      ensures Valid()
      ensures r.Some? <==> Encodable(c, baby, exponent)
      ensures r.Some? ==>
                Denotes(r.value, c, input.slots) &&
                r.value.depth <= input.depth + CeilLog2(|c|) + 1 + RescaleLevels(c, baby, exponent)
      decreases |c|, 1
    {
      var n := |c| - 1;
      hide Encodable;
      hide RescaleLevels;
      hide Denotes;
      hide CeilLog2;
      hide BlockShift;
      if n < baby {
        EvaluatedBlock(c, baby, exponent);
        r := EvaluateBlock(c, exponent);
        return;
      }
      var k := FindSplit(n, baby);
      ghost var j := SplitPointPower(n, log);
      var right := BuildRight(c, k);
      var left := BuildLeft(c, k);
      PartsRectangular(c, k, |input.slots|);
      SplitDepth(k, j, |c|);
      EvaluatedSplit(c, baby, k, exponent);
      r := EvaluateParts(c, k, left, right, baby, exponent, log);
    }

    // left + T_k * right, both parts evaluated against the shared basis.
    method EvaluateParts(ghost c: Rows, k: nat, left: Rows, right: Rows, baby: nat,
                         exponent: real -> int, ghost log: nat)
      returns (r: Option<Value>)
      requires Valid() && baby == Pow2(log) && 0 < k < |c| <= 2 * k && Rectangular(c, |input.slots|)
      requires left == LeftRows(c, k, |c|) && right == RightRows(c, k)
      requires Rectangular(left, |input.slots|) && Rectangular(right, |input.slots|)
      requires CeilLog2(|c|) >= CeilLog2(k) + 1 && CeilLog2(|c|) >= CeilLog2(|right|) + 1
      modifies this
      ensures Valid()
      ensures r.Some? <==> Encodable(left, baby, exponent) && Encodable(right, baby, exponent)
      ensures r.Some? ==>
                Denotes(r.value, c, input.slots) &&
                r.value.depth <= input.depth + CeilLog2(|c|) + 1 +
                                 MaxNat(RescaleLevels(left, baby, exponent), RescaleLevels(right, baby, exponent))
      decreases |c|, 0
    {
      ghost var levels := MaxNat(RescaleLevels(left, baby, exponent), RescaleLevels(right, baby, exponent));
      MaxNatBounds(RescaleLevels(left, baby, exponent), RescaleLevels(right, baby, exponent));
      hide *;
      var low := Evaluate(left, baby, exponent, log);
      if low.None? { return None; }
      var tk := Get(k);
      var high := Evaluate(right, baby, exponent, log);
      if high.None? { return None; }
      DenotedSlots(low.value, left, input.slots);
      DenotedSlots(high.value, right, input.slots);
      BasisSlots(tk, k, input.slots);
      SplitDenotes(low.value, high.value, tk, c, k, input.slots);
      SumDepth(low.value, tk, high.value, input.depth + CeilLog2(|c|) + 1 + levels);
      r := Some(Add(low.value, Multiply(tk, high.value)));
    }
  }

  lemma MaxNatBounds(a: nat, b: nat)
    ensures a <= MaxNat(a, b) && b <= MaxNat(a, b)
  {
  }

  lemma SumDepth(low: Value, tk: Value, high: Value, bound: nat)
    requires low.depth <= bound && tk.depth < bound && high.depth < bound
    requires |low.slots| == |tk.slots| == |high.slots|
    ensures Add(low, Multiply(tk, high)).depth <= bound
  {
  }

  method FindSplit(n: nat, baby: nat) returns (k: nat)
    requires 0 < baby <= n
    ensures k == SplitPoint(n, baby)
  {
    k := baby;
    while 2 * k - 1 < n
      invariant 0 < k <= n && SplitPoint(n, k) == SplitPoint(n, baby)
      decreases n - k
    {
      k := 2 * k;
    }
  }

  lemma BasisSlots(v: Value, n: nat, x: seq<real>)
    requires IsBasis(v, n, x)
    ensures |v.slots| == |x|
  {
  }

  lemma DenotedSlots(v: Value, c: Rows, x: seq<real>)
    requires Rectangular(c, |x|) && Denotes(v, c, x)
    ensures |v.slots| == |x|
  {
  }

  method BuildRight(c: Rows, k: nat) returns (right: Rows)
    requires k < |c|
    ensures right == RightRows(c, k)
  {
    right := c[k..];
    for i := 1 to |right|
      invariant |right| == |c| - k && right[0] == c[k]
      invariant forall m :: 1 <= m < |right| ==> right[m] == if m < i then Doubled(c[k + m]) else c[k + m]
    {
      right := right[i := Doubled(right[i])];
    }
    forall m | 0 <= m < |right| ensures right[m] == RightRows(c, k)[m] {
      assert RightRows(c, k)[m] == RightRow(c, k, m);
    }
  }

  method BuildLeft(c: Rows, k: nat) returns (left: Rows)
    requires k < |c| <= 2 * k && forall i :: 0 <= i < |c| ==> |c[i]| == |c[0]|
    ensures left == LeftRows(c, k, |c|)
  {
    left := c[..k];
    for i := k + 1 to |c|
      invariant |left| == k
      invariant forall m :: 0 <= m < k ==> left[m] == LeftRow(c, k, i, m)
    {
      left := left[2 * k - i := Minus(left[2 * k - i], c[i])];
    }
    forall m | 0 <= m < k ensures left[m] == LeftRows(c, k, |c|)[m] {
      assert LeftRows(c, k, |c|)[m] == LeftRow(c, k, |c|, m);
    }
  }

  // What the split costs: both parts have at most k rows, and more than k rows need one more level.
  lemma SplitDepth(k: nat, j: nat, size: nat)
    requires k == Pow2(j) && k < size <= 2 * k
    ensures CeilLog2(k) == j && CeilLog2(size - k) <= j && CeilLog2(size) >= j + 1
  {
    CeilLog2OfPower(j);
    CeilLog2Monotone(size - k, k);
    CeilLog2AbovePower(j, size);
  }

  // ---------- the whole gate ----------

  datatype JointGateSpec = JointGateSpec(lo: seq<real>, hi: seq<real>, rates: seq<real>, p: Rows, q: Rows)
  {
    predicate Valid()
    {
      |lo| >= 1 && |hi| == |lo| && |rates| == |lo| &&
      (forall h :: 0 <= h < |lo| ==> lo[h] < hi[h] && rates[h] > 0.0) &&
      1 <= |p| <= 4097 && 1 <= |q| <= 4097
    }

    ghost predicate Shaped() { Rectangular(p, |lo|) && Rectangular(q, |lo|) }

    function Degree(): int { (if |p| >= |q| then |p| else |q|) - 1 }
  }

  /** log2 of the number of coefficients, rounded up, but at least one. */
  function BabyLog(degree: nat, log: nat): nat
    decreases degree + 1 - Pow2(log)
  {
    if Pow2(log) < degree + 1 then BabyLog(degree, log + 1) else log
  }

  function BabyStep(degree: nat): nat { Pow2((BabyLog(degree, 1) + 1) / 2) }

  /** Depth of the balanced basis, one coefficient product and, only where a block is rescaled, one more product. */
  ghost predicate WithinDepth(v: Value, input: Value, c: Rows, baby: nat, exponent: real -> int)
    requires |c| > 0 && baby > 0 && forall i :: 0 <= i < |c| ==> |c[i]| == |c[0]|
  {
    v.depth <= input.depth + CeilLog2(|c|) + 1 + RescaleLevels(c, baby, exponent)
  }

  /**
   Both roots of the joint gate. Every head of either result is the Chebyshev series of its own column, and
   the multiplicative depth above the input is at most ceil(log2 of the number of coefficients) + 1, and one more when
   some block is rescaled.
   */
  method EvaluateJointRoots(input: Value, spec: JointGateSpec, exponent: real -> int)
    returns (r: Option<(Value, Value)>)
    requires |input.slots| == |spec.lo| && spec.Shaped()
    ensures r.Some? <==> spec.Valid() && Encodable(spec.p, BabyStep(spec.Degree()), exponent)
                         && Encodable(spec.q, BabyStep(spec.Degree()), exponent)
    ensures r.Some? ==> Denotes(r.value.0, spec.p, input.slots) && Denotes(r.value.1, spec.q, input.slots)
    ensures r.Some? ==> WithinDepth(r.value.0, input, spec.p, BabyStep(spec.Degree()), exponent)
    ensures r.Some? ==> WithinDepth(r.value.1, input, spec.q, BabyStep(spec.Degree()), exponent)
  {
    if !spec.Valid() { return None; }
    var degree, log := spec.Degree(), 1;
    while Pow2(log) < degree + 1
      invariant BabyLog(degree, log) == BabyLog(degree, 1)
      decreases degree + 1 - Pow2(log)
    {
      log := log + 1;
    }
    BabyOf(degree, log);
    RowsMatch(spec);
    r := EvaluateBoth(input, spec.p, spec.q, Pow2((log + 1) / 2), (log + 1) / 2, exponent);
  }

  lemma BabyOf(degree: nat, log: nat)
    requires Pow2(log) >= degree + 1 && BabyLog(degree, log) == BabyLog(degree, 1)
    ensures Pow2((log + 1) / 2) == BabyStep(degree)
  {
  }

  lemma RowsMatch(spec: JointGateSpec)
    requires spec.Shaped() && spec.Valid()
    ensures |spec.p| > 0 && Rectangular(spec.p, |spec.lo|) && |spec.q| > 0 && Rectangular(spec.q, |spec.lo|)
  {
  }

  // Both roots share one evaluator, and so one memo.
  method EvaluateBoth(input: Value, p: Rows, q: Rows, baby: nat, ghost log: nat, exponent: real -> int)
    returns (r: Option<(Value, Value)>)
    requires baby == Pow2(log) && |p| > 0 && |q| > 0 && Rectangular(p, |input.slots|) && Rectangular(q, |input.slots|)
    ensures r.Some? <==> Encodable(p, baby, exponent) && Encodable(q, baby, exponent)
    ensures r.Some? ==> Denotes(r.value.0, p, input.slots) && Denotes(r.value.1, q, input.slots)
    ensures r.Some? ==> WithinDepth(r.value.0, input, p, baby, exponent)
    ensures r.Some? ==> WithinDepth(r.value.1, input, q, baby, exponent)
  {
    hide Encodable;
    hide Denotes;
    hide RescaleLevels;
    hide CeilLog2;
    var evaluator := new Evaluator(input);
    hide BasisHolds;
    var first := evaluator.Evaluate(p, baby, exponent, log);
    if first.None? { return None; }
    var second := evaluator.Evaluate(q, baby, exponent, log);
    if second.None? { return None; }
    r := Some((first.value, second.value));
  }
}
