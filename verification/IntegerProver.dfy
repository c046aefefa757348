/**
 certify_chebyshev_bounds (src/fhemamba/polynomial_certificate.py:114-203): the same subdivision on
 integers over one shared denominator. Every step keeps "integer value == divisor * rational value".
 */
module IntegerProver {
  import Reals
  import opened Modular
  import opened Powers
  import opened Chebyshev
  import opened Bernstein
  import opened Options
  import opened PolynomialCertificate
  import opened Sequences
  import opened BernsteinProver

  // ---------- fractions ----------

  datatype Fraction = Fraction(num: int, den: int)

  type Rational = f: Fraction | f.den > 0 witness Fraction(0, 1)

  function ValueOf(f: Rational): real { f.num as real / f.den as real }

  function Values(c: seq<Rational>): (r: seq<real>)
    ensures |r| == |c|
  {
    seq(|c|, i requires 0 <= i < |c| => ValueOf(c[i]))
  }

  ghost predicate Times(x: int, d: int, r: real)
  {
    x as real == d as real * r
  }

  /** xs is d times the rational list b. */
  ghost predicate Scaled(xs: seq<int>, d: int, b: seq<real>)
  {
    |xs| == |b| && d > 0 && forall i :: 0 <= i < |xs| ==> Times(xs[i], d, b[i])
  }

  // ---------- least common multiples ----------

  /** Least multiple of a, at least k*a, that b divides; b*a is one. */
  function MultipleFrom(a: nat, b: nat, k: nat): (m: nat)
    requires a > 0 && 0 < k <= b
    ensures m > 0 && m % a == 0 && m % b == 0
    decreases b - k
  {
    if k == b then ProductDivides(a, b); a * b
    else if (k * a) % b == 0 then ProductDivides(k, a); k * a
    else MultipleFrom(a, b, k + 1)
  }

  lemma ProductDivides(a: nat, b: nat)
    requires a > 0 && b > 0
    ensures a * b > 0 && (a * b) % a == 0 && (a * b) % b == 0
  {
    ModMultiple(0, b, a);
    ModMultiple(0, a, b);
  }

  /** A multiple of a multiple. */
  lemma DividesThrough(d: nat, a: nat, m: nat)
    requires d > 0 && a > 0 && a % d == 0 && m % a == 0
    ensures m % d == 0
  {
    var p, q := a / d, m / a;
    assert m == q * a && a == p * d;
    assert m == (q * p) * d;
    ModMultiple(0, q * p, d);
  }

  lemma {:induction false} MultipleLeast(a: nat, b: nat, k: nat, j: nat)
    requires a > 0 && 0 < k <= b && k <= j && (j * a) % b == 0
    ensures MultipleFrom(a, b, k) <= j * a
    decreases b - k
  {
    if k == b || (k * a) % b == 0 {
      MulAtMost(k, j, a);
    } else {
      MultipleLeast(a, b, k + 1, j);
    }
  }

  lemma MulAtMost(k: nat, j: nat, a: nat)
    requires k <= j
    ensures k * a <= j * a
  {
  }

  lemma DifferenceDivides(n: int, q: int, m: int, d: nat)
    requires d > 0 && n % d == 0 && m % d == 0
    ensures (n - q * m) % d == 0
  {
    var p := m / d;
    assert m == p * d;
    assert q * m == (q * p) * d;
    ModMultiple(n, -(q * p), d);
  }

  /** Every common multiple of a and b is a multiple of the least one. */
  lemma LeastDivides(a: nat, b: nat, n: nat)
    requires a > 0 && b > 0 && n % a == 0 && n % b == 0
    ensures n % MultipleFrom(a, b, 1) == 0
  {
    var m := MultipleFrom(a, b, 1);
    var q, r := n / m, n % m;
    assert r == n - q * m;
    DifferenceDivides(n, q, m, a);
    DifferenceDivides(n, q, m, b);
    if r > 0 {
      var j := r / a;
      assert r == j * a;
      MultipleLeast(a, b, 1, j);
    }
  }

  predicate CommonMultiple(n: int, values: seq<nat>)
    requires forall i :: 0 <= i < |values| ==> values[i] > 0
  {
    forall i :: 0 <= i < |values| ==> n % values[i] == 0
  }

  // math.lcm(*values)
  method LeastCommonMultiple(values: seq<nat>) returns (m: nat)
    requires forall i :: 0 <= i < |values| ==> values[i] > 0
    ensures m > 0 && forall i :: 0 <= i < |values| ==> m % values[i] == 0
    ensures forall n: nat :: CommonMultiple(n, values) ==> n % m == 0
  {
    m := 1;
    for i := 0 to |values|
      invariant m > 0 && forall j :: 0 <= j < i ==> m % values[j] == 0
      invariant forall n: nat :: CommonMultiple(n, values) ==> n % m == 0
    {
      var next := MultipleFrom(m, values[i], 1);
      forall j | 0 <= j < i ensures next % values[j] == 0 { DividesThrough(values[j], m, next); }
      forall n: nat | CommonMultiple(n, values) ensures n % next == 0 { LeastDivides(m, values[i], n); }
      m := next;
    }
  }

  // ---------- subdivision ----------

  function PairSums(row: seq<int>): (r: seq<int>)
    requires |row| > 0
    ensures |r| == |row| - 1
  {
    seq(|row| - 1, i requires 0 <= i < |row| - 1 => row[i] + row[i + 1])
  }

  lemma PairSumsScaled(row: seq<int>, d: int, b: seq<real>)
    requires |row| > 0 && Scaled(row, d, b)
    ensures Scaled(PairSums(row), 2 * d, Midpoints(b))
  {
    forall i | 0 <= i < |row| - 1
      ensures Times(PairSums(row)[i], 2 * d, Midpoints(b)[i])
    {
      assert Times(row[i], d, b[i]) && Times(row[i + 1], d, b[i + 1]);
      AverageAlgebra(d as real, b[i], b[i + 1], row[i] as real, row[i + 1] as real, Midpoints(b)[i]);
    }
  }

  lemma AverageAlgebra(d: real, x: real, y: real, dx: real, dy: real, m: real)
    requires dx == d * x && dy == d * y && m == (x + y) / 2.0
    ensures dx + dy == 2.0 * d * m
  {
  }

  lemma ShiftScaled(v: int, d: int, p: int, q: int, b: real)
    requires Times(v, d, b) && p * d == q
    ensures Times(v * p, q, b)
  {
    assert (v * p) as real == v as real * p as real;
    assert q as real == p as real * d as real;
    ShiftAlgebra(v as real, d as real, p as real, q as real, b);
  }

  lemma ShiftAlgebra(v: real, d: real, p: real, q: real, b: real)
    requires v == d * b && q == p * d
    ensures v * p == q * b
  {
  }

  // Appending v << shift keeps the list on the target denominator.
  lemma PushScaled(xs: seq<int>, target: int, bs: seq<real>, v: int, d: int, p: int, x: real)
    requires Scaled(xs, target, bs)
    requires Times(v, d, x) && d * p == target
    ensures Scaled(xs + [v * p], target, bs + [x])
  {
    ShiftScaled(v, d, p, target, x);
    hide Times;
  }

  // left and right hold, over the target denominator, the columns collected so far; row is the current
  // row over d, and a shift by the remaining rows brings it to the target.
  ghost predicate SplittingInts(b: seq<real>, lb: seq<real>, gb: seq<real>, rb: seq<real>, left: seq<int>,
                                right: seq<int>, row: seq<int>, d: int, shift: nat, target: int)
  {
    Splitting(b, lb, gb, rb) && Scaled(row, d, rb) && |row| == shift + 1 && d * Pow2(shift) == target &&
    Scaled(left, target, lb) && Scaled(right, target, gb)
  }

  lemma SplittingIntsStep(b: seq<real>, lb: seq<real>, gb: seq<real>, rb: seq<real>, left: seq<int>,
                          right: seq<int>, row: seq<int>, d: int, shift: nat, target: int)
    requires SplittingInts(b, lb, gb, rb, left, right, row, d, shift, target) && shift > 0
    ensures var next, nb := PairSums(row), Midpoints(rb);
            SplittingInts(b, lb + [nb[0]], gb + [nb[|nb| - 1]], nb,
                          left + [next[0] * Pow2(shift - 1)], right + [next[|next| - 1] * Pow2(shift - 1)],
                          next, 2 * d, shift - 1, target)
  {
    var next, nb := PairSums(row), Midpoints(rb);
    PairSumsScaled(row, d, rb);
    SplittingStep(b, lb, gb, rb);
    HalveShift(d, shift, target);
    ScaledEnds(next, 2 * d, nb);
    hide Times;
    hide Splitting;
    hide Scaled;
    hide Pow2;
    PushScaled(left, target, lb, next[0], 2 * d, Pow2(shift - 1), nb[0]);
    PushScaled(right, target, gb, next[|next| - 1], 2 * d, Pow2(shift - 1), nb[|nb| - 1]);
  }

  lemma ScaledEnds(xs: seq<int>, d: int, b: seq<real>)
    requires |xs| > 0 && Scaled(xs, d, b)
    ensures Times(xs[0], d, b[0]) && Times(xs[|xs| - 1], d, b[|b| - 1])
  {
  }

  method SplitIntegers(values: seq<int>, divisor: int, ghost b: seq<real>)
    returns (left: seq<int>, right: seq<int>, next: int)
    requires |values| > 0 && Scaled(values, divisor, b)
    ensures next == divisor * Pow2(|values| - 1) && |left| == |right| == |values|
    ensures Scaled(left, next, LeftHalf(b)) && Scaled(right, next, RightHalf(b))
  {
    var degree := |values| - 1;
    var row := values;
    left, right := [row[0] * Pow2(degree)], [row[degree] * Pow2(degree)];
    ghost var rb, lb, gb := b, [b[0]], [b[degree]];
    ghost var d, target := divisor, divisor * Pow2(degree);
    ScaledEnds(values, divisor, b);
    hide Times;
    assert Splitting(b, lb, gb, rb);
    SingleScaled(values[0], divisor, Pow2(degree), target, b[0]);
    SingleScaled(values[degree], divisor, Pow2(degree), target, b[degree]);
    hide Splitting;
    hide Pow2;
    for step := 1 to degree + 1
      invariant SplittingInts(b, lb, gb, rb, left, right, row, d, degree + 1 - step, target)
    {
      SplittingIntsStep(b, lb, gb, rb, left, right, row, d, degree + 1 - step, target);
      row, rb, d := PairSums(row), Midpoints(rb), 2 * d;
      left := left + [row[0] * Pow2(degree - step)];
      right := right + [row[|row| - 1] * Pow2(degree - step)];
      lb, gb := lb + [rb[0]], gb + [rb[|rb| - 1]];
    }
    SplittingDone(b, lb, gb, rb);
    right := Reversed(right);
    next := divisor * Pow2(degree);
  }

  lemma HalveShift(d: int, n: nat, target: int)
    requires n > 0 && d * Pow2(n) == target
    ensures 2 * d * Pow2(n - 1) == target
  {
  }

  lemma SingleScaled(v: int, d: int, p: int, target: int, x: real)
    requires d > 0 && p > 0 && target == d * p
    requires Times(v, d, x)
    ensures Scaled([v * p], target, [x])
  {
    MulPositive(d, p);
    ShiftScaled(v, d, p, target, x);
  }

  lemma MulPositive(a: int, b: int)
    requires a > 0 && b > 0
    ensures a * b > 0
  {
  }

  // ---------- integer power coefficients ----------

  ghost predicate ListsInts(list: seq<int>, k: nat)
  {
    |list| == k + 1 && forall i :: 0 <= i <= k ==> list[i] == UnitCoefficient(k, i)
  }

  ghost predicate AccumulatesInts(power: seq<int>, d: int, c: seq<real>, terms: nat)
    requires terms <= |c|
  {
    |power| == |c| && d > 0 &&
    forall i :: 0 <= i < |c| ==> Times(power[i], d, Combination(c[..terms], Column(i)))
  }

  lemma FirstTermInts(scaled: seq<int>, d: int, c: seq<real>, power: seq<int>)
    requires |c| > 0 && Scaled(scaled, d, c)
    requires |power| == |c| && power[0] == scaled[0] && forall i :: 0 < i < |c| ==> power[i] == 0
    ensures AccumulatesInts(power, d, c, 1)
  {
    FirstTerm(c, Zeros(|c|)[0 := c[0]]);
    hide Combination;
    forall i | 0 <= i < |c| ensures Times(power[i], d, Combination(c[..1], Column(i))) {
      assert Times(scaled[0], d, c[0]);
      assert Combination(c[..1], Column(i)) == Zeros(|c|)[0 := c[0]][i];
    }
  }

  lemma NextTermInts(scaled: seq<int>, d: int, c: seq<real>, k: nat, current: seq<int>,
                     before: seq<int>, power: seq<int>)
    requires 1 <= k < |c| && Scaled(scaled, d, c) && ListsInts(current, k)
    requires AccumulatesInts(before, d, c, k) && |power| == |c|
    requires forall i :: 0 <= i <= k ==> power[i] == before[i] + scaled[k] * current[i]
    requires forall i :: k < i < |c| ==> power[i] == before[i]
    ensures AccumulatesInts(power, d, c, k + 1)
  {
    assert Times(scaled[k], d, c[k]);
    hide Times;
    hide Combination;
    forall i | 0 <= i < |c| ensures Times(power[i], d, Combination(c[..k + 1], Column(i))) {
      NextEntryInts(d, c, k, i, scaled[k], if i <= k then current[i] else 0, before[i], power[i],
                    Combination(c[..k], Column(i)), Combination(c[..k + 1], Column(i)));
    }
  }

  lemma NextEntryInts(d: int, c: seq<real>, k: nat, i: nat, s: int, w: int, b: int, p: int, v: real, v1: real)
    requires k < |c| && Times(s, d, c[k]) && w == UnitCoefficient(k, i)
    requires v == Combination(c[..k], Column(i)) && v1 == Combination(c[..k + 1], Column(i))
    requires Times(b, d, v) && p == b + s * w
    ensures Times(p, d, v1)
  {
    var ck, wr := c[k], w as real;
    assert Column(i)(k) == wr by { hide UnitCoefficient; }
    ExtendNamed(c, k, Column(i), ck, wr, v, v1);
    hide *;
    NextTermTimes(d, ck, wr, s, w, v, v1, b, p);
  }

  lemma NextTermTimes(d: int, c: real, u: real, s: int, w: int, v: real, v1: real, b: int, p: int)
    requires Times(s, d, c) && Times(b, d, v) && u == w as real
    requires v1 == v + c * u && p == b + s * w
    ensures Times(p, d, v1)
  {
    NextTermAlgebra(d as real, c, u, s, w, v, v1, b, p);
  }

  lemma NextTermAlgebra(d: real, c: real, u: real, s: int, w: int, v: real, v1: real, b: int, p: int)
    requires s as real == d * c && w as real == u && b as real == d * v
    requires v1 == v + c * u && p == b + s * w
    ensures p as real == d * v1
  {
    assert (s * w) as real == s as real * w as real;
  }

  function EntryOf(row: seq<int>, i: int): int { if 0 <= i < |row| then row[i] else 0 }

  // following = -2 * current + 4 * shifted current - previous
  method NextRow(current: seq<int>, previous: seq<int>, ghost k: nat) returns (following: seq<int>)
    requires 1 <= k && ListsInts(current, k) && ListsInts(previous, k - 1)
    ensures ListsInts(following, k + 1)
  {
    hide UnitCoefficient;
    following := seq(|current| + 1, i => 0);
    for i := 0 to |current|
      invariant |following| == |current| + 1
      invariant forall j :: i < j < |following| ==> following[j] == 0
      invariant following[i] == 4 * EntryOf(current, i - 1)
      invariant forall j :: 0 <= j < i ==> following[j] == 4 * EntryOf(current, j - 1) - 2 * EntryOf(current, j)
    {
      ghost var before := following;
      following := following[i := following[i] - 2 * current[i]];
      following := following[i + 1 := following[i + 1] + 4 * current[i]];
      assert following[i + 1] == 4 * EntryOf(current, i) && following[i] == before[i] - 2 * EntryOf(current, i);
      assert forall j :: 0 <= j < |following| && j != i && j != i + 1 ==> following[j] == before[j];
      hide EntryOf;
    }
    ghost var product := following;
    assert EntryOf(current, |current|) == 0;
    following := AddRowInts(following, -1, previous);
    NextRowValue(current, previous, k, product, following);
  }

  lemma NextRowValue(current: seq<int>, previous: seq<int>, k: nat, product: seq<int>, following: seq<int>)
    requires 1 <= k && ListsInts(current, k) && ListsInts(previous, k - 1)
    requires |product| == |following| == k + 2
    requires forall j :: 0 <= j <= k + 1 ==>
               product[j] == 4 * EntryOf(current, j - 1) - 2 * EntryOf(current, j)
    requires forall j :: 0 <= j < k ==> following[j] == product[j] + -1 * previous[j]
    requires forall j :: k <= j <= k + 1 ==> following[j] == product[j]
    ensures ListsInts(following, k + 1)
  {
    hide UnitCoefficient;
    forall i | 0 <= i <= k + 1 ensures following[i] == UnitCoefficient(k + 1, i) {
      assert following[i] == product[i] - EntryOf(previous, i);
      UnitEntries(current, previous, k, i);
    }
  }

  // Entry i of T_(k+1) from the entries of the two rows before it.
  lemma UnitEntries(current: seq<int>, previous: seq<int>, k: nat, i: nat)
    requires 1 <= k && i <= k + 1 && ListsInts(current, k) && ListsInts(previous, k - 1)
    ensures UnitCoefficient(k + 1, i) == 4 * EntryOf(current, i - 1) - 2 * EntryOf(current, i) - EntryOf(previous, i)
  {
    UnitStep(k, i);
    hide UnitCoefficient;
  }

  lemma UnitStep(k: nat, i: nat)
    requires 1 <= k && i <= k + 1
    ensures UnitCoefficient(k + 1, i)
         == -2 * UnitCoefficient(k, i) + 4 * UnitCoefficient(k, i - 1) - UnitCoefficient(k - 1, i)
    ensures UnitCoefficient(k, -1) == 0 && UnitCoefficient(k, k + 1) == 0
    ensures i >= k ==> UnitCoefficient(k - 1, i) == 0
  {
  }

  // power[i] += scale * row[i] for the entries of row
  method AddRowInts(power: seq<int>, scale: int, row: seq<int>) returns (r: seq<int>)
    requires |row| <= |power|
    ensures |r| == |power|
    ensures forall i :: 0 <= i < |row| ==> r[i] == power[i] + scale * row[i]
    ensures forall i :: |row| <= i < |r| ==> r[i] == power[i]
  {
    r := power;
    for i := 0 to |row|
      invariant |r| == |power|
      invariant forall j :: 0 <= j < i ==> r[j] == power[j] + scale * row[j]
      invariant forall j :: i <= j < |r| ==> r[j] == power[j]
    {
      r := r[i := r[i] + scale * row[i]];
    }
  }

  lemma RowSizes(power: seq<int>, d: int, c: seq<real>, k: nat, current: seq<int>)
    requires k < |c| && AccumulatesInts(power, d, c, k) && ListsInts(current, k)
    ensures |power| == |c| && |current| == k + 1
  {
  }

  lemma AccumulatedAll(power: seq<int>, d: int, c: seq<real>)
    requires AccumulatesInts(power, d, c, |c|)
    ensures Scaled(power, d, UnitPower(c))
  {
    assert c[..|c|] == c;
    hide Combination;
    hide Times;
  }

  method IntegerPower(scaled: seq<int>, ghost d: int, ghost c: seq<real>) returns (power: seq<int>)
    requires |c| > 0 && Scaled(scaled, d, c)
    ensures Scaled(power, d, UnitPower(c))
  {
    power := seq(|scaled|, i => 0)[0 := scaled[0]];
    FirstTermInts(scaled, d, c, power);
    var previous, current := [1], [-1, 2];
    for degree := 1 to |scaled|
      invariant AccumulatesInts(power, d, c, degree)
      invariant ListsInts(previous, degree - 1) && ListsInts(current, degree)
    {
      ghost var before := power;
      RowSizes(power, d, c, degree, current);
      hide *;
      power := AddRowInts(power, scaled[degree], current);
      NextTermInts(scaled, d, c, degree, current, before, power);
      var following := NextRow(current, previous, degree);
      previous, current := current, following;
    }
    AccumulatedAll(power, d, c);
  }

  // ---------- integer Bernstein coefficients ----------

  /** sum_{k < m} weighted[k] C(i, k) */
  function IntegerSum(weighted: seq<int>, i: nat, m: nat): int
    requires m <= |weighted|
  {
    if m == 0 then 0 else IntegerSum(weighted, i, m - 1) + weighted[m - 1] * Choose(i, m - 1)
  }

  ghost predicate WeightedBy(weighted: seq<int>, power: seq<int>, common: nat)
  {
    |weighted| == |power| > 0 &&
    forall k :: 0 <= k < |power| ==>
      Choose(|power| - 1, k) > 0 && common % Choose(|power| - 1, k) == 0 &&
      weighted[k] == power[k] * (common / Choose(|power| - 1, k))
  }

  lemma {:induction false} IntegerSumValue(weighted: seq<int>, power: seq<int>, common: nat, d: int, p: seq<real>,
                                           i: nat, m: nat, e: int, s: int, v: real)
    requires WeightedBy(weighted, power, common) && Scaled(power, d, p) && m <= |p| && e == d * common
    requires s == IntegerSum(weighted, i, m) && v == Weighted(p, i, m)
    ensures s as real == e as real * v
  {
    if m == 0 {
      Reals.TimesZero(e as real, v);
    } else {
      var s0, v0 := IntegerSum(weighted, i, m - 1), Weighted(p, i, m - 1);
      IntegerSumValue(weighted, power, common, d, p, i, m - 1, e, s0, v0);
      IntegerSumStep(weighted, power, common, d, p, i, m - 1, e, s0, s, v0, v);
    }
  }

  lemma IntegerSumStep(weighted: seq<int>, power: seq<int>, common: nat, d: int, p: seq<real>, i: nat, k: nat, e: int,
                       s0: int, s: int, v0: real, v: real)
    requires WeightedBy(weighted, power, common) && Scaled(power, d, p) && k < |p| && e == d * common
    requires v0 == Weighted(p, i, k) && v == Weighted(p, i, k + 1)
    requires s == s0 + weighted[k] * Choose(i, k) && s0 as real == e as real * v0
    ensures s as real == e as real * v
  {
    var c, ci, pk, w, pw := Choose(|p| - 1, k), Choose(i, k), p[k], weighted[k], power[k];
    WeightedNamed(p, i, k, pk, ci, c, v0, v);
    EntryFacts(weighted, power, common, d, p, k, c, pk, w, pw);
    hide *;
    EntryAlgebra(pw, common, c, ci, d, e, pk, w, s0, s, v0, v);
  }

  lemma EntryFacts(weighted: seq<int>, power: seq<int>, common: nat, d: int, p: seq<real>, k: nat, c: nat,
                   pk: real, w: int, pw: int)
    requires WeightedBy(weighted, power, common) && Scaled(power, d, p) && k < |p|
    requires c == Choose(|p| - 1, k) && pk == p[k] && w == weighted[k] && pw == power[k]
    ensures c > 0 && common % c == 0 && w == pw * (common / c) && pw as real == d as real * pk
  {
    assert Times(power[k], d, p[k]);
  }

  lemma EntryAlgebra(pw: int, common: nat, c: nat, ci: nat, d: int, e: int, p: real, w: int,
                     s: int, s1: int, v: real, v1: real)
    requires c > 0 && common % c == 0 && w == pw * (common / c)
    requires pw as real == d as real * p && e == d * common
    requires s as real == e as real * v && s1 == s + w * ci && v1 == v + p * (ci as real / c as real)
    ensures s1 as real == e as real * v1
  {
    var q := common / c;
    assert common == q * c;
    RatioAlgebra(d as real, p, q as real, c as real, ci as real, pw as real, common as real, e as real,
                 w as real, s as real, s1 as real, v, v1);
  }

  lemma RatioAlgebra(d: real, p: real, q: real, c: real, ci: real, pw: real, common: real, e: real,
                     w: real, s: real, s1: real, v: real, v1: real)
    requires c > 0.0 && common == q * c && w == pw * q && pw == d * p && e == d * common
    requires s == e * v && s1 == s + w * ci && v1 == v + p * (ci / c)
    ensures s1 == e * v1
  {
    var r := ci / c;
    assert ci == r * c;
    assert w * ci == (d * p * q) * (r * c);
    assert e * (p * r) == (d * (q * c)) * (p * r);
  }

  method IntegerBernstein(power: seq<int>, ghost d: int, ghost p: seq<real>)
    returns (bernstein: seq<int>, common: nat)
    requires |power| > 0 && Scaled(power, d, p)
    ensures common > 0 && Scaled(bernstein, d * common, ToBernstein(p))
  {
    var degree := |power| - 1;
    forall k: nat | k <= degree ensures Choose(degree, k) > 0 { ChooseSupport(degree, k); }
    var divisors: seq<nat> := seq(degree + 1, k requires 0 <= k => Choose(degree, k));
    common := LeastCommonMultiple(divisors);
    var weighted := seq(degree + 1, k requires 0 <= k <= degree => power[k] * (common / divisors[k]));
    assert WeightedBy(weighted, power, common) by {
      forall k | 0 <= k <= degree ensures common % Choose(degree, k) == 0 { assert common % divisors[k] == 0; }
    }
    bernstein := seq(degree + 1, i requires 0 <= i <= degree => IntegerSum(weighted, i, i + 1));
    BernsteinScaled(weighted, power, common, d, p, bernstein);
  }

  lemma BernsteinScaled(weighted: seq<int>, power: seq<int>, common: nat, d: int, p: seq<real>, bernstein: seq<int>)
    requires WeightedBy(weighted, power, common) && Scaled(power, d, p) && common > 0
    requires |bernstein| == |p| && forall i :: 0 <= i < |p| ==> bernstein[i] == IntegerSum(weighted, i, i + 1)
    ensures Scaled(bernstein, d * common, ToBernstein(p))
  {
    MulPositive(d, common);
    var e := d * common;
    forall i: nat | i < |p| ensures Times(bernstein[i], e, ToBernstein(p)[i]) {
      BernsteinEntry(weighted, power, common, d, p, bernstein[i], i, e);
    }
    hide WeightedBy;
    hide Times;
  }

  lemma BernsteinEntry(weighted: seq<int>, power: seq<int>, common: nat, d: int, p: seq<real>,
                       value: int, i: nat, e: int)
    requires WeightedBy(weighted, power, common) && Scaled(power, d, p) && common > 0 && e == d * common
    requires i < |p| == |weighted| && value == IntegerSum(weighted, i, i + 1)
    ensures Times(value, e, ToBernstein(p)[i])
  {
    hide Weighted;
    hide IntegerSum;
    IntegerSumValue(weighted, power, common, d, p, i, i + 1, e, value, ToBernstein(p)[i]);
  }

  // ---------- the decision loop ----------

  predicate Inside(value: int, divisor: int, lower: Rational, upper: Rational)
  {
    lower.num * divisor <= value * lower.den && value * upper.den <= upper.num * divisor
  }

  function BoundsOf(lower: Rational, upper: Rational): Bounds
  {
    Bounds(Some(ValueOf(lower)), Some(ValueOf(upper)))
  }

  /** Cross-multiplied integer comparison against a fraction. */
  lemma CompareFraction(f: Rational, value: int, divisor: int, b: real)
    requires divisor > 0 && Times(value, divisor, b)
    ensures f.num * divisor <= value * f.den <==> ValueOf(f) <= b
    ensures value * f.den <= f.num * divisor <==> b <= ValueOf(f)
  {
    var n, q, d, v := f.num as real, f.den as real, divisor as real, value as real;
    assert (f.num * divisor) as real == n * d;
    assert (value * f.den) as real == v * q;
    CrossMultiply(n, q, d, v, b, ValueOf(f));
  }

  lemma CrossMultiply(n: real, q: real, d: real, v: real, b: real, x: real)
    requires q > 0.0 && d > 0.0 && v == d * b && x == n / q
    ensures n * d <= v * q <==> x <= b
    ensures v * q <= n * d <==> b <= x
  {
    assert n == x * q;
    assert n * d == (d * q) * x && v * q == (d * q) * b;
    Reals.MulPos(d, q);
    Reals.MulMonoIff(d * q, x, b);
    Reals.MulMonoIff(d * q, b, x);
  }

  lemma InsideMeans(value: int, divisor: int, b: real, lower: Rational, upper: Rational)
    requires divisor > 0 && Times(value, divisor, b)
    ensures Inside(value, divisor, lower, upper) <==> BoundsOf(lower, upper).Allows(b)
  {
    CompareFraction(lower, value, divisor, b);
    CompareFraction(upper, value, divisor, b);
  }

  function MinOf(xs: seq<int>): (m: int)
    requires |xs| > 0
    ensures m in xs && forall i :: 0 <= i < |xs| ==> m <= xs[i]
  {
    if |xs| == 1 then xs[0]
    else var m := MinOf(xs[1..]); if xs[0] < m then xs[0] else m
  }

  function MaxOf(xs: seq<int>): (m: int)
    requires |xs| > 0
    ensures m in xs && forall i :: 0 <= i < |xs| ==> xs[i] <= m
  {
    if |xs| == 1 then xs[0]
    else var m := MaxOf(xs[1..]); if xs[0] > m then xs[0] else m
  }

  /** Testing the extreme integers is the rational hull test. */
  lemma HullMeans(values: seq<int>, divisor: int, b: seq<real>, lower: Rational, upper: Rational)
    requires |values| > 0 && Scaled(values, divisor, b)
    ensures Inside(MinOf(values), divisor, lower, upper) && Inside(MaxOf(values), divisor, lower, upper)
            <==> HullInside(b, BoundsOf(lower, upper))
    ensures Inside(values[0], divisor, lower, upper) <==> BoundsOf(lower, upper).Allows(b[0])
    ensures Inside(values[|values| - 1], divisor, lower, upper) <==> BoundsOf(lower, upper).Allows(b[|b| - 1])
  {
    hide Times;
    var bounds := BoundsOf(lower, upper);
    forall i | 0 <= i < |values|
      ensures Inside(values[i], divisor, lower, upper) <==> bounds.Allows(b[i])
    {
      InsideMeans(values[i], divisor, b[i], lower, upper);
    }
    if Inside(MinOf(values), divisor, lower, upper) && Inside(MaxOf(values), divisor, lower, upper) {
      forall i | 0 <= i < |values| ensures bounds.Allows(b[i]) {
        Between(values[i], MinOf(values), MaxOf(values), divisor, lower, upper);
      }
    }
  }

  lemma Between(v: int, low: int, high: int, divisor: int, lower: Rational, upper: Rational)
    requires low <= v <= high
    requires Inside(low, divisor, lower, upper) && Inside(high, divisor, lower, upper)
    ensures Inside(v, divisor, lower, upper)
  {
    assert low * lower.den <= v * lower.den;
    assert v * upper.den <= high * upper.den;
  }

  datatype Entry = Entry(values: seq<int>, divisor: int, depth: nat)

  // The integer queue is the rational queue with denominators cleared.
  ghost predicate Mirrors(queue: seq<Entry>, segments: seq<Segment>, length: nat)
  {
    |queue| == |segments| && length > 0 &&
    forall i :: 0 <= i < |queue| ==>
      |queue[i].values| == length && queue[i].depth == segments[i].depth &&
      Scaled(queue[i].values, queue[i].divisor, segments[i].coefficients)
  }

  // The integer segment of the whole interval, over denominator * common.
  method InitialEntry(c: seq<Rational>) returns (entry: Entry)
    requires |c| > 0
    ensures entry.depth == 0 && Scaled(entry.values, entry.divisor, ToBernstein(UnitPower(Values(c))))
  {
    var dens: seq<nat> := seq(|c|, i requires 0 <= i < |c| => c[i].den);
    var denominator := LeastCommonMultiple(dens);
    forall i | 0 <= i < |c| ensures denominator % c[i].den == 0 { assert denominator % dens[i] == 0; }
    var scaled := seq(|c|, i requires 0 <= i < |c| => c[i].num * (denominator / c[i].den));
    ClearDenominators(c, denominator, scaled);
    var power := IntegerPower(scaled, denominator, Values(c));
    var bernstein, common := IntegerBernstein(power, denominator, UnitPower(Values(c)));
    entry := Entry(bernstein, denominator * common, 0);
  }

  lemma PopMirrors(queue: seq<Entry>, segments: seq<Segment>, length: nat)
    requires Mirrors(queue, segments, length) && queue != []
    ensures |queue| == |segments| && Mirrors(queue[..|queue| - 1], segments[..|segments| - 1], length)
    ensures var e, g := queue[|queue| - 1], segments[|segments| - 1];
            |e.values| == |g.coefficients| == length && e.depth == g.depth &&
            Scaled(e.values, e.divisor, g.coefficients)
  {
    var e, g := queue[|queue| - 1], segments[|segments| - 1];
    assert Scaled(e.values, e.divisor, g.coefficients);
    hide Times;
  }

  lemma PushMirrors(queue: seq<Entry>, segments: seq<Segment>, length: nat, right: Entry, left: Entry, b: seq<real>)
    requires Mirrors(queue, segments, length) && WellFormed(segments) && |b| == length
    requires Scaled(right.values, right.divisor, RightHalf(b)) && Scaled(left.values, left.divisor, LeftHalf(b))
    requires right.depth == left.depth && |right.values| == |left.values| == length
    ensures Mirrors(queue + [right, left], Pushed(segments, b, left.depth), length)
    ensures |queue| == |segments| && |Pushed(segments, b, left.depth)| == |segments| + 2
  {
    hide Scaled;
    hide LeftHalf;
    hide RightHalf;
    hide WellFormed;
    var q, s := queue + [right, left], Pushed(segments, b, left.depth);
    forall i | 0 <= i < |q|
      ensures |q[i].values| == length && q[i].depth == s[i].depth &&
              Scaled(q[i].values, q[i].divisor, s[i].coefficients)
    {
      if i < |queue| { assert q[i] == queue[i] && s[i] == segments[i]; }
    }
  }

  /**
   The integer prover returns the very verdict (status, node count, leaves and depth) of the rational one
   run on the power coefficients of the same series.
   */
  method CertifyChebyshevBounds(c: seq<Rational>, lower: Rational, upper: Rational, limits: Limits)
    returns (v: Verdict)
    ensures v == Prove(UnitPower(Values(c)), BoundsOf(lower, upper), limits)
  {
    OrderedBounds(lower, upper);
    if c == [] || lower.num * upper.den > upper.num * lower.den || limits.depth < 0 || limits.nodes < 1 {
      return Invalid;
    }
    var first := InitialEntry(c);
    v := SearchIntegers(first, ToBernstein(UnitPower(Values(c))), lower, upper, limits);
  }

  method SearchIntegers(first: Entry, ghost b0: seq<real>, lower: Rational, upper: Rational, limits: Limits)
    returns (v: Verdict)
    requires first.depth == 0 && |first.values| > 0 && Scaled(first.values, first.divisor, b0)
    requires limits.nodes >= 1
    ensures v == Search([Segment(b0, 0)], 0, 0, 0, BoundsOf(lower, upper), limits)
  {
    var length := |first.values|;
    ghost var bounds := BoundsOf(lower, upper);
    var queue := [first];
    ghost var segments := [Segment(b0, 0)];
    var nodes: nat, deepest: nat, leaves: nat := 0, 0, 0;
    assert Mirrors(queue, segments, length) && WellFormed(segments);
    hide *;
    while queue != []
      invariant Mirrors(queue, segments, length) && WellFormed(segments) && |queue| == |segments|
      invariant nodes <= limits.nodes
      invariant Search([Segment(b0, 0)], 0, 0, 0, bounds, limits)
             == Search(segments, nodes, leaves, deepest, bounds, limits)
      decreases limits.nodes - nodes
    {
      if nodes >= limits.nodes {
        SearchStop(segments, nodes, leaves, deepest, bounds, limits);
        return NodeLimit(nodes);
      }
      var entry := queue[|queue| - 1];
      ghost var b := segments[|segments| - 1].coefficients;
      PopMirrors(queue, segments, length);
      LastWellFormed(segments);
      var verdict := Judge(entry, b, lower, upper);
      if verdict.Leaf? {
        TurnInside(segments, nodes, leaves, deepest, bounds, limits);
        leaves := leaves + 1;
        queue, segments := queue[..|queue| - 1], segments[..|segments| - 1];
      } else if verdict.Bad? {
        TurnStops(segments, nodes, leaves, deepest, bounds, limits);
        return Counterexample(nodes + 1, entry.depth);
      } else if entry.depth >= limits.depth {
        TurnStops(segments, nodes, leaves, deepest, bounds, limits);
        return DepthLimit(nodes + 1);
      } else {
        TurnSplits(segments, nodes, leaves, deepest, bounds, limits);
        segments := segments[..|segments| - 1];
        queue := PushHalves(queue[..|queue| - 1], segments, entry, b);
        segments := Pushed(segments, b, entry.depth + 1);
      }
      nodes := nodes + 1;
      deepest := Deeper(entry.depth, deepest);
    }
    SearchStop(segments, nodes, leaves, deepest, bounds, limits);
    v := Certified(nodes, leaves, deepest);
  }

  // Both halves of one entry, the left one on top.
  method PushHalves(queue: seq<Entry>, ghost segments: seq<Segment>, entry: Entry, ghost b: seq<real>)
    returns (next: seq<Entry>)
    requires Mirrors(queue, segments, |entry.values|) && WellFormed(segments) && |b| == |entry.values| > 0
    requires Scaled(entry.values, entry.divisor, b)
    ensures Mirrors(next, Pushed(segments, b, entry.depth + 1), |entry.values|)
    ensures |queue| == |segments| && |next| == |Pushed(segments, b, entry.depth + 1)| == |queue| + 2
  {
    hide *;
    var left, right, divisor := SplitIntegers(entry.values, entry.divisor, b);
    var rightEntry, leftEntry := Entry(right, divisor, entry.depth + 1), Entry(left, divisor, entry.depth + 1);
    PushMirrors(queue, segments, |entry.values|, rightEntry, leftEntry, b);
    next := queue + [rightEntry, leftEntry];
  }

  datatype Judgement = Leaf | Bad | Open

  // The two tests of the loop body on one entry: extreme values first, then the endpoints.
  method Judge(entry: Entry, ghost b: seq<real>, lower: Rational, upper: Rational) returns (r: Judgement)
    requires |entry.values| > 0 && Scaled(entry.values, entry.divisor, b)
    ensures r.Leaf? <==> HullInside(b, BoundsOf(lower, upper))
    ensures r.Open? <==> Undecided(b, BoundsOf(lower, upper))
  {
    HullMeans(entry.values, entry.divisor, b, lower, upper);
    if HullInside(b, BoundsOf(lower, upper)) { assert !Undecided(b, BoundsOf(lower, upper)); }
    hide Inside;
    hide HullInside;
    if Inside(MinOf(entry.values), entry.divisor, lower, upper) &&
       Inside(MaxOf(entry.values), entry.divisor, lower, upper) {
      return Leaf;
    }
    if !Inside(entry.values[0], entry.divisor, lower, upper) ||
       !Inside(entry.values[|entry.values| - 1], entry.divisor, lower, upper) {
      return Bad;
    }
    r := Open;
  }

  lemma OrderedBounds(lower: Rational, upper: Rational)
    ensures lower.num * upper.den > upper.num * lower.den <==> !BoundsOf(lower, upper).Usable()
  {
    FractionTimesDen(lower);
    CompareFraction(upper, lower.num, lower.den, ValueOf(lower));
    hide ValueOf;
  }

  lemma FractionTimesDen(f: Rational)
    ensures Times(f.num, f.den, ValueOf(f))
  {
  }

  lemma ClearDenominators(c: seq<Rational>, d: nat, scaled: seq<int>)
    requires d > 0 && |scaled| == |c|
    requires forall i :: 0 <= i < |c| ==> d % c[i].den == 0 && scaled[i] == c[i].num * (d / c[i].den)
    ensures Scaled(scaled, d, Values(c))
  {
    forall i | 0 <= i < |c| ensures Times(scaled[i], d, Values(c)[i]) {
      ClearOne(c[i], d, scaled[i]);
    }
  }

  lemma ClearOne(f: Rational, d: nat, s: int)
    requires d % f.den == 0 && s == f.num * (d / f.den)
    ensures Times(s, d, ValueOf(f))
  {
    var q := d / f.den;
    assert d == q * f.den;
    assert d as real == q as real * f.den as real;
    assert s as real == f.num as real * q as real;
    FractionTimesDen(f);
  }

  /** The series on the unit interval: sum c_k T_k(2t - 1). */
  function UnitSeries(c: seq<real>, t: real): real { Series(c, 2.0 * t - 1.0) }

  /** What the verdict says about the Chebyshev series itself on the whole interval. */
  lemma ChebyshevVerdictSound(c: seq<real>, lower: Rational, upper: Rational, limits: Limits)
    requires c != []
    ensures var v := Prove(UnitPower(c), BoundsOf(lower, upper), limits);
            (v.Certified? ==>
               forall t: real :: 0.0 <= t <= 1.0 ==> ValueOf(lower) <= UnitSeries(c, t) <= ValueOf(upper)) &&
            (v.Counterexample? ==>
               exists t: real :: 0.0 <= t <= 1.0 && !(ValueOf(lower) <= UnitSeries(c, t) <= ValueOf(upper)))
  {
    var power, bounds := UnitPower(c), BoundsOf(lower, upper);
    ProveSound(power, bounds, limits);
    hide Prove;
    hide Eval;
    hide Series;
    hide ValueOf;
    forall t: real ensures Eval(power, t) == UnitSeries(c, t) { UnitPowerValue(c, |c|, t); }
    if Prove(power, bounds, limits).Certified? {
      forall t: real | 0.0 <= t <= 1.0 ensures ValueOf(lower) <= UnitSeries(c, t) <= ValueOf(upper) {
        assert bounds.Allows(Eval(power, t));
      }
    }
    if Prove(power, bounds, limits).Counterexample? {
      var t :| 0.0 <= t <= 1.0 && !bounds.Allows(Eval(power, t));
      assert !(ValueOf(lower) <= UnitSeries(c, t) <= ValueOf(upper));
    }
  }

  /** And a series that stays inside the bounds by some margin is certified by all large enough limits. */
  lemma ChebyshevCompletes(c: seq<real>, lower: Rational, upper: Rational, margin: real)
    requires c != [] && margin > 0.0
    requires forall t: real :: 0.0 <= t <= 1.0 ==>
               ValueOf(lower) + margin <= UnitSeries(c, t) <= ValueOf(upper) - margin
    ensures Certifiable(UnitPower(c), BoundsOf(lower, upper))
  {
    var power, bounds := UnitPower(c), BoundsOf(lower, upper);
    hide Certifiable;
    hide Eval;
    hide Series;
    hide ValueOf;
    forall t: real | 0.0 <= t <= 1.0 ensures Shrunk(bounds, margin).Allows(Eval(power, t)) {
      UnitPowerValue(c, |c|, t);
      assert Eval(power, t) == UnitSeries(c, t);
    }
    assert ValueOf(lower) + margin <= UnitSeries(c, 0.0) <= ValueOf(upper) - margin;
    assert InsideBy(power, bounds, margin);
    ProveCompletes(power, bounds, margin);
  }
}
