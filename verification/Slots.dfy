/** Cyclic slot vectors: rolls, finite sums and sums of consecutive shifts. */
module Slots {
  import opened Modular
  import opened Reals

  // ---------- finite sums ----------

  /** f(0) + ... + f(n-1) */
  function Sum(n: nat, f: nat -> real): real
  {
    if n == 0 then 0.0 else Sum(n - 1, f) + f(n - 1)
  }

  lemma {:induction false} SumEqual(n: nat, f: nat -> real, g: nat -> real)
    requires forall q: nat :: q < n ==> f(q) == g(q)
    ensures Sum(n, f) == Sum(n, g)
  {
    if n > 0 { SumEqual(n - 1, f, g); }
  }

  lemma {:induction false} SumZero(n: nat, f: nat -> real)
    requires forall q: nat :: q < n ==> f(q) == 0.0
    ensures Sum(n, f) == 0.0
  {
    if n > 0 { SumZero(n - 1, f); }
  }

  /** Only one term can differ from zero. */
  lemma {:induction false} SumSingle(n: nat, f: nat -> real, k: nat)
    requires k < n && forall q: nat :: q < n && q != k ==> f(q) == 0.0
    ensures Sum(n, f) == f(k)
  {
    if k == n - 1 { SumZero(n - 1, f); } else { SumSingle(n - 1, f, k); }
  }

  /** Nonnegative terms only add up. */
  lemma {:induction false} SumNonneg(n: nat, f: nat -> real)
    requires forall o: nat :: o < n ==> f(o) >= 0.0
    ensures Sum(n, f) >= 0.0
  {
    if n > 0 { SumNonneg(n - 1, f); }
  }

  lemma {:induction false} SumAtLeast(n: nat, f: nat -> real, q: nat)
    requires q < n && forall o: nat :: o < n ==> f(o) >= 0.0
    ensures Sum(n, f) >= f(q)
  {
    if q == n - 1 { SumNonneg(n - 1, f); } else { SumAtLeast(n - 1, f, q); }
  }

  lemma {:induction false} SumAtLeastTwo(n: nat, f: nat -> real, q: nat, o: nat)
    requires q < n && o < n && q != o && forall t: nat :: t < n ==> f(t) >= 0.0
    ensures Sum(n, f) >= f(q) + f(o)
  {
    if q == n - 1 { SumAtLeast(n - 1, f, o); }
    else if o == n - 1 { SumAtLeast(n - 1, f, q); }
    else { SumAtLeastTwo(n - 1, f, q, o); }
  }

  // f from index start on.
  function From(f: nat -> real, start: nat): nat -> real { (q: nat) => f(start + q) }

  lemma {:induction false} SumAppend(m: nat, n: nat, f: nat -> real)
    ensures Sum(m + n, f) == Sum(m, f) + Sum(n, From(f, m))
    decreases n
  {
    if n > 0 {
      SumAppend(m, n - 1, f);
      assert m + n - 1 == m + (n - 1);
    }
  }

  lemma {:induction false} SumAdd(n: nat, f: nat -> real, g: nat -> real, h: nat -> real)
    requires forall q: nat :: q < n ==> h(q) == f(q) + g(q)
    ensures Sum(n, h) == Sum(n, f) + Sum(n, g)
  {
    if n > 0 { SumAdd(n - 1, f, g, h); }
  }

  /** The terms of block b of length r. */
  function BlockTerms(f: nat -> real, r: nat, b: nat): nat -> real { (q: nat) => f(b * r + q) }

  function BlockSums(f: nat -> real, r: nat): nat -> real { (b: nat) => Sum(r, BlockTerms(f, r, b)) }

  lemma BlockTerm(f: nat -> real, r: nat, b: nat, q: nat, k: nat)
    requires k == b * r + q
    ensures BlockTerms(f, r, b)(q) == f(k)
  {
  }

  lemma BlockFrom(f: nat -> real, r: nat, b: nat, start: nat)
    requires start == b * r
    ensures Sum(r, BlockTerms(f, r, b)) == Sum(r, From(f, start))
  {
    SumEqual(r, BlockTerms(f, r, b), From(f, start));
  }

  /** A sum over total == k*r consecutive indices is a sum of k blocks of r. */
  lemma {:induction false} SumBlocks(k: nat, r: nat, total: nat, f: nat -> real)
    requires total == k * r
    ensures Sum(total, f) == Sum(k, BlockSums(f, r))
    decreases k
  {
    if k > 0 {
      OneBlockLess(k, r, total);
      var before: nat := total - r;
      SumBlocks(k - 1, r, before, f);
      BlockFrom(f, r, k - 1, before);
      hide *;
      SumAppend(before, r, f);
      SumNext(k - 1, BlockSums(f, r));
      BlockSumAt(f, r, k - 1);
    }
  }

  lemma OneBlockLess(k: nat, r: nat, total: nat)
    requires k > 0 && total == k * r
    ensures total - r == (k - 1) * r && total >= r
  {
    if k > 1 && r > 0 { MultipleGap(r, k - 1); }
  }

  lemma SumNext(n: nat, f: nat -> real)
    ensures Sum(n + 1, f) == Sum(n, f) + f(n)
  {
  }

  lemma BlockSumAt(f: nat -> real, r: nat, b: nat)
    ensures BlockSums(f, r)(b) == Sum(r, BlockTerms(f, r, b))
  {
  }

  function RowSums(f: (nat, nat) -> real, n: nat): nat -> real { (a: nat) => Sum(n, Row(f, a)) }

  function ColumnSums(f: (nat, nat) -> real, m: nat): nat -> real { (b: nat) => Sum(m, Column(f, b)) }

  function Row(f: (nat, nat) -> real, a: nat): nat -> real { (b: nat) => f(a, b) }

  function Column(f: (nat, nat) -> real, b: nat): nat -> real { (a: nat) => f(a, b) }

  /** Summing a matrix by rows or by columns. */
  lemma {:induction false} SumSwap(m: nat, n: nat, f: (nat, nat) -> real)
    ensures Sum(m, RowSums(f, n)) == Sum(n, ColumnSums(f, m))
    decreases m
  {
    if m == 0 {
      SumZero(n, ColumnSums(f, 0));
    } else {
      SumSwap(m - 1, n, f);
      SumAdd(n, ColumnSums(f, m - 1), Row(f, m - 1), ColumnSums(f, m));
      assert RowSums(f, n)(m - 1) == Sum(n, Row(f, m - 1));
    }
  }

  // ---------- dot products ----------

  function Products(a: seq<real>, b: seq<real>): nat -> real
    requires |a| == |b|
  {
    (n: nat) => if n < |a| then Times(a[n], b[n]) else 0.0
  }

  function Dot(a: seq<real>, b: seq<real>): real
    requires |a| == |b|
  {
    Sum(|a|, Products(a, b))
  }

  // ---------- rolls ----------

  type Vector = seq<real>

  /** np.roll: entry i moves to i + s, cyclically. */
  function Roll(v: Vector, s: int): (r: Vector)
    ensures |r| == |v|
  {
    seq(|v|, i requires 0 <= i < |v| => v[(i - s) % |v|])
  }

  function Plus(a: Vector, b: Vector): (r: Vector)
    requires |a| == |b|
    ensures |r| == |a|
  {
    seq(|a|, i requires 0 <= i < |a| => a[i] + b[i])
  }

  function Masked(a: Vector, mask: Vector): (r: Vector)
    requires |a| == |mask|
    ensures |r| == |a|
  {
    seq(|a|, i requires 0 <= i < |a| => a[i] * mask[i])
  }

  /** The cyclically indexed entry of v. */
  function At(v: Vector, i: int): real
    requires |v| > 0
  {
    v[i % |v|]
  }

  lemma RollAt(v: Vector, s: int, i: int)
    requires |v| > 0
    ensures At(Roll(v, s), i) == At(v, i - s)
  {
    ModAdd(i, -s, |v|);
  }

  // ---------- sums of consecutive shifts ----------

  /** The entries of v at i, i + stride, i + 2 stride, ... */
  function Shifted(v: Vector, i: int, stride: int): nat -> real
    requires |v| > 0
  {
    (q: nat) => At(v, i + q * stride)
  }

  /** sum_{q < count} roll(v, -q * stride) */
  function ShiftSum(v: Vector, count: nat, stride: int): (r: Vector)
    ensures |r| == |v|
  {
    seq(|v|, i requires 0 <= i < |v| => Sum(count, Shifted(v, i, stride)))
  }

  lemma ShiftSumSlot(v: Vector, count: nat, stride: int, s: nat)
    requires s < |v|
    ensures ShiftSum(v, count, stride)[s] == Sum(count, Shifted(v, s, stride))
  {
    hide Shifted;
  }

  lemma ShiftSumAt(v: Vector, count: nat, stride: int, i: int)
    requires |v| > 0
    ensures At(ShiftSum(v, count, stride), i) == Sum(count, Shifted(v, i, stride))
  {
    forall q: nat | q < count ensures Shifted(v, i % |v|, stride)(q) == Shifted(v, i, stride)(q) {
      ModAdd(i, q * stride, |v|);
    }
    SumEqual(count, Shifted(v, i % |v|, stride), Shifted(v, i, stride));
  }

  /** Doubling: S_{2k} == S_k + roll(S_k, -k * stride). */
  lemma ShiftSumDouble(v: Vector, k: nat, stride: int)
    ensures ShiftSum(v, 2 * k, stride) == Plus(ShiftSum(v, k, stride), Roll(ShiftSum(v, k, stride), -(k * stride)))
  {
    var s := ShiftSum(v, k, stride);
    forall i | 0 <= i < |v| ensures ShiftSum(v, 2 * k, stride)[i] == s[i] + Roll(s, -(k * stride))[i] {
      ShiftSumDoubleAt(v, k, stride, i, k * stride);
    }
  }

  lemma ShiftSumDoubleAt(v: Vector, k: nat, stride: int, i: nat, offset: int)
    requires i < |v| && offset == k * stride
    ensures var s := ShiftSum(v, k, stride); ShiftSum(v, 2 * k, stride)[i] == s[i] + Roll(s, -offset)[i]
  {
    var f, g, s := Shifted(v, i, stride), Shifted(v, i + offset, stride), ShiftSum(v, k, stride);
    SumAppend(k, k, f);
    RollAt(s, -offset, i);
    ShiftSumAt(v, k, stride, i + offset);
    assert Roll(s, -offset)[i] == At(Roll(s, -offset), i);
    forall q: nat | q < k ensures f(k + q) == g(q) { ShiftedLater(v, i, stride, k, q, offset); }
    hide At;
    hide Shifted;
    hide Roll;
    SumEqual(k, From(f, k), g);
  }

  lemma ShiftedLater(v: Vector, i: nat, stride: int, k: nat, q: nat, offset: int)
    requires |v| > 0 && offset == k * stride
    ensures Shifted(v, i, stride)(k + q) == Shifted(v, i + offset, stride)(q)
  {
    Distribute(k, q, stride, offset);
  }

  lemma Distribute(k: nat, q: nat, stride: int, offset: int)
    requires offset == k * stride
    ensures (k + q) * stride == offset + q * stride
  {
  }

  /** Appending: S_{k+1} == S_k + roll(v, -k * stride). */
  lemma ShiftSumNext(v: Vector, k: nat, stride: int)
    ensures ShiftSum(v, k + 1, stride) == Plus(ShiftSum(v, k, stride), Roll(v, -(k * stride)))
  {
    forall i | 0 <= i < |v|
      ensures ShiftSum(v, k + 1, stride)[i] == ShiftSum(v, k, stride)[i] + Roll(v, -(k * stride))[i]
    {
      var f := Shifted(v, i, stride);
      assert Sum(k + 1, f) == Sum(k, f) + f(k);
    }
  }

  lemma ShiftSumOne(v: Vector, stride: int)
    ensures ShiftSum(v, 1, stride) == v
  {
    forall i | 0 <= i < |v| ensures ShiftSum(v, 1, stride)[i] == v[i] {
      ZeroShift(v, i, stride);
      hide At;
      hide Shifted;
      SumOne(Shifted(v, i, stride));
    }
  }

  lemma SumOne(f: nat -> real)
    ensures Sum(1, f) == f(0)
  {
    assert Sum(1, f) == Sum(0, f) + f(0);
  }

  lemma ZeroShift(v: Vector, i: nat, stride: int)
    requires i < |v|
    ensures Shifted(v, i, stride)(0) == v[i]
  {
    assert 0 * stride == 0;
  }
}
