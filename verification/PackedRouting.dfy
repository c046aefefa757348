/**
 Multi-stage radix routing (native/fideslib_stage0/include/packed_routing.hpp:56-104): every stage masks, rotates and
 adds; together the stages gather x[indices[i]] to slot i or scatter x[i] to slot indices[i].
 */
module PackedRouting {
  import opened KeySums
  import opened Modular
  import opened Options
  import opened Powers
  import opened Sequences
  import opened Slots

  // Live source coordinates of one stage, by the rotation they take.
  type Stage = map<int, seq<int>>

  // ---------- positions ----------

  predicate IndicesAccepted(indices: seq<real>)
  {
    forall i :: 0 <= i < |indices| ==> IndexAccepted(indices, i)
  }

  predicate IndexAccepted(indices: seq<real>, i: nat)
    requires i < |indices|
  {
    indices[i] >= i as real && indices[i] < 32768.0 && indices[i] == indices[i].Floor as real &&
    (i > 0 ==> indices[i] > indices[i - 1])
  }

  function Floors(indices: seq<real>): (idx: seq<int>)
    ensures |idx| == |indices|
  {
    seq(|indices|, i requires 0 <= i < |indices| => indices[i].Floor)
  }

  /** Strictly increasing, never moving a slot to the right of its source. */
  predicate Monotone(idx: seq<int>)
  {
    (forall i :: 0 <= i < |idx| ==> idx[i] >= i) &&
    forall i, j :: 0 <= i < j < |idx| ==> idx[i] < idx[j]
  }

  lemma {:induction false} AcceptedIncreases(indices: seq<real>, i: nat, j: nat)
    requires IndicesAccepted(indices) && i < j < |indices|
    ensures indices[i].Floor < indices[j].Floor
  {
    assert IndexAccepted(indices, j) && IndexAccepted(indices, j - 1);
    if i < j - 1 { AcceptedIncreases(indices, i, j - 1); }
  }

  lemma AcceptedMonotone(indices: seq<real>)
    requires IndicesAccepted(indices)
    ensures Monotone(Floors(indices))
  {
    var idx := Floors(indices);
    forall i | 0 <= i < |idx| ensures idx[i] >= i { assert IndexAccepted(indices, i); }
    forall i, j | 0 <= i < j < |idx| ensures idx[i] < idx[j] { AcceptedIncreases(indices, i, j); }
  }

  function Quotient(d: nat, p: nat): nat
    requires p > 0
  {
    d / p
  }

  lemma QuotientSplit(d: nat, p: nat)
    requires p > 0
    ensures 0 <= Quotient(d, p) * p <= d < Quotient(d, p) * p + p
  {
    assert d == d / p * p + d % p;
  }

  /** d with its low e bits cleared. */
  function HighPart(d: nat, e: nat): (h: nat)
    ensures h <= d < h + Pow2(e)
  {
    QuotientSplit(d, Pow2(e));
    Quotient(d, Pow2(e)) * Pow2(e)
  }

  /** Where element i stands when the low e bits of its distance are still to be travelled from the left end. */
  function Position(idx: seq<int>, e: nat, i: nat): (p: int)
    requires Monotone(idx) && i < |idx|
    ensures i <= p <= idx[i]
  {
    i + HighPart(idx[i] - i, e)
  }

  lemma HighPartGrows(c: nat, d: nat, e: nat)
    requires c <= d
    ensures HighPart(c, e) <= HighPart(d, e)
  {
    QuotientGrows(c, d, Pow2(e));
    MulLe(Quotient(c, Pow2(e)), Quotient(d, Pow2(e)), Pow2(e));
  }

  lemma QuotientGrows(c: nat, d: nat, p: nat)
    requires p > 0 && c <= d
    ensures Quotient(c, p) <= Quotient(d, p)
  {
    QuotientSplit(c, p);
    QuotientSplit(d, p);
    hide Quotient;
    if Quotient(c, p) > Quotient(d, p) { MulLe(Quotient(d, p) + 1, Quotient(c, p), p); }
  }

  lemma MulLe(a: nat, b: nat, p: nat)
    requires a <= b
    ensures a * p <= b * p
  {
  }

  lemma {:induction false} DistanceGrows(idx: seq<int>, i: nat, j: nat)
    requires Monotone(idx) && i <= j < |idx|
    ensures idx[i] - i <= idx[j] - j
    decreases j
  {
    if i < j { DistanceGrows(idx, i, j - 1); }
  }

  /** After every stage the live positions are still strictly increasing, so no two collide. */
  lemma PositionsIncrease(idx: seq<int>, e: nat, i: nat, j: nat)
    requires Monotone(idx) && i < j < |idx|
    ensures Position(idx, e, i) < Position(idx, e, j)
  {
    DistanceGrows(idx, i, j);
    HighPartGrows(idx[i] - i, idx[j] - j, e);
  }

  lemma PositionsDistinct(idx: seq<int>, e: nat, i: nat, j: nat)
    requires Monotone(idx) && i < |idx| && j < |idx| && Position(idx, e, i) == Position(idx, e, j)
    ensures i == j
  {
    if i < j { PositionsIncrease(idx, e, i, j); } else if j < i { PositionsIncrease(idx, e, j, i); }
  }

  // ---------- stages ----------

  /** Element i leaves its position at level from for its position at level to. */
  predicate Listed(stage: Stage, idx: seq<int>, from: nat, to: nat, i: nat)
    requires Monotone(idx) && i < |idx|
  {
    var p, q := Position(idx, from, i), Position(idx, to, i);
    p - q in stage && p in stage[p - q]
  }

  ghost predicate Explained(stage: Stage, idx: seq<int>, from: nat, to: nat, offset: int, p: int, count: nat)
    requires Monotone(idx)
  {
    exists i: nat :: i < count && i < |idx| && Position(idx, from, i) == p && Position(idx, to, i) == p - offset
  }

  // The stage lists exactly the moves of the first count elements.
  ghost predicate Moves(stage: Stage, idx: seq<int>, from: nat, to: nat, count: nat)
    requires Monotone(idx)
  {
    (forall i: nat :: i < count && i < |idx| ==> Listed(stage, idx, from, to, i)) &&
    forall offset, p :: offset in stage && p in stage[offset] ==> Explained(stage, idx, from, to, offset, p, count)
  }

  function Level(scatter: bool, count: nat, j: nat): nat
  {
    if scatter then (if j <= count then count - j else 0) else j
  }

  /** The bits still to travel, or already travelled, before stage j. */
  function LevelBits(scatter: bool, count: nat, j: nat, bits: nat): nat
  {
    NonNegative(Level(scatter, count, j), bits);
    Level(scatter, count, j) * bits
  }

  lemma EndLevels(scatter: bool, count: nat, bits: nat)
    ensures count * bits >= 0
    ensures LevelBits(scatter, count, 0, bits) == if scatter then count * bits else 0
    ensures LevelBits(scatter, count, count, bits) == if scatter then 0 else count * bits
  {
    NonNegative(count, bits);
    assert 0 * bits == 0;
  }

  /** Stage j of count moves every element from its level to the next one. */
  ghost predicate StageMoves(stage: Stage, idx: seq<int>, scatter: bool, count: nat, j: nat, bits: nat)
    requires Monotone(idx)
  {
    Moves(stage, idx, LevelBits(scatter, count, j, bits), LevelBits(scatter, count, j + 1, bits), |idx|)
  }

  /** Enough stages to clear the largest distance, and no more than needed. */
  ghost predicate Covers(idx: seq<int>, bits: nat, count: nat)
    requires Monotone(idx)
  {
    count >= 1 && (forall i :: 0 <= i < |idx| ==> idx[i] - i < Pow2(count * bits)) &&
    (count > 1 ==> exists i :: 0 <= i < |idx| && idx[i] - i >= Pow2((count - 1) * bits))
  }

  ghost predicate Routing(stages: seq<Stage>, idx: seq<int>, scatter: bool, bits: nat)
    requires Monotone(idx)
  {
    Covers(idx, bits, |stages|) &&
    forall j: nat :: j < |stages| ==> StageMoves(stages[j], idx, scatter, |stages|, j, bits)
  }

  // ---------- what a stage computes ----------

  function SourceMask(positions: seq<int>, slots: nat): (mask: Vector)
    ensures |mask| == slots
  {
    seq(slots, t => if t in positions then 1.0 else 0.0)
  }

  /** rotate(x * source_mask, offset) */
  function Contribution(positions: seq<int>, offset: int, x: Vector): (v: Vector)
    ensures |v| == |x|
  {
    Roll(Masked(x, SourceMask(positions, |x|)), -offset)
  }

  function SlotTerms(stage: Stage, x: Vector, t: nat): int -> real
    requires t < |x|
  {
    (offset: int) => if offset in stage then Contribution(stage[offset], offset, x)[t] else 0.0
  }

  /** One stage: mask, rotate, add. */
  ghost function Apply(stage: Stage, x: Vector): (y: Vector)
    ensures |y| == |x|
  {
    seq(|x|, t requires 0 <= t < |x| => SumKeys(stage.Keys, SlotTerms(stage, x, t)))
  }

  ghost function Run(stages: seq<Stage>, x: Vector): (y: Vector)
    ensures |y| == |x|
  {
    if stages == [] then x else Apply(stages[|stages| - 1], Run(stages[..|stages| - 1], x))
  }

  lemma ContributionAt(positions: seq<int>, offset: int, x: Vector, t: nat)
    requires t < |x|
    ensures Contribution(positions, offset, x)[t]
            == if (t + offset) % |x| in positions then x[(t + offset) % |x|] else 0.0
  {
    var s := (t + offset) % |x|;
    assert Contribution(positions, offset, x)[t] == x[s] * SourceMask(positions, |x|)[s];
  }

  lemma SlotTermAt(stage: Stage, x: Vector, t: nat, offset: int)
    requires t < |x| && offset in stage
    ensures SlotTerms(stage, x, t)(offset) == if (t + offset) % |x| in stage[offset] then x[(t + offset) % |x|] else 0.0
  {
    ContributionAt(stage[offset], offset, x, t);
  }

  ghost predicate Arrives(idx: seq<int>, to: nat, t: int)
    requires Monotone(idx)
  {
    exists i: nat :: i < |idx| && Position(idx, to, i) == t
  }

  // A foreign rotation brings nothing to slot t: the only element it could bring stands at t already.
  lemma ForeignTerm(stage: Stage, idx: seq<int>, from: nat, to: nat, x: Vector, t: nat, offset: int)
    requires Monotone(idx) && Moves(stage, idx, from, to, |idx|) && t < |x| && offset in stage
    requires idx != [] ==> idx[|idx| - 1] < |x|
    requires forall i: nat :: i < |idx| && Position(idx, to, i) == t ==> Position(idx, from, i) - t != offset
    ensures SlotTerms(stage, x, t)(offset) == 0.0
  {
    SlotTermAt(stage, x, t, offset);
    var s := (t + offset) % |x|;
    if s in stage[offset] {
      assert Explained(stage, idx, from, to, offset, s, |idx|);
      var i: nat :| i < |idx| && Position(idx, from, i) == s && Position(idx, to, i) == s - offset;
      assert idx[i] <= idx[|idx| - 1];
      SameSlot(t, offset, s, |x|);
    }
  }

  lemma SameSlot(t: nat, offset: int, s: int, slots: nat)
    requires t < slots && s == (t + offset) % slots && 0 <= s - offset < slots
    ensures s - offset == t
  {
    var q := (t + offset) / slots;
    assert t + offset == q * slots + s;
    assert s - offset - t == -q * slots;
    MultipleGap(slots, -q);
  }

  /** An element's value travels with it. */
  lemma StageCarries(stage: Stage, idx: seq<int>, from: nat, to: nat, x: Vector, i: nat)
    requires Monotone(idx) && Moves(stage, idx, from, to, |idx|) && i < |idx| && idx[|idx| - 1] < |x|
    ensures Position(idx, from, i) < |x| && Position(idx, to, i) < |x|
    ensures Apply(stage, x)[Position(idx, to, i)] == x[Position(idx, from, i)]
  {
    var p, t := Position(idx, from, i), Position(idx, to, i);
    assert Listed(stage, idx, from, to, i) && idx[i] <= idx[|idx| - 1];
    var f := SlotTerms(stage, x, t);
    ModSmall(p, |x|);
    SlotTermAt(stage, x, t, p - t);
    forall offset | offset in stage.Keys && offset != p - t ensures f(offset) == 0.0 {
      forall j: nat | j < |idx| && Position(idx, to, j) == t ensures Position(idx, from, j) - t != offset {
        PositionsDistinct(idx, to, i, j);
      }
      ForeignTerm(stage, idx, from, to, x, t, offset);
    }
    hide SlotTerms;
    hide Moves;
    SumKeysSingle(stage.Keys, f, p - t);
  }

  /** Every other slot is cleared. */
  lemma StageClears(stage: Stage, idx: seq<int>, from: nat, to: nat, x: Vector, t: nat)
    requires Monotone(idx) && Moves(stage, idx, from, to, |idx|) && t < |x| && !Arrives(idx, to, t)
    requires idx != [] ==> idx[|idx| - 1] < |x|
    ensures Apply(stage, x)[t] == 0.0
  {
    var f := SlotTerms(stage, x, t);
    forall offset | offset in stage.Keys ensures f(offset) == 0.0 {
      ForeignTerm(stage, idx, from, to, x, t, offset);
    }
    hide SlotTerms;
    hide Moves;
    SumKeysZero(stage.Keys, f);
  }

  // ---------- the whole routing ----------

  /** Each element has been carried from its start level to this level; nothing else is left. */
  ghost predicate Carried(y: Vector, x: Vector, idx: seq<int>, start: nat, level: nat)
    requires Monotone(idx) && |y| == |x| && (idx != [] ==> idx[|idx| - 1] < |x|)
  {
    (forall i: nat :: i < |idx| ==> Position(idx, level, i) < |y| && Position(idx, start, i) < |x| &&
                                    y[Position(idx, level, i)] == x[Position(idx, start, i)]) &&
    forall t: nat :: t < |y| && !Arrives(idx, level, t) ==> y[t] == 0.0
  }

  lemma CarriedStep(stage: Stage, idx: seq<int>, from: nat, to: nat, start: nat, y: Vector, x: Vector)
    requires Monotone(idx) && |y| == |x| && (idx != [] ==> idx[|idx| - 1] < |x|)
    requires Moves(stage, idx, from, to, |idx|)
    requires (from == start && y == x) || Carried(y, x, idx, start, from)
    ensures Carried(Apply(stage, y), x, idx, start, to)
  {
    var z := Apply(stage, y);
    forall i: nat | i < |idx|
      ensures Position(idx, to, i) < |z| && Position(idx, start, i) < |x|
      ensures z[Position(idx, to, i)] == x[Position(idx, start, i)]
    {
      assert idx[i] <= idx[|idx| - 1];
      StageCarries(stage, idx, from, to, y, i);
    }
    forall t: nat | t < |z| && !Arrives(idx, to, t) ensures z[t] == 0.0 {
      StageClears(stage, idx, from, to, y, t);
    }
  }

  lemma {:induction false} RunCarries(stages: seq<Stage>, idx: seq<int>, scatter: bool, bits: nat, x: Vector, j: nat)
    requires Monotone(idx) && Routing(stages, idx, scatter, bits) && 1 <= j <= |stages|
    requires idx != [] ==> idx[|idx| - 1] < |x|
    ensures Carried(Run(stages[..j], x), x, idx, LevelBits(scatter, |stages|, 0, bits),
                    LevelBits(scatter, |stages|, j, bits))
    decreases j
  {
    var start := LevelBits(scatter, |stages|, 0, bits);
    var from, to := LevelBits(scatter, |stages|, j - 1, bits), LevelBits(scatter, |stages|, j, bits);
    assert StageMoves(stages[j - 1], idx, scatter, |stages|, j - 1, bits);
    assert stages[..j][..j - 1] == stages[..j - 1] && stages[..j][|stages[..j]| - 1] == stages[j - 1];
    if j > 1 { RunCarries(stages, idx, scatter, bits, x, j - 1); }
    hide Carried;
    hide LevelBits;
    hide Routing;
    assert Moves(stages[j - 1], idx, from, to, |idx|);
    hide *;
    RunLast(stages[..j], x);
    CarriedStep(stages[j - 1], idx, from, to, start, Run(stages[..j - 1], x), x);
  }

  lemma RunLast(stages: seq<Stage>, x: Vector)
    requires stages != []
    ensures Run(stages, x) == Apply(stages[|stages| - 1], Run(stages[..|stages| - 1], x))
    ensures |stages| == 1 ==> Run(stages[..0], x) == x
  {
    assert stages[..0] == [];
  }

  lemma EndPositions(idx: seq<int>, bits: nat, count: nat, i: nat)
    requires Monotone(idx) && Covers(idx, bits, count) && i < |idx|
    ensures Position(idx, 0, i) == idx[i] && Position(idx, count * bits, i) == i
  {
    var d, p := idx[i] - i, Pow2(count * bits);
    assert Pow2(0) == 1;
    QuotientSplit(d, 1);
    QuotientZero(d, p);
  }

  lemma QuotientZero(d: nat, p: nat)
    requires d < p
    ensures Quotient(d, p) * p == 0
  {
  }

  /** The stages together are the plain gather or scatter, for every input. */
  lemma RoutingCorrect(stages: seq<Stage>, idx: seq<int>, scatter: bool, bits: nat, x: Vector)
    requires Monotone(idx) && Routing(stages, idx, scatter, bits) && (idx != [] ==> idx[|idx| - 1] < |x|)
    ensures |idx| <= |x| && forall i :: 0 <= i < |idx| ==> idx[i] < |x|
    ensures !scatter ==> forall t :: 0 <= t < |x| ==> Run(stages, x)[t] == if t < |idx| then x[idx[t]] else 0.0
    ensures scatter ==> forall i :: 0 <= i < |idx| ==> Run(stages, x)[idx[i]] == x[i]
    ensures scatter ==> forall t :: 0 <= t < |x| && t !in idx ==> Run(stages, x)[t] == 0.0
  {
    WholeRun(stages, idx, scatter, bits, x);
    AllEndPositions(idx, bits, |stages|, |x|);
    hide *;
    CarriedMeans(Run(stages, x), x, idx, scatter, |stages| * bits);
  }

  lemma WholeRun(stages: seq<Stage>, idx: seq<int>, scatter: bool, bits: nat, x: Vector)
    requires Monotone(idx) && Routing(stages, idx, scatter, bits) && (idx != [] ==> idx[|idx| - 1] < |x|)
    ensures |stages| * bits >= 0
    ensures scatter ==> Carried(Run(stages, x), x, idx, |stages| * bits, 0)
    ensures !scatter ==> Carried(Run(stages, x), x, idx, 0, |stages| * bits)
  {
    RunCarries(stages, idx, scatter, bits, x, |stages|);
    assert stages[..|stages|] == stages;
    hide *;
    EndLevels(scatter, |stages|, bits);
  }

  lemma AllEndPositions(idx: seq<int>, bits: nat, count: nat, size: nat)
    requires Monotone(idx) && Covers(idx, bits, count) && (idx != [] ==> idx[|idx| - 1] < size)
    ensures forall i: nat :: i < |idx| ==>
              idx[i] < size && Position(idx, 0, i) == idx[i] && Position(idx, count * bits, i) == i
  {
    forall i: nat | i < |idx|
      ensures idx[i] < size && Position(idx, 0, i) == idx[i] && Position(idx, count * bits, i) == i
    {
      EndPositions(idx, bits, count, i);
      assert idx[i] <= idx[|idx| - 1];
    }
  }

  lemma CarriedMeans(y: Vector, x: Vector, idx: seq<int>, scatter: bool, full: nat)
    requires Monotone(idx) && |y| == |x| && (idx != [] ==> idx[|idx| - 1] < |x|)
    requires forall i: nat :: i < |idx| ==> idx[i] < |x| && Position(idx, 0, i) == idx[i] && Position(idx, full, i) == i
    requires scatter ==> Carried(y, x, idx, full, 0)
    requires !scatter ==> Carried(y, x, idx, 0, full)
    ensures |idx| <= |x|
    ensures !scatter ==> forall t :: 0 <= t < |x| ==> y[t] == if t < |idx| then x[idx[t]] else 0.0
    ensures scatter ==> forall i :: 0 <= i < |idx| ==> y[idx[i]] == x[i]
    ensures scatter ==> forall t :: 0 <= t < |x| && t !in idx ==> y[t] == 0.0
  {
    hide Position;
    if scatter {
      forall t | 0 <= t < |x| && t !in idx ensures !Arrives(idx, 0, t) {}
    } else {
      forall t | |idx| <= t < |x| ensures !Arrives(idx, full, t) {}
    }
  }

  // ---------- building the stages ----------

  /** The bits of d from shift to shift + bits, in place. */
  lemma ChunkMeans(d: nat, shift: nat, bits: nat, chunk: nat)
    requires chunk == Quotient(d, Pow2(shift)) % Pow2(bits) * Pow2(shift)
    ensures chunk == HighPart(d, shift) - HighPart(d, shift + bits)
  {
    Pow2Sum(shift, bits);
    QuotientSplit(d, Pow2(shift));
    ChunkSplit(d, Pow2(shift), Pow2(bits), Quotient(d, Pow2(shift)), chunk);
  }

  lemma ChunkSplit(d: nat, a: nat, b: nat, q: nat, chunk: int)
    requires a > 0 && b > 0 && q * a <= d < q * a + a && chunk == q % b * a
    ensures a * b > 0 && chunk == q * a - Quotient(d, a * b) * (a * b)
  {
    MulLe(1, a, b);
    var u, v := Quotient(q, b), q % b;
    assert q == u * b + v;
    NestedQuotient(d, a, b, q, u, v, a * b);
    SplitTimes(u, b, v, a, q);
    hide Quotient;
  }

  lemma SplitTimes(u: nat, b: nat, v: nat, a: nat, q: nat)
    requires q == u * b + v
    ensures q * a == u * (a * b) + v * a
  {
  }

  lemma NestedQuotient(d: nat, a: nat, b: nat, q: nat, u: nat, v: nat, ab: nat)
    requires a > 0 && b > 0 && ab == a * b && ab > 0 && q * a <= d < q * a + a && q == u * b + v && v < b
    ensures Quotient(d, ab) == u
  {
    SplitTimes(u, b, v, a, q);
    MulLe(v + 1, b, a);
    assert (v + 1) * a == v * a + a;
    ModUnique(d, ab, u, d - u * ab);
  }

  method Validate(indices: seq<real>) returns (ok: bool)
    ensures ok <==> IndicesAccepted(indices)
  {
    for i := 0 to |indices|
      invariant forall k :: 0 <= k < i ==> IndexAccepted(indices, k)
    {
      if indices[i] < i as real || indices[i] >= 32768.0 || indices[i] != indices[i].Floor as real ||
         (i != 0 && indices[i] <= indices[i - 1])
      {
        assert !IndexAccepted(indices, i);
        return false;
      }
    }
    return true;
  }

  lemma NotCleared(x: nat, p: nat)
    requires p > 0 && Quotient(x, p) != 0
    ensures x >= p
  {
  }

  lemma Cleared(x: nat, p: nat)
    requires p > 0 && Quotient(x, p) == 0
    ensures x < p
  {
  }

  lemma NextMultiple(k: nat, bits: nat)
    ensures (k + 1) * bits == k * bits + bits
  {
  }

  /** The shifts that cover the largest distance. */
  method Shifts(maximum: nat, bits: nat) returns (shifts: seq<nat>)
    requires bits > 0
    ensures |shifts| >= 1 && forall j: nat :: j < |shifts| ==> shifts[j] == j * bits
    ensures maximum < Pow2(|shifts| * bits) && (|shifts| > 1 ==> maximum >= Pow2((|shifts| - 1) * bits))
  {
    shifts := [];
    var shift := 0;
    while Quotient(maximum, Pow2(shift)) != 0
      invariant shift == |shifts| * bits && forall j: nat :: j < |shifts| ==> shifts[j] == j * bits
      invariant |shifts| > 0 ==> maximum >= Pow2((|shifts| - 1) * bits)
      decreases maximum - shift
    {
      Pow2Exceeds(shift);
      NotCleared(maximum, Pow2(shift));
      NextMultiple(|shifts|, bits);
      shifts := shifts + [shift];
      shift := shift + bits;
    }
    Cleared(maximum, Pow2(shift));
    if shifts == [] {
      assert 1 * bits == bits;
      Pow2Exceeds(bits);
      shifts := [0];
    }
  }

  function Pushed(stage: Stage, key: int, p: int): Stage
  {
    stage[key := (if key in stage then stage[key] else []) + [p]]
  }

  lemma MovesNext(stage: Stage, idx: seq<int>, from: nat, to: nat, i: nat)
    requires Monotone(idx) && i < |idx| && Moves(stage, idx, from, to, i)
    ensures var p := Position(idx, from, i);
            Moves(Pushed(stage, p - Position(idx, to, i), p), idx, from, to, i + 1)
  {
    var p, q := Position(idx, from, i), Position(idx, to, i);
    var next := Pushed(stage, p - q, p);
    hide Position;
    forall k: nat | k < i + 1 && k < |idx| ensures Listed(next, idx, from, to, k) {
      if k < i { assert Listed(stage, idx, from, to, k); }
    }
    forall offset, s | offset in next && s in next[offset] ensures Explained(next, idx, from, to, offset, s, i + 1) {
      if offset in stage && s in stage[offset] { assert Explained(stage, idx, from, to, offset, s, i); }
    }
  }

  // The two ends of a stage that travels bits [shift, shift + bits) of every distance.
  predicate StageEnds(scatter: bool, shift: nat, bits: nat, from: nat, to: nat)
  {
    if scatter then to == shift && from == shift + bits else from == shift && to == shift + bits
  }

  lemma Travels(idx: seq<int>, scatter: bool, shift: nat, bits: nat, from: nat, to: nat, i: nat, distance: int)
    requires Monotone(idx) && i < |idx| && StageEnds(scatter, shift, bits, from, to)
    requires distance == Quotient(idx[i] - i, Pow2(shift)) % Pow2(bits) * Pow2(shift)
    ensures Position(idx, to, i) == Position(idx, from, i) + if scatter then distance else -distance
  {
    QuotientSplit(idx[i] - i, Pow2(shift));
    ChunkMeans(idx[i] - i, shift, bits, distance);
  }

  /** The arrays hold every element's distance and its position at this level. */
  ghost predicate AtLevel(positions: array<int>, distances: array<nat>, idx: seq<int>, level: nat)
    reads positions, distances
    requires Monotone(idx) && positions.Length == distances.Length == |idx|
  {
    forall i: nat :: i < |idx| ==> distances[i] == idx[i] - i && positions[i] == Position(idx, level, i)
  }

  method BuildStage(positions: array<int>, distances: array<nat>, ghost idx: seq<int>, scatter: bool, shift: nat,
                    bits: nat, ghost from: nat, ghost to: nat) returns (stage: Stage)
    requires Monotone(idx) && positions.Length == distances.Length == |idx|
    requires StageEnds(scatter, shift, bits, from, to)
    requires AtLevel(positions, distances, idx, from)
    modifies positions
    ensures Moves(stage, idx, from, to, |idx|) && AtLevel(positions, distances, idx, to)
  {
    stage := map[];
    assert distances[..] == old(distances[..]);
    hide Position;
    for i := 0 to positions.Length
      invariant Moves(stage, idx, from, to, i)
      invariant forall k: nat :: k < |idx| ==>
                  distances[k] == idx[k] - k && positions[k] == Position(idx, if k < i then to else from, k)
    {
      var distance := Quotient(distances[i], Pow2(shift)) % Pow2(bits) * Pow2(shift);
      Travels(idx, scatter, shift, bits, from, to, i, distance);
      MovesNext(stage, idx, from, to, i);
      hide *;
      stage := Pushed(stage, if scatter then -distance else distance, positions[i]);
      positions[i] := positions[i] + if scatter then distance else -distance;
    }
  }

  method Distances(indices: seq<real>, scatter: bool)
    returns (positions: array<int>, distances: array<nat>, maximum: nat)
    requires Monotone(Floors(indices))
    ensures fresh(positions) && positions.Length == distances.Length == |indices|
    ensures var idx := Floors(indices);
            (forall k: nat :: k < |idx| ==>
               distances[k] == idx[k] - k && positions[k] == if scatter then k else idx[k]) &&
            (forall k :: 0 <= k < |idx| ==> idx[k] - k <= maximum) &&
            (maximum > 0 ==> exists k :: 0 <= k < |idx| && idx[k] - k == maximum)
  {
    ghost var idx := Floors(indices);
    positions, distances := new int[|indices|], new nat[|indices|];
    maximum := 0;
    for i := 0 to |indices|
      invariant forall k :: 0 <= k < i ==> idx[k] - k <= maximum
      invariant forall k: nat :: k < i ==> distances[k] == idx[k] - k && positions[k] == if scatter then k else idx[k]
      invariant maximum > 0 ==> exists k :: 0 <= k < i && idx[k] - k == maximum
    {
      var index := indices[i].Floor;
      assert idx[i] == index;
      positions[i] := if scatter then i else index;
      distances[i] := index - i;
      if distances[i] > maximum { maximum := distances[i]; }
    }
  }

  lemma StartPositions(idx: seq<int>, bits: nat, count: nat)
    requires Monotone(idx) && Covers(idx, bits, count)
    ensures forall i: nat :: i < |idx| ==> Position(idx, LevelBits(false, count, 0, bits), i) == idx[i] &&
                                           Position(idx, LevelBits(true, count, 0, bits), i) == i
  {
    EndLevels(false, count, bits);
    EndLevels(true, count, bits);
    hide LevelBits;
    forall i: nat | i < |idx| ensures Position(idx, 0, i) == idx[i] && Position(idx, count * bits, i) == i {
      EndPositions(idx, bits, count, i);
    }
  }

  method MonotoneRouting(indices: seq<real>, scatter: bool, bits: int) returns (r: Option<seq<Stage>>)
    ensures r.None? <==> bits < 1 || bits > 4 || !IndicesAccepted(indices)
    ensures r.Some? ==> Monotone(Floors(indices)) && Routing(r.value, Floors(indices), scatter, bits)
  {
    if bits < 1 || bits > 4 { return None; }
    var valid := Validate(indices);
    if !valid { return None; }
    AcceptedMonotone(indices);
    ghost var idx := Floors(indices);
    var positions, distances, maximum := Distances(indices, scatter);
    var shifts := Shifts(maximum, bits);
    CoversMaximum(idx, maximum, bits, |shifts|);
    StartPositions(idx, bits, |shifts|);
    if scatter { shifts := Reversed(shifts); }
    var stages := BuildStages(positions, distances, idx, scatter, shifts, bits);
    r := Some(stages);
  }

  lemma CoversMaximum(idx: seq<int>, maximum: nat, bits: nat, count: nat)
    requires Monotone(idx) && count >= 1 && forall k :: 0 <= k < |idx| ==> idx[k] - k <= maximum
    requires maximum > 0 ==> exists k :: 0 <= k < |idx| && idx[k] - k == maximum
    requires maximum < Pow2(count * bits) && (count > 1 ==> maximum >= Pow2((count - 1) * bits))
    ensures Covers(idx, bits, count)
  {
  }

  ghost predicate ShiftOf(shift: nat, scatter: bool, count: nat, j: nat, bits: nat)
  {
    shift == (if scatter then count - 1 - j else j) * bits
  }

  // The shift of stage j is the lower of its two levels.
  lemma LevelsOf(scatter: bool, count: nat, j: nat, bits: nat, shift: nat)
    requires j < count && ShiftOf(shift, scatter, count, j, bits)
    ensures StageEnds(scatter, shift, bits, LevelBits(scatter, count, j, bits), LevelBits(scatter, count, j + 1, bits))
  {
    NextMultiple(if scatter then count - 1 - j else j, bits);
  }

  method BuildStages(positions: array<int>, distances: array<nat>, ghost idx: seq<int>, scatter: bool,
                     shifts: seq<nat>, bits: nat) returns (stages: seq<Stage>)
    requires Monotone(idx) && positions.Length == distances.Length == |idx| && Covers(idx, bits, |shifts|)
    requires forall j: nat :: j < |shifts| ==> ShiftOf(shifts[j], scatter, |shifts|, j, bits)
    requires AtLevel(positions, distances, idx, LevelBits(scatter, |shifts|, 0, bits))
    modifies positions
    ensures Routing(stages, idx, scatter, bits)
  {
    stages := [];
    hide *;
    for j := 0 to |shifts|
      invariant |stages| == j && forall k: nat :: k < j ==> StageMoves(stages[k], idx, scatter, |shifts|, k, bits)
      invariant AtLevel(positions, distances, idx, LevelBits(scatter, |shifts|, j, bits))
    {
      LevelsOf(scatter, |shifts|, j, bits, shifts[j]);
      var stage := BuildStage(positions, distances, idx, scatter, shifts[j], bits,
                              LevelBits(scatter, |shifts|, j, bits), LevelBits(scatter, |shifts|, j + 1, bits));
      BuiltStage(stage, idx, scatter, |shifts|, j, bits);
      stages := stages + [stage];
    }
    BuiltStages(stages, idx, scatter, bits);
  }

  lemma BuiltStage(stage: Stage, idx: seq<int>, scatter: bool, count: nat, j: nat, bits: nat)
    requires Monotone(idx)
    requires Moves(stage, idx, LevelBits(scatter, count, j, bits), LevelBits(scatter, count, j + 1, bits), |idx|)
    ensures StageMoves(stage, idx, scatter, count, j, bits)
  {
  }

  lemma BuiltStages(stages: seq<Stage>, idx: seq<int>, scatter: bool, bits: nat)
    requires Monotone(idx) && Covers(idx, bits, |stages|)
    requires forall k: nat :: k < |stages| ==> StageMoves(stages[k], idx, scatter, |stages|, k, bits)
    ensures Routing(stages, idx, scatter, bits)
  {
  }

  // ---------- destination masks ----------

  predicate MoveInRange(position: int, offset: int, slots: int)
  {
    0 <= position < slots && 0 <= position - offset < slots
  }

  ghost predicate InRange(stage: Stage, slots: int)
  {
    forall offset :: offset in stage ==> AllInRange(stage[offset], offset, slots)
  }

  ghost predicate AllInRange(positions: seq<int>, offset: int, slots: int)
  {
    forall k :: 0 <= k < |positions| ==> MoveInRange(positions[k], offset, slots)
  }

  /** Slot t receives a selected source under this rotation. */
  predicate Receives(positions: seq<int>, offset: int, t: int) { t + offset in positions }

  ghost predicate DestinationMask(mask: Vector, positions: seq<int>, offset: int)
  {
    forall t :: 0 <= t < |mask| ==> mask[t] == if Receives(positions, offset, t) then 1.0 else 0.0
  }

  method MaskOf(positions: seq<int>, offset: int, slots: nat) returns (r: Option<Vector>)
    ensures r.None? <==> !AllInRange(positions, offset, slots)
    ensures r.Some? ==> |r.value| == slots && DestinationMask(r.value, positions, offset)
  {
    var mask := new real[slots](_ => 0.0);
    for k := 0 to |positions|
      invariant AllInRange(positions[..k], offset, slots)
      invariant DestinationMask(mask[..], positions[..k], offset)
    {
      var position := positions[k];
      var destination := position - offset;
      assert positions[..k + 1] == positions[..k] + [position];
      if position < 0 || position >= slots || destination < 0 || destination >= slots {
        assert !MoveInRange(positions[k], offset, slots);
        return None;
      }
      mask[destination] := 1.0;
    }
    assert positions[..|positions|] == positions;
    r := Some(mask[..]);
  }

  /** Refused exactly when a move leaves the slot range; otherwise one destination mask per rotation. */
  method PackedRoutingMasks(stage: Stage, slots: int) returns (r: Option<map<int, Vector>>)
    ensures r.None? <==> slots <= 0 || !InRange(stage, slots)
    ensures r.Some? ==> MasksFor(r.value, stage, {}, slots)
  {
    if slots <= 0 { return None; }
    var masks: map<int, Vector> := map[];
    var left := stage.Keys;
    NoMasks(stage, slots);
    while left != {}
      invariant left <= stage.Keys && MasksFor(masks, stage, left, slots)
      decreases left
    {
      hide *;
      var offset := AnyKey(left);
      var mask := MaskOf(stage[offset], offset, slots);
      if mask.None? {
        Refused(stage, offset, slots);
        return None;
      }
      MasksNext(masks, stage, left, slots, offset, mask.value);
      masks := masks[offset := mask.value];
      left := left - {offset};
    }
    AllAccepted(masks, stage, slots);
    r := Some(masks);
  }

  lemma NoMasks(stage: Stage, slots: nat)
    ensures MasksFor(map[], stage, stage.Keys, slots)
  {
  }

  lemma AllAccepted(masks: map<int, Vector>, stage: Stage, slots: nat)
    requires MasksFor(masks, stage, {}, slots)
    ensures InRange(stage, slots)
  {
    hide AllInRange;
    hide DestinationMask;
  }

  lemma Refused(stage: Stage, offset: int, slots: int)
    requires offset in stage && !AllInRange(stage[offset], offset, slots)
    ensures !InRange(stage, slots)
  {
    hide AllInRange;
  }

  /** Masks for every rotation of the stage except those still left. */
  ghost predicate MasksFor(masks: map<int, Vector>, stage: Stage, left: set<int>, slots: nat)
  {
    masks.Keys == stage.Keys - left &&
    forall offset :: offset in masks ==> MaskFor(masks[offset], stage[offset], offset, slots)
  }

  ghost predicate MaskFor(mask: Vector, positions: seq<int>, offset: int, slots: nat)
  {
    AllInRange(positions, offset, slots) && |mask| == slots && DestinationMask(mask, positions, offset)
  }

  lemma MasksNext(masks: map<int, Vector>, stage: Stage, left: set<int>, slots: nat, offset: int, mask: Vector)
    requires offset in stage && offset in left && MasksFor(masks, stage, left, slots)
    requires AllInRange(stage[offset], offset, slots) && |mask| == slots
    requires DestinationMask(mask, stage[offset], offset)
    ensures MasksFor(masks[offset := mask], stage, left - {offset}, slots)
  {
    assert MaskFor(mask, stage[offset], offset, slots);
    hide MaskFor;
  }

  function MaskedTerms(masks: map<int, Vector>, x: Vector, t: nat): int -> real
    requires t < |x| && forall offset :: offset in masks ==> |masks[offset]| == |x|
  {
    (offset: int) => if offset in masks then Masked(Roll(x, -offset), masks[offset])[t] else 0.0
  }

  /** rotate(x, offset) * destination_mask, summed over the rotations */
  ghost function ApplyMasks(masks: map<int, Vector>, x: Vector): (y: Vector)
    requires forall offset :: offset in masks ==> |masks[offset]| == |x|
    ensures |y| == |x|
  {
    seq(|x|, t requires 0 <= t < |x| => SumKeys(masks.Keys, MaskedTerms(masks, x, t)))
  }

  lemma MaskedTermMatches(positions: seq<int>, offset: int, mask: Vector, x: Vector, t: nat)
    requires t < |x| && |mask| == |x| && AllInRange(positions, offset, |x|) && DestinationMask(mask, positions, offset)
    ensures Masked(Roll(x, -offset), mask)[t] == Contribution(positions, offset, x)[t]
  {
    var s := (t + offset) % |x|;
    ContributionAt(positions, offset, x, t);
    assert Masked(Roll(x, -offset), mask)[t] == x[s] * mask[t];
    if s in positions {
      var k :| 0 <= k < |positions| && positions[k] == s;
      assert MoveInRange(positions[k], offset, |x|);
      SameSlot(t, offset, s, |x|);
    }
    if t + offset in positions {
      var k :| 0 <= k < |positions| && positions[k] == t + offset;
      assert MoveInRange(positions[k], offset, |x|);
      ModSmall(t + offset, |x|);
    }
  }

  /** Masking after the rotation is masking before it. */
  lemma DestinationFormMatches(stage: Stage, masks: map<int, Vector>, x: Vector)
    requires MasksFor(masks, stage, {}, |x|)
    ensures (forall offset :: offset in masks ==> |masks[offset]| == |x|) && ApplyMasks(masks, x) == Apply(stage, x)
  {
    forall offset | offset in masks ensures |masks[offset]| == |x| { assert offset in stage; }
    forall t | 0 <= t < |x| ensures ApplyMasks(masks, x)[t] == Apply(stage, x)[t] {
      assert masks.Keys == stage.Keys;
      forall offset | offset in stage.Keys
        ensures MaskedTerms(masks, x, t)(offset) == SlotTerms(stage, x, t)(offset)
      {
        MaskedTermMatches(stage[offset], offset, masks[offset], x, t);
      }
      SumKeysEqual(stage.Keys, MaskedTerms(masks, x, t), SlotTerms(stage, x, t));
    }
  }

  /** No stage of a routing into the slots is ever refused. */
  lemma RoutingInRange(stages: seq<Stage>, idx: seq<int>, scatter: bool, bits: nat, slots: nat, j: nat)
    requires Monotone(idx) && Routing(stages, idx, scatter, bits) && j < |stages|
    requires idx != [] ==> idx[|idx| - 1] < slots
    ensures InRange(stages[j], slots)
  {
    var from, to := LevelBits(scatter, |stages|, j, bits), LevelBits(scatter, |stages|, j + 1, bits);
    MovesInRange(stages[j], idx, from, to, slots);
  }

  lemma MovesInRange(stage: Stage, idx: seq<int>, from: nat, to: nat, slots: nat)
    requires Monotone(idx) && Moves(stage, idx, from, to, |idx|) && (idx != [] ==> idx[|idx| - 1] < slots)
    ensures InRange(stage, slots)
  {
    forall offset, k | offset in stage && 0 <= k < |stage[offset]|
      ensures MoveInRange(stage[offset][k], offset, slots)
    {
      var p := stage[offset][k];
      assert Explained(stage, idx, from, to, offset, p, |idx|);
      var i: nat :| i < |idx| && Position(idx, from, i) == p && Position(idx, to, i) == p - offset;
      assert idx[i] <= idx[|idx| - 1];
    }
  }
}
