/**
 Input-replicated diagonal matrix products (src/fhemamba/bsgs_layout.py:99-138, 223-323): programs of masks,
 rolls and additions, and exactly when their first slots hold the plain product.
 */
module BsgsLayout {
  import opened Modular
  import opened Options
  import opened Powers
  import opened Sequences
  import opened Slots
  import opened RotationSum

  // ---------- matrices ----------

  datatype Matrix = Matrix(m: nat, n: nat, rows: seq<seq<real>>)
  {
    predicate Valid() { |rows| == m && forall i :: 0 <= i < m ==> |rows[i]| == n }

    function Entry(i: nat, c: nat): real
      requires Valid() && i < m && c < n
    {
      rows[i][c]
    }
  }

  function RowTerms(w: Matrix, x: Vector, i: nat): nat -> real
    requires w.Valid() && i < w.m && |x| == w.n
  {
    (c: nat) => if c < w.n then w.Entry(i, c) * x[c] else 0.0
  }

  /** (W x)[i] */
  function Product(w: Matrix, x: Vector, i: nat): real
    requires w.Valid() && i < w.m && |x| == w.n
  {
    Sum(w.n, RowTerms(w, x, i))
  }

  // ---------- masks ----------

  /** Diagonal d of W written from slot base on: entry i at base + i. */
  function MaskEntry(w: Matrix, d: nat, base: nat, p: nat): real
    requires w.Valid() && w.n > 0
  {
    if base <= p < base + w.m then w.Entry(p - base, (p - base + d) % w.n) else 0.0
  }

  method DiagonalMask(w: Matrix, d: nat, base: nat, batch: nat) returns (mask: Vector)
    requires w.Valid() && w.n > 0 && (w.m > 0 ==> base + w.m <= batch)
    ensures |mask| == batch && forall p :: 0 <= p < batch ==> mask[p] == MaskEntry(w, d, base, p)
  {
    var buffer := new real[batch](_ => 0.0);
    for i := 0 to w.m
      invariant forall p :: 0 <= p < batch ==>
                  buffer[p] == if base <= p < base + i then MaskEntry(w, d, base, p) else 0.0
    {
      buffer[base + i] := w.rows[i][(i + d) % w.n];
    }
    mask := buffer[..];
  }

  /** What replica j contributes to the mask of group k at slot p: its diagonal j + k*r, if there is one. */
  function MaskTerms(w: Matrix, k: nat, r: nat, window: nat, p: nat): nat -> real
    requires w.Valid()
  {
    (j: nat) => if j + k * r < w.n then MaskEntry(w, j + k * r, j * window + j, p) else 0.0
  }

  function CombinedEntry(w: Matrix, k: nat, r: nat, window: nat, p: nat): real
    requires w.Valid()
  {
    Sum(r, MaskTerms(w, k, r, window, p))
  }

  /** The one plaintext mask that serves every replica in group k. */
  ghost predicate IsMask(mask: Vector, w: Matrix, k: nat, r: nat, window: nat)
    requires w.Valid()
  {
    forall p :: 0 <= p < |mask| ==> mask[p] == CombinedEntry(w, k, r, window, p)
  }

  /** The masks of all used replicas stay inside the batch (numpy raises an IndexError otherwise). */
  predicate MasksFit(m: nat, n: nat, r: nat, window: nat, batch: nat)
  {
    m > 0 ==> forall j: nat :: j < r && j < n ==> j * window + j + m <= batch
  }

  method CombinedMask(w: Matrix, k: nat, r: nat, window: nat, batch: nat) returns (mask: Vector)
    requires w.Valid() && MasksFit(w.m, w.n, r, window, batch)
    ensures |mask| == batch && IsMask(mask, w, k, r, window)
  {
    mask := Zeros(batch);
    for j := 0 to r
      invariant |mask| == batch
      invariant forall p :: 0 <= p < batch ==> mask[p] == Sum(j, MaskTerms(w, k, r, window, p))
    {
      var d := j + k * r;
      ghost var before := mask;
      if d < w.n {
        NonNegative(k, r);
        assert w.m > 0 ==> j * window + j + w.m <= batch;
        var diagonal := DiagonalMask(w, d, j * window + j, batch);
        mask := Plus(mask, diagonal);
      }
      forall p | 0 <= p < batch ensures mask[p] == Sum(j + 1, MaskTerms(w, k, r, window, p)) {
        assert mask[p] == before[p] + MaskTerms(w, k, r, window, p)(j);
      }
    }
  }

  // ---------- the slot program ----------

  /** The vector fills whole windows and the masks fit; its length is never compared with the column count. */
  predicate Accepted(w: Matrix, x: Vector, r: int, window: int, batch: int, guard: int)
  {
    w.Valid() && InputAccepted(|x|, r, window, batch, guard) && MasksFit(w.m, w.n, r, window, batch)
  }

  function Groups(n: nat, r: nat): nat
    requires r > 0
  {
    (n + r - 1) / r
  }

  /** Group k at slot p: the input rolled by k*r under its mask. */
  function GroupTerms(slots: Vector, w: Matrix, r: nat, window: nat, p: nat): nat -> real
    requires w.Valid() && |slots| > 0
  {
    (k: nat) => At(slots, p + k * r) * CombinedEntry(w, k, r, window, p)
  }

  function Accumulated(slots: Vector, w: Matrix, r: nat, window: nat, groups: nat): (acc: Vector)
    requires w.Valid() && |slots| > 0
    ensures |acc| == |slots|
  {
    seq(|slots|, p requires 0 <= p < |slots| => Sum(groups, GroupTerms(slots, w, r, window, p)))
  }

  /** The result of either matmul program. */
  function MatmulSlots(w: Matrix, x: Vector, r: nat, window: nat, batch: nat, guard: nat): Vector
    requires Accepted(w, x, r, window, batch, guard)
  {
    ShiftSum(Accumulated(Tiled(x, (r + guard) * window, batch), w, r, window, Groups(w.n, r)), r, window + 1)
  }

  method ReplicatedMatmul(w: Matrix, x: Vector, r: int, window: int, batch: int, guard: int, logarithmic: bool)
    returns (result: Option<Vector>)
    requires w.Valid()
    ensures result.Some? <==> Accepted(w, x, r, window, batch, guard)
    ensures result.Some? ==> result.value == MatmulSlots(w, x, r, window, batch, guard)
  {
    var slots := ReplicateInput(x, r, window, batch, guard, logarithmic);
    if slots.None? || !MasksFit(w.m, w.n, r, window, batch) { return None; }
    var acc := Zeros(batch);
    var groups := Groups(w.n, r);
    for k := 0 to groups
      invariant acc == Accumulated(slots.value, w, r, window, k)
    {
      var mask := CombinedMask(w, k, r, window, batch);
      ghost var before := acc;
      acc := Plus(acc, Masked(Roll(slots.value, -(k * r)), mask));
      AccumulateNext(slots.value, w, r, window, k, mask, before, acc);
    }
    result := RotationSum.RotationSum(acc, r, window + 1, logarithmic || PowerOfTwo(r));
  }

  lemma AccumulateNext(slots: Vector, w: Matrix, r: nat, window: nat, k: nat, mask: Vector, before: Vector, acc: Vector)
    requires w.Valid() && |slots| > 0 && |mask| == |slots|
    requires IsMask(mask, w, k, r, window)
    requires before == Accumulated(slots, w, r, window, k)
    requires acc == Plus(before, Masked(Roll(slots, -(k * r)), mask))
    ensures acc == Accumulated(slots, w, r, window, k + 1)
  {
    forall p | 0 <= p < |slots| ensures acc[p] == Accumulated(slots, w, r, window, k + 1)[p] {
      AccumulateSlot(slots, w, r, window, k, mask, before, acc, p, At(slots, p + k * r), mask[p]);
    }
  }

  lemma AccumulateSlot(slots: Vector, w: Matrix, r: nat, window: nat, k: nat, mask: Vector, before: Vector, acc: Vector,
                       p: nat, a: real, b: real)
    requires w.Valid() && |mask| == |slots| && p < |slots|
    requires a == At(slots, p + k * r) && b == mask[p] && b == CombinedEntry(w, k, r, window, p)
    requires before == Accumulated(slots, w, r, window, k)
    requires acc == Plus(before, Masked(Roll(slots, -(k * r)), mask))
    ensures acc[p] == Accumulated(slots, w, r, window, k + 1)[p]
  {
    var f, rolled := GroupTerms(slots, w, r, window, p), Roll(slots, -(k * r));
    MaskedAt(rolled, mask, p, a, b);
    GroupTermNamed(slots, w, r, window, p, k, a, b);
    hide CombinedEntry;
    hide At;
    hide GroupTerms;
    hide Masked;
    assert Sum(k + 1, f) == Sum(k, f) + f(k);
  }

  lemma MaskedAt(v: Vector, mask: Vector, p: nat, a: real, b: real)
    requires |v| == |mask| && p < |v| && a == v[p] && b == mask[p]
    ensures Masked(v, mask)[p] == a * b
  {
  }

  lemma GroupTermNamed(slots: Vector, w: Matrix, r: nat, window: nat, p: nat, k: nat, a: real, b: real)
    requires w.Valid() && |slots| > 0 && a == At(slots, p + k * r) && b == CombinedEntry(w, k, r, window, p)
    ensures GroupTerms(slots, w, r, window, p)(k) == a * b
  {
    hide At;
    hide CombinedEntry;
  }

  // ---------- baby-step giant-step ----------

  function ISqrtFrom(n: nat, s: nat): nat
    requires s * s <= n
    decreases n - s
  {
    if (s + 1) * (s + 1) <= n then SquareGrows(s, n); ISqrtFrom(n, s + 1) else s
  }

  lemma SquareGrows(s: nat, n: nat)
    requires (s + 1) * (s + 1) <= n
    ensures s + 1 <= n
  {
  }

  /** max(1, isqrt(count)) unless the caller fixes the baby step. */
  function BabyStep(count: nat, requested: Option<int>): int
  {
    if requested.Some? then requested.value
    else var s := ISqrtFrom(count, 0); if s > 1 then s else 1
  }

  // Block g of the double loop, restricted to the groups that exist.
  function ClippedTerms(f: nat -> real, groups: nat): nat -> real
  {
    (k: nat) => if k < groups then f(k) else 0.0
  }

  /** giant * baby blocks cover all the groups, in order. */
  lemma BlocksCover(f: nat -> real, groups: nat, baby: nat, giant: nat, total: nat)
    requires total == giant * baby && groups <= total
    ensures Sum(giant, BlockSums(ClippedTerms(f, groups), baby)) == Sum(groups, f)
  {
    var c, rest := ClippedTerms(f, groups), total - groups;
    SumBlocks(giant, baby, total, c);
    SumAppend(groups, rest, c);
    SumZero(rest, From(c, groups));
    SumEqual(groups, c, f);
  }

  // Terms of group k seen from slot p, zero past the last group.
  function SlotTerms(slots: Vector, w: Matrix, r: nat, window: nat, groups: nat, p: nat): nat -> real
    requires w.Valid() && |slots| > 0
  {
    ClippedTerms(GroupTerms(slots, w, r, window, p), groups)
  }

  // The giant block g after b baby steps, at slot s; the giant rotation will read it at slot s - offset.
  ghost predicate InnerHolds(inner: Vector, slots: Vector, w: Matrix, r: nat, window: nat, groups: nat,
                             baby: nat, g: nat, b: nat, offset: nat)
    requires w.Valid() && |slots| > 0
  {
    |inner| == |slots| &&
    forall s: nat :: s < |slots| ==>
      inner[s] == Sum(b, BlockTerms(SlotTerms(slots, w, r, window, groups, (s - offset) % |slots|), baby, g))
  }

  ghost predicate OuterHolds(acc: Vector, slots: Vector, w: Matrix, r: nat, window: nat, groups: nat,
                             baby: nat, g: nat)
    requires w.Valid() && |slots| > 0
  {
    |acc| == |slots| &&
    forall p: nat :: p < |slots| ==>
      acc[p] == Sum(g, BlockSums(SlotTerms(slots, w, r, window, groups, p), baby))
  }

  function BabyRotation(slots: Vector, b: nat, r: nat): (v: Vector)
    ensures |v| == |slots|
  {
    Roll(slots, -(b * r))
  }

  ghost predicate BlockStart(start: nat, g: nat, baby: nat) { start == g * baby }

  ghost predicate GiantOffset(offset: nat, g: nat, baby: nat, r: nat) { offset == g * baby * r }

  ghost predicate GroupNumber(k: nat, g: nat, baby: nat, b: nat) { k == g * baby + b }

  lemma InnerStep(inner: Vector, next: Vector, slots: Vector, w: Matrix, r: nat, window: nat, groups: nat,
                  baby: nat, g: nat, b: nat, offset: nat, k: nat, mask: Vector)
    requires w.Valid() && |slots| > 0 && |mask| == |slots|
    requires GroupNumber(k, g, baby, b) && k < groups && GiantOffset(offset, g, baby, r)
    requires IsMask(mask, w, k, r, window)
    requires InnerHolds(inner, slots, w, r, window, groups, baby, g, b, offset)
    requires next == Plus(inner, Masked(BabyRotation(slots, b, r), Roll(mask, offset)))
    ensures InnerHolds(next, slots, w, r, window, groups, baby, g, b + 1, offset)
  {
    var step, whole := GroupOffset(k, g, baby, b, r, offset);
    BabyLength(slots, b, r);
    hide GroupNumber;
    hide GiantOffset;
    hide BabyRotation;
    forall s: nat | s < |slots|
      ensures next[s] == Sum(b + 1, BlockTerms(SlotTerms(slots, w, r, window, groups, (s - offset) % |slots|), baby, g))
    {
      var p := (s - offset) % |slots|;
      InnerSlot(slots, w, r, window, groups, baby, g, b, offset, k, mask, s, p, step, whole,
                At(slots, s + step), mask[p]);
      hide SlotTerms;
      hide CombinedEntry;
      hide At;
      var f := BlockTerms(SlotTerms(slots, w, r, window, groups, p), baby, g);
      assert Sum(b + 1, f) == Sum(b, f) + f(b);
    }
  }

  lemma InnerSlot(slots: Vector, w: Matrix, r: nat, window: nat, groups: nat, baby: nat, g: nat, b: nat, offset: nat,
                  k: nat, mask: Vector, s: nat, p: nat, step: nat, whole: nat, x: real, y: real)
    requires w.Valid() && |slots| > 0 && |mask| == |slots| && s < |slots| && p == (s - offset) % |slots|
    requires GroupNumber(k, g, baby, b) && k < groups && step == b * r && whole == k * r && whole == offset + step
    requires x == At(slots, s + step) && y == mask[p] && y == CombinedEntry(w, k, r, window, p)
    ensures Masked(BabyRotation(slots, b, r), Roll(mask, offset))[s]
            == BlockTerms(SlotTerms(slots, w, r, window, groups, p), baby, g)(b)
  {
    BabyAt(slots, b, r, step, s, x);
    MaskedAt(BabyRotation(slots, b, r), Roll(mask, offset), s, x, y);
    SlotShift(s, offset, step, whole, |slots|, p);
    hide At;
    GroupAt(slots, w, r, window, p, k, s, step, whole, x, y);
    hide *;
    NumberedTerm(SlotTerms(slots, w, r, window, groups, p), baby, g, b, k);
    SlotTermAt(slots, w, r, window, groups, p, k);
  }

  lemma BabyAt(slots: Vector, b: nat, r: nat, step: nat, s: nat, x: real)
    requires s < |slots| && step == b * r && x == At(slots, s + step)
    ensures BabyRotation(slots, b, r)[s] == x
  {
  }

  lemma NumberedTerm(f: nat -> real, baby: nat, g: nat, b: nat, k: nat)
    requires GroupNumber(k, g, baby, b)
    ensures BlockTerms(f, baby, g)(b) == f(k)
  {
    BlockTerm(f, baby, g, b, k);
  }

  lemma GroupAt(slots: Vector, w: Matrix, r: nat, window: nat, p: nat, k: nat, s: nat, step: nat, whole: nat,
                x: real, y: real)
    requires w.Valid() && |slots| > 0 && whole == k * r && (p + whole) % |slots| == (s + step) % |slots|
    requires x == At(slots, s + step) && y == CombinedEntry(w, k, r, window, p)
    ensures GroupTerms(slots, w, r, window, p)(k) == x * y
  {
    hide CombinedEntry;
    assert At(slots, p + whole) == x;
    hide At;
    GroupTermNamed(slots, w, r, window, p, k, x, y);
  }

  lemma SlotShift(s: nat, offset: nat, step: nat, whole: nat, size: nat, p: nat)
    requires size > 0 && p == (s - offset) % size && whole == offset + step
    ensures (p + whole) % size == (s + step) % size
  {
    var d := s - offset;
    assert d + whole == s + step;
    ModAdd(d, whole, size);
  }

  lemma SlotTermAt(slots: Vector, w: Matrix, r: nat, window: nat, groups: nat, p: nat, k: nat)
    requires w.Valid() && |slots| > 0 && k < groups
    ensures SlotTerms(slots, w, r, window, groups, p)(k) == GroupTerms(slots, w, r, window, p)(k)
  {
    hide GroupTerms;
  }

  lemma GroupOffset(k: nat, g: nat, baby: nat, b: nat, r: nat, offset: nat) returns (step: nat, whole: nat)
    requires GroupNumber(k, g, baby, b) && GiantOffset(offset, g, baby, r)
    ensures step == b * r && whole == k * r && whole == offset + step
  {
    NonNegative(b, r);
    NonNegative(k, r);
    step, whole := b * r, k * r;
  }

  lemma BabyLength(slots: Vector, b: nat, r: nat)
    ensures |BabyRotation(slots, b, r)| == |slots|
  {
  }

  // Once the last group is passed the remaining baby steps would add nothing.
  lemma InnerDone(inner: Vector, slots: Vector, w: Matrix, r: nat, window: nat, groups: nat,
                  baby: nat, g: nat, b: nat, offset: nat, start: nat)
    requires w.Valid() && |slots| > 0 && b <= baby && BlockStart(start, g, baby) && (b < baby ==> start + b >= groups)
    requires InnerHolds(inner, slots, w, r, window, groups, baby, g, b, offset)
    ensures InnerHolds(inner, slots, w, r, window, groups, baby, g, baby, offset)
  {
    forall s: nat | s < |slots|
      ensures inner[s] == Sum(baby, BlockTerms(SlotTerms(slots, w, r, window, groups, (s - offset) % |slots|), baby, g))
    {
      var f := BlockTerms(SlotTerms(slots, w, r, window, groups, (s - offset) % |slots|), baby, g);
      SumAppend(b, baby - b, f);
      forall q: nat | q < baby - b ensures From(f, b)(q) == 0.0 {}
      SumZero(baby - b, From(f, b));
    }
  }

  lemma OuterStep(acc: Vector, next: Vector, inner: Vector, slots: Vector, w: Matrix, r: nat, window: nat,
                  groups: nat, baby: nat, g: nat, offset: nat)
    requires w.Valid() && |slots| > 0
    requires OuterHolds(acc, slots, w, r, window, groups, baby, g)
    requires InnerHolds(inner, slots, w, r, window, groups, baby, g, baby, offset)
    requires next == Plus(acc, Roll(inner, 0 - offset))
    ensures OuterHolds(next, slots, w, r, window, groups, baby, g + 1)
  {
    forall p: nat | p < |slots|
      ensures next[p] == Sum(g + 1, BlockSums(SlotTerms(slots, w, r, window, groups, p), baby))
    {
      OuterSlot(inner, slots, w, r, window, groups, baby, g, offset, p);
      hide SlotTerms;
      var f := BlockSums(SlotTerms(slots, w, r, window, groups, p), baby);
      assert Sum(g + 1, f) == Sum(g, f) + f(g);
    }
  }

  lemma OuterSlot(inner: Vector, slots: Vector, w: Matrix, r: nat, window: nat, groups: nat, baby: nat, g: nat,
                  offset: nat, p: nat)
    requires w.Valid() && |slots| > 0 && p < |slots|
    requires InnerHolds(inner, slots, w, r, window, groups, baby, g, baby, offset)
    ensures Roll(inner, 0 - offset)[p] == BlockSums(SlotTerms(slots, w, r, window, groups, p), baby)(g)
  {
    var s := (p + offset) % |slots|;
    ModBack(p, offset, |slots|);
    assert Roll(inner, 0 - offset)[p] == inner[s];
    hide SlotTerms;
  }

  lemma ModBack(p: nat, offset: nat, d: nat)
    requires p < d
    ensures ((p + offset) % d - offset) % d == p
  {
    ModAdd(p + offset, 0 - offset, d);
    ModSmall(p, d);
  }

  lemma StartHolds(slots: Vector, w: Matrix, r: nat, window: nat, groups: nat, baby: nat, g: nat, offset: nat)
    requires w.Valid() && |slots| > 0
    ensures OuterHolds(Zeros(|slots|), slots, w, r, window, groups, baby, 0)
    ensures InnerHolds(Zeros(|slots|), slots, w, r, window, groups, baby, g, 0, offset)
  {
  }

  lemma OuterDone(acc: Vector, slots: Vector, w: Matrix, r: nat, window: nat, groups: nat, baby: nat, giants: nat)
    requires w.Valid() && |slots| > 0 && Covers(groups, baby, giants)
    requires OuterHolds(acc, slots, w, r, window, groups, baby, giants)
    ensures acc == Accumulated(slots, w, r, window, groups)
  {
    forall p | 0 <= p < |slots| ensures acc[p] == Accumulated(slots, w, r, window, groups)[p] {
      BlocksCover(GroupTerms(slots, w, r, window, p), groups, baby, giants, giants * baby);
    }
  }

  method ReplicatedBsgsMatmul(w: Matrix, x: Vector, r: int, window: int, batch: int, requested: Option<int>,
                              guard: int, logarithmic: bool) returns (result: Option<Vector>)
    requires w.Valid()
    ensures result.Some? <==>
              Accepted(w, x, r, window, batch, guard) && w.n > 0 && (requested.Some? ==> requested.value > 0)
    ensures result.Some? ==> result.value == MatmulSlots(w, x, r, window, batch, guard)
  {
    var input := ReplicateInput(x, r, window, batch, guard, logarithmic);
    if input.None? || !MasksFit(w.m, w.n, r, window, batch) { return None; }
    var slots := input.value;
    var groups := Groups(w.n, r);
    SomeGroup(w.n, r);
    if groups <= 0 || BabyStep(groups, requested) <= 0 { return None; }
    hide Groups;
    hide MasksFit;
    var baby: nat := BabyStep(groups, requested);
    var giants := (groups + baby - 1) / baby;
    CeilCovers(groups, baby, giants);
    var acc := GiantLoop(slots, w, r, window, batch, groups, baby, giants);
    result := RotationSum.RotationSum(acc, r, window + 1, logarithmic || PowerOfTwo(r));
  }

  // The outer loop: baby rotations are computed once, every giant block is rolled into place.
  method GiantLoop(slots: Vector, w: Matrix, r: nat, window: nat, batch: nat, groups: nat, baby: nat, giants: nat)
    returns (acc: Vector)
    requires w.Valid() && |slots| == batch > 0 && MasksFit(w.m, w.n, r, window, batch)
    requires Covers(groups, baby, giants)
    ensures acc == Accumulated(slots, w, r, window, groups)
  {
    var rotations := seq(baby, i requires 0 <= i => BabyRotation(slots, i, r));
    acc := Zeros(batch);
    StartHolds(slots, w, r, window, groups, baby, 0, 0);
    for g := 0 to giants
      invariant |acc| == batch && OuterHolds(acc, slots, w, r, window, groups, baby, g)
    {
      hide *;
      var start, offset := Offsets(g, baby, r);
      var inner := GiantBlock(slots, rotations, w, r, window, batch, groups, baby, g, start, offset);
      ghost var before := acc;
      acc := Plus(acc, Roll(inner, -(offset as int)));
      OuterStep(before, acc, inner, slots, w, r, window, groups, baby, g, offset);
    }
    OuterDone(acc, slots, w, r, window, groups, baby, giants);
  }

  method Offsets(g: nat, baby: nat, r: nat) returns (start: nat, offset: nat)
    ensures BlockStart(start, g, baby) && GiantOffset(offset, g, baby, r)
  {
    NonNegative(g, baby);
    start := g * baby;
    NonNegative(start, r);
    offset := start * r;
  }

  // The inner loop: one giant block of masked baby rotations.
  method GiantBlock(slots: Vector, rotations: seq<Vector>, w: Matrix, r: nat, window: nat, batch: nat, groups: nat,
                    baby: nat, g: nat, start: nat, offset: nat) returns (inner: Vector)
    requires BlockStart(start, g, baby)
    requires w.Valid() && |slots| == batch > 0
    requires MasksFit(w.m, w.n, r, window, batch) && GiantOffset(offset, g, baby, r)
    requires |rotations| == baby && forall i :: 0 <= i < baby ==> rotations[i] == BabyRotation(slots, i, r)
    ensures |inner| == batch && InnerHolds(inner, slots, w, r, window, groups, baby, g, baby, offset)
  {
    inner := Zeros(batch);
    StartHolds(slots, w, r, window, groups, baby, g, offset);
    hide *;
    var b := 0;
    while b < baby
      invariant 0 <= b <= baby && |inner| == batch
      invariant InnerHolds(inner, slots, w, r, window, groups, baby, g, b, offset)
    {
      var k := start + b;
      if k >= groups { break; }
      inner := AddBaby(inner, slots, rotations[b], w, r, window, groups, baby, g, b, offset, start, k);
      b := b + 1;
    }
    InnerDone(inner, slots, w, r, window, groups, baby, g, b, offset, start);
  }

  // inner += rotated input * pre-rotated mask of group k
  method AddBaby(inner: Vector, slots: Vector, rotated: Vector, w: Matrix, r: nat, window: nat, groups: nat,
                 baby: nat, g: nat, b: nat, offset: nat, start: nat, k: nat) returns (next: Vector)
    requires w.Valid() && |inner| == |slots| > 0 && MasksFit(w.m, w.n, r, window, |slots|)
    requires GiantOffset(offset, g, baby, r) && BlockStart(start, g, baby) && k == start + b && k < groups
    requires rotated == BabyRotation(slots, b, r)
    requires InnerHolds(inner, slots, w, r, window, groups, baby, g, b, offset)
    ensures |next| == |slots| && InnerHolds(next, slots, w, r, window, groups, baby, g, b + 1, offset)
  {
    var mask := CombinedMask(w, k, r, window, |slots|);
    next := Plus(inner, Masked(rotated, Roll(mask, offset)));
    assert GroupNumber(k, g, baby, b);
    hide *;
    InnerStep(inner, next, slots, w, r, window, groups, baby, g, b, offset, k, mask);
  }

  /** That many blocks reach past the last group. */
  ghost predicate Covers(count: nat, step: nat, blocks: nat) { count <= blocks * step }

  lemma SomeGroup(n: nat, r: nat)
    requires r > 0
    ensures Groups(n, r) > 0 <==> n > 0
  {
    CeilCovers(n, r, Groups(n, r));
  }

  lemma CeilCovers(count: nat, step: nat, q: nat)
    requires step > 0 && q == (count + step - 1) / step
    ensures Covers(count, step, q) && q * step < count + step
    ensures q > 0 <==> count > 0
  {
    var t := (count + step - 1) % step;
    assert count + step - 1 == q * step + t;
  }

  // ---------- what the program computes ----------

  /** The slot replica d % r reads for diagonal d and output i. */
  function ReadSlot(i: nat, d: nat, r: nat, window: nat): nat
    requires r > 0
  {
    NonNegative(d % r, window);
    (d % r) * window + i + d
  }

  /** Diagonal terms of output i as read from the slots. */
  function ReadTerms(w: Matrix, slots: Vector, r: nat, window: nat, i: nat): nat -> real
    requires w.Valid() && w.n > 0 && |slots| > 0 && r > 0 && i < w.m
  {
    (d: nat) => At(slots, ReadSlot(i, d, r, window)) * w.Entry(i, (i + d) % w.n)
  }

  // Replica q, folded to output i, meets entry a of the mask of replica j.
  predicate Meets(q: nat, j: nat, i: nat, a: nat, window: nat, batch: nat)
    requires batch > 0
  {
    (i + q * (window + 1)) % batch == j * window + j + a
  }

  /** No output slot of a replica meets the mask of another one, also after wrapping. */
  predicate ReplicasSeparate(m: nat, n: nat, r: nat, window: nat, batch: nat)
    requires batch > 0
  {
    forall q: nat, j: nat, i: nat, a: nat ::
      q < r && j < r && j < n && q != j && i < m && a < m ==> !Meets(q, j, i, a, window, batch)
  }

  lemma OwnSlot(m: nat, n: nat, r: nat, window: nat, batch: nat, q: nat, i: nat)
    requires batch > 0 && MasksFit(m, n, r, window, batch) && q < r && q < n && i < m
    ensures q * window + q + i < batch && (i + q * (window + 1)) % batch == q * window + q + i
  {
    assert q * (window + 1) == q * window + q;
  }

  lemma MaskTermNamed(w: Matrix, k: nat, r: nat, window: nat, p: nat, o: nat, d: nat, base: nat)
    requires w.Valid() && d == o + k * r && base == o * window + o
    ensures MaskTerms(w, k, r, window, p)(o) == if d < w.n then MaskEntry(w, d, base, p) else 0.0
  {
    hide MaskEntry;
  }

  lemma ForeignMask(m: nat, n: nat, r: nat, window: nat, batch: nat, q: nat, j: nat, i: nat, p: nat, base: nat)
    requires batch > 0 && ReplicasSeparate(m, n, r, window, batch) && q < r && j < r && j < n && q != j && i < m
    requires p == (i + q * (window + 1)) % batch && base == j * window + j
    ensures !(base <= p < base + m)
  {
    var a := p - base;
    assert a >= 0 ==> (Meets(q, j, i, a, window, batch) <==> p == base + a);
  }

  lemma OwnMask(w: Matrix, k: nat, r: nat, window: nat, batch: nat, q: nat, i: nat, p: nat, d: nat)
    requires w.Valid() && w.n > 0 && batch > 0 && MasksFit(w.m, w.n, r, window, batch)
    requires q < r && i < w.m && p == (i + q * (window + 1)) % batch && d == q + k * r
    ensures MaskTerms(w, k, r, window, p)(q) == if d < w.n then w.Entry(i, (i + d) % w.n) else 0.0
  {
    var base := q * window + q;
    MaskTermNamed(w, k, r, window, p, q, d, base);
    hide MaskTerms;
    if d < w.n {
      NonNegative(k, r);
      OwnSlot(w.m, w.n, r, window, batch, q, i);
      hide MasksFit;
      assert p == base + i;
    }
  }

  /** At its own output slot a replica sees exactly its diagonal d, whenever the replicas are separate. */
  lemma MaskAtOutput(w: Matrix, k: nat, r: nat, window: nat, batch: nat, q: nat, i: nat, p: nat, d: nat)
    requires w.Valid() && w.n > 0 && batch > 0 && MasksFit(w.m, w.n, r, window, batch)
    requires ReplicasSeparate(w.m, w.n, r, window, batch)
    requires q < r && i < w.m && p == (i + q * (window + 1)) % batch && d == q + k * r
    ensures CombinedEntry(w, k, r, window, p) == if d < w.n then w.Entry(i, (i + d) % w.n) else 0.0
  {
    var f := MaskTerms(w, k, r, window, p);
    OwnMask(w, k, r, window, batch, q, i, p, d);
    forall j: nat | j < r && j != q ensures f(j) == 0.0 {
      ForeignTerm(w, k, r, window, batch, q, j, i, p, j * window + j);
    }
    hide MaskTerms;
    hide ReplicasSeparate;
    hide MasksFit;
    SumSingle(r, f, q);
  }

  lemma ForeignTerm(w: Matrix, k: nat, r: nat, window: nat, batch: nat, q: nat, j: nat, i: nat, p: nat, base: nat)
    requires w.Valid() && batch > 0 && ReplicasSeparate(w.m, w.n, r, window, batch)
    requires q < r && j < r && q != j && i < w.m && p == (i + q * (window + 1)) % batch && base == j * window + j
    ensures MaskTerms(w, k, r, window, p)(j) == 0.0
  {
    NonNegative(k, r);
    MaskTermNamed(w, k, r, window, p, j, j + k * r, base);
    hide MaskTerms;
    if j < w.n { ForeignMask(w.m, w.n, r, window, batch, q, j, i, p, base); }
  }

  /** Group k as replica q sees it at output i is the term of diagonal q + k*r. */
  lemma TermAtOutput(w: Matrix, slots: Vector, r: nat, window: nat, i: nat, q: nat, k: nat, p: nat)
    requires w.Valid() && w.n > 0 && |slots| > 0 && MasksFit(w.m, w.n, r, window, |slots|)
    requires ReplicasSeparate(w.m, w.n, r, window, |slots|)
    requires q < r && i < w.m && p == (i + q * (window + 1)) % |slots|
    ensures GroupTerms(slots, w, r, window, p)(k) == ClippedTerms(ReadTerms(w, slots, r, window, i), w.n)(k * r + q)
  {
    var d := k * r + q;
    ModUnique(d, r, k, q);
    NonNegative(k, r);
    MaskAtOutput(w, k, r, window, |slots|, q, i, p, d);
    var a, b := At(slots, p + k * r), CombinedEntry(w, k, r, window, p);
    GroupTermNamed(slots, w, r, window, p, k, a, b);
    if d < w.n {
      OwnSlot(w.m, w.n, r, window, |slots|, q, i);
      SameSlot(window, q, i, k * r, p, d, ReadSlot(i, d, r, window), r);
      ReadTermNamed(w, slots, r, window, i, d, a, b);
    } else {
      ZeroProduct(a, b);
    }
  }

  lemma SameSlot(window: nat, q: nat, i: nat, kr: nat, p: nat, d: nat, slot: nat, r: nat)
    requires r > 0 && d % r == q && d == kr + q && p == q * window + q + i && slot == ReadSlot(i, d, r, window)
    ensures p + kr == slot
  {
  }

  lemma ReadTermNamed(w: Matrix, slots: Vector, r: nat, window: nat, i: nat, d: nat, a: real, b: real)
    requires w.Valid() && w.n > 0 && |slots| > 0 && r > 0 && i < w.m
    requires a == At(slots, ReadSlot(i, d, r, window)) && b == w.Entry(i, (i + d) % w.n)
    ensures ReadTerms(w, slots, r, window, i)(d) == a * b
  {
    hide At;
    hide ReadSlot;
  }

  lemma ZeroProduct(a: real, b: real)
    requires b == 0.0
    ensures a * b == 0.0
  {
  }

  // f(q, k) is the term of diagonal k*r + q.
  function Grid(c: nat -> real, r: nat): (nat, nat) -> real { (q: nat, k: nat) => c(k * r + q) }

  lemma OutputsInBatch(m: nat, n: nat, r: nat, window: nat, batch: nat)
    requires n > 0 && r > 0 && MasksFit(m, n, r, window, batch)
    ensures m <= batch
  {
    assert m > 0 ==> 0 * window + 0 + m <= batch;
  }

  /** With separate replicas every output is the sum of its n diagonal reads, for any input slots. */
  lemma MatmulReads(w: Matrix, slots: Vector, r: nat, window: nat, i: nat)
    requires w.Valid() && w.n > 0 && |slots| > 0 && r > 0 && i < w.m
    requires MasksFit(w.m, w.n, r, window, |slots|) && ReplicasSeparate(w.m, w.n, r, window, |slots|)
    ensures i < |slots|
    ensures ShiftSum(Accumulated(slots, w, r, window, Groups(w.n, r)), r, window + 1)[i]
            == Sum(w.n, ReadTerms(w, slots, r, window, i))
  {
    var groups := Groups(w.n, r);
    var acc := Accumulated(slots, w, r, window, groups);
    var terms := ReadTerms(w, slots, r, window, i);
    var c := ClippedTerms(terms, w.n);
    OutputsInBatch(w.m, w.n, r, window, |slots|);
    forall q: nat | q < r ensures Shifted(acc, i, window + 1)(q) == RowSums(Grid(c, r), groups)(q) {
      ReplicaSum(w, slots, r, window, i, q, groups);
    }
    SumEqual(r, Shifted(acc, i, window + 1), RowSums(Grid(c, r), groups));
    SumSwap(r, groups, Grid(c, r));
    forall k: nat | k < groups ensures ColumnSums(Grid(c, r), r)(k) == BlockSums(c, r)(k) {
      SumEqual(r, Column(Grid(c, r), k), BlockTerms(c, r, k));
    }
    SumEqual(groups, ColumnSums(Grid(c, r), r), BlockSums(c, r));
    CeilCovers(w.n, r, groups);
    BlocksCover(terms, w.n, r, groups, groups * r);
  }

  lemma ReplicaSum(w: Matrix, slots: Vector, r: nat, window: nat, i: nat, q: nat, groups: nat)
    requires w.Valid() && w.n > 0 && |slots| > 0 && r > 0 && i < w.m && q < r
    requires MasksFit(w.m, w.n, r, window, |slots|) && ReplicasSeparate(w.m, w.n, r, window, |slots|)
    ensures Shifted(Accumulated(slots, w, r, window, groups), i, window + 1)(q)
            == RowSums(Grid(ClippedTerms(ReadTerms(w, slots, r, window, i), w.n), r), groups)(q)
  {
    var p := (i + q * (window + 1)) % |slots|;
    var c := ClippedTerms(ReadTerms(w, slots, r, window, i), w.n);
    forall k: nat | k < groups ensures GroupTerms(slots, w, r, window, p)(k) == Row(Grid(c, r), q)(k) {
      TermAtOutput(w, slots, r, window, i, q, k, p);
      hide *;
      GridAt(c, r, q, k);
    }
    SumEqual(groups, GroupTerms(slots, w, r, window, p), Row(Grid(c, r), q));
    ShiftedSlot(Accumulated(slots, w, r, window, groups), i, window + 1, q, p);
  }

  lemma GridAt(c: nat -> real, r: nat, q: nat, k: nat)
    ensures Row(Grid(c, r), q)(k) == c(k * r + q)
  {
  }

  lemma ShiftedSlot(v: Vector, i: nat, stride: nat, q: nat, p: nat)
    requires |v| > 0 && p == (i + q * stride) % |v|
    ensures Shifted(v, i, stride)(q) == v[p]
  {
  }

  // ---------- exactly when the first slots hold the product ----------

  /** Output i meets diagonal d at a filled slot that holds entry (i + d) % n of the input. */
  predicate ReadAligned(n: nat, r: nat, window: nat, batch: nat, filled: nat, i: nat, d: nat)
    requires n > 0 && r > 0 && batch > 0
  {
    var s := ReadSlot(i, d, r, window) % batch;
    s < filled && s % n == (i + d) % n
  }

  predicate ReadsAligned(m: nat, n: nat, r: nat, window: nat, batch: nat, filled: nat)
    requires n > 0 && r > 0 && batch > 0
  {
    forall i: nat, d: nat :: i < m && d < n ==> ReadAligned(n, r, window, batch, filled, i, d)
  }

  /** A read inside the filled slots is aligned, because whole periods fill a window. */
  lemma AlignedInside(n: nat, r: nat, window: nat, batch: nat, filled: nat, i: nat, d: nat)
    requires n > 0 && r > 0 && window % n == 0 && ReadSlot(i, d, r, window) < filled <= batch
    ensures ReadAligned(n, r, window, batch, filled, i, d)
  {
    var q, s := d % r, ReadSlot(i, d, r, window);
    ModSmall(s, batch);
    StartAligned(q, n, window, i + d);
    assert s == q * window + (i + d);
  }

  lemma StartAligned(q: nat, n: nat, window: nat, e: nat)
    requires n > 0 && window % n == 0
    ensures (q * window + e) % n == e % n
  {
    var k := window / n;
    assert window == k * n;
    assert q * window == (q * k) * n;
    ModMultiple(e, q * k, n);
  }

  function Filled(r: nat, guard: nat, window: nat): nat
  {
    NonNegative(r + guard, window);
    (r + guard) * window
  }

  // d-th entry of g read cyclically from i on.
  function Rotated(g: nat -> real, i: nat, n: nat): nat -> real
    requires n > 0
  {
    (d: nat) => g((i + d) % n)
  }

  lemma {:induction false} SumShiftOne(n: nat, h: nat -> real, g: nat -> real)
    requires forall d: nat :: d < n ==> g(d) == h(d + 1)
    ensures Sum(n, g) + h(0) == Sum(n, h) + h(n)
  {
    if n > 0 { SumShiftOne(n - 1, h, g); }
  }

  lemma RotateOnce(g: nat -> real, i: nat, n: nat)
    requires n > 0 && i > 0
    ensures forall d: nat :: d < n ==> Rotated(g, i, n)(d) == Rotated(g, i - 1, n)(d + 1)
    ensures Rotated(g, i - 1, n)(0) == Rotated(g, i - 1, n)(n)
  {
    forall d: nat ensures Rotated(g, i, n)(d) == Rotated(g, i - 1, n)(d + 1) {
      RotatedAt(g, i, n, d, (i + d) % n);
      RotatedAt(g, i - 1, n, d + 1, (i + d) % n);
    }
    RotatedAt(g, i - 1, n, 0, (i - 1) % n);
    ModMultiple(i - 1, 1, n);
    RotatedAt(g, i - 1, n, n, (i - 1) % n);
    hide Rotated;
  }

  /** A cyclic sum does not depend on where it starts. */
  lemma {:induction false} SumRotate(g: nat -> real, i: nat, n: nat)
    requires n > 0
    ensures Sum(n, Rotated(g, i, n)) == Sum(n, g)
    decreases i
  {
    if i == 0 {
      forall d: nat | d < n ensures Rotated(g, 0, n)(d) == g(d) { RotatedAt(g, 0, n, d, d); }
      hide *;
      SumEqual(n, Rotated(g, 0, n), g);
    } else {
      SumRotate(g, i - 1, n);
      RotateOnce(g, i, n);
      hide *;
      SumShiftOne(n, Rotated(g, i - 1, n), Rotated(g, i, n));
    }
  }

  lemma AlignedTerm(w: Matrix, x: Vector, r: nat, window: nat, batch: nat, filled: nat, i: nat, d: nat)
    requires w.Valid() && w.n > 0 && |x| == w.n && r > 0 && batch > 0 && i < w.m
    requires ReadAligned(w.n, r, window, batch, filled, i, d)
    ensures ReadTerms(w, Tiled(x, filled, batch), r, window, i)(d) == Rotated(RowTerms(w, x, i), i, w.n)(d)
  {
    var c := (i + d) % w.n;
    TermProducts(w, Tiled(x, filled, batch), x, r, window, i, d, c, x[c], w.Entry(i, c));
  }

  lemma TermProducts(w: Matrix, slots: Vector, x: Vector, r: nat, window: nat, i: nat, d: nat, c: nat, a: real, b: real)
    requires w.Valid() && w.n > 0 && |slots| > 0 && r > 0 && i < w.m && |x| == w.n && c == (i + d) % w.n
    requires a == At(slots, ReadSlot(i, d, r, window)) && a == x[c] && b == w.Entry(i, c)
    ensures ReadTerms(w, slots, r, window, i)(d) == Rotated(RowTerms(w, x, i), i, w.n)(d)
  {
    ReadTermNamed(w, slots, r, window, i, d, a, b);
    RowTermNamed(w, x, i, c, a, b);
    hide *;
    assert a * b == b * a;
    RotatedAt(RowTerms(w, x, i), i, w.n, d, c);
  }

  lemma RotatedAt(g: nat -> real, i: nat, n: nat, d: nat, c: nat)
    requires n > 0 && c == (i + d) % n
    ensures Rotated(g, i, n)(d) == g(c)
  {
  }

  lemma RowTermNamed(w: Matrix, x: Vector, i: nat, c: nat, a: real, b: real)
    requires w.Valid() && i < w.m && |x| == w.n && c < w.n && a == x[c] && b == w.Entry(i, c)
    ensures RowTerms(w, x, i)(c) == b * a
  {
  }

  /** Slots [0, m) of the program are the plain product. */
  ghost predicate ComputesProduct(w: Matrix, x: Vector, r: nat, window: nat, batch: nat, guard: nat)
  {
    w.m <= batch && Accepted(w, x, r, window, batch, guard) && |x| == w.n &&
    forall i: nat :: i < w.m ==> MatmulSlots(w, x, r, window, batch, guard)[i] == Product(w, x, i)
  }

  lemma AlignedComputes(w: Matrix, x: Vector, r: nat, window: nat, batch: nat, guard: nat)
    requires w.Valid() && |x| == w.n && InputAccepted(w.n, r, window, batch, guard)
    requires MasksFit(w.m, w.n, r, window, batch) && ReplicasSeparate(w.m, w.n, r, window, batch)
    requires ReadsAligned(w.m, w.n, r, window, batch, Filled(r, guard, window))
    ensures ComputesProduct(w, x, r, window, batch, guard)
  {
    OutputsInBatch(w.m, w.n, r, window, batch);
    forall i: nat | i < w.m ensures MatmulSlots(w, x, r, window, batch, guard)[i] == Product(w, x, i) {
      AlignedOutput(w, x, r, window, batch, guard, i);
    }
  }

  lemma AlignedOutput(w: Matrix, x: Vector, r: nat, window: nat, batch: nat, guard: nat, i: nat)
    requires Accepted(w, x, r, window, batch, guard) && |x| == w.n && i < w.m
    requires ReplicasSeparate(w.m, w.n, r, window, batch)
    requires ReadsAligned(w.m, w.n, r, window, batch, Filled(r, guard, window))
    ensures i < batch && MatmulSlots(w, x, r, window, batch, guard)[i] == Product(w, x, i)
  {
    var filled := Filled(r, guard, window);
    var slots := Tiled(x, filled, batch);
    MatmulReads(w, slots, r, window, i);
    forall d: nat | d < w.n
      ensures ReadTerms(w, slots, r, window, i)(d) == Rotated(RowTerms(w, x, i), i, w.n)(d)
    {
      AlignedTerm(w, x, r, window, batch, filled, i, d);
    }
    hide *;
    SumEqual(w.n, ReadTerms(w, slots, r, window, i), Rotated(RowTerms(w, x, i), i, w.n));
    SumRotate(RowTerms(w, x, i), i, w.n);
    ProgramOutput(w, x, r, window, batch, guard, slots, filled);
    ProductIs(w, x, i);
  }

  lemma ProgramOutput(w: Matrix, x: Vector, r: nat, window: nat, batch: nat, guard: nat, slots: Vector, filled: nat)
    requires Accepted(w, x, r, window, batch, guard)
    requires filled == (r + guard) * window && slots == Tiled(x, filled, batch)
    ensures MatmulSlots(w, x, r, window, batch, guard)
            == ShiftSum(Accumulated(slots, w, r, window, Groups(w.n, r)), r, window + 1)
  {
  }

  lemma ProductIs(w: Matrix, x: Vector, i: nat)
    requires w.Valid() && i < w.m && |x| == w.n
    ensures Product(w, x, i) == Sum(w.n, RowTerms(w, x, i))
  {
  }

  /** The m by n matrix whose only entry is a one at (i, c). */
  function UnitMatrix(m: nat, n: nat, i: nat, c: nat): (w: Matrix)
    ensures w.Valid() && w.m == m && w.n == n
    ensures forall a: nat, b: nat :: a < m && b < n ==> w.Entry(a, b) == if a == i && b == c then 1.0 else 0.0
  {
    Matrix(m, n, seq(m, a => seq(n, b => if a == i && b == c then 1.0 else 0.0)))
  }

  function UnitVector(n: nat, c: nat): (x: Vector)
    ensures |x| == n
  {
    seq(n, a => if a == c then 1.0 else 0.0)
  }

  lemma UnitProduct(m: nat, n: nat, i: nat, c: nat)
    requires n > 0 && i < m && c < n
    ensures Product(UnitMatrix(m, n, i, c), UnitVector(n, c), i) == 1.0
  {
    var f := RowTerms(UnitMatrix(m, n, i, c), UnitVector(n, c), i);
    SumSingle(n, f, c);
  }

  lemma ModInjective(i: nat, d: nat, e: nat, n: nat)
    requires d < n && e < n && (i + d) % n == (i + e) % n
    ensures d == e
  {
    var a, b := (i + d) / n, (i + e) / n;
    assert i + d == a * n + (i + d) % n && i + e == b * n + (i + e) % n;
    assert d - e == (a - b) * n;
    MultipleGap(n, a - b);
  }

  // With the unit inputs only diagonal d contributes, and a misread slot contributes nothing.
  lemma MisreadIsZero(m: nat, n: nat, r: nat, window: nat, batch: nat, filled: nat, i: nat, d: nat, c: nat)
    requires n > 0 && r > 0 && batch > 0 && i < m && d < n && c == (i + d) % n
    requires !ReadAligned(n, r, window, batch, filled, i, d)
    ensures var w, slots := UnitMatrix(m, n, i, c), Tiled(UnitVector(n, c), filled, batch);
            Sum(n, ReadTerms(w, slots, r, window, i)) == 0.0
  {
    var w, slots := UnitMatrix(m, n, i, c), Tiled(UnitVector(n, c), filled, batch);
    forall e: nat | e < n ensures ReadTerms(w, slots, r, window, i)(e) == 0.0 {
      var a, b := At(slots, ReadSlot(i, e, r, window)), w.Entry(i, (i + e) % n);
      ReadTermNamed(w, slots, r, window, i, e, a, b);
      if (i + e) % n == c { ModInjective(i, d, e, n); }
      hide ReadTerms;
      hide ReadSlot;
      assert a == 0.0 || b == 0.0;
      ZeroFactor(a, b);
    }
    hide *;
    SumZero(n, ReadTerms(w, slots, r, window, i));
  }

  lemma ZeroFactor(a: real, b: real)
    requires a == 0.0 || b == 0.0
    ensures a * b == 0.0
  {
  }

  lemma MisreadFails(m: nat, n: nat, r: nat, window: nat, batch: nat, guard: nat, i: nat, d: nat)
    requires InputAccepted(n, r, window, batch, guard) && MasksFit(m, n, r, window, batch) && i < m && d < n
    requires ReplicasSeparate(m, n, r, window, batch)
    requires !ReadAligned(n, r, window, batch, Filled(r, guard, window), i, d)
    ensures !ComputesProduct(UnitMatrix(m, n, i, (i + d) % n), UnitVector(n, (i + d) % n), r, window, batch, guard)
  {
    var c, filled := (i + d) % n, Filled(r, guard, window);
    var w, x := UnitMatrix(m, n, i, c), UnitVector(n, c);
    var slots := Tiled(x, filled, batch);
    OutputsInBatch(m, n, r, window, batch);
    MisreadIsZero(m, n, r, window, batch, filled, i, d, c);
    UnitProduct(m, n, i, c);
    MatmulReads(w, slots, r, window, i);
    AcceptedUnit(w, x, r, window, batch, guard);
    ProgramOutput(w, x, r, window, batch, guard, slots, filled);
    hide *;
    ComputesAt(w, x, r, window, batch, guard, i);
  }

  lemma AcceptedUnit(w: Matrix, x: Vector, r: nat, window: nat, batch: nat, guard: nat)
    requires w.Valid() && |x| == w.n && InputAccepted(w.n, r, window, batch, guard)
    requires MasksFit(w.m, w.n, r, window, batch)
    ensures Accepted(w, x, r, window, batch, guard)
  {
  }

  lemma ComputesAt(w: Matrix, x: Vector, r: nat, window: nat, batch: nat, guard: nat, i: nat)
    requires Accepted(w, x, r, window, batch, guard) && |x| == w.n && i < w.m <= batch
    ensures ComputesProduct(w, x, r, window, batch, guard)
            ==> MatmulSlots(w, x, r, window, batch, guard)[i] == Product(w, x, i)
  {
  }

  // ---------- replicas that meet ----------

  function OnesVector(n: nat): (x: Vector)
    ensures |x| == n && forall c :: 0 <= c < n ==> x[c] == 1.0
  {
    seq(n, c => 1.0)
  }

  // Diagonal d of the unit matrix written from base on holds at most the unit.
  lemma UnitMaskEntry(m: nat, n: nat, a: nat, j: nat, d: nat, base: nat, p: nat)
    requires a < m && j < n && d < n
    ensures MaskEntry(UnitMatrix(m, n, a, (a + j) % n), d, base, p) == if d == j && p == base + a then 1.0 else 0.0
  {
    if base <= p < base + m && p - base == a && (a + d) % n == (a + j) % n { ModInjective(a, d, j, n); }
  }

  lemma LaterDiagonal(k: nat, r: nat, o: nat, j: nat)
    requires o < r && j < r
    ensures o + k * r >= 0 && (o + k * r == j <==> k == 0 && o == j)
  {
    if k >= 1 { ProductMono(1, k, r); }
  }

  // The only entry of the unit matrix lies on diagonal j, which is in group 0.
  lemma UnitMask(m: nat, n: nat, r: nat, window: nat, a: nat, j: nat, k: nat, p: nat)
    requires a < m && j < n && j < r
    ensures CombinedEntry(UnitMatrix(m, n, a, (a + j) % n), k, r, window, p)
            == if k == 0 && p == j * window + j + a then 1.0 else 0.0
  {
    var w := UnitMatrix(m, n, a, (a + j) % n);
    var f := MaskTerms(w, k, r, window, p);
    hide MaskTerms;
    hide UnitMatrix;
    hide MaskEntry;
    forall o: nat | o < r
      ensures f(o) == if k == 0 && o == j && p == j * window + j + a then 1.0 else 0.0
    {
      LaterDiagonal(k, r, o, j);
      var d, base := o + k * r, o * window + o;
      MaskTermNamed(w, k, r, window, p, o, d, base);
      if d < n { UnitMaskEntry(m, n, a, j, d, base, p); }
    }
    if k == 0 { SumSingle(r, f, j); } else { SumZero(r, f); }
  }

  // All that is accumulated is one slot, at the entry of the mask.
  lemma UnitAccumulated(slots: Vector, m: nat, n: nat, r: nat, window: nat, a: nat, j: nat, p: nat)
    requires a < m && j < n && j < r && p < |slots|
    ensures Accumulated(slots, UnitMatrix(m, n, a, (a + j) % n), r, window, Groups(n, r))[p]
            == if p == j * window + j + a then slots[p] else 0.0
  {
    var w := UnitMatrix(m, n, a, (a + j) % n);
    var f := GroupTerms(slots, w, r, window, p);
    forall k: nat ensures f(k) == if k == 0 && p == j * window + j + a then slots[p] else 0.0 {
      UnitGroupTerm(slots, m, n, r, window, a, j, k, p, At(slots, p + k * r), CombinedEntry(w, k, r, window, p));
    }
    SomeGroup(n, r);
    hide GroupTerms;
    hide Groups;
    SumSingle(Groups(n, r), f, 0);
  }

  lemma UnitGroupTerm(slots: Vector, m: nat, n: nat, r: nat, window: nat, a: nat, j: nat, k: nat, p: nat,
                      x: real, y: real)
    requires a < m && j < n && j < r && p < |slots|
    requires x == At(slots, p + k * r) && y == CombinedEntry(UnitMatrix(m, n, a, (a + j) % n), k, r, window, p)
    ensures GroupTerms(slots, UnitMatrix(m, n, a, (a + j) % n), r, window, p)(k)
            == if k == 0 && p == j * window + j + a then slots[p] else 0.0
  {
    UnitMask(m, n, r, window, a, j, k, p);
    GroupTermNamed(slots, UnitMatrix(m, n, a, (a + j) % n), r, window, p, k, x, y);
    if k == 0 { FirstGroupSlot(slots, r, p); }
    hide *;
    UnitTimes(x, y);
  }

  lemma FirstGroupSlot(slots: Vector, r: nat, p: nat)
    requires p < |slots|
    ensures At(slots, p + 0 * r) == slots[p]
  {
    assert p + 0 * r == p;
    ModSmall(p, |slots|);
  }

  lemma UnitTimes(x: real, y: real)
    ensures y == 0.0 ==> x * y == 0.0
    ensures y == 1.0 ==> x * y == x
  {
  }

  lemma OnesProduct(m: nat, n: nat, a: nat, c: nat, i: nat)
    requires a < m && i < m && c < n
    ensures Product(UnitMatrix(m, n, a, c), OnesVector(n), i) == if i == a then 1.0 else 0.0
  {
    var f := RowTerms(UnitMatrix(m, n, a, c), OnesVector(n), i);
    SumSingle(n, f, c);
  }

  /**
   Two replicas that meet break the product: the unit matrix of the met mask entry is counted at the wrong output, or
   twice, or its slot was never filled.
   */
  lemma MeetingFails(m: nat, n: nat, r: nat, window: nat, batch: nat, guard: nat, q: nat, j: nat, i: nat, a: nat)
    requires InputAccepted(n, r, window, batch, guard) && MasksFit(m, n, r, window, batch)
    requires q < r && j < r && j < n && q != j && i < m && a < m && Meets(q, j, i, a, window, batch)
    ensures !ComputesProduct(UnitMatrix(m, n, a, (a + j) % n), OnesVector(n), r, window, batch, guard)
  {
    var c, filled, p := (a + j) % n, Filled(r, guard, window), j * window + j + a;
    var w, x := UnitMatrix(m, n, a, c), OnesVector(n);
    var slots := Tiled(x, filled, batch);
    var acc := Accumulated(slots, w, r, window, Groups(n, r));
    OutputsInBatch(m, n, r, window, batch);
    OwnSlot(m, n, r, window, batch, j, a);
    forall s: nat | s < batch ensures acc[s] == if s == p then slots[p] else 0.0 {
      UnitAccumulated(slots, m, n, r, window, a, j, s);
    }
    AcceptedUnit(w, x, r, window, batch, guard);
    ProgramOutput(w, x, r, window, batch, guard, slots, filled);
    OnesProduct(m, n, a, c, i);
    OnesProduct(m, n, a, c, a);
    ComputesAt(w, x, r, window, batch, guard, i);
    ComputesAt(w, x, r, window, batch, guard, a);
    FoldedUnit(acc, r, window, p, slots[p], q, j, i, a);
  }

  lemma FoldedUnit(acc: Vector, r: nat, window: nat, p: nat, value: real, q: nat, j: nat, i: nat, a: nat)
    requires p < |acc| && (value == 0.0 || value == 1.0) && i < |acc| && a < |acc|
    requires forall s: nat :: s < |acc| ==> acc[s] == if s == p then value else 0.0
    requires q < r && j < r && q != j
    requires (i + q * (window + 1)) % |acc| == p && (a + j * (window + 1)) % |acc| == p
    ensures value == 0.0 ==> ShiftSum(acc, r, window + 1)[a] == 0.0
    ensures value == 1.0 ==> ShiftSum(acc, r, window + 1)[i] >= if i == a then 2.0 else 1.0
  {
    var f, g := Shifted(acc, i, window + 1), Shifted(acc, a, window + 1);
    if value == 0.0 {
      SumZero(r, g);
    } else {
      SumAtLeast(r, f, q);
      if i == a { SumAtLeastTwo(r, f, q, j); }
    }
  }

  // ---------- the exact geometry ----------

  /** Every matrix of this shape is multiplied correctly. */
  ghost predicate MultipliesAll(m: nat, n: nat, r: nat, window: nat, batch: nat, guard: nat)
  {
    forall w: Matrix, x: Vector :: w.Valid() && w.m == m && w.n == n && |x| == n
                                   ==> ComputesProduct(w, x, r, window, batch, guard)
  }

  /**
   The program is right for all inputs of a shape exactly when the geometry is accepted, replicas never meet and every
   read is aligned.
   */
  lemma MultipliesIffAligned(m: nat, n: nat, r: nat, window: nat, batch: nat, guard: nat)
    ensures MultipliesAll(m, n, r, window, batch, guard)
            <==> InputAccepted(n, r, window, batch, guard) && MasksFit(m, n, r, window, batch) &&
                 ReplicasSeparate(m, n, r, window, batch) &&
                 ReadsAligned(m, n, r, window, batch, Filled(r, guard, window))
  {
    if !InputAccepted(n, r, window, batch, guard) || !MasksFit(m, n, r, window, batch) {
      assert !ComputesProduct(UnitMatrix(m, n, 0, 0), OnesVector(n), r, window, batch, guard);
    } else if !ReplicasSeparate(m, n, r, window, batch) {
      var q: nat, j: nat, i: nat, a: nat :|
        q < r && j < r && j < n && q != j && i < m && a < m && Meets(q, j, i, a, window, batch);
      MeetingFails(m, n, r, window, batch, guard, q, j, i, a);
    } else if !ReadsAligned(m, n, r, window, batch, Filled(r, guard, window)) {
      var i: nat, d: nat :| i < m && d < n && !ReadAligned(n, r, window, batch, Filled(r, guard, window), i, d);
      MisreadFails(m, n, r, window, batch, guard, i, d);
    } else {
      forall w: Matrix, x: Vector | w.Valid() && w.m == m && w.n == n && |x| == n
        ensures ComputesProduct(w, x, r, window, batch, guard)
      {
        AlignedComputes(w, x, r, window, batch, guard);
      }
    }
  }

  lemma OffsetsApart(window: nat, m: nat, q: nat, j: nat, i: nat, p: nat)
    requires m <= window + 1 && q != j && i < m && p == i + q * (window + 1)
    ensures !(j * window + j <= p < j * window + j + m)
  {
    var stride := window + 1;
    assert j * window + j == j * stride;
    if q < j { BlockBelow(q, j, stride); } else { BlockBelow(j, q, stride); }
  }

  /** With no more replicas than columns they are separate exactly when one stride holds all the outputs. */
  lemma SeparateIffStrideHolds(m: nat, n: nat, r: nat, window: nat, batch: nat)
    requires 0 < r <= n && batch > 0 && MasksFit(m, n, r, window, batch)
    ensures ReplicasSeparate(m, n, r, window, batch) <==> r == 1 || m <= window + 1
  {
    if m > window + 1 && r > 1 {
      OwnSlot(m, n, r, window, batch, 1, 0);
      assert Meets(1, 0, 0, window + 1, window, batch);
    } else if r > 1 {
      forall q: nat, j: nat, i: nat, a: nat | q < r && j < r && j < n && q != j && i < m && a < m
        ensures !Meets(q, j, i, a, window, batch)
      {
        OwnSlot(m, n, r, window, batch, q, i);
        OffsetsApart(window, m, q, j, i, q * window + q + i);
      }
    }
  }

  // ---------- closed forms ----------

  /** Replicas that hold a diagonal. */
  function Used(n: nat, r: nat): nat { if r <= n then r else n }

  /** The last diagonal of the last of them. */
  function LastDiagonal(n: nat, r: nat): nat
    requires n > 0 && r > 0
  {
    LastDiagonalMeans(n, r);
    Used(n, r) * (n / Used(n, r)) - 1
  }

  lemma LastDiagonalMeans(n: nat, r: nat)
    requires n > 0 && r > 0
    ensures var u := Used(n, r);
            1 <= u * (n / u) <= n && n - u * (n / u) < u && (u * (n / u) - 1) % r == u - 1
  {
    var u := Used(n, r);
    var k, t := n / u, n % u;
    assert n == k * u + t;
    QuotientPositive(n, u, k);
    if r <= n { ModUnique(k * u - 1, r, k - 1, r - 1); } else { ModSmall(n - 1, r); }
  }

  lemma QuotientPositive(n: nat, u: nat, k: nat)
    requires 0 < u <= n && k == n / u
    ensures k >= 1 && k * u >= u && (k - 1) * u == k * u - u
  {
    ProductMono(1, k, u);
  }

  /** The highest slot any output reads. */
  function LastRead(m: nat, n: nat, r: nat, window: nat): nat
    requires n > 0 && r > 0 && m > 0
  {
    LastDiagonalMeans(n, r);
    NonNegative(Used(n, r) - 1, window);
    (Used(n, r) - 1) * window + LastDiagonal(n, r) + (m - 1)
  }

  lemma ReadBelowLast(m: nat, n: nat, r: nat, window: nat, i: nat, d: nat)
    requires n > 0 && r > 0 && window >= n && i < m && d < n
    ensures ReadSlot(i, d, r, window) <= LastRead(m, n, r, window)
  {
    var u, q, k := Used(n, r), d % r, d / r;
    LastDiagonalMeans(n, r);
    assert d == k * r + q;
    if q == u - 1 {
      LastOfReplica(n, r, d, k);
    } else {
      EarlierReplica(n, r, d);
      NonNegative(u - 2 - q, window);
      StrideGap(u - 1, q, window);
    }
  }

  // A replica before the last one starts at least a window lower.
  lemma StrideGap(last: nat, q: nat, window: nat)
    requires q < last
    ensures q * window + window <= last * window
  {
    BlockBelow(q, last, window);
  }

  lemma EarlierReplica(n: nat, r: nat, d: nat)
    requires n > 0 && r > 0 && d < n && d % r != Used(n, r) - 1
    ensures d % r < Used(n, r) - 1
  {
    if r > n { ModSmall(d, r); }
  }

  lemma LastOfReplica(n: nat, r: nat, d: nat, k: nat)
    requires n > 0 && r > 0 && d < n && k == d / r && d % r == Used(n, r) - 1
    ensures d <= LastDiagonal(n, r)
  {
    LastDiagonalMeans(n, r);
    if r <= n {
      assert d + 1 == (k + 1) * r;
      if k + 1 > n / r { QuotientFits(n, r, k + 1); }
      ProductMono(k + 1, n / r, r);
      CommuteProduct(r, n / r);
    } else {
      assert n / n == 1;
    }
  }

  lemma CommuteProduct(a: nat, b: nat)
    ensures a * b == b * a
  {
  }

  // A read past the end wraps once, into a slot of the same residue.
  lemma WrappedAligned(n: nat, r: nat, window: nat, batch: nat, i: nat, d: nat)
    requires n > 0 && r > 0 && window % n == 0 && batch > 0 && batch % n == 0
    requires batch <= ReadSlot(i, d, r, window) < 2 * batch
    ensures ReadAligned(n, r, window, batch, batch, i, d)
  {
    var q, s := d % r, ReadSlot(i, d, r, window);
    ModUnique(s, batch, 1, s - batch);
    StartAligned(q, n, window, i + d);
    var k := batch / n;
    assert batch == k * n;
    ModMultiple(s, -k, n);
    assert s + -k * n == s - batch;
    assert s == q * window + (i + d);
  }

  // The last diagonal starts inside the filled slots.
  lemma LastStarts(n: nat, r: nat, guard: nat, window: nat)
    requires n > 0 && r > 0 && window >= n
    ensures LastRead(1, n, r, window) < Filled(r, guard, window)
  {
    LastDiagonalMeans(n, r);
    BlockBelow(Used(n, r) - 1, Used(n, r), window);
    ProductMono(Used(n, r), r + guard, window);
  }

  /** Every read is aligned exactly when the highest one is filled, or when the windows fill the whole batch. */
  lemma ReadsAlignedIff(m: nat, n: nat, r: nat, window: nat, batch: nat, guard: nat)
    requires InputAccepted(n, r, window, batch, guard) && m <= batch
    ensures ReadsAligned(m, n, r, window, batch, Filled(r, guard, window))
            <==> m == 0 || Filled(r, guard, window) == batch || LastRead(m, n, r, window) < Filled(r, guard, window)
  {
    var filled := Filled(r, guard, window);
    WindowAtLeast(n, window);
    LastStarts(n, r, guard, window);
    hide LastRead;
    if m > 0 {
      LastReadGrows(m, n, r, window);
      if filled == batch || LastRead(m, n, r, window) < filled {
        forall i: nat, d: nat | i < m && d < n ensures ReadAligned(n, r, window, batch, filled, i, d) {
          ReadBelowLast(m, n, r, window, i, d);
          FilledPeriod(n, r, guard, window);
          hide ReadAligned;
          hide Filled;
          if ReadSlot(i, d, r, window) < filled {
            AlignedInside(n, r, window, batch, filled, i, d);
          } else {
            WrappedAligned(n, r, window, batch, i, d);
          }
        }
      } else {
        var i := filled - LastRead(1, n, r, window);
        ReadAtLast(n, r, window, i);
        ModSmall(filled, batch);
        assert !ReadAligned(n, r, window, batch, filled, i, LastDiagonal(n, r));
        LastDiagonalMeans(n, r);
      }
    }
  }

  lemma LastReadGrows(m: nat, n: nat, r: nat, window: nat)
    requires n > 0 && r > 0 && m > 0
    ensures LastRead(m, n, r, window) == LastRead(1, n, r, window) + (m - 1)
  {
  }

  lemma ReadAtLast(n: nat, r: nat, window: nat, i: nat)
    requires n > 0 && r > 0
    ensures ReadSlot(i, LastDiagonal(n, r), r, window) == LastRead(1, n, r, window) + i
  {
    LastDiagonalMeans(n, r);
  }

  lemma FilledPeriod(n: nat, r: nat, guard: nat, window: nat)
    requires n > 0 && window % n == 0
    ensures Filled(r, guard, window) % n == 0
  {
    StartAligned(r + guard, n, window, 0);
    ModSmall(0, n);
  }

  /**
   With at most one replica per column the geometries that multiply every matrix are these: one replica or a stride that
   holds all outputs, and windows that fill the batch or reach past the highest read.
   */
  lemma MultipliesIff(m: nat, n: nat, r: nat, window: nat, batch: nat, guard: nat)
    requires 0 < r <= n && m > 0 && InputAccepted(n, r, window, batch, guard) && MasksFit(m, n, r, window, batch)
    ensures MultipliesAll(m, n, r, window, batch, guard)
            <==> (r == 1 || m <= window + 1) &&
                 (Filled(r, guard, window) == batch ||
                  (r - 1) * window + r * (n / r) + m - 2 < Filled(r, guard, window))
  {
    OutputsInBatch(m, n, r, window, batch);
    MultipliesIffAligned(m, n, r, window, batch, guard);
    SeparateIffStrideHolds(m, n, r, window, batch);
    ReadsAlignedIff(m, n, r, window, batch, guard);
    LastDiagonalMeans(n, r);
    hide MultipliesAll;
    hide ReadsAligned;
    hide ReplicasSeparate;
    hide MasksFit;
    hide Filled;
  }

  /** An accepted geometry that is too tight: two by two, one window of two in three slots. */
  lemma TightWindowFails()
    ensures InputAccepted(2, 1, 2, 3, 0) && MasksFit(2, 2, 1, 2, 3) && !MultipliesAll(2, 2, 1, 2, 3, 0)
  {
    TightWindowMisreads();
    hide ReadsAligned;
    hide ReplicasSeparate;
    hide MultipliesAll;
    MultipliesIffAligned(2, 2, 1, 2, 3, 0);
  }

  lemma TightWindowMisreads()
    ensures !ReadsAligned(2, 2, 1, 2, 3, Filled(1, 0, 2))
  {
    assert ReadSlot(1, 1, 1, 2) == 2;
    assert !ReadAligned(2, 1, 2, 3, Filled(1, 0, 2), 1, 1);
  }

  /** An accepted geometry in which every read is aligned but the four outputs of one replica reach the next mask. */
  lemma OverlapFails()
    ensures InputAccepted(2, 2, 2, 14, 5) && MasksFit(4, 2, 2, 2, 14) && !MultipliesAll(4, 2, 2, 2, 14, 5)
    ensures ReadsAligned(4, 2, 2, 2, 14, Filled(2, 5, 2))
  {
    OverlapReads();
    hide ReadsAligned;
    hide MultipliesAll;
    SeparateIffStrideHolds(4, 2, 2, 2, 14);
    hide ReplicasSeparate;
    MultipliesIffAligned(4, 2, 2, 2, 14, 5);
  }

  lemma OverlapReads()
    ensures ReadsAligned(4, 2, 2, 2, 14, Filled(2, 5, 2))
  {
    assert Filled(2, 5, 2) == 14;
    forall i: nat, d: nat | i < 4 && d < 2 ensures ReadAligned(2, 2, 2, 14, 14, i, d) {
      ModSmall(d, 2);
      AlignedInside(2, 2, 2, 14, 14, i, d);
    }
  }

  // ---------- window choice ----------

  predicate Geometry(m: nat, n: nat, r: nat, window: nat, batch: nat, guard: nat)
  {
    n > 0 && r > 0 && window > 0 && window % n == 0 && window >= m + r - 1 && (r + guard) * window <= batch &&
    (window >= m + n - 1 || guard >= 1)
  }

  lemma ReplicaStart(q: nat, r: nat, window: nat, start: nat, rw: nat)
    requires q < r && start == q * window && rw == r * window
    ensures start + window <= rw
  {
    BlockBelow(q, r, window);
  }

  lemma FilledParts(r: nat, guard: nat, window: nat, rw: nat, gw: nat)
    requires rw == r * window && gw == guard * window
    ensures Filled(r, guard, window) == rw + gw && (guard >= 1 ==> gw >= window)
  {
    if guard >= 1 { ProductMono(1, guard, window); }
    assert (r + guard) * window == rw + gw;
  }

  lemma GeometryAligns(m: nat, n: nat, r: nat, window: nat, batch: nat, guard: nat, i: nat, d: nat)
    requires Geometry(m, n, r, window, batch, guard) && i < m && d < n
    ensures ReadAligned(n, r, window, batch, Filled(r, guard, window), i, d)
  {
    NonNegative(d % r, window);
    NonNegative(r, window);
    NonNegative(guard, window);
    var start: nat, rw: nat, gw: nat := d % r * window, r * window, guard * window;
    ReplicaStart(d % r, r, window, start, rw);
    FilledParts(r, guard, window, rw, gw);
    WindowAtLeast(n, window);
    assert ReadSlot(i, d, r, window) == start + i + d;
    hide ReadSlot;
    hide Filled;
    AlignedInside(n, r, window, batch, rw + gw, i, d);
  }

  lemma WindowAtLeast(n: nat, window: nat)
    requires n > 0 && window > 0 && window % n == 0
    ensures window >= n
  {
  }

  lemma GeometryOutput(m: nat, n: nat, r: nat, window: nat, batch: nat, guard: nat, q: nat, i: nat)
    requires Geometry(m, n, r, window, batch, guard) && q < r && i < m
    ensures i + q * (window + 1) < batch && (i + q * (window + 1)) % batch == i + q * (window + 1)
    ensures q * window + q + m <= batch
  {
    NonNegative(q, window);
    NonNegative(r, window);
    NonNegative(guard, window);
    var start: nat, rw: nat, gw: nat := q * window, r * window, guard * window;
    ReplicaStart(q, r, window, start, rw);
    FilledParts(r, guard, window, rw, gw);
    OutputInBatch(q, window, i, start, batch);
  }

  lemma OutputInBatch(q: nat, window: nat, i: nat, start: nat, batch: nat)
    requires start == q * window && i + start + q < batch
    ensures i + q * (window + 1) == i + start + q && (i + q * (window + 1)) % batch == i + q * (window + 1)
  {
    ModSmall(i + start + q, batch);
  }

  lemma GeometrySeparates(m: nat, n: nat, r: nat, window: nat, batch: nat, guard: nat)
    requires Geometry(m, n, r, window, batch, guard)
    ensures ReplicasSeparate(m, n, r, window, batch) && MasksFit(m, n, r, window, batch)
  {
    if m > 0 {
      forall j: nat | j < r && j < n ensures j * window + j + m <= batch {
        GeometryOutput(m, n, r, window, batch, guard, j, 0);
      }
    }
    forall q: nat, j: nat, i: nat, a: nat | q < r && j < r && j < n && q != j && i < m && a < m
      ensures !Meets(q, j, i, a, window, batch)
    {
      GeometryOutput(m, n, r, window, batch, guard, q, i);
      OffsetsApart(window, m, q, j, i, i + q * (window + 1));
    }
  }

  /** Both documented geometries multiply every matrix correctly. */
  lemma GeometryMultiplies(m: nat, n: nat, r: nat, window: nat, batch: nat, guard: nat)
    requires Geometry(m, n, r, window, batch, guard)
    ensures InputAccepted(n, r, window, batch, guard) && MultipliesAll(m, n, r, window, batch, guard)
  {
    forall i: nat, d: nat | i < m && d < n
      ensures ReadAligned(n, r, window, batch, Filled(r, guard, window), i, d)
    {
      GeometryAligns(m, n, r, window, batch, guard, i, d);
    }
    GeometrySeparates(m, n, r, window, batch, guard);
    FilledParts(r, guard, window, r * window, guard * window);
    hide ReadAligned;
    hide ReplicasSeparate;
    MultipliesIffAligned(m, n, r, window, batch, guard);
  }

  function CeilTo(n: nat, required: nat): nat
    requires n > 0
  {
    NonNegative((required + n - 1) / n, n);
    n * ((required + n - 1) / n)
  }

  lemma CeilToMeans(n: nat, required: nat)
    requires n > 0
    ensures required <= CeilTo(n, required) < required + n && CeilTo(n, required) % n == 0
  {
    var q := (required + n - 1) / n;
    CeilCovers(required, n, q);
    MultipleOf(n, q, CeilTo(n, required));
    hide CeilTo;
  }

  lemma MultipleOf(n: nat, q: nat, c: nat)
    requires n > 0 && c == n * q
    ensures c == q * n && c % n == 0
  {
    ModUnique(c, n, q, 0);
  }

  lemma QuotientFits(batch: nat, window: nat, r: nat)
    requires window > 0
    ensures r <= batch / window <==> r * window <= batch
  {
    var q, t := batch / window, batch % window;
    assert batch == q * window + t;
    if r <= q { ProductMono(r, q, window); } else { BlockBelow(q, r, window); }
  }

  /** The boundary-safe window: as many whole windows as fit, at most one per input column. */
  method ChooseWindow(m: nat, n: nat, batch: nat) returns (choice: Option<(nat, nat)>)
    requires n > 0
    ensures choice.None? <==> batch < CeilTo(n, m + n)
    ensures choice.Some? ==> var (window, r) := choice.value;
                             window == CeilTo(n, m + n) && Geometry(m, n, r, window, batch, 0) &&
                             (r == n || (r + 1) * window > batch)
  {
    var window := CeilTo(n, m + n);
    CeilToMeans(n, m + n);
    var fit := batch / window;
    var r := if n < fit then n else fit;
    WindowsFit(m, n, batch, window, r);
    hide *;
    choice := if r < 1 then None else Some((window, r));
  }

  lemma WindowsFit(m: nat, n: nat, batch: nat, window: nat, r: nat)
    requires n > 0 && window >= m + n && window % n == 0 && r == if n < batch / window then n else batch / window
    ensures r < 1 <==> batch < window
    ensures r >= 1 ==> Geometry(m, n, r, window, batch, 0) && (r == n || (r + 1) * window > batch)
  {
    QuotientFits(batch, window, r);
    QuotientFits(batch, window, r + 1);
    QuotientFits(batch, window, 1);
    hide Geometry;
    if r >= 1 { GeometryWithoutGuard(m, n, r, window, batch, r * window); }
  }

  lemma GeometryWithoutGuard(m: nat, n: nat, r: nat, window: nat, batch: nat, rw: nat)
    requires n > 0 && 1 <= r <= n && window >= m + n && window % n == 0 && rw == r * window && rw <= batch
    ensures Geometry(m, n, r, window, batch, 0)
  {
  }

  /** This many interleaved windows and one guard window are tried by the search and fit the batch. */
  predicate Interleaves(m: nat, n: nat, batch: nat, replicas: nat)
    requires n > 0
  {
    2 <= replicas <= n && replicas <= batch / n - 1 && (replicas + 1) * CeilTo(n, m + replicas - 1) <= batch
  }

  lemma InterleavedGeometry(m: nat, n: nat, batch: nat, replicas: nat)
    requires n > 0 && m > 0 && Interleaves(m, n, batch, replicas)
    ensures Geometry(m, n, replicas, CeilTo(n, m + replicas - 1), batch, 1)
  {
    CeilToMeans(n, m + replicas - 1);
    hide CeilTo;
  }

  /**
   The largest interleaved replica count that fits with a guard window; only when there is none, the boundary-safe
   window, which needs no guard.
   */
  method ChooseInterleavedWindow(m: int, n: int, batch: int) returns (choice: Option<(nat, nat)>)
    ensures m <= 0 || n <= 0 || batch <= 0 ==> choice.None?
    ensures m > 0 && n > 0 && batch > 0 && (exists k: nat :: Interleaves(m, n, batch, k)) ==>
              (choice.Some? && var (window, r) := choice.value;
               Interleaves(m, n, batch, r) && window == CeilTo(n, m + r - 1) && Geometry(m, n, r, window, batch, 1) &&
               forall more: nat :: r < more ==> !Interleaves(m, n, batch, more))
    ensures m > 0 && n > 0 && batch > 0 && !(exists k: nat :: Interleaves(m, n, batch, k)) ==>
              ((choice.None? <==> batch < CeilTo(n, m + n)) &&
               (choice.Some? ==> var (window, r) := choice.value;
                                 window == CeilTo(n, m + n) && Geometry(m, n, r, window, batch, 0)))
  {
    if m <= 0 || n <= 0 || batch <= 0 { return None; }
    var replicas := if n < batch / n - 1 then n else batch / n - 1;
    while replicas > 1
      invariant replicas <= n && replicas <= batch / n - 1
      invariant forall more: nat :: replicas < more ==> !Interleaves(m, n, batch, more)
    {
      var window := CeilTo(n, m + replicas - 1);
      if (replicas + 1) * window <= batch {
        InterleavedGeometry(m, n, batch, replicas);
        hide *;
        return Some((window, replicas));
      }
      replicas := replicas - 1;
    }
    choice := ChooseWindow(m, n, batch);
  }
}
