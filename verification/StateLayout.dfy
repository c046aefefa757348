/**
 B/C state-block and head expansion (src/fhemamba/state_layout.py:60-124, 155-214): rotate/mask/add programs against
 the dense broadcasts they stand for.
 */
module StateLayout {
  import opened Modular
  import opened Options
  import opened Powers
  import opened Sequences
  import opened Slots
  import RotationSum

  // ---------- state blocks ----------

  predicate GeometryAccepted(states: int, block: int, batch: int)
  {
    states > 0 && block > 0 && batch > 0 && states * block == batch && PowerOfTwo(states) && PowerOfTwo(block)
  }

  function BlockNumber(s: nat, block: nat): nat
    requires block > 0
  {
    s / block
  }

  /** Every block has a source value. */
  predicate Fits(batch: nat, base: nat, block: nat)
  {
    block > 0 && forall s: nat :: s < batch ==> base + BlockNumber(s, block) < batch
  }

  /** Source value n is broadcast over state block n. */
  function Broadcast(conv: Vector, base: nat, block: nat): (out: Vector)
    requires Fits(|conv|, base, block)
    ensures |out| == |conv|
  {
    seq(|conv|, s requires 0 <= s < |conv| => conv[base + BlockNumber(s, block)])
  }

  predicate ReferenceAccepted(conv: Vector, base: int, states: int, block: int)
  {
    GeometryAccepted(states, block, |conv|) && base >= 0 && base + states <= |conv|
  }

  lemma BlockIndex(states: nat, block: nat, s: nat)
    requires block > 0 && s < states * block
    ensures BlockNumber(s, block) < states && BlockNumber(s, block) * block <= s
    ensures s == BlockNumber(s, block) * block + s % block
  {
    if BlockNumber(s, block) >= states { RotationSum.TileBeyond(block, states, s); }
  }

  lemma SourceFits(conv: Vector, base: nat, states: nat, block: nat)
    requires ReferenceAccepted(conv, base, states, block)
    ensures Fits(|conv|, base, block)
  {
    forall s: nat | s < |conv| ensures base + BlockNumber(s, block) < |conv| { BlockIndex(states, block, s); }
  }

  method StateBlockReference(conv: Vector, base: int, states: int, block: int) returns (out: Option<Vector>)
    ensures out.Some? <==> ReferenceAccepted(conv, base, states, block)
    ensures out.Some? ==> Fits(|conv|, base, block) &&
                          out.value == Broadcast(conv, base, block)
  {
    if !ReferenceAccepted(conv, base, states, block) { return None; }
    SourceFits(conv, base, states, block);
    var output := new real[|conv|](_ => 0.0);
    FilledNone(output[..], conv, base, block);
    assert states * block == |conv| && base + states <= |conv|;
    hide *;
    for state := 0 to states
      invariant FilledTo(output[..], conv, base, block, state)
    {
      var start := StartOf(state, states, block);
      ghost var before := output[..];
      FillBlock(output, start, block, conv[base + state]);
      FillStep(before, output[..], conv, base, states, block, state, start);
    }
    FilledAll(output[..], conv, base, states, block);
    out := Some(output[..]);
  }

  ghost predicate FilledTo(output: seq<real>, conv: Vector, base: nat, block: nat, state: nat)
  {
    |output| == |conv| && block > 0 &&
    forall s: nat :: s < |conv| && BlockNumber(s, block) < state && base + BlockNumber(s, block) < |conv|
                     ==> output[s] == conv[base + BlockNumber(s, block)]
  }

  method StartOf(state: nat, states: nat, block: nat) returns (start: nat)
    requires state < states
    ensures start == state * block && start + block <= states * block
  {
    NonNegative(state, block);
    BlockBelow(state, states, block);
    start := state * block;
  }

  lemma FilledNone(output: seq<real>, conv: Vector, base: nat, block: nat)
    requires |output| == |conv| && block > 0
    ensures FilledTo(output, conv, base, block, 0)
  {
  }

  lemma FillStep(before: Vector, after: Vector, conv: Vector, base: nat, states: nat, block: nat,
                 state: nat, start: nat)
    requires FilledTo(before, conv, base, block, state) && |after| == |before|
    requires start == state * block && base + state < |conv|
    requires forall s :: 0 <= s < |after| ==>
               after[s] == if start <= s < start + block then conv[base + state] else before[s]
    ensures FilledTo(after, conv, base, block, state + 1)
  {
    forall s: nat | s < |conv| && BlockNumber(s, block) < state + 1 && base + BlockNumber(s, block) < |conv|
      ensures after[s] == conv[base + BlockNumber(s, block)]
    {
      BlockOf(s, block, state, start);
    }
  }

  // Slot s lies in block state exactly when it is in [start, start + block).
  lemma BlockOf(s: nat, block: nat, state: nat, start: nat)
    requires block > 0 && start == state * block
    ensures start <= s < start + block <==> BlockNumber(s, block) == state
  {
    if start <= s < start + block { ModUnique(s, block, state, s - start); }
  }

  lemma FilledAll(output: Vector, conv: Vector, base: nat, states: nat, block: nat)
    requires ReferenceAccepted(conv, base, states, block) && FilledTo(output, conv, base, block, states)
    requires Fits(|conv|, base, block)
    ensures output == Broadcast(conv, base, block)
  {
    forall s: nat | s < |conv| ensures BlockNumber(s, block) < states { BlockIndex(states, block, s); }
  }

  // output[start : start + count] = value
  method FillBlock(output: array<real>, start: nat, count: nat, value: real)
    requires start + count <= output.Length
    modifies output
    ensures forall s :: 0 <= s < output.Length ==>
              output[s] == if start <= s < start + count then value else old(output[s])
  {
    for i := 0 to count
      invariant forall s :: 0 <= s < output.Length ==>
                  output[s] == if start <= s < start + i then value else old(output[s])
    {
      output[start + i] := value;
    }
  }

  /** The shared B/C source: slots [first, first + count) survive. */
  function Window(v: Vector, first: nat, count: nat): (r: Vector)
    ensures |r| == |v|
  {
    seq(|v|, s requires 0 <= s < |v| => if first <= s < first + count then v[s] else 0.0)
  }

  /** Only the first slot of every block survives. */
  function Seeds(v: Vector, block: nat): (r: Vector)
    requires block > 0
    ensures |r| == |v|
  {
    seq(|v|, s requires 0 <= s < |v| => if s % block == 0 then v[s] else 0.0)
  }

  function Indicator(n: nat, keep: nat -> bool): (mask: Vector)
    ensures |mask| == n
  {
    seq(n, s requires 0 <= s => if keep(s) then 1.0 else 0.0)
  }

  lemma MaskedByIndicator(v: Vector, keep: nat -> bool)
    ensures Masked(v, Indicator(|v|, keep)) == seq(|v|, s requires 0 <= s < |v| => if keep(s) then v[s] else 0.0)
  {
  }

  /** Copies of the source at stride block - 1, before the seed mask. */
  function Replicated(conv: Vector, base: nat, shared: nat, states: nat, block: nat): (r: Vector)
    ensures |r| == |conv|
  {
    ShiftSum(Roll(Window(conv, shared, 2 * states), -(base as int)), states, 1 - block)
  }

  /** What the rotate/mask/add program computes. */
  function Expanded(conv: Vector, base: nat, shared: nat, states: nat, block: nat): (r: Vector)
    requires block > 0
    ensures |r| == |conv|
  {
    ShiftSum(Seeds(Replicated(conv, base, shared, states, block), block), block, -1)
  }

  predicate SourceAccepted(batch: nat, base: int, shared: int, states: int, block: int)
  {
    GeometryAccepted(states, block, batch) && shared >= 0 && shared + 2 * states <= batch &&
    (base == shared || base == shared + states)
  }

  // acc += roll(acc, shift * step) with step doubling up to count
  method DoublingFill(v: Vector, count: nat, shift: int) returns (acc: Vector)
    requires PowerOfTwo(count)
    ensures acc == ShiftSum(v, count, 0 - shift)
  {
    acc := v;
    var step := 1;
    ShiftSumOne(v, 0 - shift);
    while step < count
      invariant PowerOfTwo(step) && step <= count && acc == ShiftSum(v, step, 0 - shift)
    {
      ShiftSumDouble(v, step, 0 - shift);
      DoublingReaches(step, count);
      assert -(step * (0 - shift)) == shift * step;
      acc := Plus(acc, Roll(acc, shift * step));
      step := step * 2;
    }
  }

  method ReplicatedStateBlocks(conv: Vector, base: int, shared: int, states: int, block: int)
    returns (out: Option<Vector>)
    ensures out.Some? <==> SourceAccepted(|conv|, base, shared, states, block)
    ensures out.Some? ==> out.value == Expanded(conv, base, shared, states, block)
  {
    if !SourceAccepted(|conv|, base, shared, states, block) { return None; }
    var batch := |conv|;
    var inSource := (s: nat) => shared <= s < shared + 2 * states;
    MaskedByIndicator(conv, inSource);
    var selected := Masked(conv, Indicator(batch, inSource));
    assert selected == Window(conv, shared, 2 * states);
    var shifted := Roll(selected, -base);
    var replicated := DoublingFill(shifted, states, block - 1);
    var onSeed := (s: nat) => s % block == 0;
    MaskedByIndicator(replicated, onSeed);
    var seeds := Masked(replicated, Indicator(batch, onSeed));
    assert seeds == Seeds(replicated, block);
    var filled := DoublingFill(seeds, block, 1);
    out := Some(filled);
  }

  // ---------- what each block receives ----------

  /** Shift q of the source as block b sees it at its seed slot. */
  function Reads(source: Vector, base: nat, block: nat, b: nat): nat -> real
    requires |source| > 0
  {
    (q: nat) => At(source, b * block + q * (1 - block) + base)
  }

  lemma ModOfModulus(x: int, states: nat, block: nat, batch: nat)
    requires states > 0 && block > 0 && batch == states * block
    ensures batch > 0 && (x % batch) % block == x % block
  {
    NonNegative(states - 1, block);
    assert batch == (states - 1) * block + block;
    var q := x / batch;
    assert x == q * batch + x % batch;
    assert q * batch == (q * states) * block;
    ModMultiple(x % batch, q * states, block);
  }

  lemma SeedAt(v: Vector, states: nat, block: nat, x: int)
    requires states > 0 && block > 0 && |v| == states * block && |v| > 0
    ensures At(Seeds(v, block), x) == if x % block == 0 then At(v, x) else 0.0
  {
    ModOfModulus(x, states, block, |v|);
  }

  lemma OnlySeed(s: nat, q: nat, block: nat)
    requires q < block
    ensures (s - q) % block == 0 <==> q == s % block
  {
    var k, t := BlockNumber(s, block), s % block;
    assert s - q == k * block + (t - q);
    if t >= q { ModUnique(s - q, block, k, t - q); } else { ModUnique(s - q, block, k - 1, t - q + block); }
  }

  lemma SeedTerm(v: Vector, states: nat, block: nat, s: nat, q: nat)
    requires states > 0 && block > 0 && |v| == states * block && |v| > 0 && s < |v| && q < block && s % block <= s
    ensures Shifted(Seeds(v, block), s, -1)(q) == if q == s % block then v[s - s % block] else 0.0
  {
    OnlySeed(s, q, block);
    SeedAt(v, states, block, s - q);
    assert s + q * -1 == s - q;
    hide Seeds;
    if q == s % block { ModSmall(s - q, |v|); }
  }

  /** Every slot of a block ends up with what the block's seed slot holds. */
  lemma SeedFills(v: Vector, states: nat, block: nat, s: nat)
    requires states > 0 && block > 0 && |v| == states * block && s < |v|
    ensures s - s % block >= 0 && ShiftSum(Seeds(v, block), block, -1)[s] == v[s - s % block]
  {
    BlockIndex(states, block, s);
    var seeds, k := Seeds(v, block), s % block;
    forall q: nat | q < block ensures Shifted(seeds, s, -1)(q) == if q == k then v[s - k] else 0.0 {
      SeedTerm(v, states, block, s, q);
    }
    hide Shifted;
    hide Seeds;
    SumSingle(block, Shifted(seeds, s, -1), k);
  }

  lemma ReadTerm(source: Vector, base: nat, block: nat, b: nat, seed: nat, q: nat)
    requires |source| > 0 && seed == b * block
    ensures Shifted(Roll(source, -(base as int)), seed, 1 - block)(q) == Reads(source, base, block, b)(q)
  {
    RollAt(source, -(base as int), seed + q * (1 - block));
    hide At;
  }

  /** Block b is the sum of the shifts its seed slot sees. */
  lemma BlockReceives(conv: Vector, base: nat, shared: nat, states: nat, block: nat, s: nat)
    requires SourceAccepted(|conv|, base, shared, states, block) && s < |conv|
    ensures Expanded(conv, base, shared, states, block)[s]
            == Sum(states, Reads(Window(conv, shared, 2 * states), base, block, BlockNumber(s, block)))
  {
    var source := Window(conv, shared, 2 * states);
    var shifted, b, seed := Roll(source, -(base as int)), BlockNumber(s, block), s - s % block;
    SeedFills(Replicated(conv, base, shared, states, block), states, block, s);
    BlockIndex(states, block, s);
    hide SourceAccepted;
    hide Seeds;
    hide Reads;
    hide Shifted;
    hide BlockNumber;
    forall q: nat | q < states ensures Shifted(shifted, seed, 1 - block)(q) == Reads(source, base, block, b)(q) {
      ReadTerm(source, base, block, b, seed, q);
    }
    SumEqual(states, Shifted(shifted, seed, 1 - block), Reads(source, base, block, b));
  }

  lemma OutsideWindow(v: Vector, first: nat, count: nat, x: int, y: int)
    requires first + count <= |v| && |v| > 0 && (y == x || y == x + |v|) && first + count <= y < first + |v|
    ensures At(Window(v, first, count), x) == 0.0
  {
    ModMultiple(x, 1, |v|);
    if y < |v| { ModSmall(y, |v|); } else { ModUnique(y, |v|, 1, y - |v|); }
  }

  /** With blocks at least as long as the whole B/C source no other shift reaches a seed slot. */
  lemma NoCollision(conv: Vector, base: nat, shared: nat, states: nat, block: nat, b: nat, q: nat)
    requires SourceAccepted(|conv|, base, shared, states, block) && block >= 2 * states
    requires b < states && q < states && q != b
    ensures Reads(Window(conv, shared, 2 * states), base, block, b)(q) == 0.0
  {
    var x := b * block + q * (1 - block) + base;
    var y := MissedSlot(base, shared, states, block, |conv|, b, q, x);
    OutsideWindow(conv, shared, 2 * states, x, y);
    hide At;
    hide Window;
  }

  lemma MissedSlot(base: nat, shared: nat, states: nat, block: nat, batch: nat, b: nat, q: nat, x: int) returns (y: int)
    requires states * block == batch && shared <= base <= shared + states && block >= 2 * states
    requires b < states && q < states && q != b && x == b * block + q * (1 - block) + base
    ensures (y == x || y == x + batch) && shared + 2 * states <= y < shared + batch
  {
    var h: nat := if b > q then b - q else b - q + states;
    var hb, bb, qb := h * block, b * block, q * block;
    assert hb == if b > q then bb - qb else bb - qb + batch;
    ProductMono(1, h, block);
    BlockBelow(h, states, block);
    y := hb + q + base;
    assert q * (1 - block) == q - qb;
  }

  lemma OwnSeed(conv: Vector, base: nat, shared: nat, states: nat, block: nat, b: nat)
    requires SourceAccepted(|conv|, base, shared, states, block) && b < states
    ensures Reads(Window(conv, shared, 2 * states), base, block, b)(b) == conv[base + b]
  {
    assert b * block + b * (1 - block) == b;
    ModSmall(base + b, |conv|);
  }

  lemma WideBlocksBroadcast(conv: Vector, base: nat, shared: nat, states: nat, block: nat)
    requires SourceAccepted(|conv|, base, shared, states, block) && block >= 2 * states
    ensures ReferenceAccepted(conv, base, states, block)
    ensures Fits(|conv|, base, block) &&
            Expanded(conv, base, shared, states, block) == Broadcast(conv, base, block)
  {
    SourceFits(conv, base, states, block);
    forall s: nat | s < |conv|
      ensures Expanded(conv, base, shared, states, block)[s] == conv[base + BlockNumber(s, block)]
    {
      WideBlockSlot(conv, base, shared, states, block, s);
    }
    hide Expanded;
  }

  lemma WideBlockSlot(conv: Vector, base: nat, shared: nat, states: nat, block: nat, s: nat)
    requires SourceAccepted(|conv|, base, shared, states, block) && block >= 2 * states && s < |conv|
    requires base + BlockNumber(s, block) < |conv|
    ensures Expanded(conv, base, shared, states, block)[s] == conv[base + BlockNumber(s, block)]
  {
    BlockReceives(conv, base, shared, states, block, s);
    BlockIndex(states, block, s);
    var b, f := BlockNumber(s, block), Reads(Window(conv, shared, 2 * states), base, block, BlockNumber(s, block));
    forall q: nat | q < states && q != b ensures f(q) == 0.0 {
      NoCollision(conv, base, shared, states, block, b, q);
    }
    OwnSeed(conv, base, shared, states, block, b);
    hide *;
    SumSingle(states, f, b);
  }

  // ---------- exactly when the programs agree ----------

  /** The program equals the dense broadcast for every source of this length. */
  ghost predicate Broadcasts(batch: nat, base: nat, shared: nat, states: nat, block: nat)
  {
    Fits(batch, base, block) &&
    forall conv: Vector :: |conv| == batch ==>
                             Expanded(conv, base, shared, states, block) == Broadcast(conv, base, block)
  }

  function UnitAt(n: nat, u: int): (v: Vector)
    ensures |v| == n
  {
    seq(n, s => if s == u then 1.0 else 0.0)
  }

  // A unit inside the source reaches a foreign seed slot.
  lemma StraySeed(batch: nat, base: nat, shared: nat, states: nat, block: nat, b: nat, q: nat, u: nat)
    requires SourceAccepted(batch, base, shared, states, block) && b < states && q < states
    requires shared <= u < shared + 2 * states && u == b * block + q * (1 - block) + base
    ensures 0 <= b * block < batch && Expanded(UnitAt(batch, u), base, shared, states, block)[b * block] >= 1.0
    ensures BlockNumber(b * block, block) == b
  {
    var conv, s := UnitAt(batch, u), b * block;
    NonNegative(b, block);
    BlockBelow(b, states, block);
    ModUnique(s, block, b, 0);
    BlockReceives(conv, base, shared, states, block, s);
    var f := Reads(Window(conv, shared, 2 * states), base, block, b);
    ModSmall(u, batch);
    assert f(q) == 1.0;
    hide SourceAccepted;
    SumAtLeast(states, f, q);
  }

  lemma TimesOne(a: nat, b: nat)
    ensures b == 1 ==> a * b == a
  {
  }

  lemma NarrowBlocks(batch: nat, base: nat, shared: nat, states: nat, block: nat)
    requires SourceAccepted(batch, base, shared, states, block) && block < 2 * states
    ensures 2 <= block <= states
  {
    assert (2 * states) / 2 == states;
    DoublingReaches(block, 2 * states);
    TimesOne(states, block);
  }

  lemma NarrowBlocksCollide(batch: nat, base: nat, shared: nat, states: nat, block: nat)
    requires SourceAccepted(batch, base, shared, states, block) && block < 2 * states
    ensures !Broadcasts(batch, base, shared, states, block)
  {
    NarrowBlocks(batch, base, shared, states, block);
    if base == shared {
      StraySeed(batch, base, shared, states, block, 1, 0, base + block);
      hide SourceAccepted;
      StrayBreaks(batch, base, shared, states, block, 1, base + block);
    } else {
      StraySeed(batch, base, shared, states, block, 0, 1, base + 1 - block);
      hide SourceAccepted;
      StrayBreaks(batch, base, shared, states, block, 0, base + 1 - block);
    }
  }

  /** The smallest geometry that is accepted and does not broadcast: two states in blocks of two. */
  lemma NarrowBlocksExample()
    ensures SourceAccepted(4, 0, 0, 2, 2) && !Broadcasts(4, 0, 0, 2, 2)
  {
    NarrowBlocksCollide(4, 0, 0, 2, 2);
  }

  lemma StrayBreaks(batch: nat, base: nat, shared: nat, states: nat, block: nat, b: nat, u: nat)
    requires block > 0 && 0 <= b * block < batch && BlockNumber(b * block, block) == b && u != base + b
    requires Expanded(UnitAt(batch, u), base, shared, states, block)[b * block] >= 1.0
    ensures !Broadcasts(batch, base, shared, states, block)
  {
    hide Expanded;
    if Broadcasts(batch, base, shared, states, block) {
      BroadcastAt(UnitAt(batch, u), base, shared, states, block, b * block);
    }
  }

  lemma BroadcastAt(conv: Vector, base: nat, shared: nat, states: nat, block: nat, s: nat)
    requires Broadcasts(|conv|, base, shared, states, block) && s < |conv|
    ensures base + BlockNumber(s, block) < |conv|
    ensures Expanded(conv, base, shared, states, block)[s] == conv[base + BlockNumber(s, block)]
  {
    hide Expanded;
    hide BlockNumber;
    assert Expanded(conv, base, shared, states, block) == Broadcast(conv, base, block);
    hide Broadcasts;
  }

  lemma WideBlocksSuffice(batch: nat, base: nat, shared: nat, states: nat, block: nat)
    requires SourceAccepted(batch, base, shared, states, block) && block >= 2 * states
    ensures Broadcasts(batch, base, shared, states, block)
  {
    WideBlocksBroadcast(Zeros(batch), base, shared, states, block);
    forall conv: Vector | |conv| == batch
      ensures Expanded(conv, base, shared, states, block) == Broadcast(conv, base, block)
    {
      WideBlocksBroadcast(conv, base, shared, states, block);
    }
    hide Broadcast;
    hide Expanded;
    hide Fits;
    hide SourceAccepted;
  }

  /** The shared-source program is the dense broadcast exactly when a block holds the whole B/C source. */
  lemma BroadcastsIffWide(batch: nat, base: nat, shared: nat, states: nat, block: nat)
    requires SourceAccepted(batch, base, shared, states, block)
    ensures Broadcasts(batch, base, shared, states, block) <==> block >= 2 * states
  {
    hide *;
    if block < 2 * states {
      NarrowBlocksCollide(batch, base, shared, states, block);
    } else {
      WideBlocksSuffice(batch, base, shared, states, block);
    }
  }

  // ---------- head expansion ----------

  predicate HeadGeometry(heads: int, dim: int, states: int, group: int, batch: int)
  {
    heads > 0 && dim > 0 && states > 0 && group > 0 && batch > 0 && heads % group == 0 &&
    group * dim * states == batch && PowerOfTwo(dim) && PowerOfTwo(states)
  }

  /** Slot s of any group shows this one of the group's heads. */
  function HeadOf(s: nat, dim: nat, width: nat): nat
    requires dim > 0 && width > 0
  {
    (s % width) / dim
  }

  ghost predicate HeadsFit(heads: nat, dim: nat, width: nat, first: nat)
  {
    dim > 0 && width > 0 && forall s: nat :: first + HeadOf(s, dim, width) < heads
  }

  /** The heads from first on, each over dim slots, repeated over the whole batch. */
  function GroupSlots(values: Vector, dim: nat, width: nat, first: nat, batch: nat): (out: Vector)
    requires HeadsFit(|values|, dim, width, first)
    ensures |out| == batch
  {
    seq(batch, s requires 0 <= s => values[first + HeadOf(s, dim, width)])
  }

  lemma HeadBound(dim: nat, group: nat, s: nat)
    requires dim > 0 && group > 0 && group * dim > 0
    ensures HeadOf(s, dim, group * dim) < group
  {
    var t := s % (group * dim);
    if t / dim >= group { RotationSum.TileBeyond(dim, group, t); }
  }

  lemma GroupHeadsFit(heads: nat, dim: nat, group: nat, width: nat, g: nat)
    requires dim > 0 && group > 0 && heads % group == 0 && g < heads / group && width == group * dim
    ensures g * group + group <= heads && HeadsFit(heads, dim, width, g * group)
  {
    var k := heads / group;
    assert heads == k * group;
    BlockBelow(g, k, group);
    PositiveProduct(group, dim);
    forall s: nat ensures g * group + HeadOf(s, dim, width) < heads { HeadBound(dim, group, s); }
  }

  lemma PositiveProduct(a: nat, b: nat)
    requires a > 0 && b > 0
    ensures a * b > 0
  {
  }

  // The first `count` outputs are right.
  ghost predicate OutputsSoFar(outputs: seq<Vector>, values: Vector, dim: nat, group: nat, width: nat, batch: nat)
  {
    forall g: nat :: g < |outputs| ==>
                       HeadsFit(|values|, dim, width, g * group) &&
                       outputs[g] == GroupSlots(values, dim, width, g * group, batch)
  }

  function Repeat(v: Vector, count: nat): (r: Vector)
    requires count > 0
    ensures |r| == |v| * count
  {
    NonNegative(|v|, count);
    seq(|v| * count, t requires 0 <= t < |v| * count => RepeatAt(v, count, t))
  }

  function RepeatAt(v: Vector, count: nat, t: nat): real
    requires count > 0 && t < |v| * count
  {
    BlockIndex(|v|, count, t);
    v[BlockNumber(t, count)]
  }

  function Tile(v: Vector, count: nat): (r: Vector)
    ensures |r| == |v| * count
  {
    NonNegative(|v|, count);
    seq(|v| * count, s requires 0 <= s < |v| * count => TileAt(v, s))
  }

  function TileAt(v: Vector, s: nat): real
  {
    if |v| == 0 then 0.0 else v[s % |v|]
  }

  datatype Expansion = Outputs(outputs: seq<Vector>) | BadGeometry | OutOfBatch

  lemma DirectSlots(values: Vector, dim: nat, states: nat, group: nat, width: nat, batch: nat, start: nat)
    requires dim > 0 && group > 0 && width == group * dim && width > 0 && width * states == batch
    requires start + group <= |values| && HeadsFit(|values|, dim, width, start)
    ensures Tile(Repeat(values[start..start + group], dim), states) == GroupSlots(values, dim, width, start, batch)
  {
    var repeated := Repeat(values[start..start + group], dim);
    forall s: nat | s < batch
      ensures Tile(repeated, states)[s] == GroupSlots(values, dim, width, start, batch)[s]
    {
      assert Tile(repeated, states)[s] == repeated[s % width];
      BlockIndex(group, dim, s % width);
    }
  }

  /** The per-group specification: repeat every head over dim slots and tile the states. */
  method DirectGroupedHeadExpansion(values: Vector, dim: int, states: int, group: int, batch: int)
    returns (r: Expansion)
    ensures r.BadGeometry? <==> !HeadGeometry(|values|, dim, states, group, batch)
    ensures !r.OutOfBatch?
    ensures r.Outputs? ==> |r.outputs| == |values| / group &&
                           OutputsSoFar(r.outputs, values, dim, group, group * dim, batch)
  {
    if !HeadGeometry(|values|, dim, states, group, batch) { return BadGeometry; }
    var outputs: seq<Vector> := [];
    var width := group * dim;
    PositiveProduct(group, dim);
    for g := 0 to |values| / group
      invariant |outputs| == g && OutputsSoFar(outputs, values, dim, group, width, batch)
    {
      GroupHeadsFit(|values|, dim, group, width, g);
      var start := g * group;
      DirectSlots(values, dim, states, group, width, batch, start);
      hide *;
      outputs := outputs + [Tile(Repeat(values[start..start + group], dim), states)];
    }
    r := Outputs(outputs);
  }

  /** The heads at stride dim, zero elsewhere. */
  function Spread(values: Vector, dim: nat, batch: nat): (r: Vector)
    requires dim > 0
    ensures |r| == batch
  {
    seq(batch, s requires 0 <= s => SpreadAt(values, dim, s))
  }

  function SpreadAt(values: Vector, dim: nat, s: nat): real
    requires dim > 0
  {
    if s % dim == 0 && BlockNumber(s, dim) < |values| then values[BlockNumber(s, dim)] else 0.0
  }

  lemma SpreadIsSeeds(values: Vector, dim: nat, batch: nat)
    requires dim > 0
    ensures Seeds(Spread(values, dim, batch), dim) == Spread(values, dim, batch)
  {
  }

  /** After the doubling every slot of a head shows the head. */
  lemma SpreadFills(values: Vector, dim: nat, blocks: nat, batch: nat, s: nat)
    requires dim > 0 && blocks > 0 && blocks * dim == batch && s < batch && BlockNumber(s, dim) < |values|
    ensures ShiftSum(Spread(values, dim, batch), dim, -1)[s] == values[BlockNumber(s, dim)]
  {
    SpreadIsSeeds(values, dim, batch);
    SeedFills(Spread(values, dim, batch), blocks, dim, s);
    BlockIndex(blocks, dim, s);
    var start := s - s % dim;
    ModUnique(start, dim, BlockNumber(s, dim), 0);
    hide Seeds;
  }

  // group_values[:width] = all[start : start + width]
  function Extract(all: Vector, start: nat, width: nat): (r: Vector)
    requires start + width <= |all|
    ensures |r| == |all|
  {
    all[start..start + width] + Zeros(|all| - width)
  }

  lemma HeadSlot(dim: nat, group: nat, width: nat, g: nat, t: nat)
    requires dim > 0 && width == group * dim && t < width
    ensures BlockNumber(g * width + t, dim) == g * group + t / dim
  {
    var q, e := t / dim, t % dim;
    assert t == q * dim + e;
    assert g * width == (g * group) * dim;
    assert g * width + t == (g * group + q) * dim + e;
    ModUnique(g * width + t, dim, g * group + q, e);
  }

  /** Extracting one group and filling the states gives that group's slots. */
  lemma ExtractedSlots(values: Vector, dim: nat, states: nat, group: nat, width: nat, blocks: nat, batch: nat, g: nat)
    requires dim > 0 && group > 0 && width == group * dim && width > 0 && states * width == batch
    requires blocks > 0 && blocks * dim == batch && g * group + group <= |values|
    requires HeadsFit(|values|, dim, width, g * group) && 0 <= g * width && g * width + width <= batch
    ensures var all := ShiftSum(Spread(values, dim, batch), dim, -1);
            ShiftSum(Extract(all, g * width, width), states, 0 - width)
            == GroupSlots(values, dim, width, g * group, batch)
  {
    var all := ShiftSum(Spread(values, dim, batch), dim, -1);
    var out := ShiftSum(Extract(all, g * width, width), states, 0 - width);
    forall s: nat | s < batch ensures out[s] == GroupSlots(values, dim, width, g * group, batch)[s] {
      ExtractedSlot(values, dim, states, group, width, blocks, batch, g, s, g * width);
    }
    hide ShiftSum;
    hide Spread;
    hide Extract;
  }

  lemma ExtractedSlot(values: Vector, dim: nat, states: nat, group: nat, width: nat, blocks: nat, batch: nat, g: nat,
                      s: nat, start: nat)
    requires dim > 0 && group > 0 && width == group * dim && width > 0 && states * width == batch
    requires blocks > 0 && blocks * dim == batch && g * group + group <= |values| && s < batch
    requires HeadsFit(|values|, dim, width, g * group) && start == g * width && start + width <= batch
    ensures var all := ShiftSum(Spread(values, dim, batch), dim, -1);
            ShiftSum(Extract(all, start, width), states, 0 - width)[s]
            == GroupSlots(values, dim, width, g * group, batch)[s]
  {
    var all, t := ShiftSum(Spread(values, dim, batch), dim, -1), s % width;
    FilledAt(all, start, width, states, s);
    HeadSlot(dim, group, width, g, t);
    HeadBound(dim, group, s);
    SpreadFills(values, dim, blocks, batch, start + t);
    GroupSlot(values, dim, width, g * group, batch, s);
    hide *;
  }

  lemma GroupSlot(values: Vector, dim: nat, width: nat, first: nat, batch: nat, s: nat)
    requires HeadsFit(|values|, dim, width, first) && s < batch
    ensures first + (s % width) / dim < |values|
    ensures GroupSlots(values, dim, width, first, batch)[s] == values[first + (s % width) / dim]
  {
    assert HeadOf(s, dim, width) == (s % width) / dim;
  }

  // State fill: every window of the batch repeats the extracted one.
  lemma FilledAt(all: Vector, start: nat, width: nat, states: nat, s: nat)
    requires width > 0 && states * width == |all| && start + width <= |all| && s < |all|
    ensures start + s % width < |all|
    ensures ShiftSum(Extract(all, start, width), states, 0 - width)[s] == all[start + s % width]
  {
    var one := Extract(all, start, width);
    RotationSum.Tiling(one, width, states, s);
    hide ShiftSum;
  }

  /** All heads are expanded once; every group is then one extraction and one state fill. */
  method SharedGroupedHeadExpansion(values: Vector, dim: int, states: int, group: int, batch: int)
    returns (r: Expansion)
    ensures r.BadGeometry? <==> !HeadGeometry(|values|, dim, states, group, batch)
    ensures HeadGeometry(|values|, dim, states, group, batch) ==> (r.OutOfBatch? <==> |values| * dim > batch)
    ensures r.Outputs? ==> |r.outputs| == |values| / group &&
                           OutputsSoFar(r.outputs, values, dim, group, group * dim, batch)
  {
    if !HeadGeometry(|values|, dim, states, group, batch) { return BadGeometry; }
    ghost var blocks := group * states;
    BatchBlocks(group, dim, states, batch, blocks);
    LastHead(|values|, dim, blocks, batch);
    if (|values| - 1) * dim >= batch { return OutOfBatch; }
    var all := DoublingFill(Spread(values, dim, batch), dim, 1);
    var outputs: seq<Vector> := [];
    var width := group * dim;
    PositiveProduct(group, dim);
    for g := 0 to |values| / group
      invariant |outputs| == g && OutputsSoFar(outputs, values, dim, group, width, batch)
    {
      GroupHeadsFit(|values|, dim, group, width, g);
      GroupWindow(|values|, dim, group, width, g, batch);
      ExtractedSlots(values, dim, states, group, width, blocks, batch, g);
      hide *;
      var filled := DoublingFill(Extract(all, g * width, width), states, width);
      outputs := outputs + [filled];
    }
    r := Outputs(outputs);
  }

  /** Four heads of two slots in a batch of four: the direct form expands them, the shared one overruns. */
  method OverrunExample(values: Vector) returns (direct: Expansion, shared: Expansion)
    requires |values| == 4
    ensures direct.Outputs? && shared.OutOfBatch?
  {
    assert PowerOfTwo(2) && PowerOfTwo(1);
    direct := DirectGroupedHeadExpansion(values, 2, 1, 2, 4);
    shared := SharedGroupedHeadExpansion(values, 2, 1, 2, 4);
  }

  lemma BatchBlocks(group: nat, dim: nat, states: nat, batch: nat, blocks: nat)
    requires group > 0 && dim > 0 && states > 0 && group * dim * states == batch && blocks == group * states
    ensures blocks > 0 && blocks * dim == batch && states * (group * dim) == batch
  {
    PositiveProduct(group, states);
  }

  // The last head starts outside the batch exactly when the heads together overrun it.
  lemma LastHead(heads: nat, dim: nat, blocks: nat, batch: nat)
    requires heads > 0 && dim > 0 && blocks * dim == batch
    ensures (heads - 1) * dim >= batch <==> heads * dim > batch
  {
    if heads - 1 >= blocks {
      ProductMono(blocks, heads - 1, dim);
    } else {
      ProductMono(heads, blocks, dim);
    }
    assert heads * dim == (heads - 1) * dim + dim;
  }

  lemma GroupWindow(heads: nat, dim: nat, group: nat, width: nat, g: nat, batch: nat)
    requires width == group * dim && g * group + group <= heads && heads * dim <= batch
    ensures 0 <= g * width && g * width + width <= batch
  {
    NonNegative(g, width);
    ProductMono(g * group + group, heads, dim);
    assert (g * group + group) * dim == g * width + width;
  }
}