/** rotation_sum and replicate_input (src/fhemamba/bsgs_layout.py:58-87, 201-220). */
module RotationSum {
  import opened Modular
  import opened Options
  import opened Sequences
  import opened Slots

  datatype Step = Step(offset: nat, accumulated: bool)

  /** Steps that grow a partial sum from one shift to count shifts: double it, or append one more. */
  ghost predicate Builds(steps: seq<Step>, count: nat)
  {
    if steps == [] then count == 1
    else
      var last := steps[|steps| - 1];
      Builds(steps[..|steps| - 1], last.offset) &&
      count == if last.accumulated then 2 * last.offset else last.offset + 1
  }

  /** Binary digits of count below its leading one, most significant first: bin(count)[3:]. */
  function LowBits(count: nat): seq<bool>
    requires count >= 1
  {
    if count == 1 then [] else LowBits(count / 2) + [count % 2 == 1]
  }

  function PopCount(count: nat): nat
  {
    if count == 0 then 0 else PopCount(count / 2) + count % 2
  }

  function FloorLog2(count: nat): nat
    requires count >= 1
  {
    if count == 1 then 0 else 1 + FloorLog2(count / 2)
  }

  /** The number the digits denote after a leading one. */
  function FromBits(bits: seq<bool>): nat
  {
    if bits == [] then 1
    else 2 * FromBits(bits[..|bits| - 1]) + (if bits[|bits| - 1] then 1 else 0)
  }

  function Ones(bits: seq<bool>): nat
  {
    if bits == [] then 0 else Ones(bits[..|bits| - 1]) + (if bits[|bits| - 1] then 1 else 0)
  }

  lemma {:induction false} LowBitsMeaning(count: nat)
    requires count >= 1
    ensures FromBits(LowBits(count)) == count
    ensures |LowBits(count)| == FloorLog2(count) && Ones(LowBits(count)) + 1 == PopCount(count)
  {
    if count > 1 { LowBitsMeaning(count / 2); }
  }

  /** Logarithmic schedules use floor(log2 count) + popcount(count) - 1 rotations, linear ones count - 1. */
  method RotationSumSchedule(count: int, logarithmic: bool) returns (r: Option<seq<Step>>)
    ensures r.None? <==> count < 1
    ensures r.Some? ==> Builds(r.value, count)
    ensures r.Some? ==> |r.value| == if logarithmic then FloorLog2(count) + PopCount(count) - 1 else count - 1
  {
    if count < 1 { return None; }
    var steps: seq<Step> := [];
    if !logarithmic {
      for offset := 1 to count
        invariant Builds(steps, offset) && |steps| == offset - 1
      {
        steps := steps + [Step(offset, false)];
      }
      return Some(steps);
    }
    var filled: nat := 1;
    var bits := LowBits(count);
    for i := 0 to |bits|
      invariant Builds(steps, filled) && filled == FromBits(bits[..i])
      invariant |steps| == i + Ones(bits[..i])
    {
      assert bits[..i + 1][..i] == bits[..i];
      ghost var before := steps;
      steps := steps + [Step(filled, true)];
      assert steps[..|steps| - 1] == before;
      filled := filled * 2;
      if bits[i] {
        before := steps;
        steps := steps + [Step(filled, false)];
        assert steps[..|steps| - 1] == before;
        filled := filled + 1;
      }
    }
    assert bits[..|bits|] == bits;
    LowBitsMeaning(count);
    r := Some(steps);
  }

  /** Any schedule that builds count computes the sum of count consecutive shifts. */
  method RotationSum(values: Vector, count: int, stride: int, logarithmic: bool) returns (r: Option<Vector>)
    ensures r.None? <==> count < 1
    ensures r.Some? ==> r.value == ShiftSum(values, count, stride)
  {
    var schedule := RotationSumSchedule(count, logarithmic);
    if schedule.None? { return None; }
    var steps := schedule.value;
    var result := values;
    ghost var filled: nat := 1;
    ShiftSumOne(values, stride);
    FilledPrefixes(steps, count);
    for i := 0 to |steps|
      invariant Builds(steps[..i], filled) && result == ShiftSum(values, filled, stride)
    {
      var step := steps[i];
      FilledAt(steps, count, i, filled);
      StepSums(values, filled, stride, step, result);
      BuildsNext(steps, i, filled);
      hide *;
      result := Plus(result, Roll(if step.accumulated then result else values, -(step.offset * stride)));
      filled := if step.accumulated then 2 * filled else filled + 1;
    }
    assert steps[..|steps|] == steps;
    BuildsUnique(steps, filled, count);
    r := Some(result);
  }

  lemma StepSums(values: Vector, filled: nat, stride: int, step: Step, result: Vector)
    requires step.offset == filled && result == ShiftSum(values, filled, stride)
    ensures Plus(result, Roll(if step.accumulated then result else values, -(step.offset * stride)))
            == ShiftSum(values, if step.accumulated then 2 * filled else filled + 1, stride)
  {
    hide *;
    if step.accumulated { ShiftSumDouble(values, filled, stride); } else { ShiftSumNext(values, filled, stride); }
  }

  lemma BuildsNext(steps: seq<Step>, i: nat, filled: nat)
    requires i < |steps| && Builds(steps[..i], filled) && steps[i].offset == filled
    ensures Builds(steps[..i + 1], if steps[i].accumulated then 2 * filled else filled + 1)
  {
    assert steps[..i + 1][..i] == steps[..i];
  }

  lemma {:induction false} FilledPrefixes(steps: seq<Step>, count: nat)
    requires Builds(steps, count)
    ensures forall i :: 0 <= i < |steps| ==> Builds(steps[..i], steps[i].offset)
  {
    if steps != [] {
      var init := steps[..|steps| - 1];
      FilledPrefixes(init, steps[|steps| - 1].offset);
      forall i | 0 <= i < |steps| ensures Builds(steps[..i], steps[i].offset) {
        if i < |init| { assert init[..i] == steps[..i] && init[i] == steps[i]; }
      }
    }
  }

  lemma FilledAt(steps: seq<Step>, count: nat, i: nat, filled: nat)
    requires Builds(steps, count) && i < |steps| && Builds(steps[..i], filled)
    ensures steps[i].offset == filled
  {
    FilledPrefixes(steps, count);
    BuildsUnique(steps[..i], filled, steps[i].offset);
  }

  lemma BuildsUnique(steps: seq<Step>, a: nat, b: nat)
    requires Builds(steps, a) && Builds(steps, b)
    ensures a == b
  {
  }

  // ---------- replicate_input ----------

  /** Copies at stride w of a vector supported on its first w slots tile count * w slots. */
  lemma Tiling(v: Vector, w: nat, count: nat, s: nat)
    requires 0 < w && count * w <= |v| && s < |v|
    requires forall i :: w <= i < |v| ==> v[i] == 0.0
    ensures ShiftSum(v, count, 0 - w)[s] == if s < count * w then v[s % w] else 0.0
  {
    TileSum(v, w, count, s, s / w, s % w);
    if s / w < count { TileOffset(w, count, s, s / w, s % w, count * w); } else { TileBeyond(w, count, s); }
    hide *;
  }

  lemma TileSum(v: Vector, w: nat, count: nat, s: nat, h: nat, t: nat)
    requires 0 < w && count * w <= |v| && s < |v| && h == s / w && t == s % w && t < |v|
    requires forall i :: w <= i < |v| ==> v[i] == 0.0
    ensures ShiftSum(v, count, 0 - w)[s] == if h < count then v[t] else 0.0
  {
    var f := Shifted(v, s, 0 - w);
    forall q: nat | q < count && q != h ensures f(q) == 0.0 { TileMiss(v, w, count, s, q); }
    if h < count { TileHit(v, w, count, s); }
    ShiftSumSlot(v, count, 0 - w, s);
    hide *;
    if h < count { SumSingle(count, f, h); } else { SumZero(count, f); }
  }

  lemma ShiftedBack(v: Vector, s: nat, w: nat, q: nat, i: int)
    requires |v| > 0 && i == s - q * w
    ensures Shifted(v, s, 0 - w)(q) == At(v, i)
  {
    assert s + q * (0 - w) == s - q * w;
  }

  lemma TileHit(v: Vector, w: nat, count: nat, s: nat)
    requires 0 < w && count * w <= |v| && s < |v| && s / w < count
    ensures s < count * w && Shifted(v, s, 0 - w)(s / w) == v[s % w]
  {
    var q, i, total := s / w, s % w, count * w;
    TileOffset(w, count, s, q, i, total);
    hide *;
    ShiftedBack(v, s, w, q, i);
    AtSmall(v, i);
  }

  lemma AtSmall(v: Vector, i: nat)
    requires i < |v|
    ensures At(v, i) == v[i]
  {
  }

  lemma TileOffset(w: nat, count: nat, s: nat, q: nat, i: nat, total: nat)
    requires 0 < w && q == s / w && q < count && i == s % w && total == count * w
    ensures s < total && i < total && i == s - q * w
  {
    BlockBelow(q, count, w);
  }

  lemma TileBeyond(w: nat, count: nat, s: nat)
    requires 0 < w && s / w >= count
    ensures s >= count * w
  {
    assert s == (s / w) * w + s % w;
    ProductMono(count, s / w, w);
  }

  lemma TileMiss(v: Vector, w: nat, count: nat, s: nat, q: nat)
    requires 0 < w && count * w <= |v| && s < |v| && q < count && q != s / w
    requires forall i :: w <= i < |v| ==> v[i] == 0.0
    ensures Shifted(v, s, 0 - w)(q) == 0.0
  {
    var i := s - q * w;
    MissIndex(w, count, s, q, |v|, i);
    ShiftedBack(v, s, w, q, i);
    hide Shifted;
    if i < 0 { ModUnique(i, |v|, -1, i + |v|); } else { ModSmall(i, |v|); }
  }

  // An offset by a wrong multiple of w leaves the first w slots, also after wrapping.
  lemma MissIndex(w: nat, count: nat, s: nat, q: nat, size: nat, i: int)
    requires 0 < w && count * w <= size && s < size && q < count && q != s / w && i == s - q * w
    ensures w <= i < size || (i < 0 && w <= i + size < size)
  {
    var h := s / w;
    var hw, qw, cw := h * w, q * w, count * w;
    assert s == hw + s % w;
    BlockBelow(q, count, w);
    if q < h { BlockBelow(q, h, w); } else { BlockBelow(h, q, w); }
  }

  /** x repeated with period n over the first filled slots, zero elsewhere. */
  function Tiled(x: Vector, filled: nat, batch: nat): (r: Vector)
    requires |x| > 0
    ensures |r| == batch
  {
    seq(batch, s requires 0 <= s => if s < filled then x[s % |x|] else 0.0)
  }

  predicate InputAccepted(n: nat, r: int, window: int, batch: int, guard: int)
  {
    n > 0 && r > 0 && batch > 0 && window > 0 && window % n == 0 && r * window <= batch &&
    guard >= 0 && (r + guard) * window <= batch
  }

  lemma ModOfMod(s: nat, n: nat, k: nat, window: nat)
    requires n > 0 && k > 0 && window == k * n
    ensures (s % window) % n == s % n
  {
    BlockBelow(0, k, n);
    var q := s / window;
    assert s == s % window + q * window;
    assert q * window == (q * k) * n;
    ModMultiple(s % window, q * k, n);
  }

  /** Every one of the r + guard windows holds x with period n; all later slots stay zero. */
  method ReplicateInput(x: Vector, r: int, window: int, batch: int, guard: int, logarithmic: bool)
    returns (slots: Option<Vector>)
    ensures slots.Some? <==> InputAccepted(|x|, r, window, batch, guard)
    ensures slots.Some? ==> slots.value == Tiled(x, (r + guard) * window, batch)
  {
    var n := |x|;
    if n <= 0 || r <= 0 || batch <= 0 { return None; }
    if window <= 0 || window % n != 0 || r * window > batch { return None; }
    if guard < 0 || (r + guard) * window > batch { return None; }
    var reps := window / n;
    assert reps * n == window;
    WindowFits(r + guard, window, batch);
    var base := x + Zeros(batch - n);
    var extended := RotationSum(base, reps, -n, logarithmic);
    forall s | 0 <= s < batch
      ensures extended.value[s] == if s < window then x[s % n] else 0.0
    {
      Tiling(base, n, reps, s);
    }
    slots := RotationSum(extended.value, r + guard, -window, logarithmic);
    forall s | 0 <= s < batch ensures slots.value[s] == Tiled(x, (r + guard) * window, batch)[s] {
      Tiling(extended.value, window, r + guard, s);
      ModOfMod(s, n, reps, window);
    }
  }

  lemma WindowFits(count: int, window: int, batch: int)
    requires count >= 1 && window > 0 && count * window <= batch
    ensures window <= batch
  {
    ProductMono(1, count, window);
  }
}
