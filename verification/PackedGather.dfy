/**
 The routing that a gather, scatter, repeat or sum node really performs
 (native/fideslib_stage0/src/packed_fideslib.cpp:294-343, 641-656): which of its three forms is taken, what every form
 computes, and that its mask stages are the levels the planner charges.
 */
module PackedGather {
  import opened KeySums
  import opened Modular
  import opened Options
  import opened PackedProgram
  import opened PackedRouting
  import opened Sequences
  import opened Slots
  import PackedDepth

  /** Left alone, one mask per rotation of the whole distance, or the stages of a multi-stage routing. */
  datatype Routed = Untouched | Direct(masks: map<int, Vector>) | Staged(stages: seq<Stage>)

  function Source(idx: seq<int>, scatter: bool, i: nat): int
    requires i < |idx|
  {
    if scatter then i else idx[i]
  }

  function Target(idx: seq<int>, scatter: bool, i: nat): int
    requires i < |idx|
  {
    if scatter then idx[i] else i
  }

  /** Element i comes to slot t by this rotation. */
  predicate Brings(idx: seq<int>, scatter: bool, i: nat, offset: int, t: int)
    requires i < |idx|
  {
    Target(idx, scatter, i) == t && Source(idx, scatter, i) - Target(idx, scatter, i) == offset
  }

  predicate Brought(idx: seq<int>, scatter: bool, n: nat, offset: int, t: int)
    requires n <= |idx|
  {
    exists i: nat :: i < n && Brings(idx, scatter, i, offset, t)
  }

  // One destination mask for every rotation of the first n elements.
  ghost predicate MasksTo(masks: map<int, Vector>, idx: seq<int>, scatter: bool, slots: nat, n: nat)
    requires n <= |idx|
  {
    (forall offset :: offset in masks ==> |masks[offset]| == slots) &&
    (forall offset, t: nat :: offset in masks && t < slots ==> MaskEntry(masks, idx, scatter, n, offset, t)) &&
    forall i: nat :: i < n ==> Source(idx, scatter, i) - Target(idx, scatter, i) in masks
  }

  predicate MaskEntry(masks: map<int, Vector>, idx: seq<int>, scatter: bool, n: nat, offset: int, t: nat)
    requires n <= |idx| && offset in masks && t < |masks[offset]|
  {
    masks[offset][t] == if Brought(idx, scatter, n, offset, t) then 1.0 else 0.0
  }

  predicate IndicesInside(idx: seq<int>, slots: nat)
  {
    |idx| <= slots && forall i :: 0 <= i < |idx| ==> 0 <= idx[i] < slots
  }

  function MaskAt(masks: map<int, Vector>, offset: int, slots: nat): (mask: Vector)
  {
    if offset in masks then masks[offset] else Zeros(slots)
  }

  lemma BroughtNext(idx: seq<int>, scatter: bool, n: nat, offset: int, t: int)
    requires n < |idx|
    ensures Brought(idx, scatter, n + 1, offset, t)
            <==> Brought(idx, scatter, n, offset, t) || Brings(idx, scatter, n, offset, t)
  {
    hide Brings;
    if Brought(idx, scatter, n, offset, t) {
      var i: nat :| i < n && Brings(idx, scatter, i, offset, t);
      assert i < n + 1;
    }
    if Brings(idx, scatter, n, offset, t) { assert n < n + 1; }
  }

  // A rotation without a mask brings nothing yet.
  lemma NothingYet(masks: map<int, Vector>, idx: seq<int>, scatter: bool, slots: nat, n: nat, offset: int, t: nat)
    requires n <= |idx| && MasksTo(masks, idx, scatter, slots, n) && t < slots
    ensures |MaskAt(masks, offset, slots)| == slots
    ensures MaskAt(masks, offset, slots)[t] == if Brought(idx, scatter, n, offset, t) then 1.0 else 0.0
  {
    if offset in masks {
      assert MaskEntry(masks, idx, scatter, n, offset, t);
    } else {
      assert !Brought(idx, scatter, n, offset, t);
    }
  }

  lemma MasksNext(masks: map<int, Vector>, idx: seq<int>, scatter: bool, slots: nat, n: nat)
    requires n < |idx| && IndicesInside(idx, slots) && MasksTo(masks, idx, scatter, slots, n)
    ensures var offset, t := Source(idx, scatter, n) - Target(idx, scatter, n), Target(idx, scatter, n);
            0 <= t < slots && |MaskAt(masks, offset, slots)| == slots &&
            MasksTo(masks[offset := MaskAt(masks, offset, slots)[t := 1.0]], idx, scatter, slots, n + 1)
  {
    var offset, t := Source(idx, scatter, n) - Target(idx, scatter, n), Target(idx, scatter, n);
    NothingYet(masks, idx, scatter, slots, n, offset, t);
    var next := masks[offset := MaskAt(masks, offset, slots)[t := 1.0]];
    var m := n + 1;
    forall o, s: nat | o in next && s < slots ensures MaskEntry(next, idx, scatter, m, o, s) {
      BroughtNext(idx, scatter, n, o, s);
      if o == offset {
        NothingYet(masks, idx, scatter, slots, n, offset, s);
      } else {
        assert MaskEntry(masks, idx, scatter, n, o, s);
      }
      hide Brought;
    }
    hide MaskEntry;
  }

  method DirectMasks(idx: seq<int>, scatter: bool, slots: nat) returns (masks: map<int, Vector>)
    requires IndicesInside(idx, slots)
    ensures MasksTo(masks, idx, scatter, slots, |idx|)
  {
    masks := map[];
    hide MasksTo;
    assert MasksTo(masks, idx, scatter, slots, 0) by { NoMasksTo(idx, scatter, slots); }
    for i := 0 to |idx|
      invariant MasksTo(masks, idx, scatter, slots, i)
    {
      MasksNext(masks, idx, scatter, slots, i);
      var offset, t := Source(idx, scatter, i) - Target(idx, scatter, i), Target(idx, scatter, i);
      masks := masks[offset := MaskAt(masks, offset, slots)[t := 1.0]];
    }
  }

  lemma NoMasksTo(idx: seq<int>, scatter: bool, slots: nat)
    ensures MasksTo(map[], idx, scatter, slots, 0)
  {
  }

  // ---------- what routing means ----------

  /** y is the gather x[idx[t]], or the scatter of x[i] to idx[i], and zero elsewhere. */
  ghost predicate Routes(y: Vector, x: Vector, idx: seq<int>, scatter: bool)
  {
    |y| == |x| && IndicesInside(idx, |x|) &&
    (!scatter ==> forall t :: 0 <= t < |x| ==> y[t] == if t < |idx| then x[idx[t]] else 0.0) &&
    (scatter ==> forall i :: 0 <= i < |idx| ==> y[idx[i]] == x[i]) &&
    (scatter ==> forall t :: 0 <= t < |x| && t !in idx ==> y[t] == 0.0)
  }

  predicate DistinctTargets(idx: seq<int>) { forall i, j :: 0 <= i < j < |idx| ==> idx[i] != idx[j] }

  ghost predicate MasksSized(masks: map<int, Vector>, slots: nat)
  {
    forall offset :: offset in masks ==> |masks[offset]| == slots
  }

  // The one rotation that brings something to slot t brings its element.
  lemma DirectSlot(masks: map<int, Vector>, idx: seq<int>, scatter: bool, x: Vector, i: nat)
    requires IndicesInside(idx, |x|) && MasksTo(masks, idx, scatter, |x|, |idx|) && i < |idx|
    requires MasksSized(masks, |x|) && (scatter ==> DistinctTargets(idx))
    ensures 0 <= Target(idx, scatter, i) < |x| && 0 <= Source(idx, scatter, i) < |x|
    ensures ApplyMasks(masks, x)[Target(idx, scatter, i)] == x[Source(idx, scatter, i)]
  {
    var t: nat, s: nat := Target(idx, scatter, i), Source(idx, scatter, i);
    var f := MaskedTerms(masks, x, t);
    forall offset | offset in masks.Keys && offset != s - t ensures f(offset) == 0.0 {
      assert MaskEntry(masks, idx, scatter, |idx|, offset, t);
      assert !Brought(idx, scatter, |idx|, offset, t);
      TermAt(masks, x, t, offset);
    }
    assert Brings(idx, scatter, i, s - t, t);
    assert MaskEntry(masks, idx, scatter, |idx|, s - t, t);
    TermAt(masks, x, t, s - t);
    ModSmall(s, |x|);
    hide MaskedTerms;
    hide MasksTo;
    SumKeysSingle(masks.Keys, f, s - t);
  }

  lemma TermAt(masks: map<int, Vector>, x: Vector, t: nat, offset: int)
    requires MasksSized(masks, |x|) && t < |x| && offset in masks
    ensures MaskedTerms(masks, x, t)(offset) == x[(t + offset) % |x|] * masks[offset][t]
  {
    assert (t - -offset) % |x| == (t + offset) % |x|;
  }

  lemma DirectClears(masks: map<int, Vector>, idx: seq<int>, scatter: bool, x: Vector, t: nat)
    requires IndicesInside(idx, |x|) && MasksTo(masks, idx, scatter, |x|, |idx|) && t < |x|
    requires MasksSized(masks, |x|) && forall i: nat :: i < |idx| ==> Target(idx, scatter, i) != t
    ensures ApplyMasks(masks, x)[t] == 0.0
  {
    var f := MaskedTerms(masks, x, t);
    forall offset | offset in masks.Keys ensures f(offset) == 0.0 {
      assert MaskEntry(masks, idx, scatter, |idx|, offset, t);
      TermAt(masks, x, t, offset);
    }
    hide MaskedTerms;
    hide MasksTo;
    SumKeysZero(masks.Keys, f);
  }

  /** One mask per whole distance routes any index list in one stage, repeated gather sources included. */
  lemma DirectRoutes(masks: map<int, Vector>, idx: seq<int>, scatter: bool, x: Vector)
    requires IndicesInside(idx, |x|) && MasksTo(masks, idx, scatter, |x|, |idx|)
    requires scatter ==> DistinctTargets(idx)
    ensures MasksSized(masks, |x|) && Routes(ApplyMasks(masks, x), x, idx, scatter)
  {
    var y := ApplyMasks(masks, x);
    forall i: nat | i < |idx|
      ensures 0 <= Target(idx, scatter, i) < |x| && 0 <= Source(idx, scatter, i) < |x|
      ensures y[Target(idx, scatter, i)] == x[Source(idx, scatter, i)]
    {
      DirectSlot(masks, idx, scatter, x, i);
    }
    forall t: nat | t < |x| && (if scatter then t !in idx else t >= |idx|) ensures y[t] == 0.0 {
      DirectClears(masks, idx, scatter, x, t);
    }
    hide MasksTo;
    if scatter {
      forall i | 0 <= i < |idx| ensures y[idx[i]] == x[i] { assert Target(idx, scatter, i) == idx[i]; }
    } else {
      forall t | 0 <= t < |x| ensures y[t] == if t < |idx| then x[idx[t]] else 0.0 {
        if t < |idx| { assert Target(idx, scatter, t) == t; }
      }
    }
  }

  // ---------- the form that is taken ----------

  /** What the program reader accepts of a gather's or a scatter's index list. */
  predicate GatherAccepted(indices: seq<real>, scatter: bool, slots: nat)
  {
    |indices| <= slots <= 32768 && IndicesBelow(indices, slots) && (scatter ==> PackedProgram.Distinct(indices))
  }

  /** The mask multiplications one after the other. */
  function MaskLevels(r: Routed): nat
  {
    match r
    case Untouched => 0
    case Direct(masks) => 1
    case Staged(stages) => |stages|
  }

  ghost predicate Sized(r: Routed, slots: nat) { r.Direct? ==> MasksSized(r.masks, slots) }

  ghost function RunRouted(r: Routed, x: Vector): (y: Vector)
    requires Sized(r, |x|)
    ensures |y| == |x|
  {
    match r
    case Untouched => x
    case Direct(masks) => ApplyMasks(masks, x)
    case Staged(stages) => Run(stages, x)
  }

  // The slots behind the first n are empty, as they are at the end of a node.
  ghost predicate Clean(x: Vector, n: nat) { forall t :: n <= t < |x| ==> x[t] == 0.0 }

  /** It routes every vector of so many slots; one that is left alone must be clean behind its elements. */
  ghost predicate AlwaysRoutes(r: Routed, idx: seq<int>, scatter: bool, slots: nat)
  {
    Sized(r, slots) &&
    forall x: Vector :: |x| == slots && (r.Untouched? ==> Clean(x, |idx|)) ==> Routes(RunRouted(r, x), x, idx, scatter)
  }

  lemma {:induction false} IncreasingAbove(indices: seq<real>, slots: nat, i: nat)
    requires IndicesBelow(indices, slots) && PackedDepth.Increasing(indices) && i < |indices|
    ensures indices[i] >= i as real
    decreases i
  {
    if i > 0 {
      IncreasingAbove(indices, slots, i - 1);
      assert indices[i] > indices[i - 1] && Integral(indices[i]) && Integral(indices[i - 1]);
      hide *;
      NextInteger(indices[i], indices[i - 1], i);
    } else {
      assert indices[0] >= 0.0;
    }
  }

  lemma NextInteger(x: real, y: real, i: nat)
    requires Integral(x) && Integral(y) && x > y && i > 0 && y >= (i - 1) as real
    ensures x >= i as real
  {
    assert x.Floor > y.Floor;
  }

  lemma IncreasingAccepted(indices: seq<real>, slots: nat)
    requires IndicesBelow(indices, slots) && slots <= 32768 && PackedDepth.Increasing(indices)
    ensures IndicesAccepted(indices)
  {
    forall i: nat | i < |indices| ensures IndexAccepted(indices, i) {
      IncreasingAbove(indices, slots, i);
      assert Integral(indices[i]);
    }
  }

  lemma FloorsInside(indices: seq<real>, scatter: bool, slots: nat)
    requires GatherAccepted(indices, scatter, slots)
    ensures IndicesInside(Floors(indices), slots) && (scatter ==> DistinctTargets(Floors(indices)))
  {
    forall i | 0 <= i < |indices| ensures Floors(indices)[i] as real == indices[i] { assert Integral(indices[i]); }
  }

  lemma UntouchedRoutes(indices: seq<real>, slots: nat)
    requires GatherAccepted(indices, true, slots) && PackedDepth.Identity(indices)
    ensures AlwaysRoutes(Untouched, Floors(indices), true, slots)
  {
    FloorsInside(indices, true, slots);
    forall i | 0 <= i < |indices| ensures Floors(indices)[i] == i && i in Floors(indices) {
      assert indices[i] == i as real;
      assert Floors(indices)[i] == i;
    }
    forall x: Vector | |x| == slots && Clean(x, |indices|)
      ensures Routes(RunRouted(Untouched, x), x, Floors(indices), true)
    {
    }
  }

  lemma DirectAlways(masks: map<int, Vector>, indices: seq<real>, scatter: bool, slots: nat)
    requires GatherAccepted(indices, scatter, slots) && MasksTo(masks, Floors(indices), scatter, slots, |indices|)
    ensures AlwaysRoutes(Direct(masks), Floors(indices), scatter, slots)
  {
    FloorsInside(indices, scatter, slots);
    var r, idx := Direct(masks), Floors(indices);
    MaskSizes(masks, idx, scatter, slots);
    hide *;
    forall x: Vector | |x| == slots ensures SizedRoutes(r, x, idx, scatter) {
      DirectRoutes(masks, idx, scatter, x);
      DirectRuns(masks, idx, scatter, x);
    }
    AlwaysFrom(r, idx, scatter, slots);
  }

  // Routes, with the sizes of the masks.
  ghost predicate SizedRoutes(r: Routed, x: Vector, idx: seq<int>, scatter: bool)
  {
    Sized(r, |x|) && Routes(RunRouted(r, x), x, idx, scatter)
  }

  lemma MaskSizes(masks: map<int, Vector>, idx: seq<int>, scatter: bool, slots: nat)
    requires MasksTo(masks, idx, scatter, slots, |idx|)
    ensures Sized(Direct(masks), slots)
  {
  }

  lemma DirectRuns(masks: map<int, Vector>, idx: seq<int>, scatter: bool, x: Vector)
    requires MasksSized(masks, |x|) && Routes(ApplyMasks(masks, x), x, idx, scatter)
    ensures SizedRoutes(Direct(masks), x, idx, scatter)
  {
    hide Routes;
  }

  lemma AlwaysFrom(r: Routed, idx: seq<int>, scatter: bool, slots: nat)
    requires Sized(r, slots)
    requires forall x: Vector :: |x| == slots ==> SizedRoutes(r, x, idx, scatter)
    ensures AlwaysRoutes(r, idx, scatter, slots)
  {
    hide Routes;
    forall x: Vector | |x| == slots && (r.Untouched? ==> Clean(x, |idx|))
      ensures Routes(RunRouted(r, x), x, idx, scatter)
    {
      assert SizedRoutes(r, x, idx, scatter);
    }
  }

  lemma StagedAlways(stages: seq<Stage>, indices: seq<real>, scatter: bool, slots: nat)
    requires GatherAccepted(indices, scatter, slots) && Monotone(Floors(indices))
    requires Routing(stages, Floors(indices), scatter, 3)
    ensures AlwaysRoutes(Staged(stages), Floors(indices), scatter, slots)
  {
    FloorsInside(indices, scatter, slots);
    var r, idx := Staged(stages), Floors(indices);
    LastInside(idx, slots);
    hide *;
    forall x: Vector | |x| == slots ensures SizedRoutes(r, x, idx, scatter) {
      RoutingCorrect(stages, idx, scatter, 3, x);
      StagedRuns(stages, idx, scatter, x);
    }
    AlwaysFrom(r, idx, scatter, slots);
  }

  lemma LastInside(idx: seq<int>, slots: nat)
    requires IndicesInside(idx, slots)
    ensures (idx != [] ==> idx[|idx| - 1] < slots) && forall i :: 0 <= i < |idx| ==> 0 <= idx[i]
    ensures Sized(Staged([]), slots)
  {
  }

  lemma StagedRuns(stages: seq<Stage>, idx: seq<int>, scatter: bool, x: Vector)
    requires IndicesInside(idx, |x|)
    requires !scatter ==> forall t :: 0 <= t < |x| ==> Run(stages, x)[t] == if t < |idx| then x[idx[t]] else 0.0
    requires scatter ==> forall i :: 0 <= i < |idx| ==> Run(stages, x)[idx[i]] == x[i]
    requires scatter ==> forall t :: 0 <= t < |x| && t !in idx ==> Run(stages, x)[t] == 0.0
    ensures SizedRoutes(Staged(stages), x, idx, scatter)
  {
    hide Run;
  }

  /**
   The form a gather or scatter takes routes every vector, and its mask stages are exactly the levels that the planner
   charges: none for a scatter in place, one for lists out of order or with at most 32 distinct distances, and the
   stages of the multi-stage routing otherwise.
   */
  method PlanGather(indices: seq<real>, scatter: bool, slots: nat) returns (r: Routed)
    requires GatherAccepted(indices, scatter, slots)
    ensures AlwaysRoutes(r, Floors(indices), scatter, slots)
    ensures MaskLevels(r) == PackedDepth.RoutingDepth(indices, scatter)
  {
    var monotone, identity, offsets, maximum := PackedDepth.ScanIndices(indices);
    FloorsInside(indices, scatter, slots);
    hide Routes;
    hide AlwaysRoutes;
    hide Routing;
    hide PackedDepth.Maximum;
    hide PackedDepth.Offsets;
    if scatter && identity {
      UntouchedRoutes(indices, slots);
      return Untouched;
    }
    if monotone && |offsets| > 32 {
      IncreasingAccepted(indices, slots);
      var stages := MonotoneRouting(indices, scatter, 3);
      StagedAlways(stages.value, indices, scatter, slots);
      PackedDepth.DepthCountsStages(indices, scatter, stages.value);
      return Staged(stages.value);
    }
    var masks := DirectMasks(Floors(indices), scatter, slots);
    DirectAlways(masks, indices, scatter, slots);
    r := Direct(masks);
  }
}
