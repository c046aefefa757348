/**
 What repeat and sum nodes compute around their routing (native/fideslib_stage0/src/packed_fideslib.cpp:641-656): the
 index lists that the planner costs are the ones that copy whole blocks and add up whole runs.
 */
module PackedRepeat {
  import opened Modular
  import opened PackedGather
  import opened Powers
  import opened Slots
  import PackedDepth
  import PackedProgram
  import PackedRouting

  function RepeatSlots(outer: nat, inner: nat, repeat: nat): seq<int>
    requires inner > 0
  {
    PackedRouting.Floors(PackedDepth.RepeatIndices(outer, inner, repeat))
  }

  // Slot r of period g, without the product in its callers.
  ghost predicate SlotOf(p: int, g: nat, r: int, period: nat) { p == g * period + r }

  lemma RepeatSlotAt(outer: nat, inner: nat, repeat: nat, q: nat, g: nat, j: nat, period: nat)
    requires inner > 0 && period == inner * repeat && q < outer * inner && g == q / inner && j == q % inner
    ensures |RepeatSlots(outer, inner, repeat)| == outer * inner && g < outer
    ensures SlotOf(RepeatSlots(outer, inner, repeat)[q], g, j, period)
  {
    assert q == g * inner + j;
    if g >= outer { PackedRouting.MulLe(outer, g, inner); }
    assert PackedDepth.Block(q, inner) * inner * repeat + PackedDepth.Position(q, inner) == g * inner * repeat + j;
    Regroup(g, inner, repeat, period);
  }

  lemma Regroup(g: nat, inner: nat, repeat: nat, period: nat)
    requires period == inner * repeat
    ensures g * inner * repeat == g * period
  {
  }

  lemma SeedSlot(outer: nat, inner: nat, repeat: nat, g: nat, j: nat, period: nat) returns (q: nat)
    requires inner > 0 && period == inner * repeat && g < outer && j < inner
    ensures q == g * inner + j && q < outer * inner == |RepeatSlots(outer, inner, repeat)|
    ensures SlotOf(RepeatSlots(outer, inner, repeat)[q], g, j, period)
  {
    q := g * inner + j;
    BlockBelow(g, outer, inner);
    ModUnique(q, inner, g, j);
    RepeatSlotAt(outer, inner, repeat, q, g, j, period);
  }

  // No element goes to the rest of a period.
  lemma RestEmpty(outer: nat, inner: nat, repeat: nat, p: int, g: nat, r: nat, period: nat)
    requires inner > 0 && period == inner * repeat && SlotOf(p, g, r, period) && inner <= r < period
    ensures p !in RepeatSlots(outer, inner, repeat)
  {
    var idx := RepeatSlots(outer, inner, repeat);
    forall q: nat | q < |idx| ensures idx[q] != p {
      RepeatSlotAt(outer, inner, repeat, q, q / inner, q % inner, period);
      ModUnique(p, period, g, r);
      if idx[q] == p { ModUnique(p, period, q / inner, q % inner); }
    }
  }

  // Nor to anything behind the first block of the last period.
  lemma EndEmpty(outer: nat, inner: nat, repeat: nat, p: int, last: nat, period: nat)
    requires inner > 0 && period == inner * repeat && outer > 0 && last == (outer - 1) * period && p >= last + inner
    ensures p !in RepeatSlots(outer, inner, repeat)
  {
    var idx := RepeatSlots(outer, inner, repeat);
    forall q: nat | q < |idx| ensures idx[q] != p {
      RepeatSlotAt(outer, inner, repeat, q, q / inner, q % inner, period);
      PackedRouting.MulLe(q / inner, outer - 1, period);
    }
  }

  // The slot that copy q0 of element (g, j) finds q blocks to the left, by the side on which it lies.
  ghost predicate CopyOf(s: nat, g: nat, q0: nat, j: nat, outer: nat, inner: nat, repeat: nat, period: nat)
  {
    inner > 0 && repeat > 0 && period == inner * repeat && g < outer && q0 < repeat && j < inner &&
    SlotOf(s, g, q0 * inner + j, period)
  }

  lemma CopyHere(s: nat, g: nat, q0: nat, j: nat, outer: nat, inner: nat, repeat: nat, period: nat)
    requires CopyOf(s, g, q0, j, outer, inner, repeat, period)
    ensures SlotOf(s - q0 * inner, g, j, period)
  {
  }

  lemma CopyLeft(s: nat, g: nat, q0: nat, j: nat, q: nat, outer: nat, inner: nat, repeat: nat, period: nat)
    requires CopyOf(s, g, q0, j, outer, inner, repeat, period) && q < q0
    ensures 0 <= s - q * inner <= s && s - q * inner !in RepeatSlots(outer, inner, repeat)
  {
    WithinPeriod(q0 - q, j, inner, repeat, period);
    Nearer(q0, q, inner);
    NonNegative(g, period);
    NonNegative(q, inner);
    assert SlotOf(s - q * inner, g, (q0 - q) * inner + j, period);
    hide RepeatSlots;
    RestEmpty(outer, inner, repeat, s - q * inner, g, (q0 - q) * inner + j, period);
  }

  lemma CopyRight(s: nat, g: nat, q0: nat, j: nat, q: nat, outer: nat, inner: nat, repeat: nat, period: nat, slots: nat)
    requires CopyOf(s, g, q0, j, outer, inner, repeat, period) && q0 < q < repeat
    requires outer * period <= slots && s < slots
    ensures var p := s - q * inner;
            (0 <= p < slots && p !in RepeatSlots(outer, inner, repeat)) ||
            (0 <= p + slots < slots && p + slots !in RepeatSlots(outer, inner, repeat))
  {
    var r := (repeat - (q - q0)) * inner + j;
    WithinPeriod(repeat - (q - q0), j, inner, repeat, period);
    Wrapped(q0, q, inner, repeat, period);
    NonNegative(q, inner);
    hide RepeatSlots;
    if g > 0 {
      BeforePeriod(s, g, q0 * inner + j, r, q * inner, period);
      RestEmpty(outer, inner, repeat, s - q * inner, g - 1, r, period);
      NonNegative(g - 1, period);
    } else {
      assert s - q * inner == r - period;
      BeforeEnd(outer, period);
      EndEmpty(outer, inner, repeat, slots + (r - period), (outer - 1) * period, period);
    }
  }

  // What copy q0 of element (g, j) reads q blocks to the left: its element, or nothing.
  lemma CopyTerm(y: Vector, x: Vector, outer: nat, inner: nat, repeat: nat, g: nat, q0: nat, j: nat, q: nat, s: nat,
                 period: nat)
    requires CopyOf(s, g, q0, j, outer, inner, repeat, period) && q < repeat && outer * period <= |x| && s < |x|
    requires Routes(y, x, RepeatSlots(outer, inner, repeat), true)
    ensures 0 <= g * inner + j < |x| && |y| == |x|
    ensures Shifted(y, s, 0 - inner)(q) == if q == q0 then x[g * inner + j] else 0.0
  {
    var e := SeedSlot(outer, inner, repeat, g, j, period);
    Inside(y, x, outer, inner, repeat, e);
    TermIs(y, s, q, inner);
    hide Shifted;
    hide RepeatSlots;
    if q == q0 {
      CopyHere(s, g, q0, j, outer, inner, repeat, period);
      ModSmall(s - q * inner, |y|);
    } else if q < q0 {
      CopyLeft(s, g, q0, j, q, outer, inner, repeat, period);
      ModSmall(s - q * inner, |y|);
      EmptySlot(y, x, RepeatSlots(outer, inner, repeat), s - q * inner);
    } else {
      CopyRight(s, g, q0, j, q, outer, inner, repeat, period, |x|);
      hide *;
      WrapEmpty(y, x, RepeatSlots(outer, inner, repeat), s - q * inner);
    }
  }

  lemma TermIs(y: Vector, s: nat, q: nat, inner: nat)
    requires |y| > 0
    ensures Shifted(y, s, 0 - inner)(q) == y[(s - q * inner) % |y|]
  {
    ShiftBy(s, q, inner);
  }

  lemma WrapEmpty(y: Vector, x: Vector, idx: seq<int>, p: int)
    requires Routes(y, x, idx, true) && |x| > 0
    requires (0 <= p < |x| && p !in idx) || (0 <= p + |x| < |x| && p + |x| !in idx)
    ensures |y| == |x| && y[p % |y|] == 0.0
  {
    SizesOf(y, x, idx);
    ModMultiple(p, 1, |y|);
    if 0 <= p < |x| {
      ModSmall(p, |y|);
      EmptySlot(y, x, idx, p);
    } else {
      ModSmall(p + |y|, |y|);
      EmptySlot(y, x, idx, p + |y|);
    }
  }

  lemma Inside(y: Vector, x: Vector, outer: nat, inner: nat, repeat: nat, e: nat)
    requires inner > 0 && Routes(y, x, RepeatSlots(outer, inner, repeat), true)
    requires e < |RepeatSlots(outer, inner, repeat)|
    ensures |y| == |x| && e < |x| && 0 <= RepeatSlots(outer, inner, repeat)[e] < |x|
    ensures y[RepeatSlots(outer, inner, repeat)[e]] == x[e]
  {
    hide RepeatSlots;
  }

  lemma EmptySlot(y: Vector, x: Vector, idx: seq<int>, p: int)
    requires Routes(y, x, idx, true) && 0 <= p < |x| && p !in idx
    ensures |y| == |x| && y[p] == 0.0
  {
  }

  lemma ShiftBy(s: nat, q: nat, inner: nat)
    ensures s + q * (0 - inner) == s - q * inner
  {
  }

  lemma Nearer(q0: nat, q: nat, inner: nat)
    requires q < q0
    ensures q0 * inner - q * inner == (q0 - q) * inner
  {
  }

  lemma Wrapped(q0: nat, q: nat, inner: nat, repeat: nat, period: nat)
    requires q0 < q < repeat && period == inner * repeat
    ensures q0 * inner - q * inner == (repeat - (q - q0)) * inner - period
  {
  }

  lemma WithinPeriod(d: nat, j: nat, inner: nat, repeat: nat, period: nat)
    requires 0 < d < repeat && j < inner && period == inner * repeat
    ensures inner <= d * inner + j < period
  {
    PackedRouting.MulLe(1, d, inner);
    PackedRouting.MulLe(d + 1, repeat, inner);
  }

  lemma BeforePeriod(s: nat, g: nat, r0: int, r: int, back: int, period: nat)
    requires g > 0 && SlotOf(s, g, r0, period) && r0 - back == r - period
    ensures SlotOf(s - back, g - 1, r, period)
  {
    assert (g - 1) * period == g * period - period;
  }

  lemma BeforeEnd(outer: nat, period: nat)
    requires outer > 0
    ensures (outer - 1) * period == outer * period - period >= 0
  {
    PackedRouting.MulLe(1, outer, period);
  }

  /**
   Scattering with the repeat list and adding the shifts by whole blocks puts repeat copies of every block in a row.
   */
  lemma RepeatCopies(y: Vector, x: Vector, outer: nat, inner: nat, repeat: nat, g: nat, q0: nat, j: nat, s: nat)
    requires inner > 0 && repeat > 0 && outer * (inner * repeat) <= |x|
    requires Routes(y, x, RepeatSlots(outer, inner, repeat), true)
    requires g < outer && q0 < repeat && j < inner && s == g * (inner * repeat) + (q0 * inner + j)
    ensures |y| == |x| && s < |x| && g * inner + j < |x|
    ensures ShiftSum(y, repeat, 0 - inner)[s] == x[g * inner + j]
  {
    var period := inner * repeat;
    BlockBelow(g, outer, period);
    BlockBelow(q0, repeat, inner);
    SizesOf(y, x, RepeatSlots(outer, inner, repeat));
    assert CopyOf(s, g, q0, j, outer, inner, repeat, period);
    var f := Shifted(y, s, 0 - inner);
    CopyTerm(y, x, outer, inner, repeat, g, q0, j, q0, s, period);
    hide *;
    forall q: nat | q < repeat && q != q0 ensures f(q) == 0.0 {
      CopyTerm(y, x, outer, inner, repeat, g, q0, j, q, s, period);
    }
    SumSingle(repeat, f, q0);
    ShiftSumSlot(y, repeat, 0 - inner, s);
  }

  lemma SizesOf(y: Vector, x: Vector, idx: seq<int>)
    requires Routes(y, x, idx, true)
    ensures |y| == |x|
  {
  }

  /** The doubling loop of a sum node adds each slot's next width - 1 neighbours, for every accepted width. */
  method AddNeighbours(x: Vector, width: nat) returns (sum: Vector)
    requires PowerOfTwo(width)
    ensures sum == ShiftSum(x, width, 1)
  {
    sum := x;
    ShiftSumOne(x, 1);
    var step := 1;
    while step < width
      invariant PowerOfTwo(step) && step <= width && sum == ShiftSum(x, step, 1)
    {
      DoublingReaches(step, width);
      ShiftSumDouble(x, step, 1);
      hide ShiftSum;
      sum := Plus(sum, Roll(sum, -step));
      step := 2 * step;
    }
  }

  /** The entries of run j. */
  function RunTerms(x: Vector, j: nat, width: nat): nat -> real
  {
    (q: nat) => if j * width + q < |x| then x[j * width + q] else 0.0
  }

  /** Adding width neighbours and gathering with the sum list gives the total of every run. */
  lemma SumRuns(z: Vector, x: Vector, size: nat, width: nat, j: nat)
    requires width > 0 && size * width <= |x| && j < size
    requires Routes(z, ShiftSum(x, width, 1), PackedRouting.Floors(PackedDepth.SumIndices(size, width)), false)
    ensures j < |z| == |x| && z[j] == Slots.Sum(width, RunTerms(x, j, width))
  {
    var idx, f, g := PackedRouting.Floors(PackedDepth.SumIndices(size, width)), Shifted(x, j * width, 1),
                     RunTerms(x, j, width);
    BlockBelow(j, size, width);
    NonNegative(j, width);
    assert idx[j] == j * width;
    assert z[j] == ShiftSum(x, width, 1)[j * width];
    ShiftSumSlot(x, width, 1, j * width);
    forall q: nat | q < width ensures f(q) == g(q) {
      assert f(q) == At(x, j * width + q * 1);
      ModSmall(j * width + q, |x|);
    }
    hide ShiftSum;
    hide Shifted;
    hide RunTerms;
    SumEqual(width, f, g);
  }

  // ---------- the routing of a node ----------

  predicate IsRouted(node: PackedProgram.Node)
  {
    node.operation == PackedProgram.Gather || node.operation == PackedProgram.Scatter ||
    node.operation == PackedProgram.Repeat || node.operation == PackedProgram.Sum
  }

  predicate Scatters(node: PackedProgram.Node)
  {
    node.operation == PackedProgram.Scatter || node.operation == PackedProgram.Repeat
  }

  /** The index list that the node routes with. */
  function RoutingList(p: PackedProgram.Program, i: nat): seq<real>
    requires i < |p.nodes| && PackedProgram.NodeAccepted(p, i) && IsRouted(p.nodes[i])
  {
    var n := p.nodes[i];
    if n.operation == PackedProgram.Repeat
      then PackedDepth.RepeatIndices(n.data[0].Floor, n.data[1].Floor, n.data[2].Floor)
    else if n.operation == PackedProgram.Sum then PackedDepth.SumIndices(n.size, n.data[0].Floor)
    else n.data
  }

  lemma RepeatAccepted(outer: nat, inner: nat, repeat: nat, slots: nat)
    requires inner > 0 && repeat > 0 && outer * inner * repeat <= slots <= 32768 && outer * inner <= slots
    ensures GatherAccepted(PackedDepth.RepeatIndices(outer, inner, repeat), true, slots)
  {
    var indices := PackedDepth.RepeatIndices(outer, inner, repeat);
    forall q | 0 <= q < |indices| ensures 0.0 <= indices[q] < slots as real && PackedProgram.Integral(indices[q]) {
      PackedDepth.RepeatAt(outer, inner, repeat, q, PackedDepth.Block(q, inner), PackedDepth.Position(q, inner));
    }
    forall a, b | 0 <= a < b < |indices| ensures indices[a] != indices[b] {
      RepeatApart(outer, inner, repeat, a, b);
    }
  }

  lemma SameElement(p: int, period: nat, g: nat, j: nat, h: nat, k: nat)
    requires SlotOf(p, g, j, period) && SlotOf(p, h, k, period) && j < period && k < period
    ensures g == h && j == k
  {
    ModUnique(p, period, g, j);
    ModUnique(p, period, h, k);
  }

  lemma Element(outer: nat, inner: nat, repeat: nat, q: nat) returns (g: nat, j: nat, period: nat)
    requires inner > 0 && repeat > 0 && q < |RepeatSlots(outer, inner, repeat)|
    ensures SlotOf(q, g, j, inner) && j < inner <= period == inner * repeat
    ensures SlotOf(RepeatSlots(outer, inner, repeat)[q], g, j, period)
  {
    g, j, period := q / inner, q % inner, inner * repeat;
    PackedRouting.MulLe(1, repeat, inner);
    RepeatSlotAt(outer, inner, repeat, q, g, j, period);
  }

  lemma RepeatApart(outer: nat, inner: nat, repeat: nat, a: nat, b: nat)
    requires inner > 0 && repeat > 0 && a < b < |RepeatSlots(outer, inner, repeat)|
    ensures RepeatSlots(outer, inner, repeat)[a] != RepeatSlots(outer, inner, repeat)[b]
  {
    hide *;
    var ga, ja, period := Element(outer, inner, repeat, a);
    var gb, jb, _ := Element(outer, inner, repeat, b);
    var idx := RepeatSlots(outer, inner, repeat);
    if idx[a] == idx[b] {
      SameElement(idx[a], period, ga, ja, gb, jb);
      SameSlot(a, b, ga, ja, inner);
    }
  }

  lemma SameSlot(a: int, b: int, g: nat, j: nat, inner: nat)
    requires SlotOf(a, g, j, inner) && SlotOf(b, g, j, inner)
    ensures a == b
  {
  }

  lemma SumAccepted(size: nat, width: nat, slots: nat)
    requires width > 0 && size * width <= slots <= 32768 && size <= slots
    ensures GatherAccepted(PackedDepth.SumIndices(size, width), false, slots)
  {
    forall j | 0 <= j < size ensures 0.0 <= PackedDepth.SumIndices(size, width)[j] < slots as real {
      BlockBelow(j, size, width);
      NonNegative(j, width);
    }
  }

  lemma NodeGathers(p: PackedProgram.Program, i: nat)
    requires PackedProgram.Accepted(p) && i < |p.nodes| && IsRouted(p.nodes[i])
    ensures PackedProgram.NodeAccepted(p, i)
    ensures GatherAccepted(RoutingList(p, i), Scatters(p.nodes[i]), p.slots)
  {
    var n := p.nodes[i];
    assert PackedProgram.NodeAccepted(p, i);
    var parent := n.parents[0];
    assert PackedProgram.NodeAccepted(p, parent);
    if n.operation == PackedProgram.Repeat {
      RepeatAccepted(n.data[0].Floor, n.data[1].Floor, n.data[2].Floor, p.slots);
    } else if n.operation == PackedProgram.Sum {
      SumAccepted(n.size, n.data[0].Floor, p.slots);
    }
  }

  /**
   A routed node of an accepted program takes as many mask stages, one after the other, as levels are planned for it.
   */
  method RouteNode(p: PackedProgram.Program, i: nat) returns (r: Routed)
    requires PackedProgram.Accepted(p) && i < |p.nodes| && IsRouted(p.nodes[i])
    ensures PackedProgram.NodeAccepted(p, i) && MaskLevels(r) == PackedDepth.NodeDepth(p, i)
    ensures AlwaysRoutes(r, PackedRouting.Floors(RoutingList(p, i)), Scatters(p.nodes[i]), p.slots)
  {
    NodeGathers(p, i);
    hide PackedProgram.Accepted;
    hide AlwaysRoutes;
    hide PackedDepth.RoutingDepth;
    r := PlanGather(RoutingList(p, i), Scatters(p.nodes[i]), p.slots);
  }
}
