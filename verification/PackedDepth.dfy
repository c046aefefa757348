/**
 The level and refresh planner (native/fideslib_stage0/include/packed_depth.hpp:12-142): node costs, the level
 simulation, the live set and the greedy hoisting of refreshes.
 */
module PackedDepth {
  import opened Options
  import opened PackedProgram
  import opened Powers
  import PackedLifetime
  import PackedSchedule
  import PackedRouting

  // ---------- routing depth ----------

  /** C++ conversion of a double to int. */
  function Truncated(x: real): int { if x >= 0.0 then x.Floor else -((-x).Floor) }

  predicate Increasing(indices: seq<real>)
  {
    forall i :: 0 < i < |indices| ==> indices[i] > indices[i - 1]
  }

  predicate Identity(indices: seq<real>)
  {
    forall i :: 0 <= i < |indices| ==> indices[i] == i as real
  }

  function Offset(indices: seq<real>, i: nat): int
    requires i < |indices|
  {
    Truncated(indices[i]) - i
  }

  function Offsets(indices: seq<real>, n: nat): set<int>
    requires n <= |indices|
  {
    if n == 0 then {} else Offsets(indices, n - 1) + {Offset(indices, n - 1)}
  }

  /** The largest offset, at least zero. */
  function Maximum(indices: seq<real>, n: nat): nat
    requires n <= |indices|
  {
    if n == 0 then 0
    else
      var rest := Maximum(indices, n - 1);
      if Offset(indices, n - 1) > rest then Offset(indices, n - 1) else rest
  }

  function OctalDigits(x: nat): nat { if x == 0 then 0 else 1 + OctalDigits(x / 8) }

  /** Multiplication levels a gather or scatter with these indices consumes. */
  function RoutingDepth(indices: seq<real>, scatter: bool): nat
  {
    if scatter && Identity(indices) then 0
    else if !Increasing(indices) || |Offsets(indices, |indices|)| <= 32 then 1
    else
      var digits := OctalDigits(Maximum(indices, |indices|));
      if digits < 1 then 1 else digits
  }

  lemma PrefixNext(indices: seq<real>, i: nat)
    requires i < |indices|
    ensures Increasing(indices[..i + 1]) <==> Increasing(indices[..i]) && (i == 0 || indices[i] > indices[i - 1])
    ensures Identity(indices[..i + 1]) <==> Identity(indices[..i]) && indices[i] == i as real
  {
    var a, b := indices[..i], indices[..i + 1];
    assert forall k :: 0 <= k < i ==> b[k] == a[k];
  }

  method ScanIndices(indices: seq<real>) returns (monotone: bool, identity: bool, offsets: set<int>, maximum: nat)
    ensures monotone == Increasing(indices) && identity == Identity(indices)
    ensures offsets == Offsets(indices, |indices|) && maximum == Maximum(indices, |indices|)
  {
    monotone, identity, offsets, maximum := true, true, {}, 0;
    hide Increasing;
    hide Identity;
    assert indices[..0] == [];
    StartsMonotone();
    for i := 0 to |indices|
      invariant monotone == Increasing(indices[..i]) && identity == Identity(indices[..i])
      invariant offsets == Offsets(indices, i) && maximum == Maximum(indices, i)
    {
      PrefixNext(indices, i);
      monotone := monotone && (i == 0 || indices[i] > indices[i - 1]);
      identity := identity && indices[i] == i as real;
      var offset := Offset(indices, i);
      offsets := offsets + {offset};
      if offset > maximum { maximum := offset; }
    }
    assert indices[..|indices|] == indices;
  }

  lemma StartsMonotone()
    ensures Increasing([]) && Identity([])
  {
  }

  method PackedRoutingDepth(indices: seq<real>, scatter: bool) returns (depth: nat)
    ensures depth == RoutingDepth(indices, scatter)
  {
    var monotone, identity, offsets, maximum := ScanIndices(indices);
    if scatter && identity { return 0; }
    if !monotone || |offsets| <= 32 { return 1; }
    depth := 0;
    ghost var digits := OctalDigits(maximum);
    hide Offsets;
    hide Maximum;
    while maximum != 0
      invariant depth + OctalDigits(maximum) == digits
    {
      maximum := maximum / 8;
      depth := depth + 1;
    }
    if depth < 1 { depth := 1; }
  }

  lemma {:induction false} DigitsBound(x: nat, k: nat)
    ensures x < Pow2(3 * k) <==> OctalDigits(x) <= k
    decreases k
  {
    if k == 0 {
      assert Pow2(0) == 1;
    } else if x > 0 {
      DigitsBound(x / 8, k - 1);
      assert Pow2(3 * k) == 2 * Pow2(3 * k - 1) == 4 * Pow2(3 * k - 2) == 8 * Pow2(3 * (k - 1));
    }
  }

  lemma {:induction false} MaximumBounds(indices: seq<real>, n: nat)
    requires n <= |indices|
    ensures forall i: nat :: i < n ==> Offset(indices, i) <= Maximum(indices, n)
    ensures Maximum(indices, n) > 0 ==> exists i: nat :: i < n && Offset(indices, i) == Maximum(indices, n)
  {
    if n > 0 { MaximumBounds(indices, n - 1); }
  }

  /** A multi-stage routing really takes as many stages as the planner counts levels for it. */
  lemma DepthCountsStages(indices: seq<real>, scatter: bool, stages: seq<PackedRouting.Stage>)
    requires PackedRouting.IndicesAccepted(indices) && PackedRouting.Monotone(PackedRouting.Floors(indices))
    requires PackedRouting.Routing(stages, PackedRouting.Floors(indices), scatter, 3)
    requires |Offsets(indices, |indices|)| > 32
    ensures Increasing(indices)
    ensures !(scatter && Identity(indices)) ==> RoutingDepth(indices, scatter) == |stages|
  {
    var idx, m := PackedRouting.Floors(indices), Maximum(indices, |indices|);
    AcceptedOffsets(indices);
    MaximumBounds(indices, |indices|);
    assert PackedRouting.Covers(idx, 3, |stages|);
    hide *;
    CoversDigits(indices, idx, m, |stages|);
    if !(scatter && Identity(indices)) { DepthFromDigits(indices, scatter); }
  }

  lemma AcceptedOffsets(indices: seq<real>)
    requires PackedRouting.IndicesAccepted(indices)
    ensures Increasing(indices)
    ensures forall i: nat :: i < |indices| ==> Offset(indices, i) == PackedRouting.Floors(indices)[i] - i
  {
    forall i: nat | i < |indices|
      ensures PackedRouting.IndexAccepted(indices, i) && Offset(indices, i) == PackedRouting.Floors(indices)[i] - i
    {
    }
    forall i | 0 < i < |indices| ensures indices[i] > indices[i - 1] { assert PackedRouting.IndexAccepted(indices, i); }
  }

  lemma DepthFromDigits(indices: seq<real>, scatter: bool)
    requires Increasing(indices) && |Offsets(indices, |indices|)| > 32 && !(scatter && Identity(indices))
    ensures var digits := OctalDigits(Maximum(indices, |indices|));
            RoutingDepth(indices, scatter) == if digits < 1 then 1 else digits
  {
  }

  lemma CoversDigits(indices: seq<real>, idx: seq<int>, m: nat, k: nat)
    requires |idx| == |indices| && PackedRouting.Monotone(idx) && PackedRouting.Covers(idx, 3, k)
    requires forall i: nat :: i < |indices| ==> Offset(indices, i) == idx[i] - i && Offset(indices, i) <= m
    requires m > 0 ==> exists i: nat :: i < |indices| && Offset(indices, i) == m
    ensures k == if OctalDigits(m) < 1 then 1 else OctalDigits(m)
  {
    CoverRange(indices, idx, m, k);
    hide *;
    DigitsOfRange(m, k);
  }

  lemma CoverRange(indices: seq<real>, idx: seq<int>, m: nat, k: nat)
    requires |idx| == |indices| && PackedRouting.Monotone(idx) && PackedRouting.Covers(idx, 3, k)
    requires forall i: nat :: i < |indices| ==> Offset(indices, i) == idx[i] - i && Offset(indices, i) <= m
    requires m > 0 ==> exists i: nat :: i < |indices| && Offset(indices, i) == m
    ensures k >= 1 && m < Pow2(k * 3) && (k > 1 ==> m >= Pow2((k - 1) * 3))
  {
    hide Offset;
    hide PackedRouting.Monotone;
    hide Pow2;
  }

  lemma DigitsOfRange(m: nat, k: nat)
    requires k >= 1 && m < Pow2(k * 3) && (k > 1 ==> m >= Pow2((k - 1) * 3))
    ensures k == if OctalDigits(m) < 1 then 1 else OctalDigits(m)
  {
    DigitsBound(m, k);
    DigitsBound(m, k - 1);
    hide *;
  }

  // ---------- node costs ----------

  predicate Negation(node: Node)
  {
    node.operation == MulPublic && node.data != [] && forall k :: 0 <= k < |node.data| ==> node.data[k] == -1.0
  }

  /** The least d with 2^d >= count. */
  function CoveringPower(count: int): (d: nat)
    ensures Pow2(d) >= count && (d > 0 ==> Pow2(d - 1) < count)
  {
    CoveringFrom(count, 0)
  }

  function CoveringFrom(count: int, d: nat): (r: nat)
    requires d > 0 ==> Pow2(d - 1) < count
    ensures Pow2(r) >= count && (r > 0 ==> Pow2(r - 1) < count)
    decreases count - Pow2(d)
  {
    if Pow2(d) >= count then d else CoveringFrom(count, d + 1)
  }

  lemma ProductNonnegative(a: nat, b: nat)
    ensures a * b >= 0
  {
  }

  function Position(q: nat, inner: nat): nat
    requires inner > 0
  {
    q % inner
  }

  function Block(q: nat, inner: nat): nat
    requires inner > 0
  {
    q / inner
  }

  /** Element q of the input goes to the first copy of its block. */
  function RepeatIndices(outer: nat, inner: nat, repeat: nat): seq<real>
    requires inner > 0
  {
    ProductNonnegative(outer, inner);
    seq(outer * inner, q requires 0 <= q => (Block(q, inner) * inner * repeat + Position(q, inner)) as real)
  }

  function SumIndices(size: nat, stride: int): seq<real>
  {
    seq(size, j => (j * stride) as real)
  }

  /** Levels one node consumes. */
  function NodeDepth(p: Program, i: nat): nat
    requires i < |p.nodes| && NodeAccepted(p, i)
  {
    var n := p.nodes[i];
    match n.operation
    case Input => 0
    case Public => 0
    case Feedback => 0
    case Add => 0
    case AddPublic => 0
    case Mul => 1
    case MulPublic => if Negation(n) then 0 else 1
    case Cheb => CoveringPower(|n.data| - 2) + 2
    case Linear => 2
    case LinearRef => 2
    case Gather => RoutingDepth(n.data, false)
    case Scatter => RoutingDepth(n.data, true)
    case Repeat => RoutingDepth(RepeatIndices(n.data[0].Floor, n.data[1].Floor, n.data[2].Floor), true)
    case Sum => RoutingDepth(SumIndices(n.size, n.data[0].Floor), false)
  }

  method PackedNodeDepth(p: Program, i: nat) returns (depth: nat)
    requires i < |p.nodes| && NodeAccepted(p, i)
    ensures depth == NodeDepth(p, i)
  {
    var n := p.nodes[i];
    match n.operation
    case Input => return 0;
    case Public => return 0;
    case Feedback => return 0;
    case Add => return 0;
    case AddPublic => return 0;
    case Mul => return 1;
    case MulPublic => return if Negation(n) then 0 else 1;
    case Cheb =>
      depth := 0;
      while Pow2(depth) < |n.data| - 2
        invariant depth > 0 ==> Pow2(depth - 1) < |n.data| - 2
        invariant CoveringFrom(|n.data| - 2, 0) == CoveringFrom(|n.data| - 2, depth)
        decreases |n.data| - Pow2(depth)
      {
        depth := depth + 1;
      }
      return depth + 2;
    case Linear => return 2;
    case LinearRef => return 2;
    case Gather => depth := PackedRoutingDepth(n.data, false);
    case Scatter => depth := PackedRoutingDepth(n.data, true);
    case Repeat =>
      depth := PackedRoutingDepth(RepeatIndices(n.data[0].Floor, n.data[1].Floor, n.data[2].Floor), true);
    case Sum => depth := PackedRoutingDepth(SumIndices(n.size, n.data[0].Floor), false);
  }

  // ---------- the bound on node costs ----------

  const NODE_LEVELS := 13

  predicate IndicesSmall(indices: seq<real>)
  {
    forall i :: 0 <= i < |indices| ==> 0.0 <= indices[i] < 32768.0
  }

  lemma {:induction false} MaximumSmall(indices: seq<real>, n: nat)
    requires n <= |indices| && IndicesSmall(indices)
    ensures Maximum(indices, n) < 32768
  {
    if n > 0 { MaximumSmall(indices, n - 1); }
  }

  lemma RoutingSmall(indices: seq<real>, scatter: bool)
    requires IndicesSmall(indices)
    ensures RoutingDepth(indices, scatter) <= 5
  {
    MaximumSmall(indices, |indices|);
    hide IndicesSmall;
    assert Pow2(15) == 32768;
    DigitsBound(Maximum(indices, |indices|), 5);
  }

  lemma CoveringSmall(count: int)
    requires count <= 1025
    ensures CoveringPower(count) <= 11
  {
    var d := CoveringPower(count);
    assert Pow2(11) == 2048;
    if d > 12 { Pow2Grows(11, d - 1); }
  }

  lemma RepeatSmall(outer: nat, inner: nat, repeat: nat, size: nat)
    requires inner > 0 && repeat > 0 && outer * inner * repeat == size && size <= 32768
    ensures IndicesSmall(RepeatIndices(outer, inner, repeat))
  {
    var indices := RepeatIndices(outer, inner, repeat);
    forall q | 0 <= q < |indices| ensures 0.0 <= indices[q] < 32768.0 {
      RepeatAt(outer, inner, repeat, q, Block(q, inner), Position(q, inner));
    }
  }

  lemma RepeatAt(outer: nat, inner: nat, repeat: nat, q: nat, g: nat, j: nat)
    requires inner > 0 && repeat > 0 && q < outer * inner && g == q / inner && j == q % inner
    ensures 0 <= g * inner * repeat + j < outer * inner * repeat
  {
    assert q == g * inner + j;
    var start := g * inner;
    NextRow(g, outer, inner);
    Stretch(start, j, inner, outer * inner, repeat);
  }

  lemma NextRow(g: nat, outer: nat, inner: nat)
    requires g * inner < outer * inner
    ensures g * inner + inner <= outer * inner
  {
    if g >= outer { PackedRouting.MulLe(outer, g, inner); } else { PackedRouting.MulLe(g + 1, outer, inner); }
  }

  lemma Stretch(start: nat, j: nat, inner: nat, total: nat, repeat: nat)
    requires repeat > 0 && j < inner && start + inner <= total
    ensures 0 <= start * repeat + j < total * repeat
  {
    PackedRouting.MulLe(start + inner, total, repeat);
    PackedRouting.MulLe(0, start, repeat);
    PackedRouting.MulLe(1, repeat, inner);
  }

  lemma SumSmall(size: nat, stride: nat, total: nat)
    requires size * stride == total && stride > 0 && total <= 32768
    ensures IndicesSmall(SumIndices(size, stride))
  {
    forall j | 0 <= j < size ensures 0.0 <= SumIndices(size, stride)[j] < 32768.0 {
      PackedRouting.MulLe(j + 1, size, stride);
      PackedRouting.MulLe(0, j, stride);
    }
  }

  /** No accepted node consumes more than thirteen levels. */
  lemma NodeDepthBound(p: Program, i: nat)
    requires Accepted(p) && i < |p.nodes|
    ensures NodeAccepted(p, i) && NodeDepth(p, i) <= NODE_LEVELS
  {
    var n := p.nodes[i];
    assert NodeAccepted(p, i) && ParentsBefore(p.nodes, i);
    if n.parents != [] { assert NodeAccepted(p, n.parents[0]); }
    DataDepthBound(p, i);
  }

  lemma DataDepthBound(p: Program, i: nat)
    requires i < |p.nodes| && NodeAccepted(p, i) && p.slots <= 32768
    requires p.nodes[i].parents != [] ==> 1 <= p.nodes[p.nodes[i].parents[0]].size <= p.slots
    ensures NodeDepth(p, i) <= NODE_LEVELS
  {
    var n := p.nodes[i];
    match n.operation
    case Cheb => CoveringSmall(|n.data| - 2);
    case Gather => RoutingSmall(n.data, false);
    case Scatter => RoutingSmall(n.data, true);
    case Repeat =>
      RepeatSmall(n.data[0].Floor, n.data[1].Floor, n.data[2].Floor, n.size);
      RoutingSmall(RepeatIndices(n.data[0].Floor, n.data[1].Floor, n.data[2].Floor), true);
    case Sum =>
      SumSmall(n.size, n.data[0].Floor, p.nodes[n.parents[0]].size);
      RoutingSmall(SumIndices(n.size, n.data[0].Floor), false);
    case _ =>
  }

  // ---------- simulation ----------

  datatype Plan = Plan(cost: seq<int>, refreshAfter: seq<bool>, deferMask: seq<bool>, live: seq<bool>,
                       refreshes: nat, ceiling: int, refreshed: int)

  predicate PlanFor(p: Program, plan: Plan)
  {
    |plan.cost| == |plan.refreshAfter| == |plan.deferMask| == |plan.live| == |p.nodes|
  }

  // levels is what later operands still see; produced is the level each node had when it was computed.
  datatype Levels = Levels(levels: seq<int>, produced: seq<int>, refreshes: nat)

  /** Operands are refreshed in place when the node would pass the ceiling; the result is their highest level. */
  function ReadOperands(s: Levels, parents: seq<int>, k: nat, cost: int, ceiling: int, refreshed: int):
    (r: (Levels, int))
    requires k <= |parents| && forall j :: 0 <= j < |parents| ==> 0 <= parents[j] < |s.levels|
    ensures |r.0.levels| == |s.levels| && r.0.produced == s.produced
  {
    if k == 0 then (s, -1)
    else
      var (before, level) := ReadOperands(s, parents, k - 1, cost, ceiling, refreshed);
      var v := parents[k - 1];
      var over := before.levels[v] + cost > ceiling;
      var levels := if over then before.levels[v := refreshed] else before.levels;
      (Levels(levels, before.produced, before.refreshes + if over then 1 else 0),
       if levels[v] > level then levels[v] else level)
  }

  // The operands of node i after they were read, and their highest level; feedback nodes read nothing.
  function NodeRead(p: Program, plan: Plan, s: Levels, i: nat): (r: (Levels, int))
    requires PlanFor(p, plan) && i < |p.nodes| == |s.levels| == |s.produced| && ParentsBefore(p.nodes, i)
    ensures |r.0.levels| == |r.0.produced| == |p.nodes|
  {
    var n := p.nodes[i];
    if n.operation == Feedback then (s, -1)
    else ReadOperands(s, n.parents, |n.parents|, plan.cost[i], plan.ceiling, plan.refreshed)
  }

  /** The level node i computes, before a refresh of its own. */
  function Computed(p: Program, plan: Plan, s: Levels, i: nat): int
    requires PlanFor(p, plan) && i < |p.nodes| == |s.levels| == |s.produced| && ParentsBefore(p.nodes, i)
  {
    if p.nodes[i].operation == Feedback then -1 else NodeRead(p, plan, s, i).1 + plan.cost[i]
  }

  function SimulateNode(p: Program, plan: Plan, s: Levels, i: nat): (r: Levels)
    requires PlanFor(p, plan) && i < |p.nodes| == |s.levels| == |s.produced| && ParentsBefore(p.nodes, i)
    ensures |r.levels| == |r.produced| == |p.nodes|
  {
    if !plan.live[i] then s
    else
      var read, computed := NodeRead(p, plan, s, i).0, Computed(p, plan, s, i);
      var refresh := plan.refreshAfter[i] && computed > plan.refreshed;
      var level := if refresh then plan.refreshed else computed;
      Levels(read.levels[i := level], read.produced[i := level], read.refreshes + if refresh then 1 else 0)
  }

  /** The first n nodes in program order. */
  function Simulated(p: Program, plan: Plan, produced: seq<int>, n: nat): (r: Levels)
    requires PlanFor(p, plan) && Topological(p) && n <= |p.nodes| == |produced|
    ensures |r.levels| == |r.produced| == |p.nodes|
  {
    if n == 0 then Levels(seq(|p.nodes|, _ => -1), produced, 0)
    else SimulateNode(p, plan, Simulated(p, plan, produced, n - 1), n - 1)
  }

  method SimulatePackedDepth(p: Program, plan: Plan, produced: seq<int>) returns (refreshes: nat, levels: seq<int>)
    requires PlanFor(p, plan) && Topological(p) && |produced| == |p.nodes|
    ensures var s := Simulated(p, plan, produced, |p.nodes|); refreshes == s.refreshes && levels == s.produced
  {
    var s := Levels(seq(|p.nodes|, _ => -1), produced, 0);
    for i := 0 to |p.nodes|
      invariant s == Simulated(p, plan, produced, i)
    {
      assert ParentsBefore(p.nodes, i);
      if plan.live[i] {
        var n := p.nodes[i];
        var level := -1;
        var read := s;
        if n.operation != Feedback {
          read, level := ReadAll(s, n.parents, plan.cost[i], plan.ceiling, plan.refreshed);
          level := level + plan.cost[i];
        }
        if plan.refreshAfter[i] && level > plan.refreshed {
          level := plan.refreshed;
          read := read.(refreshes := read.refreshes + 1);
        }
        s := read.(levels := read.levels[i := level], produced := read.produced[i := level]);
      }
    }
    refreshes, levels := s.refreshes, s.produced;
  }

  method ReadAll(s: Levels, parents: seq<int>, cost: int, ceiling: int, refreshed: int)
    returns (read: Levels, level: int)
    requires forall j :: 0 <= j < |parents| ==> 0 <= parents[j] < |s.levels|
    ensures (read, level) == ReadOperands(s, parents, |parents|, cost, ceiling, refreshed)
  {
    read, level := s, -1;
    for k := 0 to |parents|
      invariant (read, level) == ReadOperands(s, parents, k, cost, ceiling, refreshed)
    {
      var v := parents[k];
      if read.levels[v] + cost > ceiling {
        read := read.(levels := read.levels[v := refreshed], refreshes := read.refreshes + 1);
      }
      if read.levels[v] > level { level := read.levels[v]; }
    }
  }

  // ---------- the level budget ----------

  predicate AllBelow(levels: seq<int>, ceiling: int)
  {
    forall i :: 0 <= i < |levels| ==> -1 <= levels[i] <= ceiling
  }

  /** Enough room above a refreshed level for every cost. */
  predicate Budget(plan: Plan)
  {
    0 <= plan.refreshed < plan.ceiling &&
    forall i :: 0 <= i < |plan.cost| ==> 0 <= plan.cost[i] <= plan.ceiling - plan.refreshed
  }

  lemma {:induction false} OperandsBelow(s: Levels, parents: seq<int>, k: nat, cost: int, ceiling: int, refreshed: int)
    requires k <= |parents| && forall j :: 0 <= j < |parents| ==> 0 <= parents[j] < |s.levels|
    requires AllBelow(s.levels, ceiling) && 0 <= refreshed && 0 <= cost <= ceiling - refreshed
    ensures var (read, level) := ReadOperands(s, parents, k, cost, ceiling, refreshed);
            AllBelow(read.levels, ceiling) && -1 <= level && level + cost <= ceiling
  {
    if k > 0 { OperandsBelow(s, parents, k - 1, cost, ceiling, refreshed); }
  }

  lemma NodeBelow(p: Program, plan: Plan, s: Levels, i: nat)
    requires PlanFor(p, plan) && i < |p.nodes| == |s.levels| == |s.produced| && ParentsBefore(p.nodes, i)
    requires Budget(plan) && AllBelow(s.levels, plan.ceiling) && AllBelow(s.produced, plan.ceiling)
    ensures var r := SimulateNode(p, plan, s, i);
            AllBelow(r.levels, plan.ceiling) && AllBelow(r.produced, plan.ceiling)
    ensures -1 <= Computed(p, plan, s, i) <= plan.ceiling
  {
    OperandsBelow(s, p.nodes[i].parents, |p.nodes[i].parents|, plan.cost[i], plan.ceiling, plan.refreshed);
    hide ReadOperands;
  }

  /** When the simulation comes to node i, it computes at a level within the ceiling. */
  predicate ComputesWithin(p: Program, plan: Plan, produced: seq<int>, i: nat)
    requires PlanFor(p, plan) && Topological(p) && i < |p.nodes| == |produced|
  {
    assert ParentsBefore(p.nodes, i);
    -1 <= Computed(p, plan, Simulated(p, plan, produced, i), i) <= plan.ceiling
  }

  /**
   With room for the dearest node above a refresh, no node of any program ever passes the ceiling: neither the level it
   computes at nor any level recorded for it.
   */
  lemma {:induction false} NeverAboveCeiling(p: Program, plan: Plan, produced: seq<int>, n: nat)
    requires PlanFor(p, plan) && Topological(p) && n <= |p.nodes| == |produced|
    requires Budget(plan) && AllBelow(produced, plan.ceiling)
    ensures var s := Simulated(p, plan, produced, n);
            AllBelow(s.levels, plan.ceiling) && AllBelow(s.produced, plan.ceiling)
    ensures forall i: nat :: i < n ==> ComputesWithin(p, plan, produced, i)
    decreases n
  {
    if n > 0 {
      NeverAboveCeiling(p, plan, produced, n - 1);
      assert ParentsBefore(p.nodes, n - 1);
      NodeBelow(p, plan, Simulated(p, plan, produced, n - 1), n - 1);
      hide SimulateNode;
      hide Computed;
      hide Budget;
    }
  }

  // ---------- the live set ----------

  /** A chain of operands from an output down to its last node. */
  ghost predicate Path(p: Program, path: seq<int>)
  {
    path != [] && path[0] in p.outputs && (forall k :: 0 <= k < |path| ==> 0 <= path[k] < |p.nodes|) &&
    forall k :: 0 <= k < |path| - 1 ==> Operand(p, path[k], path[k + 1])
  }

  predicate Operand(p: Program, i: int, v: int)
  {
    0 <= i < |p.nodes| && v in p.nodes[i].parents
  }

  /** Node i is an output or an ancestor of one. */
  ghost predicate Reached(p: Program, i: int)
  {
    exists path :: Path(p, path) && path[|path| - 1] == i
  }

  lemma ReachedOutput(p: Program, i: int)
    requires i in p.outputs && OutputsInside(p)
    ensures Reached(p, i)
  {
    assert Path(p, [i]);
  }

  lemma ReachedOperand(p: Program, i: int, v: int)
    requires Reached(p, i) && Operand(p, i, v) && 0 <= v < |p.nodes|
    ensures Reached(p, v)
  {
    var path :| Path(p, path) && path[|path| - 1] == i;
    var longer := path + [v];
    assert Path(p, longer);
  }

  // Nodes from first on have passed their mark to their operands.
  ghost predicate Marked(p: Program, live: seq<bool>, first: int)
  {
    |live| == |p.nodes| && (forall i: nat :: i < |live| && live[i] ==> Reached(p, i)) &&
    (forall i: nat :: i < |live| && i in p.outputs ==> live[i]) &&
    forall i: nat, v: nat :: first <= i < |live| && live[i] && v < |live| && Operand(p, i, v) ==> live[v]
  }

  lemma {:induction false} PathMarked(p: Program, live: seq<bool>, path: seq<int>, k: nat)
    requires Marked(p, live, 0) && Path(p, path) && k < |path|
    ensures live[path[k]]
  {
    if k > 0 {
      PathMarked(p, live, path, k - 1);
      assert Operand(p, path[k - 1], path[k]);
    }
  }

  lemma LiveExactly(p: Program, live: seq<bool>)
    requires Marked(p, live, 0) && Topological(p)
    ensures forall i: nat :: i < |p.nodes| ==> (live[i] <==> Reached(p, i))
    ensures PackedSchedule.ParentClosed(p, live)
  {
    forall i: nat | i < |p.nodes| && Reached(p, i) ensures live[i] {
      var path :| Path(p, path) && path[|path| - 1] == i;
      PathMarked(p, live, path, |path| - 1);
    }
    forall i: nat, k: nat | i < |p.nodes| && live[i] && k < |p.nodes[i].parents|
      ensures PackedSchedule.LiveParent(p, live, i, k)
    {
      assert ParentsBefore(p.nodes, i) && Operand(p, i, p.nodes[i].parents[k]);
    }
  }

  /** Exactly the outputs and their ancestors are live. */
  method LiveNodes(p: Program) returns (live: seq<bool>)
    requires Topological(p) && OutputsInside(p)
    ensures |live| == |p.nodes| && forall i: nat :: i < |p.nodes| ==> (live[i] <==> Reached(p, i))
    ensures PackedSchedule.ParentClosed(p, live)
  {
    live := seq(|p.nodes|, _ => false);
    for k := 0 to |p.outputs|
      invariant |live| == |p.nodes| && forall i: nat :: i < |live| ==> (live[i] <==> i in p.outputs[..k])
    {
      live := live[p.outputs[k] := true];
    }
    assert p.outputs[..|p.outputs|] == p.outputs;
    forall i: nat | i < |live| && live[i] ensures Reached(p, i) { ReachedOutput(p, i); }
    for i := |p.nodes| downto 0
      invariant Marked(p, live, i)
    {
      if live[i] { live := MarkOperands(p, live, i); } else { assert Marked(p, live, i); }
    }
    LiveExactly(p, live);
  }

  method MarkOperands(p: Program, live: seq<bool>, i: nat) returns (next: seq<bool>)
    requires Topological(p) && i < |p.nodes| && Marked(p, live, i + 1) && live[i]
    ensures Marked(p, next, i)
  {
    var parents := p.nodes[i].parents;
    assert ParentsBefore(p.nodes, i);
    next := live;
    for k := 0 to |parents|
      invariant |next| == |live| && forall j: nat :: j < |live| ==> (next[j] <==> live[j] || j in parents[..k])
    {
      next := next[parents[k] := true];
    }
    assert parents[..|parents|] == parents;
    forall j: nat | j < |next| && next[j] && !live[j] ensures Reached(p, j) && j < i { ReachedOperand(p, i, j); }
  }

  // ---------- the plan ----------

  predicate IsLinear(p: Program, i: nat)
    requires i < |p.nodes|
  {
    p.nodes[i].operation == Linear || p.nodes[i].operation == LinearRef
  }

  /** The output mask of a linear node is left to its readers when all of them are gathers. */
  predicate Deferred(p: Program, i: nat)
    requires i < |p.nodes|
  {
    IsLinear(p, i) && i !in p.outputs && OnlyGathers(p, i, |p.nodes|)
  }

  predicate OnlyGathers(p: Program, i: nat, n: nat)
    requires n <= |p.nodes|
  {
    forall j: nat :: j < n && Operand(p, j, i) ==> p.nodes[j].operation == Gather
  }

  method DeferredMasks(p: Program) returns (deferMask: seq<bool>)
    requires Topological(p) && OutputsInside(p)
    ensures |deferMask| == |p.nodes| && forall i: nat :: i < |p.nodes| ==> (deferMask[i] <==> Deferred(p, i))
  {
    deferMask := seq(|p.nodes|, i requires 0 <= i < |p.nodes| => IsLinear(p, i));
    for j := 0 to |p.nodes|
      invariant |deferMask| == |p.nodes|
      invariant forall i: nat :: i < |p.nodes| ==> (deferMask[i] <==> IsLinear(p, i) && OnlyGathers(p, i, j))
    {
      deferMask := ClearOperands(p, deferMask, j);
    }
    for k := 0 to |p.outputs|
      invariant |deferMask| == |p.nodes|
      invariant forall i: nat :: i < |p.nodes| ==>
                  (deferMask[i] <==> IsLinear(p, i) && OnlyGathers(p, i, |p.nodes|) && i !in p.outputs[..k])
    {
      deferMask := deferMask[p.outputs[k] := false];
    }
    assert p.outputs[..|p.outputs|] == p.outputs;
  }

  method ClearOperands(p: Program, before: seq<bool>, j: nat) returns (deferMask: seq<bool>)
    requires Topological(p) && j < |p.nodes| == |before|
    requires forall i: nat :: i < |p.nodes| ==> (before[i] <==> IsLinear(p, i) && OnlyGathers(p, i, j))
    ensures |deferMask| == |p.nodes|
    ensures forall i: nat :: i < |p.nodes| ==> (deferMask[i] <==> IsLinear(p, i) && OnlyGathers(p, i, j + 1))
  {
    deferMask := before;
    var n := p.nodes[j];
    assert ParentsBefore(p.nodes, j);
    if n.operation != Gather {
      for k := 0 to |n.parents|
        invariant |deferMask| == |before|
        invariant forall i: nat :: i < |before| ==> (deferMask[i] <==> before[i] && i !in n.parents[..k])
      {
        deferMask := deferMask[n.parents[k] := false];
      }
      assert n.parents[..|n.parents|] == n.parents;
    }
    forall i: nat | i < |p.nodes|
      ensures OnlyGathers(p, i, j + 1) <==> OnlyGathers(p, i, j) && (n.operation == Gather || i !in n.parents)
    {
      assert Operand(p, j, i) <==> i in n.parents;
    }
  }

  function OperandUses(p: Program, live: seq<bool>, v: int, n: nat): nat
    requires n <= |p.nodes| == |live|
  {
    PackedSchedule.Uses(p.nodes, PackedSchedule.Dead(live), v, n)
  }

  method CountUses(p: Program, live: seq<bool>) returns (uses: seq<nat>)
    requires Topological(p) && |live| == |p.nodes|
    ensures |uses| == |p.nodes| && forall v: nat :: v < |uses| ==> uses[v] == OperandUses(p, live, v, |p.nodes|)
  {
    uses := seq(|p.nodes|, _ => 0);
    for i := 0 to |p.nodes|
      invariant |uses| == |p.nodes| && forall v: nat :: v < |uses| ==> uses[v] == OperandUses(p, live, v, i)
    {
      if live[i] {
        var parents := p.nodes[i].parents;
        assert ParentsBefore(p.nodes, i);
        ghost var before := uses;
        for k := 0 to |parents|
          invariant |uses| == |before|
          invariant forall v: nat :: v < |uses| ==> uses[v] == before[v] + PackedLifetime.CountOf(parents[..k], v)
        {
          assert parents[..k + 1][..k] == parents[..k];
          uses := uses[parents[k] := uses[parents[k]] + 1];
        }
        assert parents[..|parents|] == parents;
      }
    }
  }

  function FreshLevels(p: Program): (levels: seq<int>)
    ensures |levels| == |p.nodes|
  {
    seq(|p.nodes|, _ => 0)
  }

  /** Refreshes of a fresh simulation of the whole program. */
  function Refreshes(p: Program, plan: Plan): nat
    requires PlanFor(p, plan) && Topological(p)
  {
    Simulated(p, plan, FreshLevels(p), |p.nodes|).refreshes
  }

  /** The simulation does not look at recorded levels. */
  lemma {:induction false} ProducedIgnored(p: Program, plan: Plan, a: seq<int>, b: seq<int>, n: nat)
    requires PlanFor(p, plan) && Topological(p) && n <= |p.nodes| == |a| == |b|
    ensures Simulated(p, plan, a, n).levels == Simulated(p, plan, b, n).levels
    ensures Simulated(p, plan, a, n).refreshes == Simulated(p, plan, b, n).refreshes
    ensures forall j: nat :: j < n && plan.live[j] ==>
                               Simulated(p, plan, a, n).produced[j] == Simulated(p, plan, b, n).produced[j]
    decreases n
  {
    if n > 0 {
      ProducedIgnored(p, plan, a, b, n - 1);
      assert ParentsBefore(p.nodes, n - 1);
      NodeIgnoresProduced(p, plan, Simulated(p, plan, a, n - 1), Simulated(p, plan, b, n - 1), n - 1);
      hide SimulateNode;
      hide PlanFor;
    }
  }

  lemma NodeIgnoresProduced(p: Program, plan: Plan, s: Levels, t: Levels, i: nat)
    requires PlanFor(p, plan) && i < |p.nodes| == |s.levels| == |s.produced| == |t.produced|
    requires ParentsBefore(p.nodes, i)
    requires s.levels == t.levels && s.refreshes == t.refreshes
    ensures SimulateNode(p, plan, s, i).levels == SimulateNode(p, plan, t, i).levels
    ensures SimulateNode(p, plan, s, i).refreshes == SimulateNode(p, plan, t, i).refreshes
    ensures plan.live[i] ==> SimulateNode(p, plan, s, i).produced[i] == SimulateNode(p, plan, t, i).produced[i]
    ensures forall j: nat :: j < |p.nodes| && j != i ==>
                               SimulateNode(p, plan, s, i).produced[j] == s.produced[j] &&
                               SimulateNode(p, plan, t, i).produced[j] == t.produced[j]
  {
    OperandsIgnoreProduced(s, t, p.nodes[i].parents, |p.nodes[i].parents|, plan.cost[i], plan.ceiling, plan.refreshed);
    hide ReadOperands;
  }

  lemma {:induction false} OperandsIgnoreProduced(s: Levels, t: Levels, parents: seq<int>, k: nat, cost: int,
                                                  ceiling: int, refreshed: int)
    requires k <= |parents| && forall j :: 0 <= j < |parents| ==> 0 <= parents[j] < |s.levels|
    requires s.levels == t.levels && s.refreshes == t.refreshes
    ensures var (x, a), (y, b) := ReadOperands(s, parents, k, cost, ceiling, refreshed),
                                  ReadOperands(t, parents, k, cost, ceiling, refreshed);
            a == b && x.levels == y.levels && x.refreshes == y.refreshes
  {
    if k > 0 { OperandsIgnoreProduced(s, t, parents, k - 1, cost, ceiling, refreshed); }
  }

  // Refreshes sit only on live nodes that are read at least twice, and the recorded total is a fresh simulation's.
  ghost predicate Hoisted(p: Program, start: Plan, plan: Plan, uses: seq<nat>)
  {
    PlanFor(p, plan) && Topological(p) && |uses| == |p.nodes| &&
    plan == start.(refreshAfter := plan.refreshAfter, refreshes := plan.refreshes) &&
    plan.refreshes == Refreshes(p, plan) && plan.refreshes <= start.refreshes &&
    forall i: nat :: i < |p.nodes| && plan.refreshAfter[i] ==> plan.live[i] && uses[i] >= 2
  }

  /** The recorded total is no part of the simulation. */
  lemma {:induction false} TotalIgnored(p: Program, plan: Plan, total: nat, produced: seq<int>, n: nat)
    requires PlanFor(p, plan) && Topological(p) && n <= |p.nodes| == |produced|
    ensures Simulated(p, plan.(refreshes := total), produced, n) == Simulated(p, plan, produced, n)
    decreases n
  {
    if n > 0 { TotalIgnored(p, plan, total, produced, n - 1); }
  }

  // ---------- the greedy search ----------

  /** The plan with one more refresh, after node i. */
  function WithRefresh(plan: Plan, i: nat): Plan
    requires i < |plan.refreshAfter|
  {
    plan.(refreshAfter := plan.refreshAfter[i := true])
  }

  /** A live node that is read at least twice and is not refreshed yet. */
  predicate Candidate(p: Program, plan: Plan, uses: seq<nat>, i: nat)
    requires PlanFor(p, plan) && |uses| == |p.nodes| && i < |p.nodes|
  {
    plan.live[i] && uses[i] >= 2 && !plan.refreshAfter[i]
  }

  /** One attempt: a candidate's refresh is kept exactly when the whole graph then needs fewer refreshes. */
  function Attempt(p: Program, plan: Plan, uses: seq<nat>, i: nat): (next: Plan)
    requires PlanFor(p, plan) && Topological(p) && |uses| == |p.nodes| && i < |p.nodes|
    ensures PlanFor(p, next) && next.refreshes <= plan.refreshes
    ensures next.refreshes == plan.refreshes ==> next == plan
  {
    if Candidate(p, plan, uses, i) && Refreshes(p, WithRefresh(plan, i)) < plan.refreshes
      then WithRefresh(plan, i).(refreshes := Refreshes(p, WithRefresh(plan, i)))
      else plan
  }

  /** Attempts at the first n nodes, in program order. */
  function Pass(p: Program, plan: Plan, uses: seq<nat>, n: nat): (next: Plan)
    requires PlanFor(p, plan) && Topological(p) && |uses| == |p.nodes| && n <= |p.nodes|
    ensures PlanFor(p, next) && next.refreshes <= plan.refreshes
    ensures next.refreshes == plan.refreshes ==> next == plan
  {
    if n == 0 then plan else Attempt(p, Pass(p, plan, uses, n - 1), uses, n - 1)
  }

  /** Passes until one changes nothing, at most count of them. */
  function Passes(p: Program, plan: Plan, uses: seq<nat>, count: nat): (next: Plan)
    requires PlanFor(p, plan) && Topological(p) && |uses| == |p.nodes|
    ensures PlanFor(p, next)
    decreases count
  {
    var once := Pass(p, plan, uses, |p.nodes|);
    if count == 0 || once == plan then plan else Passes(p, once, uses, count - 1)
  }

  /** No single refresh after a live node that is read at least twice would lower the total. */
  ghost predicate Converged(p: Program, plan: Plan, uses: seq<nat>)
    requires PlanFor(p, plan) && Topological(p) && |uses| == |p.nodes|
  {
    forall i: nat :: i < |p.nodes| && plan.live[i] && uses[i] >= 2 && !plan.refreshAfter[i] ==>
                       Refreshes(p, WithRefresh(plan, i)) >= plan.refreshes
  }

  // A pass that ends where it began has refused every attempt.
  lemma {:induction false} PassRefuses(p: Program, plan: Plan, uses: seq<nat>, n: nat, i: nat)
    requires PlanFor(p, plan) && Topological(p) && |uses| == |p.nodes| && i < n <= |p.nodes|
    requires Pass(p, plan, uses, n) == plan
    ensures Attempt(p, plan, uses, i) == plan
    decreases n
  {
    hide Attempt;
    var before := Pass(p, plan, uses, n - 1);
    assert before.refreshes == plan.refreshes;
    if i < n - 1 { PassRefuses(p, plan, uses, n - 1, i); }
  }

  lemma RefusedAttempt(p: Program, plan: Plan, uses: seq<nat>, i: nat)
    requires PlanFor(p, plan) && Topological(p) && |uses| == |p.nodes| && i < |p.nodes|
    requires Attempt(p, plan, uses, i) == plan && Candidate(p, plan, uses, i)
    ensures Refreshes(p, WithRefresh(plan, i)) >= plan.refreshes
  {
    hide Refreshes;
  }

  /** The search ends at a plan no single refresh improves, or every one of its passes has saved a refresh. */
  lemma {:induction false} SearchConverges(p: Program, plan: Plan, uses: seq<nat>, count: nat)
    requires PlanFor(p, plan) && Topological(p) && |uses| == |p.nodes|
    ensures Converged(p, Passes(p, plan, uses, count), uses) ||
            Passes(p, plan, uses, count).refreshes + count <= plan.refreshes
    decreases count
  {
    var once := Pass(p, plan, uses, |p.nodes|);
    if once == plan {
      forall i: nat | i < |p.nodes| && Candidate(p, plan, uses, i)
        ensures Refreshes(p, WithRefresh(plan, i)) >= plan.refreshes
      {
        PassRefuses(p, plan, uses, |p.nodes|, i);
        RefusedAttempt(p, plan, uses, i);
      }
    } else if count > 0 {
      SearchConverges(p, once, uses, count - 1);
    }
  }

  // ---------- refreshes that change nothing ----------

  /** The levels recorded for the live nodes are those of a fresh simulation. */
  ghost predicate LevelsExact(p: Program, plan: Plan, levels: seq<int>)
    requires PlanFor(p, plan) && Topological(p)
  {
    |levels| == |p.nodes| &&
    forall i: nat :: i < |p.nodes| && plan.live[i] ==>
                       levels[i] == Simulated(p, plan, FreshLevels(p), |p.nodes|).produced[i]
  }

  lemma SimulatedLevelsExact(p: Program, plan: Plan, before: seq<int>)
    requires PlanFor(p, plan) && Topological(p) && |before| == |p.nodes|
    ensures LevelsExact(p, plan, Simulated(p, plan, before, |p.nodes|).produced)
  {
    ProducedIgnored(p, plan, before, FreshLevels(p), |p.nodes|);
  }

  lemma SameNode(p: Program, plan: Plan, s: Levels, k: nat, i: nat)
    requires PlanFor(p, plan) && k < |p.nodes| == |s.levels| == |s.produced| && ParentsBefore(p.nodes, k)
    requires i < |p.nodes|
    requires k == i ==> plan.live[i] && !plan.refreshAfter[i] &&
                        SimulateNode(p, plan, s, i).produced[i] <= plan.refreshed
    ensures SimulateNode(p, WithRefresh(plan, i), s, k) == SimulateNode(p, plan, s, k)
    ensures k != i ==> SimulateNode(p, plan, s, k).produced[i] == s.produced[i]
  {
    hide ReadOperands;
  }

  // A refresh after a node that stays at or below the refresh level is never carried out.
  lemma {:induction false} IdleRefreshTo(p: Program, plan: Plan, i: nat, n: nat)
    requires PlanFor(p, plan) && Topological(p) && i < |p.nodes| && n <= |p.nodes|
    requires plan.live[i] && !plan.refreshAfter[i]
    requires i < n ==> Simulated(p, plan, FreshLevels(p), n).produced[i] <= plan.refreshed
    ensures Simulated(p, WithRefresh(plan, i), FreshLevels(p), n) == Simulated(p, plan, FreshLevels(p), n)
    decreases n
  {
    if n > 0 {
      assert ParentsBefore(p.nodes, n - 1);
      SameNode(p, plan, Simulated(p, plan, FreshLevels(p), n - 1), n - 1, i);
      hide SimulateNode;
      IdleRefreshTo(p, plan, i, n - 1);
    }
  }

  lemma IdleRefresh(p: Program, plan: Plan, levels: seq<int>, i: nat)
    requires PlanFor(p, plan) && Topological(p) && LevelsExact(p, plan, levels) && i < |p.nodes|
    requires plan.live[i] && !plan.refreshAfter[i] && levels[i] <= plan.refreshed
    ensures Refreshes(p, WithRefresh(plan, i)) == Refreshes(p, plan)
  {
    IdleRefreshTo(p, plan, i, |p.nodes|);
    hide Simulated;
  }

  // ---------- the search in place ----------

  lemma AttemptHoists(p: Program, start: Plan, plan: Plan, uses: seq<nat>, i: nat)
    requires Hoisted(p, start, plan, uses) && i < |p.nodes|
    ensures Hoisted(p, start, Attempt(p, plan, uses, i), uses)
  {
    var trial := WithRefresh(plan, i);
    TotalIgnored(p, trial, Refreshes(p, trial), FreshLevels(p), |p.nodes|);
    hide Simulated;
    hide Topological;
  }

  /** One attempt of the search; nodes at or below the refresh level are skipped, which changes nothing. */
  method TryHoist(p: Program, ghost start: Plan, plan: Plan, levels: seq<int>, uses: seq<nat>, i: nat)
    returns (next: Plan, after: seq<int>, improved: bool)
    requires Hoisted(p, start, plan, uses) && i < |p.nodes| && LevelsExact(p, plan, levels)
    ensures next == Attempt(p, plan, uses, i)
    ensures Hoisted(p, start, next, uses) && LevelsExact(p, next, after)
    ensures improved <==> next.refreshes < plan.refreshes
  {
    next, after, improved := plan, levels, false;
    AttemptHoists(p, start, plan, uses, i);
    hide Simulated;
    hide LevelsExact;
    if !plan.live[i] || uses[i] < 2 || plan.refreshAfter[i] { return; }
    LevelsLength(p, plan, levels);
    if levels[i] <= plan.refreshed {
      IdleRefresh(p, plan, levels, i);
      return;
    }
    var trialPlan := WithRefresh(plan, i);
    var trial, ignored := SimulatePackedDepth(p, trialPlan, FreshLevels(p));
    if trial < plan.refreshes {
      next := trialPlan.(refreshes := trial);
      var again, produced := SimulatePackedDepth(p, next, levels);
      SimulatedLevelsExact(p, next, levels);
      after, improved := produced, true;
    }
  }

  lemma LevelsLength(p: Program, plan: Plan, levels: seq<int>)
    requires PlanFor(p, plan) && Topological(p) && LevelsExact(p, plan, levels)
    ensures |levels| == |p.nodes|
  {
  }

  lemma HoistedFits(p: Program, start: Plan, plan: Plan, uses: seq<nat>)
    requires Hoisted(p, start, plan, uses)
    ensures PlanFor(p, plan) && Topological(p) && |uses| == |p.nodes|
  {
  }

  // The attempts of one pass, in place.
  method HoistOnce(p: Program, ghost start: Plan, plan: Plan, levels: seq<int>, uses: seq<nat>)
    returns (next: Plan, after: seq<int>, improved: bool)
    requires Hoisted(p, start, plan, uses) && LevelsExact(p, plan, levels)
    ensures next == Pass(p, plan, uses, |p.nodes|) && (improved <==> next != plan)
    ensures Hoisted(p, start, next, uses) && LevelsExact(p, next, after)
  {
    next, after, improved := plan, levels, false;
    HoistedFits(p, start, plan, uses);
    hide Hoisted;
    hide LevelsExact;
    hide Attempt;
    hide PlanFor;
    for i := 0 to |p.nodes|
      invariant Hoisted(p, start, next, uses) && PlanFor(p, next) && LevelsExact(p, next, after)
      invariant next == Pass(p, plan, uses, i) && (improved <==> next.refreshes < plan.refreshes)
    {
      var better: bool;
      next, after, better := TryHoist(p, start, next, after, uses, i);
      HoistedFits(p, start, next, uses);
      improved := improved || better;
    }
  }

  /** Greedy hoisting: up to eight passes, stopped by the first that improves nothing. */
  method HoistRefreshes(p: Program, start: Plan, first: seq<int>, uses: seq<nat>) returns (plan: Plan)
    requires Hoisted(p, start, start, uses) && LevelsExact(p, start, first)
    ensures plan == Passes(p, start, uses, 8) && Hoisted(p, start, plan, uses)
    ensures Converged(p, plan, uses) || plan.refreshes + 8 <= start.refreshes
  {
    plan := start;
    var levels := first;
    var pass := 0;
    HoistedFits(p, start, start, uses);
    hide *;
    while pass < 8
      invariant 0 <= pass <= 8 && Hoisted(p, start, plan, uses) && PlanFor(p, plan) && LevelsExact(p, plan, levels)
      invariant Passes(p, plan, uses, 8 - pass) == Passes(p, start, uses, 8)
    {
      ghost var before := plan;
      var improved: bool;
      plan, levels, improved := HoistOnce(p, start, plan, levels, uses);
      HoistedFits(p, start, plan, uses);
      PassesNext(p, before, plan, uses, 8 - pass, improved);
      if !improved { break; }
      pass := pass + 1;
    }
    if pass == 8 { PassesDone(p, plan, uses); }
    SearchConverges(p, start, uses, 8);
  }

  lemma PassesNext(p: Program, plan: Plan, next: Plan, uses: seq<nat>, count: nat, improved: bool)
    requires PlanFor(p, plan) && PlanFor(p, next) && Topological(p) && |uses| == |p.nodes| && count > 0
    requires next == Pass(p, plan, uses, |p.nodes|) && (improved <==> next != plan)
    ensures Passes(p, plan, uses, count) == if improved then Passes(p, next, uses, count - 1) else next
  {
    hide Pass;
  }

  lemma PassesDone(p: Program, plan: Plan, uses: seq<nat>)
    requires PlanFor(p, plan) && Topological(p) && |uses| == |p.nodes|
    ensures Passes(p, plan, uses, 0) == plan
  {
    hide Pass;
  }

  /** The costs a plan charges: the node's own levels, less one for a deferred output mask. */
  predicate CostsExact(p: Program, plan: Plan)
    requires Accepted(p) && PlanFor(p, plan)
  {
    forall i: nat :: i < |p.nodes| ==>
                       NodeAccepted(p, i) && (plan.deferMask[i] <==> Deferred(p, i)) &&
                       plan.cost[i] == NodeDepth(p, i) - if Deferred(p, i) then 1 else 0
  }

  method NodeCosts(p: Program, deferMask: seq<bool>) returns (cost: seq<int>)
    requires Accepted(p) && |deferMask| == |p.nodes|
    ensures |cost| == |p.nodes| && forall i: nat :: i < |p.nodes| ==>
              NodeAccepted(p, i) && cost[i] == NodeDepth(p, i) - if deferMask[i] then 1 else 0
  {
    cost := [];
    for i := 0 to |p.nodes|
      invariant |cost| == i && forall k: nat :: k < i ==>
                  NodeAccepted(p, k) && cost[k] == NodeDepth(p, k) - if deferMask[k] then 1 else 0
    {
      assert NodeAccepted(p, i);
      hide *;
      var depth: int := PackedNodeDepth(p, i);
      cost := cost + [depth - if deferMask[i] then 1 else 0];
    }
  }

  /** What a finished plan promises. */
  ghost predicate PlanHolds(p: Program, plan: Plan)
    requires Accepted(p)
  {
    PlanFor(p, plan) && Topological(p) && CostsExact(p, plan) &&
    (forall i: nat :: i < |p.nodes| ==> (plan.live[i] <==> Reached(p, i))) &&
    plan.refreshes == Refreshes(p, plan) &&
    plan.refreshes <= Refreshes(p, plan.(refreshAfter := seq(|p.nodes|, _ => false))) &&
    Searched(p, plan) &&
    forall i: nat :: i < |p.nodes| && plan.refreshAfter[i] ==>
                       plan.live[i] && OperandUses(p, plan.live, i, |p.nodes|) >= 2
  }

  /** How often each node is read by live nodes. */
  function UsesOf(p: Program, live: seq<bool>): (uses: seq<nat>)
    requires |live| == |p.nodes|
    ensures |uses| == |p.nodes|
  {
    seq(|p.nodes|, v requires 0 <= v => OperandUses(p, live, v, |p.nodes|))
  }

  /** The plan without any hoisted refresh, with its own total. */
  function Unhoisted(p: Program, plan: Plan): (start: Plan)
    requires PlanFor(p, plan) && Topological(p)
    ensures PlanFor(p, start)
  {
    var plain := plan.(refreshAfter := seq(|p.nodes|, _ => false));
    plain.(refreshes := Refreshes(p, plain))
  }

  /**
   The plan is what the greedy search makes of the unhoisted one; no single refresh improves it further, unless all
   eight passes were needed and each has saved a refresh.
   */
  ghost predicate Searched(p: Program, plan: Plan)
    requires PlanFor(p, plan) && Topological(p)
  {
    var start, uses := Unhoisted(p, plan), UsesOf(p, plan.live);
    plan == Passes(p, start, uses, 8) && (Converged(p, plan, uses) || plan.refreshes + 8 <= start.refreshes)
  }

  method PlanPackedDepth(p: Program, ceiling: int, refreshed: int) returns (r: Option<Plan>)
    requires Accepted(p)
    ensures r.None? <==> refreshed < 0 || ceiling <= refreshed
    ensures r.Some? ==> r.value.ceiling == ceiling && r.value.refreshed == refreshed && PlanHolds(p, r.value)
  {
    if refreshed < 0 || ceiling <= refreshed { return None; }
    AcceptedTopological(p);
    var live := LiveNodes(p);
    var deferMask := DeferredMasks(p);
    var uses := CountUses(p, live);
    var cost := NodeCosts(p, deferMask);
    var plain := Plan(cost, seq(|p.nodes|, _ => false), deferMask, live, 0, ceiling, refreshed);
    PlainCosts(p, plain);
    var total, levels := SimulatePackedDepth(p, plain, FreshLevels(p));
    var start := plain.(refreshes := total);
    StartHoisted(p, plain, total, uses);
    StartLevels(p, plain, total);
    hide *;
    var plan := HoistRefreshes(p, start, levels, uses);
    FinishedPlan(p, plain, start, plan, uses);
    r := Some(plan);
    HoistedLimits(p, start, plan, uses);
  }

  lemma PlainCosts(p: Program, plain: Plan)
    requires Accepted(p) && PlanFor(p, plain)
    requires forall i: nat :: i < |p.nodes| ==>
               NodeAccepted(p, i) && plain.cost[i] == NodeDepth(p, i) - if plain.deferMask[i] then 1 else 0
    requires forall i: nat :: i < |p.nodes| ==> (plain.deferMask[i] <==> Deferred(p, i))
    ensures CostsExact(p, plain)
  {
    hide NodeAccepted;
    hide NodeDepth;
    hide Deferred;
  }

  lemma StartHoisted(p: Program, plain: Plan, total: nat, uses: seq<nat>)
    requires PlanFor(p, plain) && Topological(p) && |uses| == |p.nodes| && total == Refreshes(p, plain)
    requires plain.refreshAfter == seq(|p.nodes|, _ => false)
    ensures Hoisted(p, plain.(refreshes := total), plain.(refreshes := total), uses)
  {
    TotalIgnored(p, plain, total, FreshLevels(p), |p.nodes|);
    hide Simulated;
  }

  lemma StartLevels(p: Program, plain: Plan, total: nat)
    requires PlanFor(p, plain) && Topological(p)
    ensures LevelsExact(p, plain.(refreshes := total), Simulated(p, plain, FreshLevels(p), |p.nodes|).produced)
  {
    TotalIgnored(p, plain, total, FreshLevels(p), |p.nodes|);
    SimulatedLevelsExact(p, plain, FreshLevels(p));
    hide Simulated;
  }

  lemma HoistedLimits(p: Program, start: Plan, plan: Plan, uses: seq<nat>)
    requires Hoisted(p, start, plan, uses)
    ensures plan.ceiling == start.ceiling && plan.refreshed == start.refreshed
  {
    hide Refreshes;
  }

  lemma FinishedPlan(p: Program, plain: Plan, start: Plan, plan: Plan, uses: seq<nat>)
    requires Accepted(p) && PlanFor(p, plain) && Topological(p) && CostsExact(p, plain)
    requires plain.refreshAfter == seq(|p.nodes|, _ => false) && start == plain.(refreshes := Refreshes(p, plain))
    requires Hoisted(p, start, plan, uses) && plan == Passes(p, start, uses, 8)
    requires Converged(p, plan, uses) || plan.refreshes + 8 <= start.refreshes
    requires forall i: nat :: i < |p.nodes| ==> (plain.live[i] <==> Reached(p, i))
    requires forall v: nat :: v < |p.nodes| ==> uses[v] == OperandUses(p, plain.live, v, |p.nodes|)
    ensures PlanHolds(p, plan)
  {
    hide Passes;
    hide Converged;
    hide Simulated;
    hide OperandUses;
    hide Reached;
    hide Accepted;
    hide CostsExact;
    hide Hoisted;
    hide Topological;
    TotalIgnored(p, plain, plan.refreshes, FreshLevels(p), |p.nodes|);
    HoistedKeeps(p, start, plan, uses);
    CostsKept(p, plain, plan);
    assert plan.(refreshAfter := seq(|p.nodes|, _ => false)) == plain.(refreshes := plan.refreshes);
    assert Unhoisted(p, plan) == start;
    HoistedFits(p, start, plan, uses);
    UsesAre(p, plain.live, uses);
    hide UsesOf;
    hide Unhoisted;
  }

  lemma UsesAre(p: Program, live: seq<bool>, uses: seq<nat>)
    requires |live| == |p.nodes| == |uses|
    requires forall v: nat :: v < |p.nodes| ==> uses[v] == OperandUses(p, live, v, |p.nodes|)
    ensures UsesOf(p, live) == uses
  {
    hide OperandUses;
  }

  lemma HoistedKeeps(p: Program, start: Plan, plan: Plan, uses: seq<nat>)
    requires Hoisted(p, start, plan, uses)
    ensures PlanFor(p, plan) && plan == start.(refreshAfter := plan.refreshAfter, refreshes := plan.refreshes)
    ensures Topological(p) && plan.refreshes == Refreshes(p, plan) && plan.refreshes <= start.refreshes
    ensures forall i: nat :: i < |p.nodes| && plan.refreshAfter[i] ==> plan.live[i] && i < |uses| && uses[i] >= 2
  {
    hide Refreshes;
    hide Topological;
  }

  lemma CostsKept(p: Program, a: Plan, b: Plan)
    requires Accepted(p) && PlanFor(p, a) && PlanFor(p, b) && CostsExact(p, a)
    requires a.cost == b.cost && a.deferMask == b.deferMask
    ensures CostsExact(p, b)
  {
    hide Accepted;
    hide NodeAccepted;
    hide Deferred;
    hide NodeDepth;
  }

  /** With thirteen levels above the refresh level, no planned node of any accepted program passes the ceiling. */
  lemma PlannedNeverAboveCeiling(p: Program, plan: Plan, produced: seq<int>)
    requires Accepted(p) && PlanHolds(p, plan) && 0 <= plan.refreshed && plan.ceiling - plan.refreshed >= NODE_LEVELS
    requires |produced| == |p.nodes| && AllBelow(produced, plan.ceiling)
    ensures var s := Simulated(p, plan, produced, |p.nodes|);
            AllBelow(s.levels, plan.ceiling) && AllBelow(s.produced, plan.ceiling)
    ensures forall i: nat :: i < |p.nodes| ==> ComputesWithin(p, plan, produced, i)
  {
    PlannedBudget(p, plan);
    hide *;
    NeverAboveCeiling(p, plan, produced, |p.nodes|);
  }

  lemma PlannedBudget(p: Program, plan: Plan)
    requires Accepted(p) && PlanHolds(p, plan) && 0 <= plan.refreshed && plan.ceiling - plan.refreshed >= NODE_LEVELS
    ensures PlanFor(p, plan) && Topological(p) && Budget(plan)
  {
    hide Searched;
    hide Refreshes;
    hide Topological;
    hide Accepted;
    forall i: nat | i < |p.nodes| ensures 0 <= plan.cost[i] <= NODE_LEVELS {
      NodeDepthBound(p, i);
      if Deferred(p, i) { assert NodeDepth(p, i) == 2; }
    }
  }

  /** The live set of a plan is closed under operands, so a frontier schedule over it always drains. */
  lemma PlannedLiveCloses(p: Program, plan: Plan)
    requires Accepted(p) && PlanHolds(p, plan)
    ensures PackedSchedule.ParentClosed(p, plan.live)
  {
    forall i: nat, k: nat | i < |p.nodes| && plan.live[i] && k < |p.nodes[i].parents|
      ensures PackedSchedule.LiveParent(p, plan.live, i, k)
    {
      assert ParentsBefore(p.nodes, i);
      ReachedOperand(p, i, p.nodes[i].parents[k]);
    }
  }
}
