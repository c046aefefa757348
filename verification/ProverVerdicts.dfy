/**
 What the counts in a verdict of certify_bounds mean (src/fhemamba/polynomial_certificate.py:77-111), said without the
 loop: how the verdict changes with either limit, when the root alone decides, and where a counterexample lies.
 */
module ProverVerdicts {
  import opened Bernstein
  import opened BernsteinProver
  import opened Options
  import opened Powers
  import opened Reals

  /** Exactly these inputs are refused. */
  lemma RefusedInputs(power: seq<real>, lower: Option<real>, upper: Option<real>, limits: Limits)
    ensures Prove(power, Bounds(lower, upper), limits).Invalid?
            <==> power == [] || limits.depth < 0 || limits.nodes < 1 || (lower == None && upper == None) ||
                 (lower.Some? && upper.Some? && lower.value > upper.value)
  {
    if !Prove(power, Bounds(lower, upper), limits).Invalid? { ProveCounts(power, Bounds(lower, upper), limits); }
    if power != [] && limits.depth >= 0 && limits.nodes >= 1 && Bounds(lower, upper).Usable() {
      SearchCounts([Segment(ToBernstein(power), 0)], 0, 0, 0, Bounds(lower, upper), limits);
      hide Search;
    }
  }

  // ---------- the node limit ----------

  // The verdict of the same search that may visit no more than cap nodes.
  ghost predicate CutAt(v: Verdict, other: Verdict, cap: nat)
    requires !v.Invalid?
  {
    other == if v.nodes <= cap then v else NodeLimit(cap)
  }

  lemma {:induction false} SearchNodes(queue: seq<Segment>, nodes: nat, leaves: nat, deepest: nat, bounds: Bounds,
                                       limits: Limits, cap: nat)
    requires WellFormed(queue) && nodes <= limits.nodes && nodes <= cap
    requires !Search(queue, nodes, leaves, deepest, bounds, limits).NodeLimit?
    ensures var v := Search(queue, nodes, leaves, deepest, bounds, limits);
            !v.Invalid? && v.nodes >= nodes + (if queue == [] then 0 else 1) &&
            CutAt(v, Search(queue, nodes, leaves, deepest, bounds, Limits(limits.depth, cap)), cap)
    decreases limits.nodes - nodes
  {
    var other := Limits(limits.depth, cap);
    if queue == [] || nodes == limits.nodes {
      SearchStop(queue, nodes, leaves, deepest, bounds, limits);
      hide Search;
      if queue == [] { SearchStop(queue, nodes, leaves, deepest, bounds, other); }
    } else {
      var rest, b, depth := queue[..|queue| - 1], queue[|queue| - 1].coefficients, queue[|queue| - 1].depth;
      var deeper, pushed := Deeper(depth, deepest), if |b| > 0 then Pushed(rest, b, depth + 1) else rest;
      LastWellFormed(queue);
      hide Search;
      hide HullInside;
      hide WellFormed;
      hide Pushed;
      if nodes == cap { SearchStop(queue, nodes, leaves, deepest, bounds, other); }
      if HullInside(b, bounds) {
        TurnInside(queue, nodes, leaves, deepest, bounds, limits);
        if nodes < cap {
          TurnInside(queue, nodes, leaves, deepest, bounds, other);
          SearchNodes(rest, nodes + 1, leaves + 1, deeper, bounds, limits, cap);
        } else {
          SearchNodes(rest, nodes + 1, leaves + 1, deeper, bounds, limits, cap + 1);
        }
      } else if Undecided(b, bounds) && depth < limits.depth {
        TurnSplits(queue, nodes, leaves, deepest, bounds, limits);
        if nodes < cap {
          TurnSplits(queue, nodes, leaves, deepest, bounds, other);
          SearchNodes(pushed, nodes + 1, leaves, deeper, bounds, limits, cap);
        } else {
          SearchNodes(pushed, nodes + 1, leaves, deeper, bounds, limits, cap + 1);
        }
      } else {
        TurnStops(queue, nodes, leaves, deepest, bounds, limits);
        if nodes < cap { TurnStops(queue, nodes, leaves, deepest, bounds, other); }
      }
    }
  }

  /**
   The recorded node count is what the search needs: with any positive node limit from there on the verdict is the very
   same, and with any smaller one it is the refusal at that limit.
   */
  lemma NodesNeeded(power: seq<real>, bounds: Bounds, limits: Limits, cap: int)
    requires !Prove(power, bounds, limits).Invalid? && !Prove(power, bounds, limits).NodeLimit? && cap >= 1
    ensures var v := Prove(power, bounds, limits);
            Prove(power, bounds, Limits(limits.depth, cap)) == if v.nodes <= cap then v else NodeLimit(cap)
  {
    SearchNodes([Segment(ToBernstein(power), 0)], 0, 0, 0, bounds, limits, cap);
    hide Search;
  }

  // ---------- the depth limit ----------

  ghost predicate DepthsWithin(queue: seq<Segment>, depth: int)
  {
    forall i :: 0 <= i < |queue| ==> queue[i].depth <= depth
  }

  // A certified search has visited every queued segment, and records no less than its depth.
  lemma {:induction false} SearchDeepest(queue: seq<Segment>, nodes: nat, leaves: nat, deepest: nat, bounds: Bounds,
                                         limits: Limits)
    requires WellFormed(queue) && nodes <= limits.nodes
    requires Search(queue, nodes, leaves, deepest, bounds, limits).Certified?
    ensures var d := Search(queue, nodes, leaves, deepest, bounds, limits).depth;
            deepest <= d && DepthsWithin(queue, d)
    decreases limits.nodes - nodes
  {
    if queue == [] || nodes == limits.nodes {
      SearchStop(queue, nodes, leaves, deepest, bounds, limits);
      hide Search;
    } else {
      var rest, b, depth := queue[..|queue| - 1], queue[|queue| - 1].coefficients, queue[|queue| - 1].depth;
      LastWellFormed(queue);
      hide Search;
      hide HullInside;
      hide WellFormed;
      if HullInside(b, bounds) {
        TurnInside(queue, nodes, leaves, deepest, bounds, limits);
        SearchDeepest(rest, nodes + 1, leaves + 1, Deeper(depth, deepest), bounds, limits);
      } else if Undecided(b, bounds) && depth < limits.depth {
        TurnSplits(queue, nodes, leaves, deepest, bounds, limits);
        SearchDeepest(Pushed(rest, b, depth + 1), nodes + 1, leaves, Deeper(depth, deepest), bounds, limits);
        PushedIs(rest, b, depth + 1);
        assert forall i :: 0 <= i < |rest| ==> Pushed(rest, b, depth + 1)[i] == queue[i];
      } else {
        TurnStops(queue, nodes, leaves, deepest, bounds, limits);
      }
    }
  }

  lemma PushedDepths(queue: seq<Segment>, b: seq<real>, depth: nat, cap: int)
    requires queue != [] && |b| > 0 && WellFormed(queue[..|queue| - 1]) && DepthsWithin(queue, cap) && depth < cap
    ensures DepthsWithin(Pushed(queue[..|queue| - 1], b, depth + 1), cap)
    ensures DepthsWithin(queue[..|queue| - 1], cap)
  {
    hide LeftHalf;
    hide RightHalf;
  }

  lemma PushedTop(rest: seq<Segment>, b: seq<real>, depth: nat, cap: int)
    requires |b| > 0 && WellFormed(rest) && DepthsWithin(Pushed(rest, b, depth), cap)
    ensures depth <= cap
  {
    assert Pushed(rest, b, depth)[|rest|].depth == depth;
  }

  // The verdict of a certified search under another depth limit.
  ghost predicate DeepAs(v: Verdict, other: Verdict, cap: int)
    requires v.Certified?
  {
    if v.depth <= cap then other == v else !other.Certified?
  }

  lemma {:induction false} SearchDepth(queue: seq<Segment>, nodes: nat, leaves: nat, deepest: nat, bounds: Bounds,
                                       limits: Limits, cap: int)
    requires WellFormed(queue) && nodes <= limits.nodes && deepest <= cap && DepthsWithin(queue, cap)
    requires Search(queue, nodes, leaves, deepest, bounds, limits).Certified?
    ensures DeepAs(Search(queue, nodes, leaves, deepest, bounds, limits),
                   Search(queue, nodes, leaves, deepest, bounds, Limits(cap, limits.nodes)), cap)
    decreases limits.nodes - nodes
  {
    var other := Limits(cap, limits.nodes);
    if queue == [] || nodes == limits.nodes {
      SearchStop(queue, nodes, leaves, deepest, bounds, limits);
      SearchStop(queue, nodes, leaves, deepest, bounds, other);
      hide Search;
    } else {
      var rest, b, depth := queue[..|queue| - 1], queue[|queue| - 1].coefficients, queue[|queue| - 1].depth;
      LastWellFormed(queue);
      assert depth <= cap;
      hide Search;
      hide HullInside;
      hide WellFormed;
      if HullInside(b, bounds) {
        TurnInside(queue, nodes, leaves, deepest, bounds, limits);
        TurnInside(queue, nodes, leaves, deepest, bounds, other);
        SearchDepth(rest, nodes + 1, leaves + 1, Deeper(depth, deepest), bounds, limits, cap);
      } else if Undecided(b, bounds) && depth < limits.depth {
        TurnSplits(queue, nodes, leaves, deepest, bounds, limits);
        if depth < cap {
          TurnSplits(queue, nodes, leaves, deepest, bounds, other);
          PushedDepths(queue, b, depth, cap);
          SearchDepth(Pushed(rest, b, depth + 1), nodes + 1, leaves, Deeper(depth, deepest), bounds, limits, cap);
        } else {
          TurnStops(queue, nodes, leaves, deepest, bounds, other);
          SearchDeepest(Pushed(rest, b, depth + 1), nodes + 1, leaves, Deeper(depth, deepest), bounds, limits);
          PushedTop(rest, b, depth + 1, Search(queue, nodes, leaves, deepest, bounds, limits).depth);
        }
      } else {
        TurnStops(queue, nodes, leaves, deepest, bounds, limits);
      }
    }
  }

  /**
   The recorded depth of a certified run is the least depth limit that certifies with the same node limit, and from it
   on the verdict is the very same.
   */
  lemma DepthNeeded(power: seq<real>, bounds: Bounds, limits: Limits, cap: int)
    requires Prove(power, bounds, limits).Certified? && cap >= 0
    ensures var v, other := Prove(power, bounds, limits), Prove(power, bounds, Limits(cap, limits.nodes));
            (other.Certified? <==> cap >= v.depth) && (cap >= v.depth ==> other == v)
  {
    SearchDepth([Segment(ToBernstein(power), 0)], 0, 0, 0, bounds, limits, cap);
    hide Search;
  }

  // ---------- the root alone ----------

  /** v meets the bounds that are given, each with equality allowed. */
  predicate Meets(lower: Option<real>, upper: Option<real>, v: real)
  {
    (lower == None || lower.value <= v) && (upper == None || v <= upper.value)
  }

  /**
   One node is enough exactly when the coefficients of the whole interval all meet the bounds, for a certificate, or
   when the polynomial itself breaks them at 0 or at 1, for a counterexample; nothing else is said at depth 0.
   */
  lemma RootDecides(power: seq<real>, lower: Option<real>, upper: Option<real>, limits: Limits)
    requires !Prove(power, Bounds(lower, upper), limits).Invalid?
    ensures var v, b := Prove(power, Bounds(lower, upper), limits), ToBernstein(power);
            (v == Certified(1, 1, 0) <==> forall i :: 0 <= i < |b| ==> Meets(lower, upper, b[i])) &&
            (v == Counterexample(1, 0) <==>
               !Meets(lower, upper, Eval(power, 0.0)) || !Meets(lower, upper, Eval(power, 1.0)))
  {
    var bounds, b := Bounds(lower, upper), ToBernstein(power);
    RootEnds(power, b);
    hide Eval;
    hide ToBernstein;
    var queue := [Segment(b, 0)];
    assert queue[..0] == [];
    assert forall x :: Meets(lower, upper, x) <==> bounds.Allows(x);
    if HullInside(b, bounds) {
      TurnInside(queue, 0, 0, 0, bounds, limits);
      SearchStop([], 1, 1, 0, bounds, limits);
      hide Search;
    } else if Undecided(b, bounds) && limits.depth > 0 {
      TurnSplits(queue, 0, 0, 0, bounds, limits);
      var pushed := Pushed([], b, 1);
      if !Search(pushed, 1, 0, 0, bounds, limits).NodeLimit? {
        SearchNodes(pushed, 1, 0, 0, bounds, limits, limits.nodes);
      }
      hide Search;
    } else {
      TurnStops(queue, 0, 0, 0, bounds, limits);
      hide Search;
    }
  }

  lemma RootEnds(power: seq<real>, b: seq<real>)
    requires |power| > 0 && b == ToBernstein(power)
    ensures |b| == |power| && b[0] == Eval(power, 0.0) && b[|b| - 1] == Eval(power, 1.0)
  {
    EndValues(b);
    BasisChange(power, 0.0);
    BasisChange(power, 1.0);
    hide Value;
  }

  lemma EndValues(b: seq<real>)
    requires |b| > 0
    ensures ValueAt(0.0)(b) == b[0] && ValueAt(1.0)(b) == b[|b| - 1]
  {
    ValueBlends(0.0);
    ValueBlends(1.0);
    EndpointValue(ValueAt(0.0), b, false);
    EndpointValue(ValueAt(1.0), b, true);
  }

  // ---------- where a counterexample lies ----------

  /** The width of a segment so deep. */
  function Width(depth: nat): (w: real)
    ensures w > 0.0
  {
    if depth == 0 then 1.0 else Width(depth - 1) / 2.0
  }

  // The segment is the polynomial from start over its own width.
  ghost predicate Located(x: Segment, power: seq<real>, start: real)
  {
    |x.coefficients| > 0 &&
    forall t: real :: ValueAt(t)(x.coefficients) == Eval(power, start + Times(t, Width(x.depth)))
  }

  // The k-th segment of its depth; a right one has had its right end tested as the end of its parent.
  ghost predicate Placed(x: Segment, power: seq<real>, bounds: Bounds, start: real, k: nat)
  {
    start == Times(k as real, Width(x.depth)) && Located(x, power, start) &&
    (k % 2 == 1 ==> bounds.Allows(x.coefficients[|x.coefficients| - 1]))
  }

  // From the top of the queue downwards the segments tile [start, 1] from left to right.
  ghost predicate Tiles(queue: seq<Segment>, power: seq<real>, bounds: Bounds, start: real)
  {
    if queue == [] then start == 1.0
    else
      var x := queue[|queue| - 1];
      (exists k: nat :: Placed(x, power, bounds, start, k)) &&
      Tiles(queue[..|queue| - 1], power, bounds, start + Width(x.depth))
  }

  ghost predicate AllowedTo(power: seq<real>, bounds: Bounds, end: real)
  {
    forall t: real :: 0.0 <= t <= end ==> bounds.Allows(Eval(power, t))
  }

  lemma {:induction false} TilesEnd(queue: seq<Segment>, power: seq<real>, bounds: Bounds, start: real)
    requires Tiles(queue, power, bounds, start)
    ensures start <= 1.0
    decreases |queue|
  {
    if queue != [] {
      TilesEnd(queue[..|queue| - 1], power, bounds, start + Width(queue[|queue| - 1].depth));
    }
  }

  lemma HalfTime(t: real, w: real, half: real, start: real)
    requires half == w / 2.0
    ensures start + Times(t / 2.0, w) == start + Times(t, half)
    ensures start + Times((1.0 + t) / 2.0, w) == (start + half) + Times(t, half)
  {
  }

  lemma LocatedAt(x: Segment, power: seq<real>, start: real, t: real)
    requires Located(x, power, start)
    ensures |x.coefficients| > 0 && ValueAt(t)(x.coefficients) == Eval(power, start + Times(t, Width(x.depth)))
  {
  }

  lemma HalvesAt(x: Segment, power: seq<real>, start: real, t: real)
    requires Located(x, power, start) && |x.coefficients| > 0
    ensures ValueAt(t)(LeftHalf(x.coefficients)) == Eval(power, start + Times(t, Width(x.depth + 1)))
    ensures ValueAt(t)(RightHalf(x.coefficients))
            == Eval(power, start + Width(x.depth + 1) + Times(t, Width(x.depth + 1)))
  {
    assert Width(x.depth + 1) == Width(x.depth) / 2.0;
    hide *;
    LeftHalfValue(x.coefficients, t);
    RightHalfValue(x.coefficients, t);
    HalfTime(t, Width(x.depth), Width(x.depth + 1), start);
    LocatedAt(x, power, start, t / 2.0);
    LocatedAt(x, power, start, (1.0 + t) / 2.0);
  }

  lemma HalvesLocated(x: Segment, power: seq<real>, start: real)
    requires Located(x, power, start)
    ensures Located(Segment(LeftHalf(x.coefficients), x.depth + 1), power, start)
    ensures Located(Segment(RightHalf(x.coefficients), x.depth + 1), power, start + Width(x.depth + 1))
  {
    forall t: real
      ensures ValueAt(t)(LeftHalf(x.coefficients)) == Eval(power, start + Times(t, Width(x.depth + 1)))
      ensures ValueAt(t)(RightHalf(x.coefficients))
              == Eval(power, start + Width(x.depth + 1) + Times(t, Width(x.depth + 1)))
    {
      HalvesAt(x, power, start, t);
      hide *;
    }
    hide ValueAt;
    hide Eval;
    hide Width;
    hide Times;
  }

  lemma HalfIndex(k: nat, w: real, half: real, start: real)
    requires half == w / 2.0 && start == Times(k as real, w)
    ensures start == Times((2 * k) as real, half) && start + half == Times((2 * k + 1) as real, half)
  {
    assert (2 * k) as real == 2.0 * k as real && (2 * k + 1) as real == 2.0 * k as real + 1.0;
  }

  lemma RightHalfEnd(b: seq<real>)
    requires |b| > 0
    ensures |RightHalf(b)| == |b| && RightHalf(b)[|b| - 1] == b[|b| - 1]
  {
    SpreadSmooth(b);
    HalvesSmooth(b, Spread(b));
  }

  lemma HalvesPlaced(x: Segment, power: seq<real>, bounds: Bounds, start: real, k: nat)
    requires Placed(x, power, bounds, start, k) && bounds.Allows(x.coefficients[|x.coefficients| - 1])
    ensures Placed(Segment(LeftHalf(x.coefficients), x.depth + 1), power, bounds, start, 2 * k)
    ensures Placed(Segment(RightHalf(x.coefficients), x.depth + 1), power, bounds, start + Width(x.depth + 1),
                   2 * k + 1)
  {
    HalvesLocated(x, power, start);
    RightHalfEnd(x.coefficients);
    HalfIndex(k, Width(x.depth), Width(x.depth + 1), start);
    hide Located;
    hide Width;
    hide Times;
  }

  lemma PushedTiles(queue: seq<Segment>, power: seq<real>, bounds: Bounds, start: real, k: nat)
    requires queue != [] && |queue[|queue| - 1].coefficients| > 0 && WellFormed(queue[..|queue| - 1])
    requires Placed(queue[|queue| - 1], power, bounds, start, k)
    requires Tiles(queue[..|queue| - 1], power, bounds, start + Width(queue[|queue| - 1].depth))
    requires var b := queue[|queue| - 1].coefficients; bounds.Allows(b[|b| - 1])
    ensures var x := queue[|queue| - 1];
            Tiles(Pushed(queue[..|queue| - 1], x.coefficients, x.depth + 1), power, bounds, start)
  {
    hide *;
    var rest, x := queue[..|queue| - 1], queue[|queue| - 1];
    HalvesPlaced(x, power, bounds, start, k);
    PushedIs(rest, x.coefficients, x.depth + 1);
    var left, right := Segment(LeftHalf(x.coefficients), x.depth + 1), Segment(RightHalf(x.coefficients), x.depth + 1);
    HalfWidth(x.depth);
    TileOnto(rest, right, power, bounds, start + Width(x.depth + 1), 2 * k + 1);
    TileOnto(rest + [right], left, power, bounds, start, 2 * k);
    assert rest + [right, left] == (rest + [right]) + [left];
  }

  lemma HalfWidth(depth: nat)
    ensures Width(depth + 1) + Width(depth + 1) == Width(depth)
  {
  }

  lemma TileOnto(rest: seq<Segment>, x: Segment, power: seq<real>, bounds: Bounds, start: real, k: nat)
    requires Placed(x, power, bounds, start, k) && Tiles(rest, power, bounds, start + Width(x.depth))
    ensures Tiles(rest + [x], power, bounds, start)
  {
    assert (rest + [x])[..|rest|] == rest;
    hide Placed;
  }

  // A leaf extends what is known to be allowed over its own width.
  lemma LeafAllows(x: Segment, power: seq<real>, bounds: Bounds, start: real)
    requires Located(x, power, start) && Holds(x.coefficients, bounds) && AllowedTo(power, bounds, start)
    ensures AllowedTo(power, bounds, start + Width(x.depth))
  {
    var w := Width(x.depth);
    forall s: real | 0.0 <= s <= start + w ensures bounds.Allows(Eval(power, s)) {
      if s > start {
        var t := (s - start) / w;
        PositionInside(s - start, w, t);
        assert ValueAt(t)(x.coefficients) == Eval(power, start + Times(t, w));
        assert bounds.Allows(ValueAt(t)(x.coefficients));
      }
    }
  }

  lemma PositionInside(a: real, w: real, t: real)
    requires 0.0 < a <= w && t == a / w
    ensures 0.0 <= t <= 1.0 && Times(t, w) == a
  {
    assert w * t == a;
    MulMonoIff(w, t, 1.0);
    MulMonoIff(w, 0.0, t);
  }

  /** The polynomial breaks the bounds at the j-th multiple of 2^-depth, and keeps them up to the multiple before. */
  ghost predicate BreaksAt(power: seq<real>, bounds: Bounds, depth: nat, j: nat)
  {
    j as real / Pow2(depth) as real <= 1.0 && !bounds.Allows(Eval(power, j as real / Pow2(depth) as real)) &&
    forall t: real :: 0.0 <= t <= (j as real - 1.0) / Pow2(depth) as real ==> bounds.Allows(Eval(power, t))
  }

  lemma {:induction false} WidthIs(depth: nat)
    ensures Times(Pow2(depth) as real, Width(depth)) == 1.0
  {
    if depth > 0 {
      WidthIs(depth - 1);
      HalfProduct(Pow2(depth - 1) as real, Width(depth - 1), Pow2(depth) as real, Width(depth));
    }
  }

  lemma HalfProduct(p: real, w: real, q: real, half: real)
    requires q == 2.0 * p && half == w / 2.0
    ensures Times(q, half) == Times(p, w)
  {
  }

  lemma MultipleIs(x: real, depth: nat)
    ensures Times(x, Width(depth)) == x / Pow2(depth) as real
  {
    WidthIs(depth);
    QuotientProduct(x, Pow2(depth) as real, Width(depth));
  }

  lemma QuotientProduct(x: real, p: real, w: real)
    requires p > 0.0 && Times(p, w) == 1.0
    ensures Times(x, w) == x / p
  {
    var q := x / p;
    assert q * p == x;
    assert q * (p * w) == x * w;
  }

  // The top segment fails at an end; its left end is allowed, so it is a left one and fails at its right end.
  lemma TopBreaks(x: Segment, power: seq<real>, bounds: Bounds, start: real, k: nat)
    requires Placed(x, power, bounds, start, k) && AllowedTo(power, bounds, start) && start + Width(x.depth) <= 1.0
    requires !bounds.Allows(x.coefficients[0]) || !bounds.Allows(x.coefficients[|x.coefficients| - 1])
    ensures k % 2 == 0 && BreaksAt(power, bounds, x.depth, k + 1)
  {
    var w, b := Width(x.depth), x.coefficients;
    EndValues(b);
    assert Times(0.0, w) == 0.0 && Times(1.0, w) == w;
    MulNonneg(k as real, w);
    assert ValueAt(0.0)(b) == Eval(power, start) && ValueAt(1.0)(b) == Eval(power, start + w);
    hide Eval;
    hide ValueAt;
    MultipleIs(k as real, x.depth);
    MultipleIs((k + 1) as real, x.depth);
    NextMultiple(k, w);
    hide Width;
  }

  lemma NextMultiple(k: nat, w: real)
    ensures Times((k + 1) as real, w) == Times(k as real, w) + w && (k + 1) as real - 1.0 == k as real
  {
  }

  lemma TilesTop(queue: seq<Segment>, power: seq<real>, bounds: Bounds, start: real) returns (k: nat)
    requires queue != [] && Tiles(queue, power, bounds, start)
    ensures var x := queue[|queue| - 1];
            Placed(x, power, bounds, start, k) && Located(x, power, start) && start + Width(x.depth) <= 1.0 &&
            Tiles(queue[..|queue| - 1], power, bounds, start + Width(x.depth))
  {
    var x := queue[|queue| - 1];
    k :| Placed(x, power, bounds, start, k);
    TilesEnd(queue[..|queue| - 1], power, bounds, start + Width(x.depth));
  }

  lemma {:induction false} SearchBreaks(queue: seq<Segment>, nodes: nat, leaves: nat, deepest: nat, bounds: Bounds,
                                        limits: Limits, power: seq<real>, start: real) returns (j: nat)
    requires WellFormed(queue) && nodes <= limits.nodes
    requires Tiles(queue, power, bounds, start) && AllowedTo(power, bounds, start)
    requires Search(queue, nodes, leaves, deepest, bounds, limits).Counterexample?
    ensures j % 2 == 1
    ensures BreaksAt(power, bounds, Search(queue, nodes, leaves, deepest, bounds, limits).depth, j)
    decreases limits.nodes - nodes
  {
    hide *;
    j := 1;
    if queue == [] || nodes == limits.nodes {
      SearchStop(queue, nodes, leaves, deepest, bounds, limits);
    } else {
      var rest, x := queue[..|queue| - 1], queue[|queue| - 1];
      var b, deeper := x.coefficients, Deeper(x.depth, deepest);
      LastWellFormed(queue);
      var k := TilesTop(queue, power, bounds, start);
      if HullInside(b, bounds) {
        TurnInside(queue, nodes, leaves, deepest, bounds, limits);
        HullHolds(b, bounds);
        LeafAllows(x, power, bounds, start);
        j := SearchBreaks(rest, nodes + 1, leaves + 1, deeper, bounds, limits, power, start + Width(x.depth));
      } else if Undecided(b, bounds) && x.depth < limits.depth {
        TurnSplits(queue, nodes, leaves, deepest, bounds, limits);
        UndecidedEnds(b, bounds);
        PushedTiles(queue, power, bounds, start, k);
        j := SearchBreaks(Pushed(rest, b, x.depth + 1), nodes + 1, leaves, deeper, bounds, limits, power, start);
      } else {
        TurnStops(queue, nodes, leaves, deepest, bounds, limits);
        DecidedEnds(b, bounds);
        TopBreaks(x, power, bounds, start, k);
        j := k + 1;
      }
    }
  }

  lemma UndecidedEnds(b: seq<real>, bounds: Bounds)
    requires |b| > 0 && Undecided(b, bounds)
    ensures bounds.Allows(b[0]) && bounds.Allows(b[|b| - 1])
  {
  }

  lemma DecidedEnds(b: seq<real>, bounds: Bounds)
    requires |b| > 0 && !HullInside(b, bounds) && !Undecided(b, bounds)
    ensures !bounds.Allows(b[0]) || !bounds.Allows(b[|b| - 1])
  {
  }

  lemma RootTiles(power: seq<real>, bounds: Bounds)
    requires |power| > 0
    ensures Tiles([Segment(ToBernstein(power), 0)], power, bounds, 0.0)
  {
    var x := Segment(ToBernstein(power), 0);
    forall t: real ensures ValueAt(t)(x.coefficients) == Eval(power, 0.0 + Times(t, Width(0))) {
      BasisChange(power, t);
    }
    hide Eval;
    hide ToBernstein;
    assert Placed(x, power, bounds, 0.0, 0);
    hide Placed;
    assert [x][..0] == [];
  }

  /**
   A counterexample of depth d is a value at a multiple of 2^-d, an odd one unless it is the value at 0, and the search
   runs from left to right: the bounds hold from 0 up to the multiple before it.
   */
  lemma CounterexampleLies(power: seq<real>, bounds: Bounds, limits: Limits) returns (j: nat)
    requires Prove(power, bounds, limits).Counterexample?
    ensures var d := Prove(power, bounds, limits).depth;
            BreaksAt(power, bounds, d, j) && (j % 2 == 1 || (j == 0 && d == 0))
  {
    var b := ToBernstein(power);
    var queue := [Segment(b, 0)];
    RootEnds(power, b);
    if !bounds.Allows(b[0]) {
      BadEndOutside(b, bounds);
      TurnStops(queue, 0, 0, 0, bounds, limits);
      j := 0;
      assert Pow2(0) == 1;
      hide Search;
    } else {
      RootTiles(power, bounds);
      assert AllowedTo(power, bounds, 0.0);
      hide *;
      ProveIs(power, bounds, limits);
      j := SearchBreaks(queue, 0, 0, 0, bounds, limits, power, 0.0);
    }
  }

  lemma ProveIs(power: seq<real>, bounds: Bounds, limits: Limits)
    requires !Prove(power, bounds, limits).Invalid?
    ensures |ToBernstein(power)| > 0 && WellFormed([Segment(ToBernstein(power), 0)]) && limits.nodes >= 1
    ensures Prove(power, bounds, limits) == Search([Segment(ToBernstein(power), 0)], 0, 0, 0, bounds, limits)
  {
    hide Search;
  }
}
