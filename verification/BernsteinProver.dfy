/**
 certify_bounds (src/fhemamba/polynomial_certificate.py:52-111): depth-first subdivision with exact
 convex hulls, exact endpoint counterexamples and two resource limits.
 */
module BernsteinProver {
  import opened Sequences
  import opened Bernstein
  import opened Options
  import opened Powers
  import opened Reals

  // ---------- subdivide_midpoint ----------

  // Columns collected so far: left ends in row's first entry, right in its last, and what remains of
  // either half is the half of row.
  ghost predicate Splitting(b: seq<real>, left: seq<real>, right: seq<real>, row: seq<real>)
  {
    |b| > 0 && |row| > 0 && |left| > 0 && |right| > 0 &&
    left[|left| - 1] == row[0] && right[|right| - 1] == row[|row| - 1] &&
    LeftHalf(b) == Init(left) + LeftHalf(row) &&
    RightHalf(b) == RightHalf(row) + Reversed(Init(right))
  }

  lemma SplittingStep(b: seq<real>, left: seq<real>, right: seq<real>, row: seq<real>)
    requires Splitting(b, left, right, row) && |row| > 1
    ensures var next := Midpoints(row);
            Splitting(b, left + [next[0]], right + [next[|next| - 1]], next)
  {
    var next := Midpoints(row);
    assert left == Init(left) + [row[0]];
    assert Init(left + [next[0]]) == left && Init(right + [next[|next| - 1]]) == right;
    assert Reversed(right) == [row[|row| - 1]] + Reversed(Init(right));
    assert LeftHalf(row) == [row[0]] + LeftHalf(next);
    assert RightHalf(row) == RightHalf(next) + [row[|row| - 1]];
  }

  lemma SplittingDone(b: seq<real>, left: seq<real>, right: seq<real>, row: seq<real>)
    requires Splitting(b, left, right, row) && |row| == 1
    ensures left == LeftHalf(b) && Reversed(right) == RightHalf(b)
  {
    assert left == Init(left) + [row[0]];
    assert Reversed(right) == [row[0]] + Reversed(Init(right));
  }

  method SubdivideMidpoint(b: seq<real>) returns (left: seq<real>, right: seq<real>)
    requires |b| > 0
    ensures left == LeftHalf(b) && right == RightHalf(b)
  {
    var row := b;
    left, right := [row[0]], [row[|row| - 1]];
    while |row| > 1
      invariant Splitting(b, left, right, row)
      decreases |row|
    {
      SplittingStep(b, left, right, row);
      row := Midpoints(row);
      left := left + [row[0]];
      right := right + [row[|row| - 1]];
    }
    SplittingDone(b, left, right, row);
    right := Reversed(right);
  }

  // ---------- certify_bounds ----------

  datatype Bounds = Bounds(lower: Option<real>, upper: Option<real>)
  {
    predicate Allows(v: real)
    {
      (lower.Some? ==> lower.value <= v) && (upper.Some? ==> v <= upper.value)
    }

    predicate Usable()
    {
      (lower.Some? || upper.Some?) && (lower.Some? && upper.Some? ==> lower.value <= upper.value)
    }
  }

  datatype Limits = Limits(depth: int, nodes: int)

  datatype Segment = Segment(coefficients: seq<real>, depth: nat)

  datatype Verdict =
    | Invalid
    | NodeLimit(nodes: nat)
    | DepthLimit(nodes: nat)
    | Counterexample(nodes: nat, depth: nat)
    | Certified(nodes: nat, leaves: nat, depth: nat)

  // min(coefficients) and max(coefficients) both inside the bounds
  predicate HullInside(b: seq<real>, bounds: Bounds)
    requires |b| > 0
  {
    forall i :: 0 <= i < |b| ==> bounds.Allows(b[i])
  }

  predicate WellFormed(queue: seq<Segment>)
  {
    forall i :: 0 <= i < |queue| ==> |queue[i].coefficients| > 0
  }

  /** The verdict of the loop from an intermediate work queue; the last segment is popped first. */
  function Search(queue: seq<Segment>, nodes: nat, leaves: nat, deepest: nat, bounds: Bounds, limits: Limits): Verdict
    requires WellFormed(queue)
    requires nodes <= limits.nodes
    decreases limits.nodes - nodes
  {
    if queue == [] then Certified(nodes, leaves, deepest)
    else if nodes == limits.nodes then NodeLimit(nodes)
    else
      var segment := queue[|queue| - 1];
      var rest := queue[..|queue| - 1];
      var b := segment.coefficients;
      var deeper := Deeper(segment.depth, deepest);
      if HullInside(b, bounds) then
        Search(rest, nodes + 1, leaves + 1, deeper, bounds, limits)
      else if !bounds.Allows(b[0]) || !bounds.Allows(b[|b| - 1]) then
        Counterexample(nodes + 1, segment.depth)
      else if segment.depth >= limits.depth then
        DepthLimit(nodes + 1)
      else
        Search(Pushed(rest, b, segment.depth + 1), nodes + 1, leaves, deeper, bounds, limits)
  }

  lemma SearchStop(queue: seq<Segment>, nodes: nat, leaves: nat, deepest: nat, bounds: Bounds, limits: Limits)
    requires WellFormed(queue) && nodes <= limits.nodes
    requires queue == [] || nodes == limits.nodes
    ensures Search(queue, nodes, leaves, deepest, bounds, limits)
         == if queue == [] then Certified(nodes, leaves, deepest) else NodeLimit(nodes)
  {
  }

  lemma LastWellFormed(queue: seq<Segment>)
    requires WellFormed(queue) && queue != []
    ensures WellFormed(queue[..|queue| - 1]) && |queue[|queue| - 1].coefficients| > 0
  {
  }

  function Deeper(depth: nat, deepest: nat): nat { if depth > deepest then depth else deepest }

  // One turn of the loop, branch by branch.
  lemma TurnInside(queue: seq<Segment>, nodes: nat, leaves: nat, deepest: nat, bounds: Bounds, limits: Limits)
    requires WellFormed(queue) && queue != [] && nodes < limits.nodes
    requires |queue[|queue| - 1].coefficients| > 0 && HullInside(queue[|queue| - 1].coefficients, bounds)
    requires WellFormed(queue[..|queue| - 1])
    ensures Search(queue, nodes, leaves, deepest, bounds, limits)
            == Search(queue[..|queue| - 1], nodes + 1, leaves + 1, Deeper(queue[|queue| - 1].depth, deepest), bounds,
                      limits)
  {
  }

  // The segment on top is not inside, and its ends tell nothing.
  predicate Undecided(b: seq<real>, bounds: Bounds)
    requires |b| > 0
  {
    !HullInside(b, bounds) && bounds.Allows(b[0]) && bounds.Allows(b[|b| - 1])
  }

  lemma TurnStops(queue: seq<Segment>, nodes: nat, leaves: nat, deepest: nat, bounds: Bounds, limits: Limits)
    requires WellFormed(queue) && queue != [] && nodes < limits.nodes && |queue[|queue| - 1].coefficients| > 0
    requires !HullInside(queue[|queue| - 1].coefficients, bounds)
    requires Undecided(queue[|queue| - 1].coefficients, bounds) ==> queue[|queue| - 1].depth >= limits.depth
    ensures Search(queue, nodes, leaves, deepest, bounds, limits)
            == if Undecided(queue[|queue| - 1].coefficients, bounds) then DepthLimit(nodes + 1)
               else Counterexample(nodes + 1, queue[|queue| - 1].depth)
  {
  }

  lemma TurnSplits(queue: seq<Segment>, nodes: nat, leaves: nat, deepest: nat, bounds: Bounds, limits: Limits)
    requires WellFormed(queue) && queue != [] && nodes < limits.nodes && |queue[|queue| - 1].coefficients| > 0
    requires Undecided(queue[|queue| - 1].coefficients, bounds) && queue[|queue| - 1].depth < limits.depth
    requires WellFormed(queue[..|queue| - 1])
    ensures Search(queue, nodes, leaves, deepest, bounds, limits)
            == Search(Pushed(queue[..|queue| - 1], queue[|queue| - 1].coefficients, queue[|queue| - 1].depth + 1),
                      nodes + 1, leaves, Deeper(queue[|queue| - 1].depth, deepest), bounds, limits)
  {
    hide Pushed;
    hide HullInside;
  }

  function Pushed(rest: seq<Segment>, b: seq<real>, depth: nat): (r: seq<Segment>)
    requires |b| > 0 && WellFormed(rest)
    ensures WellFormed(r)
  {
    rest + [Segment(RightHalf(b), depth), Segment(LeftHalf(b), depth)]
  }

  lemma BadEndOutside(b: seq<real>, bounds: Bounds)
    requires |b| > 0 && (!bounds.Allows(b[0]) || !bounds.Allows(b[|b| - 1]))
    ensures !HullInside(b, bounds)
  {
  }

  lemma PushedIs(rest: seq<Segment>, b: seq<real>, depth: nat)
    requires |b| > 0 && WellFormed(rest)
    ensures Pushed(rest, b, depth) == rest + [Segment(RightHalf(b), depth), Segment(LeftHalf(b), depth)]
  {
  }

  function Prove(power: seq<real>, bounds: Bounds, limits: Limits): Verdict
  {
    if power == [] || limits.depth < 0 || limits.nodes < 1 || !bounds.Usable() then Invalid
    else Search([Segment(ToBernstein(power), 0)], 0, 0, 0, bounds, limits)
  }

  method CertifyBounds(power: seq<real>, bounds: Bounds, limits: Limits) returns (v: Verdict)
    ensures v == Prove(power, bounds, limits)
  {
    if power == [] || limits.depth < 0 || limits.nodes < 1 { return Invalid; }
    if !bounds.Usable() { return Invalid; }
    var queue := [Segment(ToBernstein(power), 0)];
    var nodes: nat, deepest: nat, leaves: nat := 0, 0, 0;
    while queue != []
      invariant WellFormed(queue)
      invariant nodes <= limits.nodes
      invariant Prove(power, bounds, limits) == Search(queue, nodes, leaves, deepest, bounds, limits)
      decreases limits.nodes - nodes
    {
      if nodes >= limits.nodes { return NodeLimit(nodes); }
      var segment := queue[|queue| - 1];
      var b := segment.coefficients;
      LastWellFormed(queue);
      var inside := HullInside(b, bounds);
      var decided := !bounds.Allows(b[0]) || !bounds.Allows(b[|b| - 1]);
      assert decided <==> !inside && !Undecided(b, bounds) by { if decided { BadEndOutside(b, bounds); } }
      hide *;
      if inside {
        TurnInside(queue, nodes, leaves, deepest, bounds, limits);
        leaves := leaves + 1;
        queue := queue[..|queue| - 1];
      } else if decided {
        TurnStops(queue, nodes, leaves, deepest, bounds, limits);
        return Counterexample(nodes + 1, segment.depth);
      } else if segment.depth >= limits.depth {
        TurnStops(queue, nodes, leaves, deepest, bounds, limits);
        return DepthLimit(nodes + 1);
      } else {
        TurnSplits(queue, nodes, leaves, deepest, bounds, limits);
        var left, right := SubdivideMidpoint(b);
        PushedIs(queue[..|queue| - 1], b, segment.depth + 1);
        queue := queue[..|queue| - 1] + [Segment(right, segment.depth + 1), Segment(left, segment.depth + 1)];
      }
      nodes := nodes + 1;
      deepest := Deeper(segment.depth, deepest);
    }
    v := Certified(nodes, leaves, deepest);
  }

  // ---------- what a verdict means ----------

  /** Every value of the segment on [0, 1] is allowed. */
  ghost predicate Holds(b: seq<real>, bounds: Bounds)
  {
    forall t: real :: 0.0 <= t <= 1.0 ==> bounds.Allows(ValueAt(t)(b))
  }

  ghost predicate AllHold(queue: seq<Segment>, bounds: Bounds)
  {
    forall i :: 0 <= i < |queue| ==> Holds(queue[i].coefficients, bounds)
  }

  lemma HullHolds(b: seq<real>, bounds: Bounds)
    requires |b| > 0 && HullInside(b, bounds)
    ensures Holds(b, bounds)
  {
    forall t: real | 0.0 <= t <= 1.0 ensures bounds.Allows(ValueAt(t)(b)) {
      ValueBlends(t);
      if bounds.lower.Some? { HullLower(ValueAt(t), t, b, bounds.lower.value); }
      if bounds.upper.Some? { HullUpper(ValueAt(t), t, b, bounds.upper.value); }
    }
  }

  lemma HalvesHold(b: seq<real>, bounds: Bounds)
    requires |b| > 0
    ensures Holds(b, bounds) <==> Holds(LeftHalf(b), bounds) && Holds(RightHalf(b), bounds)
  {
    if Holds(LeftHalf(b), bounds) && Holds(RightHalf(b), bounds) {
      forall t: real | 0.0 <= t <= 1.0 ensures bounds.Allows(ValueAt(t)(b)) { WholeAt(b, bounds, t); }
    }
    if Holds(b, bounds) {
      forall t: real | 0.0 <= t <= 1.0
        ensures bounds.Allows(ValueAt(t)(LeftHalf(b))) && bounds.Allows(ValueAt(t)(RightHalf(b)))
      {
        LeftHalfValue(b, t);
        RightHalfValue(b, t);
        hide ValueAt;
      }
    }
  }

  lemma WholeAt(b: seq<real>, bounds: Bounds, t: real)
    requires |b| > 0 && Holds(LeftHalf(b), bounds) && Holds(RightHalf(b), bounds)
    requires 0.0 <= t <= 1.0
    ensures bounds.Allows(ValueAt(t)(b))
  {
    hide ValueAt;
    if t <= 0.5 {
      LeftHalfValue(b, 2.0 * t);
      assert 2.0 * t / 2.0 == t;
    } else {
      RightHalfValue(b, 2.0 * t - 1.0);
      assert (1.0 + (2.0 * t - 1.0)) / 2.0 == t;
    }
  }

  /** A bad end coefficient is a bad value, at 0 or at 1. */
  lemma EndpointFails(b: seq<real>, bounds: Bounds)
    requires |b| > 0 && (!bounds.Allows(b[0]) || !bounds.Allows(b[|b| - 1]))
    ensures !Holds(b, bounds)
  {
    ValueBlends(0.0);
    ValueBlends(1.0);
    EndpointValue(ValueAt(0.0), b, false);
    EndpointValue(ValueAt(1.0), b, true);
    assert ValueAt(0.0)(b) == b[0] && ValueAt(1.0)(b) == b[|b| - 1];
  }

  lemma AllHoldLast(queue: seq<Segment>, bounds: Bounds)
    requires queue != []
    ensures AllHold(queue, bounds) <==>
            AllHold(queue[..|queue| - 1], bounds) && Holds(queue[|queue| - 1].coefficients, bounds)
  {
    assert forall i :: 0 <= i < |queue| - 1 ==> queue[..|queue| - 1][i] == queue[i];
  }

  lemma SplitPreservesAll(rest: seq<Segment>, b: seq<real>, depth: nat, bounds: Bounds)
    requires |b| > 0
    requires WellFormed(rest)
    ensures AllHold(Pushed(rest, b, depth), bounds) <==>
            AllHold(rest, bounds) && Holds(b, bounds)
  {
    var right, left := Segment(RightHalf(b), depth), Segment(LeftHalf(b), depth);
    HalvesHold(b, bounds);
    assert rest + [right, left] == (rest + [right]) + [left];
    AllHoldLast((rest + [right]) + [left], bounds);
    AllHoldLast(rest + [right], bounds);
    assert ((rest + [right]) + [left])[..|rest| + 1] == rest + [right] && (rest + [right])[..|rest|] == rest;
  }

  // The verdict speaks for the queue: certified means all hold, a counterexample that not all do.
  ghost predicate SpeaksFor(v: Verdict, queue: seq<Segment>, bounds: Bounds)
  {
    (v.Certified? ==> AllHold(queue, bounds)) && (v.Counterexample? ==> !AllHold(queue, bounds))
  }

  lemma SpeaksSame(v: Verdict, queue: seq<Segment>, other: seq<Segment>, bounds: Bounds)
    requires SpeaksFor(v, other, bounds) && (AllHold(queue, bounds) <==> AllHold(other, bounds))
    ensures SpeaksFor(v, queue, bounds)
  {
  }

  lemma SpeaksInside(queue: seq<Segment>, v: Verdict, bounds: Bounds)
    requires queue != [] && |queue[|queue| - 1].coefficients| > 0
    requires HullInside(queue[|queue| - 1].coefficients, bounds) && SpeaksFor(v, queue[..|queue| - 1], bounds)
    ensures SpeaksFor(v, queue, bounds)
  {
    HullHolds(queue[|queue| - 1].coefficients, bounds);
    AllHoldLast(queue, bounds);
    SpeaksSame(v, queue, queue[..|queue| - 1], bounds);
  }

  lemma SpeaksSplit(queue: seq<Segment>, b: seq<real>, depth: nat, v: Verdict, bounds: Bounds)
    requires queue != [] && |b| > 0 && b == queue[|queue| - 1].coefficients && WellFormed(queue[..|queue| - 1])
    requires SpeaksFor(v, Pushed(queue[..|queue| - 1], b, depth), bounds)
    ensures SpeaksFor(v, queue, bounds)
  {
    var rest := queue[..|queue| - 1];
    SplitPreservesAll(rest, b, depth, bounds);
    AllHoldLast(queue, bounds);
    hide *;
    SpeaksSame(v, queue, Pushed(rest, b, depth), bounds);
  }

  lemma SpeaksEnd(queue: seq<Segment>, v: Verdict, bounds: Bounds)
    requires queue != [] && |queue[|queue| - 1].coefficients| > 0
    requires var b := queue[|queue| - 1].coefficients; !bounds.Allows(b[0]) || !bounds.Allows(b[|b| - 1])
    requires !v.Certified?
    ensures SpeaksFor(v, queue, bounds)
  {
    EndpointFails(queue[|queue| - 1].coefficients, bounds);
    AllHoldLast(queue, bounds);
  }

  /** Soundness of the search in both directions, for any intermediate queue. */
  lemma {:induction false} SearchSound(queue: seq<Segment>, nodes: nat, leaves: nat, deepest: nat,
                                       bounds: Bounds, limits: Limits)
    requires WellFormed(queue) && nodes <= limits.nodes
    ensures SpeaksFor(Search(queue, nodes, leaves, deepest, bounds, limits), queue, bounds)
    decreases limits.nodes - nodes
  {
    if queue == [] || nodes == limits.nodes {
      SearchStop(queue, nodes, leaves, deepest, bounds, limits);
      hide Search;
    } else {
      var b, depth, v := queue[|queue| - 1].coefficients, queue[|queue| - 1].depth,
                         Search(queue, nodes, leaves, deepest, bounds, limits);
      LastWellFormed(queue);
      hide Search;
      hide HullInside;
      hide SpeaksFor;
      hide WellFormed;
      if HullInside(b, bounds) {
        TurnInside(queue, nodes, leaves, deepest, bounds, limits);
        SearchSound(queue[..|queue| - 1], nodes + 1, leaves + 1, Deeper(depth, deepest), bounds, limits);
        SpeaksInside(queue, v, bounds);
      } else if Undecided(b, bounds) && depth < limits.depth {
        TurnSplits(queue, nodes, leaves, deepest, bounds, limits);
        SearchSound(Pushed(queue[..|queue| - 1], b, depth + 1), nodes + 1, leaves, Deeper(depth, deepest), bounds,
                    limits);
        SpeaksSplit(queue, b, depth + 1, v, bounds);
      } else {
        TurnStops(queue, nodes, leaves, deepest, bounds, limits);
        if Undecided(b, bounds) { SpeaksNothing(queue, v, bounds); } else { SpeaksEnd(queue, v, bounds); }
      }
    }
  }

  lemma SpeaksNothing(queue: seq<Segment>, v: Verdict, bounds: Bounds)
    requires !v.Certified? && !v.Counterexample?
    ensures SpeaksFor(v, queue, bounds)
  {
  }

  /** Limits and the node count: a certified run visits exactly one full binary tree per queued segment. */
  lemma {:induction false} SearchCounts(queue: seq<Segment>, nodes: nat, leaves: nat, deepest: nat,
                                        bounds: Bounds, limits: Limits)
    requires WellFormed(queue) && nodes <= limits.nodes
    requires deepest <= limits.depth && forall i :: 0 <= i < |queue| ==> queue[i].depth <= limits.depth
    ensures var v := Search(queue, nodes, leaves, deepest, bounds, limits);
            !v.Invalid? && v.nodes <= limits.nodes &&
            v.nodes >= nodes + (if queue != [] && nodes < limits.nodes then 1 else 0) &&
            (v.Certified? ==> v.depth <= limits.depth && v.nodes + |queue| == nodes + 2 * (v.leaves - leaves)) &&
            (v.Counterexample? ==> v.depth <= limits.depth)
    decreases limits.nodes - nodes
  {
    if queue != [] && nodes < limits.nodes {
      var segment, rest := queue[|queue| - 1], queue[..|queue| - 1];
      var b := segment.coefficients;
      var deeper := if segment.depth > deepest then segment.depth else deepest;
      if HullInside(b, bounds) {
        SearchCounts(rest, nodes + 1, leaves + 1, deeper, bounds, limits);
      } else if bounds.Allows(b[0]) && bounds.Allows(b[|b| - 1]) && segment.depth < limits.depth {
        SearchCounts(Pushed(rest, b, segment.depth + 1), nodes + 1, leaves, deeper, bounds, limits);
      }
    }
  }

  /** certify_bounds decides the bound for the polynomial on all of [0, 1] whenever it commits itself. */
  lemma ProveSound(power: seq<real>, bounds: Bounds, limits: Limits)
    ensures var v := Prove(power, bounds, limits);
            (v.Certified? ==> forall t: real :: 0.0 <= t <= 1.0 ==> bounds.Allows(Eval(power, t))) &&
            (v.Counterexample? ==> exists t: real :: 0.0 <= t <= 1.0 && !bounds.Allows(Eval(power, t)))
  {
    var v := Prove(power, bounds, limits);
    if !v.Invalid? {
      var b := ToBernstein(power);
      SearchSound([Segment(b, 0)], 0, 0, 0, bounds, limits);
      assert AllHold([Segment(b, 0)], bounds) ==> Holds([Segment(b, 0)][0].coefficients, bounds);
      forall t: real ensures ValueAt(t)(b) == Eval(power, t) { BasisChange(power, t); }
      if v.Counterexample? {
        assert !Holds(b, bounds);
        var t :| 0.0 <= t <= 1.0 && !bounds.Allows(ValueAt(t)(b));
        assert !bounds.Allows(Eval(power, t));
      }
    }
  }

  /** Resource limits are respected, and a certified run has nodes == 2 * leaves - 1. */
  lemma ProveCounts(power: seq<real>, bounds: Bounds, limits: Limits)
    requires !Prove(power, bounds, limits).Invalid?
    ensures var v := Prove(power, bounds, limits);
            1 <= v.nodes <= limits.nodes &&
            (v.Certified? ==> v.nodes == 2 * v.leaves - 1 && v.depth <= limits.depth) &&
            (v.Counterexample? ==> v.depth <= limits.depth)
  {
    SearchCounts([Segment(ToBernstein(power), 0)], 0, 0, 0, bounds, limits);
  }

  // ---------- completeness ----------

  // Neighbouring coefficients differ by at most step.
  ghost predicate Smooth(b: seq<real>, step: real)
  {
    forall i :: 0 <= i < |b| - 1 ==> Close(b[i], b[i + 1], step)
  }

  ghost predicate Close(x: real, y: real, step: real) { -step <= y - x <= step }

  lemma MidpointsSmooth(b: seq<real>, step: real)
    requires |b| > 1 && Smooth(b, step)
    ensures Smooth(Midpoints(b), step)
    ensures Close(b[0], Midpoints(b)[0], step / 2.0) && Close(Midpoints(b)[|b| - 2], b[|b| - 1], step / 2.0)
  {
    var m := Midpoints(b);
    assert Close(b[0], b[1], step) && Close(b[|b| - 2], b[|b| - 1], step);
    forall i | 0 <= i < |m| - 1 ensures Close(m[i], m[i + 1], step) {
      assert Close(b[i], b[i + 1], step) && Close(b[i + 1], b[i + 2], step);
    }
  }

  /** One subdivision halves the differences between neighbouring coefficients. */
  lemma {:induction false} HalvesSmooth(b: seq<real>, step: real)
    requires |b| > 0 && step >= 0.0 && Smooth(b, step)
    ensures LeftHalf(b)[0] == b[0] && RightHalf(b)[|b| - 1] == b[|b| - 1]
    ensures Smooth(LeftHalf(b), step / 2.0) && Smooth(RightHalf(b), step / 2.0)
    decreases |b|
  {
    if |b| > 1 {
      MidpointsSmooth(b, step);
      HalvesSmooth(Midpoints(b), step);
      hide Close;
    }
  }

  /** Smooth coefficients lie near the first one. */
  lemma {:induction false} SmoothNear(b: seq<real>, step: real, i: nat)
    requires i < |b| && Smooth(b, step)
    ensures Close(b[0], b[i], Times(i as real, step))
    decreases i
  {
    if i > 0 {
      SmoothNear(b, step, i - 1);
      assert Close(b[i - 1], b[i], step);
      OneMore((i - 1) as real, i as real, step);
    }
    hide Times;
    assert i == 0 ==> Times(i as real, step) == 0.0 by { NoSteps(step); }
  }

  lemma OneMore(m: real, n: real, step: real)
    requires n == m + 1.0
    ensures Times(n, step) == Times(m, step) + step
  {
  }

  lemma NoSteps(step: real)
    ensures Times(0.0, step) == 0.0
  {
  }

  // The total difference between neighbours bounds each of them.
  function Spread(b: seq<real>): (r: real)
    ensures r >= 0.0
  {
    if |b| < 2 then 0.0 else Abs(b[1] - b[0]) + Spread(b[1..])
  }

  lemma {:induction false} SpreadSmooth(b: seq<real>)
    ensures Smooth(b, Spread(b))
    decreases |b|
  {
    if |b| > 1 {
      SpreadSmooth(b[1..]);
      forall i | 0 <= i < |b| - 1 ensures Close(b[i], b[i + 1], Spread(b)) {
        if i > 0 { assert Close(b[1..][i - 1], b[1..][i], Spread(b[1..])); }
      }
    }
  }

  /** The step left after so many subdivisions. */
  function Halved(step: real, depth: nat): real
  {
    if depth == 0 then step else Halved(step, depth - 1) / 2.0
  }

  lemma {:induction false} HalvedShrinks(step: real, depth: nat)
    requires step >= 0.0
    ensures Halved(step, depth) >= 0.0 && Times((depth + 1) as real, Halved(step, depth)) <= step
  {
    if depth > 0 {
      HalvedShrinks(step, depth - 1);
      ShrinkAlgebra(depth as real, Halved(step, depth - 1), Halved(step, depth));
    }
  }

  lemma ShrinkAlgebra(d: real, h: real, half: real)
    requires d >= 1.0 && h >= 0.0 && half == h / 2.0
    ensures Times(d + 1.0, half) <= Times(d, h)
  {
    MulMono(1.0, d, h);
  }

  /** The same bounds with a margin taken off. */
  function Shrunk(bounds: Bounds, margin: real): Bounds
  {
    Bounds(if bounds.lower.Some? then Some(bounds.lower.value + margin) else None,
           if bounds.upper.Some? then Some(bounds.upper.value - margin) else None)
  }

  /** A segment whose coefficients vary less than the margin is inside. */
  lemma FlatInside(b: seq<real>, bounds: Bounds, margin: real, step: real)
    requires |b| > 0 && Smooth(b, step) && step >= 0.0 && Times(|b| as real, step) <= margin
    requires Holds(b, Shrunk(bounds, margin))
    ensures HullInside(b, bounds)
  {
    StartAllowed(b, Shrunk(bounds, margin));
    hide Times;
    hide Smooth;
    hide Holds;
    forall i | 0 <= i < |b| ensures bounds.Allows(b[i]) {
      SmoothNear(b, step, i);
      TimesMono(i as real, |b| as real, step);
      NearAllowed(bounds, margin, b[0], b[i], Times(i as real, step));
    }
  }

  lemma NearAllowed(bounds: Bounds, margin: real, x: real, y: real, distance: real)
    requires Shrunk(bounds, margin).Allows(x) && Close(x, y, distance) && distance <= margin
    ensures bounds.Allows(y)
  {
  }

  lemma StartAllowed(b: seq<real>, bounds: Bounds)
    requires |b| > 0 && Holds(b, bounds)
    ensures bounds.Allows(b[0]) && bounds.Allows(b[|b| - 1])
  {
    if !bounds.Allows(b[0]) || !bounds.Allows(b[|b| - 1]) { EndpointFails(b, bounds); }
  }

  lemma EndsAllowed(b: seq<real>, bounds: Bounds, margin: real)
    requires |b| > 0 && Holds(b, Shrunk(bounds, margin)) && margin >= 0.0
    ensures bounds.Allows(b[0]) && bounds.Allows(b[|b| - 1])
  {
    StartAllowed(b, Shrunk(bounds, margin));
  }

  /** The nodes of a full binary tree with so many levels below its root. */
  function FullTree(levels: nat): (nodes: nat)
    ensures nodes >= 1
  {
    2 * Pow2(levels) - 1
  }

  function Work(queue: seq<Segment>, full: nat): nat
  {
    if queue == [] then 0
    else
      var depth := queue[|queue| - 1].depth;
      Work(queue[..|queue| - 1], full) + if depth <= full then FullTree(full - depth) else 1
  }

  // A segment that will be certified no deeper than full.
  ghost predicate Promising(x: Segment, bounds: Bounds, margin: real, n: nat, step: real, full: nat)
  {
    |x.coefficients| == n && x.depth <= full && Smooth(x.coefficients, Halved(step, x.depth)) &&
    Holds(x.coefficients, Shrunk(bounds, margin))
  }

  ghost predicate AllPromising(queue: seq<Segment>, bounds: Bounds, margin: real, n: nat, step: real, full: nat)
  {
    forall i :: 0 <= i < |queue| ==> Promising(queue[i], bounds, margin, n, step, full)
  }

  lemma HalvesPromising(x: Segment, bounds: Bounds, margin: real, n: nat, step: real, full: nat)
    requires Promising(x, bounds, margin, n, step, full) && n > 0 && x.depth < full && step >= 0.0
    ensures Promising(Segment(LeftHalf(x.coefficients), x.depth + 1), bounds, margin, n, step, full)
    ensures Promising(Segment(RightHalf(x.coefficients), x.depth + 1), bounds, margin, n, step, full)
  {
    HalvedShrinks(step, x.depth);
    HalvesSmooth(x.coefficients, Halved(step, x.depth));
    HalvesHold(x.coefficients, Shrunk(bounds, margin));
    assert Halved(step, x.depth + 1) == Halved(step, x.depth) / 2.0;
  }

  lemma PromisingSplits(x: Segment, bounds: Bounds, margin: real, n: nat, step: real, full: nat)
    requires Promising(x, bounds, margin, n, step, full) && n > 0 && step >= 0.0 && margin >= 0.0
    requires Times(n as real, Halved(step, full)) <= margin
    ensures HullInside(x.coefficients, bounds) || (Undecided(x.coefficients, bounds) && x.depth < full)
  {
    var b := x.coefficients;
    EndsAllowed(b, bounds, margin);
    HalvedShrinks(step, full);
    hide Halved;
    if x.depth == full { FlatInside(b, bounds, margin, Halved(step, full)); }
  }

  lemma RestPromising(queue: seq<Segment>, bounds: Bounds, margin: real, n: nat, step: real, full: nat)
    requires queue != [] && AllPromising(queue, bounds, margin, n, step, full)
    ensures AllPromising(queue[..|queue| - 1], bounds, margin, n, step, full)
    ensures queue[|queue| - 1].depth <= full
    ensures Work(queue, full) == Work(queue[..|queue| - 1], full) + FullTree(full - queue[|queue| - 1].depth)
  {
    assert Promising(queue[|queue| - 1], bounds, margin, n, step, full);
    hide Promising;
  }

  lemma PushedPromising(rest: seq<Segment>, x: Segment, bounds: Bounds, margin: real, n: nat, step: real, full: nat)
    requires WellFormed(rest) && AllPromising(rest, bounds, margin, n, step, full)
    requires Promising(x, bounds, margin, n, step, full) && n > 0 && x.depth < full && step >= 0.0
    ensures AllPromising(Pushed(rest, x.coefficients, x.depth + 1), bounds, margin, n, step, full)
  {
    assert |x.coefficients| == n;
    HalvesPromising(x, bounds, margin, n, step, full);
    hide Promising;
  }

  lemma WorkPushed(rest: seq<Segment>, b: seq<real>, depth: nat, full: nat)
    requires |b| > 0 && WellFormed(rest) && depth < full
    ensures Work(Pushed(rest, b, depth + 1), full) == Work(rest, full) + FullTree(full - depth) - 1
  {
    var right, left := Segment(RightHalf(b), depth + 1), Segment(LeftHalf(b), depth + 1);
    var queue := Pushed(rest, b, depth + 1);
    assert queue[..|rest| + 1] == rest + [right] && (rest + [right])[..|rest|] == rest;
    assert Work(rest + [right], full) == Work(rest, full) + FullTree(full - depth - 1);
    assert Pow2(full - depth) == 2 * Pow2(full - depth - 1);
  }

  /** From promising segments the search certifies, given the depth and the nodes of full trees below them. */
  lemma {:induction false} SearchCompletes(queue: seq<Segment>, nodes: nat, leaves: nat, deepest: nat, bounds: Bounds,
                                           limits: Limits, margin: real, n: nat, step: real, full: nat)
    requires WellFormed(queue) && n > 0 && step >= 0.0 && margin >= 0.0
    requires AllPromising(queue, bounds, margin, n, step, full) && Times(n as real, Halved(step, full)) <= margin
    requires full <= limits.depth && nodes + Work(queue, full) <= limits.nodes
    ensures Search(queue, nodes, leaves, deepest, bounds, limits).Certified?
    decreases limits.nodes - nodes
  {
    if queue == [] {
      SearchStop(queue, nodes, leaves, deepest, bounds, limits);
      hide Search;
    } else {
      var x, rest := queue[|queue| - 1], queue[..|queue| - 1];
      var b := x.coefficients;
      LastWellFormed(queue);
      assert Promising(x, bounds, margin, n, step, full);
      assert |b| == n;
      hide *;
      PromisingSplits(x, bounds, margin, n, step, full);
      RestPromising(queue, bounds, margin, n, step, full);
      if HullInside(b, bounds) {
        TurnInside(queue, nodes, leaves, deepest, bounds, limits);
        SearchCompletes(rest, nodes + 1, leaves + 1, Deeper(x.depth, deepest), bounds, limits, margin, n, step, full);
      } else {
        TurnSplits(queue, nodes, leaves, deepest, bounds, limits);
        PushedPromising(rest, x, bounds, margin, n, step, full);
        WorkPushed(rest, b, x.depth, full);
        SearchCompletes(Pushed(rest, b, x.depth + 1), nodes + 1, leaves, Deeper(x.depth, deepest), bounds, limits,
                        margin, n, step, full);
      }
    }
  }

  /** The polynomial stays inside the bounds on [0, 1] by the margin. */
  ghost predicate InsideBy(power: seq<real>, bounds: Bounds, margin: real)
  {
    forall t: real :: 0.0 <= t <= 1.0 ==> Shrunk(bounds, margin).Allows(Eval(power, t))
  }

  lemma ProveCompletesAt(power: seq<real>, bounds: Bounds, limits: Limits, margin: real, full: nat)
    requires power != [] && bounds.Usable() && margin >= 0.0 && InsideBy(power, bounds, margin)
    requires Times(|power| as real, Halved(Spread(ToBernstein(power)), full)) <= margin
    requires limits.depth >= full && limits.nodes >= FullTree(full)
    ensures Prove(power, bounds, limits).Certified?
  {
    var b := ToBernstein(power);
    forall t: real | 0.0 <= t <= 1.0 ensures Shrunk(bounds, margin).Allows(ValueAt(t)(b)) { BasisChange(power, t); }
    SpreadSmooth(b);
    SearchCompletes([Segment(b, 0)], 0, 0, 0, bounds, limits, margin, |power|, Spread(b), full);
  }

  lemma DeepEnough(n: nat, step: real, margin: real) returns (full: nat)
    requires step >= 0.0 && margin > 0.0
    ensures Times(n as real, Halved(step, full)) <= margin
  {
    var bound := Times(n as real, step) / margin;
    NonnegQuotient(n as real, step, margin, bound);
    full := bound.Floor;
    HalvedShrinks(step, full);
    hide Halved;
    DeepAlgebra(n as real, step, margin, bound, (full + 1) as real, Halved(step, full));
  }

  lemma NonnegQuotient(n: real, step: real, margin: real, q: real)
    requires n >= 0.0 && step >= 0.0 && margin > 0.0 && q == Times(n, step) / margin
    ensures q >= 0.0
  {
    MulNonneg(n, step);
    if q < 0.0 { MulPos(-q, margin); }
  }

  lemma DeepAlgebra(n: real, step: real, margin: real, bound: real, d: real, h: real)
    requires n >= 0.0 && margin > 0.0 && bound == Times(n, step) / margin && 0.0 <= bound < d
    requires h >= 0.0 && Times(d, h) <= step
    ensures Times(n, h) <= margin
  {
    assert bound * margin == Times(n, step);
    MulMono(bound, d, margin);
    MulMono(Times(d, h), step, n);
    assert Times(d, h) * n == d * Times(n, h);
    MulMonoIff(d, Times(n, h), margin);
  }

  /** Some depth certifies, with every pair of limits that allows a full tree of that depth. */
  ghost predicate Certifiable(power: seq<real>, bounds: Bounds)
  {
    exists full: nat :: CertifiesFrom(power, bounds, full)
  }

  ghost predicate CertifiesFrom(power: seq<real>, bounds: Bounds, full: nat)
  {
    forall limits: Limits :: limits.depth >= full && limits.nodes >= FullTree(full) ==>
      Prove(power, bounds, limits).Certified?
  }

  /** Completeness: bounds met with a margin are certified by all large enough limits. */
  lemma ProveCompletes(power: seq<real>, bounds: Bounds, margin: real)
    requires power != [] && bounds.Usable() && margin > 0.0 && InsideBy(power, bounds, margin)
    ensures Certifiable(power, bounds)
  {
    var full := DeepEnough(|power|, Spread(ToBernstein(power)), margin);
    forall limits: Limits | limits.depth >= full && limits.nodes >= FullTree(full)
      ensures Prove(power, bounds, limits).Certified?
    {
      ProveCompletesAt(power, bounds, limits, margin, full);
    }
    hide *;
    hide FullTree;
    assert CertifiesFrom(power, bounds, full);
  }

  // ---------- why the margin is needed ----------

  // A positive multiple of (t - 1/3)^2 or (t - 2/3)^2.
  ghost predicate Touching(b: seq<real>)
  {
    |b| == 3 && b[1] < 0.0 &&
    ((b[1] == -2.0 * b[0] && b[2] == 4.0 * b[0]) || (b[1] == -2.0 * b[2] && b[0] == 4.0 * b[2]))
  }

  const NONNEGATIVE := Bounds(Some(0.0), None)

  lemma TouchingHalves(b: seq<real>)
    requires Touching(b)
    ensures Undecided(b, NONNEGATIVE) && (Touching(LeftHalf(b)) || Touching(RightHalf(b)))
  {
    assert !NONNEGATIVE.Allows(b[1]);
    var m := Midpoints(b);
    var top := (m[0] + m[1]) / 2.0;
    assert Midpoints(m) == [top] && LeftHalf([top]) == RightHalf([top]) == [top];
    assert LeftHalf(m) == [m[0], top] && RightHalf(m) == [top, m[1]];
    assert LeftHalf(b) == [b[0], m[0], top] && RightHalf(b) == [top, m[1], b[2]];
  }

  /** A queue that holds a touching segment is never certified. */
  lemma {:induction false} TouchingStays(queue: seq<Segment>, nodes: nat, leaves: nat, deepest: nat, limits: Limits,
                                         i: nat)
    requires WellFormed(queue) && nodes <= limits.nodes && i < |queue| && Touching(queue[i].coefficients)
    ensures !Search(queue, nodes, leaves, deepest, NONNEGATIVE, limits).Certified?
    decreases limits.nodes - nodes
  {
    if nodes < limits.nodes {
      var rest, x := queue[..|queue| - 1], queue[|queue| - 1];
      var b, deeper := x.coefficients, Deeper(x.depth, deepest);
      var pushed := Pushed(rest, b, x.depth + 1);
      if i < |rest| {
        TouchingStays(rest, nodes + 1, leaves + 1, deeper, limits, i);
        TouchingStays(pushed, nodes + 1, leaves, deeper, limits, i);
      } else {
        TouchingHalves(b);
        var j := if Touching(RightHalf(b)) then |rest| else |rest| + 1;
        TouchingStays(pushed, nodes + 1, leaves, deeper, limits, j);
      }
    }
  }

  /** (t - 1/3)^2 is never negative, and no limits certify that. */
  lemma TouchingNeverCertified()
    ensures var power := [1.0 / 9.0, -2.0 / 3.0, 1.0];
            (forall t: real :: Eval(power, t) >= 0.0) &&
            forall limits: Limits :: !Prove(power, NONNEGATIVE, limits).Certified?
  {
    var power := [1.0 / 9.0, -2.0 / 3.0, 1.0];
    forall t: real ensures Eval(power, t) >= 0.0 { TouchingValue(power, t); }
    hide Eval;
    var b := ToBernstein(power);
    TouchingCoefficients(power);
    forall limits: Limits ensures !Prove(power, NONNEGATIVE, limits).Certified? {
      if !Prove(power, NONNEGATIVE, limits).Invalid? { TouchingStays([Segment(b, 0)], 0, 0, 0, limits, 0); }
    }
  }

  lemma TouchingValue(power: seq<real>, t: real)
    requires power == [1.0 / 9.0, -2.0 / 3.0, 1.0]
    ensures Eval(power, t) == (t - 1.0 / 3.0) * (t - 1.0 / 3.0) >= 0.0
  {
    var f := Monomials(t);
    Extend(power, 0, f);
    Extend(power, 1, f);
    Extend(power, 2, f);
    assert power[..0] == [] && power[..3] == power;
    assert f(0) == 1.0 && f(1) == t && f(2) == t * t;
    SquareNonneg(t - 1.0 / 3.0);
  }

  lemma TouchingCoefficients(power: seq<real>)
    requires power == [1.0 / 9.0, -2.0 / 3.0, 1.0]
    ensures Touching(ToBernstein(power))
  {
    SmallChoices();
    TermOf(power, 0, 0, 1, 1, 0.0);
    TermOf(power, 1, 0, 1, 1, 0.0);
    TermOf(power, 1, 1, 1, 2, 1.0 / 9.0);
    TermOf(power, 2, 0, 1, 1, 0.0);
    TermOf(power, 2, 1, 2, 2, 1.0 / 9.0);
    TermOf(power, 2, 2, 1, 1, 1.0 / 9.0 - 2.0 / 3.0);
    assert ToBernstein(power) == [1.0 / 9.0, -2.0 / 9.0, 4.0 / 9.0];
  }

  lemma SmallChoices()
    ensures Choose(0, 0) == Choose(1, 0) == Choose(2, 0) == Choose(1, 1) == Choose(2, 2) == 1 && Choose(2, 1) == 2
  {
    assert Choose(0, 1) == Choose(0, 2) == Choose(1, 2) == 0;
  }

  lemma TermOf(power: seq<real>, i: nat, k: nat, ci: nat, c: nat, rest: real)
    requires k < |power| && ci == Choose(i, k) && c == Choose(|power| - 1, k) && c > 0
    requires rest == Weighted(power, i, k)
    ensures Weighted(power, i, k + 1) == rest + power[k] * (ci as real / c as real)
  {
    WeightedNamed(power, i, k, power[k], ci, c, rest, Weighted(power, i, k + 1));
  }
}
