/**
 plan_packed_diagonals (native/fideslib_stage0/include/packed_routing.hpp:15-47): the cheapest way to visit the
 diagonals of an arithmetic progression by baby and giant rotations, in either direction.
 */
module PackedDiagonals {
  import opened Options
  import opened RotationSteps
  import opened Sequences
  import PackedRouting

  // babyStep 0 visits every offset on its own.
  datatype Plan = Plan(offsets: seq<int>, babyStep: nat, rotations: nat)

  function RotationCost(offset: int, slots: int, naf: bool): nat
    requires SlotsAccepted(slots)
  {
    |StepList(offset, slots, naf)|
  }

  /** Cost of visiting the first n offsets one by one. */
  function DirectCost(offsets: seq<int>, slots: int, naf: bool, n: nat): nat
    requires SlotsAccepted(slots) && n <= |offsets|
  {
    if n == 0 then 0 else DirectCost(offsets, slots, naf, n - 1) + RotationCost(offsets[n - 1], slots, naf)
  }

  /** Cost of first, first + step, ..., count of them. */
  function BabyCost(first: int, step: int, slots: int, naf: bool, count: nat): nat
    requires SlotsAccepted(slots)
  {
    if count == 0 then 0
    else BabyCost(first, step, slots, naf, count - 1) + RotationCost(first + (count - 1) * step, slots, naf)
  }

  /** Cost of the giant rotations that start at from, from + baby, ... below n. */
  function GiantCost(step: int, baby: nat, slots: int, naf: bool, from: nat, n: nat): nat
    requires SlotsAccepted(slots) && baby > 0
    decreases n - from
  {
    if from >= n then 0 else RotationCost(from * step, slots, naf) + GiantCost(step, baby, slots, naf, from + baby, n)
  }

  function SplitCost(offsets: seq<int>, baby: nat, slots: int, naf: bool): nat
    requires SlotsAccepted(slots) && |offsets| >= 2 && baby > 0
  {
    var step := offsets[1] - offsets[0];
    BabyCost(offsets[0], step, slots, naf, baby) + GiantCost(step, baby, slots, naf, 0, |offsets|)
  }

  predicate Progression(offsets: seq<int>)
  {
    |offsets| >= 3 && forall i :: 2 <= i < |offsets| ==> offsets[i] - offsets[i - 1] == offsets[1] - offsets[0]
  }

  lemma {:induction false} ProgressionAt(offsets: seq<int>, k: nat)
    requires Progression(offsets) && k < |offsets|
    ensures offsets[k] == offsets[0] + k * (offsets[1] - offsets[0])
  {
    if k > 0 { ProgressionAt(offsets, k - 1); }
  }

  // ---------- the rotations of a split ----------

  /** The first baby offsets of the progression, whether or not it is that long. */
  function Babies(first: int, step: int, baby: nat): (r: seq<int>)
    ensures |r| == baby
  {
    seq(baby, j => first + j * step)
  }

  function GiantCount(n: nat, baby: nat): nat
    requires baby > 0
  {
    (n + baby - 1) / baby
  }

  /** The multiples of baby below n, in steps of the progression. */
  function Giants(step: int, baby: nat, n: nat): (r: seq<int>)
    requires baby > 0
    ensures |r| == GiantCount(n, baby)
  {
    seq(GiantCount(n, baby), g => g * baby * step)
  }

  lemma {:induction false} BabiesCost(first: int, step: int, slots: int, naf: bool, baby: nat, j: nat)
    requires SlotsAccepted(slots) && j <= baby
    ensures BabyCost(first, step, slots, naf, j) == DirectCost(Babies(first, step, baby), slots, naf, j)
    decreases j
  {
    hide RotationCost;
    hide SlotsAccepted;
    if j > 0 { BabiesCost(first, step, slots, naf, baby, j - 1); }
  }

  lemma GiantsBelow(n: nat, baby: nat, g: nat)
    requires baby > 0
    ensures g < GiantCount(n, baby) <==> g * baby < n
  {
    var c := GiantCount(n, baby);
    assert c * baby <= n + baby - 1 < c * baby + baby;
    if g < c { PackedRouting.MulLe(g + 1, c, baby); } else { PackedRouting.MulLe(c, g, baby); }
  }

  lemma NextGiant(g: nat, baby: nat)
    ensures (g + 1) * baby == g * baby + baby && g * baby >= 0
  {
  }

  lemma {:induction false} GiantsCost(step: int, baby: nat, slots: int, naf: bool, n: nat, g: nat)
    requires SlotsAccepted(slots) && baby > 0 && g <= GiantCount(n, baby)
    ensures g * baby >= 0
    ensures GiantCost(step, baby, slots, naf, 0, n)
            == DirectCost(Giants(step, baby, n), slots, naf, g) + GiantCost(step, baby, slots, naf, g * baby, n)
    decreases g
  {
    hide RotationCost;
    hide SlotsAccepted;
    if g > 0 {
      NextGiant(g - 1, baby);
      GiantsBelow(n, baby, g - 1);
      GiantsCost(step, baby, slots, naf, n, g - 1);
      assert Giants(step, baby, n)[g - 1] == (g - 1) * baby * step;
      hide GiantCount;
    }
  }

  /** The cost of a list of rotations. */
  function ListCost(offsets: seq<int>, slots: int, naf: bool): nat
    requires SlotsAccepted(slots)
  {
    DirectCost(offsets, slots, naf, |offsets|)
  }

  /** The cost of a split is the cost of its baby and its giant rotations, each counted once. */
  lemma SplitCostIs(offsets: seq<int>, step: int, baby: nat, slots: int, naf: bool)
    requires SlotsAccepted(slots) && |offsets| >= 2 && baby > 0 && step == offsets[1] - offsets[0]
    ensures SplitCost(offsets, baby, slots, naf)
            == ListCost(Babies(offsets[0], step, baby), slots, naf) +
               ListCost(Giants(step, baby, |offsets|), slots, naf)
  {
    hide *;
    SplitParts(offsets, baby, slots, naf);
    BabiesTotal(offsets[0], step, slots, naf, baby);
    GiantsTotal(step, baby, slots, naf, |offsets|);
  }

  lemma BabiesTotal(first: int, step: int, slots: int, naf: bool, baby: nat)
    requires SlotsAccepted(slots)
    ensures BabyCost(first, step, slots, naf, baby) == ListCost(Babies(first, step, baby), slots, naf)
  {
    BabiesCost(first, step, slots, naf, baby, baby);
    hide DirectCost;
    hide BabyCost;
  }

  lemma GiantsTotal(step: int, baby: nat, slots: int, naf: bool, n: nat)
    requires SlotsAccepted(slots) && baby > 0
    ensures GiantCost(step, baby, slots, naf, 0, n) == ListCost(Giants(step, baby, n), slots, naf)
  {
    var c := GiantCount(n, baby);
    GiantsBelow(n, baby, c);
    GiantsCost(step, baby, slots, naf, n, c);
    NextGiant(c, baby);
    GiantsDone(step, baby, slots, naf, c * baby, n);
    hide DirectCost;
    hide GiantCost;
    hide GiantCount;
  }

  lemma GiantsDone(step: int, baby: nat, slots: int, naf: bool, from: nat, n: nat)
    requires SlotsAccepted(slots) && baby > 0 && from >= n
    ensures GiantCost(step, baby, slots, naf, from, n) == 0
  {
    hide RotationCost;
  }

  lemma SplitParts(offsets: seq<int>, baby: nat, slots: int, naf: bool)
    requires SlotsAccepted(slots) && |offsets| >= 2 && baby > 0
    ensures var step := offsets[1] - offsets[0];
            SplitCost(offsets, baby, slots, naf)
            == BabyCost(offsets[0], step, slots, naf, baby) + GiantCost(step, baby, slots, naf, 0, |offsets|)
  {
    hide BabyCost;
    hide GiantCost;
  }

  predicate MadeOf(offset: int, babies: seq<int>, giants: seq<int>, j: nat, g: nat)
  {
    j < |babies| && g < |giants| && offset == babies[j] + giants[g]
  }

  /** Every diagonal is one of the baby offsets plus one of the giant offsets. */
  lemma SplitReaches(offsets: seq<int>, baby: nat, k: nat)
    requires Progression(offsets) && baby > 0 && k < |offsets|
    ensures var step := offsets[1] - offsets[0];
            MadeOf(offsets[k], Babies(offsets[0], step, baby), Giants(step, baby, |offsets|), k % baby, k / baby)
  {
    DiagonalMadeOf(offsets, baby, k, k % baby, k / baby);
  }

  lemma DiagonalMadeOf(offsets: seq<int>, baby: nat, k: nat, j: nat, g: nat)
    requires Progression(offsets) && 0 < baby && k < |offsets| && j == k % baby && g == k / baby
    ensures var step := offsets[1] - offsets[0];
            MadeOf(offsets[k], Babies(offsets[0], step, baby), Giants(step, baby, |offsets|), j, g)
  {
    var step := offsets[1] - offsets[0];
    ProgressionAt(offsets, k);
    assert k == g * baby + j;
    NextGiant(g, baby);
    GiantsBelow(|offsets|, baby, g);
    DistributeOver(j, g * baby, step);
  }

  /** And none of them is idle: each is the way from some diagonal to the first one, or from a block start to it. */
  lemma SplitUses(offsets: seq<int>, baby: nat, j: nat, g: nat)
    requires Progression(offsets) && 0 < baby < |offsets| && j < baby && g < GiantCount(|offsets|, baby)
    ensures 0 <= g * baby < |offsets|
    ensures var step := offsets[1] - offsets[0];
            Babies(offsets[0], step, baby)[j] == offsets[j] &&
            Giants(step, baby, |offsets|)[g] == offsets[g * baby] - offsets[0]
  {
    ProgressionAt(offsets, j);
    GiantsBelow(|offsets|, baby, g);
    NextGiant(g, baby);
    ProgressionAt(offsets, g * baby);
    hide GiantCount;
  }

  lemma DistributeOver(a: int, b: int, step: int)
    ensures (a + b) * step == a * step + b * step
  {
  }

  lemma ReversedProgression(offsets: seq<int>)
    requires Progression(offsets)
    ensures Progression(Reversed(offsets))
  {
    var r, n := Reversed(offsets), |offsets|;
    forall i | 1 <= i < n ensures r[i] - r[i - 1] == -(offsets[1] - offsets[0]) {
      assert r[i] == offsets[n - 1 - i] && r[i - 1] == offsets[n - i];
      assert n - i >= 2 ==> offsets[n - i] - offsets[n - i - 1] == offsets[1] - offsets[0];
    }
  }

  /** A plan's recorded rotations are what its traversal costs. */
  predicate PlanExact(plan: Plan, slots: int, naf: bool)
    requires SlotsAccepted(slots)
  {
    if plan.babyStep == 0 then plan.rotations == DirectCost(plan.offsets, slots, naf, |plan.offsets|)
    else Progression(plan.offsets) && 2 <= plan.babyStep < |plan.offsets| &&
         plan.rotations == SplitCost(plan.offsets, plan.babyStep, slots, naf)
  }

  // No split of this direction below limit is cheaper.
  ghost predicate NoCheaper(best: Plan, offsets: seq<int>, slots: int, naf: bool, limit: int)
    requires SlotsAccepted(slots) && |offsets| >= 2
  {
    forall baby: nat :: 2 <= baby < limit ==> best.rotations <= SplitCost(offsets, baby, slots, naf)
  }

  method CountGiants(step: int, baby: nat, slots: int, naf: bool, n: nat) returns (cost: nat)
    requires SlotsAccepted(slots) && baby > 0
    ensures cost == GiantCost(step, baby, slots, naf, 0, n)
  {
    cost := 0;
    var first := 0;
    while first < n
      invariant cost + GiantCost(step, baby, slots, naf, first, n) == GiantCost(step, baby, slots, naf, 0, n)
      decreases n - first
    {
      cost := cost + RotationCost(first * step, slots, naf);
      first := first + baby;
    }
  }

  lemma BabyNext(first: int, step: int, slots: int, naf: bool, j: nat)
    requires SlotsAccepted(slots)
    ensures BabyCost(first, step, slots, naf, j + 1)
            == BabyCost(first, step, slots, naf, j) + RotationCost(first + j * step, slots, naf)
  {
    hide RotationCost;
  }

  method CountBabies(first: int, step: int, baby: nat, slots: int, naf: bool) returns (cost: nat)
    requires SlotsAccepted(slots)
    ensures cost == BabyCost(first, step, slots, naf, baby)
  {
    cost := 0;
    for j := 0 to baby
      invariant cost == BabyCost(first, step, slots, naf, j)
    {
      BabyNext(first, step, slots, naf, j);
      hide *;
      cost := cost + RotationCost(first + j * step, slots, naf);
    }
  }

  lemma SplitPlan(offsets: seq<int>, baby: nat, slots: int, naf: bool, cost: nat)
    requires SlotsAccepted(slots) && Progression(offsets) && 2 <= baby < |offsets|
    requires cost == BabyCost(offsets[0], offsets[1] - offsets[0], slots, naf, baby)
                     + GiantCost(offsets[1] - offsets[0], baby, slots, naf, 0, |offsets|)
    ensures cost == SplitCost(offsets, baby, slots, naf) && PlanExact(Plan(offsets, baby, cost), slots, naf)
  {
  }

  lemma CheaperKept(best: Plan, offsets: seq<int>, slots: int, naf: bool, baby: nat, cost: nat)
    requires SlotsAccepted(slots) && |offsets| >= 2 && baby >= 2 && NoCheaper(best, offsets, slots, naf, baby)
    requires cost == SplitCost(offsets, baby, slots, naf)
    ensures NoCheaper(if cost < best.rotations then Plan(offsets, baby, cost) else best, offsets, slots, naf, baby + 1)
  {
    hide SplitCost;
  }

  /** Every smaller baby step of the same direction costs more. */
  ghost predicate Earliest(best: Plan, offsets: seq<int>, slots: int, naf: bool)
    requires SlotsAccepted(slots) && |offsets| >= 2
  {
    best.offsets == offsets &&
    forall baby: nat :: 2 <= baby < best.babyStep ==> best.rotations < SplitCost(offsets, baby, slots, naf)
  }

  // A cheaper split than all before it is the earliest of its cost.
  lemma CheaperEarliest(best: Plan, offsets: seq<int>, slots: int, naf: bool, baby: nat, cost: nat)
    requires SlotsAccepted(slots) && |offsets| >= 2 && NoCheaper(best, offsets, slots, naf, baby)
    requires cost < best.rotations
    ensures Earliest(Plan(offsets, baby, cost), offsets, slots, naf)
  {
    hide SplitCost;
  }

  /** Every split of this direction costs more. */
  ghost predicate Dearer(best: Plan, offsets: seq<int>, slots: int, naf: bool)
    requires SlotsAccepted(slots) && |offsets| >= 2
  {
    forall baby: nat :: 2 <= baby < |offsets| ==> best.rotations < SplitCost(offsets, baby, slots, naf)
  }

  lemma CheaperDearer(before: Plan, best: Plan, offsets: seq<int>, slots: int, naf: bool)
    requires SlotsAccepted(slots) && |offsets| >= 2 && NoCheaper(before, offsets, slots, naf, |offsets|)
    requires best.rotations < before.rotations
    ensures Dearer(best, offsets, slots, naf)
  {
    hide SplitCost;
  }

  // The best plan after the splits of one direction below limit.
  ghost predicate BestBelow(best: Plan, start: Plan, offsets: seq<int>, slots: int, naf: bool, limit: int)
    requires SlotsAccepted(slots) && |offsets| >= 2
  {
    PlanExact(best, slots, naf) && best.rotations <= start.rotations && NoCheaper(best, offsets, slots, naf, limit) &&
    (best == start || (best.babyStep >= 2 && best.rotations < start.rotations && Earliest(best, offsets, slots, naf)))
  }

  lemma BestNext(best: Plan, start: Plan, offsets: seq<int>, slots: int, naf: bool, baby: nat, cost: nat)
    requires SlotsAccepted(slots) && Progression(offsets) && 2 <= baby < |offsets|
    requires BestBelow(best, start, offsets, slots, naf, baby)
    requires cost == BabyCost(offsets[0], offsets[1] - offsets[0], slots, naf, baby)
                     + GiantCost(offsets[1] - offsets[0], baby, slots, naf, 0, |offsets|)
    ensures BestBelow(if cost < best.rotations then Plan(offsets, baby, cost) else best, start, offsets, slots, naf,
                      baby + 1)
  {
    SplitPlan(offsets, baby, slots, naf, cost);
    CheaperKept(best, offsets, slots, naf, baby, cost);
    if cost < best.rotations { CheaperEarliest(best, offsets, slots, naf, baby, cost); }
    hide PlanExact;
    hide NoCheaper;
    hide Earliest;
  }

  // All splits of one direction.
  method SearchDirection(offsets: seq<int>, slots: int, naf: bool, start: Plan) returns (best: Plan)
    requires SlotsAccepted(slots) && Progression(offsets) && PlanExact(start, slots, naf)
    ensures BestBelow(best, start, offsets, slots, naf, |offsets|)
  {
    best := start;
    var step := offsets[1] - offsets[0];
    hide SplitCost;
    assert |offsets| >= 3 && BestBelow(best, start, offsets, slots, naf, 2);
    hide *;
    for baby := 2 to |offsets|
      invariant BestBelow(best, start, offsets, slots, naf, baby)
    {
      var babies := CountBabies(offsets[0], step, baby, slots, naf);
      var giants := CountGiants(step, baby, slots, naf, |offsets|);
      var cost := babies + giants;
      BestNext(best, start, offsets, slots, naf, baby, cost);
      if cost < best.rotations { best := Plan(offsets, baby, cost); }
    }
  }

  /**
   The cheapest of the direct visit and every baby/giant split of either direction; of equal costs the direct visit
   first, then the given direction, then the smaller baby step.
   */
  method PlanPackedDiagonals(offsets: seq<int>, slots: int, naf: bool) returns (r: Option<Plan>)
    ensures r.None? <==> offsets != [] && !SlotsAccepted(slots)
    ensures r.Some? && !Progression(offsets) ==> r.value.offsets == offsets && r.value.babyStep == 0
    ensures r.Some? && offsets != [] ==>
              PlanExact(r.value, slots, naf) && r.value.rotations <= DirectCost(offsets, slots, naf, |offsets|) &&
              (r.value.offsets == offsets || r.value.offsets == Reversed(offsets))
    ensures r.Some? && Progression(offsets) ==>
              NoCheaper(r.value, offsets, slots, naf, |offsets|) &&
              NoCheaper(r.value, Reversed(offsets), slots, naf, |offsets|)
    ensures r.Some? && offsets != [] ==>
              if r.value.babyStep == 0 then r.value.offsets == offsets
              else r.value.rotations < DirectCost(offsets, slots, naf, |offsets|) && Progression(offsets) &&
                   (Earliest(r.value, offsets, slots, naf) ||
                    (Dearer(r.value, offsets, slots, naf) && Earliest(r.value, Reversed(offsets), slots, naf)))
  {
    if offsets == [] { return Some(Plan([], 0, 0)); }
    if !SlotsAccepted(slots) { return None; }
    var total := 0;
    for i := 0 to |offsets|
      invariant total == DirectCost(offsets, slots, naf, i)
    {
      total := total + RotationCost(offsets[i], slots, naf);
    }
    var best := Plan(offsets, 0, total);
    if !Progression(offsets) { return Some(best); }
    ReversedProgression(offsets);
    best := SearchDirection(offsets, slots, naf, best);
    ghost var forward := best;
    best := SearchDirection(Reversed(offsets), slots, naf, best);
    hide SplitCost;
    hide DirectCost;
    if best.rotations < forward.rotations { CheaperDearer(forward, best, offsets, slots, naf); }
    r := Some(best);
  }
}
