/**
 What the level simulation counts (native/fideslib_stage0/include/packed_depth.hpp:72-98), said about the graph: when no
 refresh is needed at all, and which reads and which nodes a total counts.
 */
module PackedRefresh {
  import opened PackedProgram
  import opened PackedDepth

  // ---------- chains of operands ----------

  predicate Consumes(p: Program, plan: Plan, i: nat)
    requires PlanFor(p, plan)
  {
    i < |p.nodes| && plan.live[i] && p.nodes[i].operation != Feedback
  }

  /** Live nodes, each an operand of the next; a feedback node starts afresh and so belongs to no chain. */
  ghost predicate Chain(p: Program, plan: Plan, path: seq<nat>)
    requires PlanFor(p, plan)
  {
    path != [] && (forall k :: 0 <= k < |path| ==> Consumes(p, plan, path[k])) &&
    forall k :: 0 <= k < |path| - 1 ==> Operand(p, path[k + 1], path[k])
  }

  /** What the chain consumes, from the level of a fresh ciphertext. */
  function ChainCost(plan: Plan, path: seq<nat>): int
    requires forall k :: 0 <= k < |path| ==> path[k] < |plan.cost|
  {
    if path == [] then -1 else ChainCost(plan, path[..|path| - 1]) + plan.cost[path[|path| - 1]]
  }

  /** Chains end within the ceiling where operands are read, and within the refresh level where one is planned. */
  ghost predicate ChainFits(p: Program, plan: Plan, path: seq<nat>)
    requires PlanFor(p, plan) && Chain(p, plan, path)
  {
    var i := path[|path| - 1];
    (p.nodes[i].parents != [] ==> ChainCost(plan, path) <= plan.ceiling) &&
    (plan.refreshAfter[i] ==> ChainCost(plan, path) <= plan.refreshed)
  }

  ghost predicate ChainsFit(p: Program, plan: Plan)
    requires PlanFor(p, plan)
  {
    forall path: seq<nat> :: Chain(p, plan, path) ==> ChainFits(p, plan, path)
  }

  /** The largest cost of a chain that ends at the node; the level of a fresh ciphertext for feedback. */
  ghost predicate LargestChain(p: Program, plan: Plan, i: nat, level: int)
    requires PlanFor(p, plan) && i < |p.nodes|
  {
    if p.nodes[i].operation == Feedback then level == -1
    else
      (exists path: seq<nat> :: EndsAt(p, plan, path, i) && ChainCost(plan, path) == level) &&
      forall path: seq<nat> :: EndsAt(p, plan, path, i) ==> ChainCost(plan, path) <= level
  }

  ghost predicate EndsAt(p: Program, plan: Plan, path: seq<nat>, i: nat)
    requires PlanFor(p, plan)
  {
    Chain(p, plan, path) && path[|path| - 1] == i
  }

  predicate CostsNonnegative(plan: Plan) { forall i :: 0 <= i < |plan.cost| ==> plan.cost[i] >= 0 }

  // ---------- the largest chain as a recursion over the graph ----------

  function Deepest(p: Program, plan: Plan, i: nat): (level: int)
    requires PlanFor(p, plan) && Topological(p) && i < |p.nodes|
    ensures CostsNonnegative(plan) ==> level >= -1
    decreases i, 1, 0
  {
    if !Consumes(p, plan, i) then -1
    else
      assert ParentsBefore(p.nodes, i);
      plan.cost[i] + DeepestOf(p, plan, i, |p.nodes[i].parents|)
  }

  function DeepestOf(p: Program, plan: Plan, i: nat, k: nat): (level: int)
    requires i < |p.nodes| && k <= |p.nodes[i].parents|
    requires PlanFor(p, plan) && Topological(p) && ParentsBefore(p.nodes, i)
    ensures level >= -1
    decreases i, 0, k
  {
    if k == 0 then -1
    else
      var rest, level := DeepestOf(p, plan, i, k - 1), Deepest(p, plan, p.nodes[i].parents[k - 1]);
      if level > rest then level else rest
  }

  lemma {:induction false} DeepestOfBounds(p: Program, plan: Plan, i: nat, k: nat)
    requires i < |p.nodes| && k <= |p.nodes[i].parents|
    requires PlanFor(p, plan) && Topological(p) && ParentsBefore(p.nodes, i)
    ensures forall j :: 0 <= j < k ==> Deepest(p, plan, p.nodes[i].parents[j]) <= DeepestOf(p, plan, i, k)
    ensures DeepestOf(p, plan, i, k) == -1 ||
            exists j :: 0 <= j < k && Deepest(p, plan, p.nodes[i].parents[j]) == DeepestOf(p, plan, i, k)
    decreases k
  {
    if k > 0 {
      DeepestOfBounds(p, plan, i, k - 1);
      hide Deepest;
      hide Topological;
      hide PlanFor;
    }
  }

  lemma DeepestIs(p: Program, plan: Plan, i: nat)
    requires PlanFor(p, plan) && Topological(p) && Consumes(p, plan, i)
    ensures ParentsBefore(p.nodes, i)
    ensures Deepest(p, plan, i) == plan.cost[i] + DeepestOf(p, plan, i, |p.nodes[i].parents|)
  {
    hide DeepestOf;
  }

  lemma PrefixChain(p: Program, plan: Plan, path: seq<nat>)
    requires PlanFor(p, plan) && Chain(p, plan, path) && |path| > 1
    ensures Chain(p, plan, path[..|path| - 1]) && Operand(p, path[|path| - 1], path[|path| - 2])
    ensures ChainCost(plan, path) == ChainCost(plan, path[..|path| - 1]) + plan.cost[path[|path| - 1]]
  {
    var front := path[..|path| - 1];
    assert forall k :: 0 <= k < |front| ==> front[k] == path[k];
    hide Operand;
  }

  /** No chain costs more than the recursion says. */
  lemma {:induction false} ChainBelow(p: Program, plan: Plan, path: seq<nat>)
    requires PlanFor(p, plan) && Topological(p) && Chain(p, plan, path)
    ensures Consumes(p, plan, path[|path| - 1]) && ChainCost(plan, path) <= Deepest(p, plan, path[|path| - 1])
    decreases |path|
  {
    var i := path[|path| - 1];
    DeepestIs(p, plan, i);
    DeepestOfBounds(p, plan, i, |p.nodes[i].parents|);
    if |path| == 1 {
      SingleCost(plan, path);
      hide ChainCost;
      hide Deepest;
    } else {
      var front := path[..|path| - 1];
      PrefixChain(p, plan, path);
      ChainBelow(p, plan, front);
      hide ChainCost;
      hide Deepest;
      hide DeepestOf;
      hide Chain;
      var j :| 0 <= j < |p.nodes[i].parents| && p.nodes[i].parents[j] == path[|path| - 2];
      assert front[|front| - 1] == path[|path| - 2];
    }
  }

  lemma SingleCost(plan: Plan, path: seq<nat>)
    requires |path| == 1 && path[0] < |plan.cost|
    ensures ChainCost(plan, path) == -1 + plan.cost[path[0]]
  {
    assert path[..0] == [];
  }

  lemma LongerChain(p: Program, plan: Plan, path: seq<nat>, i: nat)
    requires PlanFor(p, plan) && Chain(p, plan, path) && Consumes(p, plan, i) && Operand(p, i, path[|path| - 1])
    ensures Chain(p, plan, path + [i])
    ensures ChainCost(plan, path + [i]) == ChainCost(plan, path) + plan.cost[i]
  {
    var longer := path + [i];
    assert longer[..|path|] == path;
    hide Operand;
    forall k | 0 <= k < |longer| - 1 ensures Operand(p, longer[k + 1], longer[k]) {
      if k < |path| - 1 { assert Operand(p, path[k + 1], path[k]); }
    }
  }

  /** Some chain costs that much. */
  lemma {:induction false} ChainReaches(p: Program, plan: Plan, i: nat) returns (path: seq<nat>)
    requires PlanFor(p, plan) && Topological(p) && Consumes(p, plan, i) && CostsNonnegative(plan)
    ensures EndsAt(p, plan, path, i) && ChainCost(plan, path) == Deepest(p, plan, i)
    decreases i
  {
    DeepestIs(p, plan, i);
    DeepestOfBounds(p, plan, i, |p.nodes[i].parents|);
    if DeepestOf(p, plan, i, |p.nodes[i].parents|) == -1 {
      path := [i];
      SingleCost(plan, path);
      hide Deepest;
    } else {
      var level := DeepestOf(p, plan, i, |p.nodes[i].parents|);
      var j :| 0 <= j < |p.nodes[i].parents| && Deepest(p, plan, p.nodes[i].parents[j]) == level;
      var v: nat := p.nodes[i].parents[j];
      assert Consumes(p, plan, v);
      hide Deepest;
      hide DeepestOf;
      var front := ChainReaches(p, plan, v);
      LongerChain(p, plan, front, i);
      path := front + [i];
    }
  }

  lemma DeepestIsLargest(p: Program, plan: Plan, i: nat)
    requires PlanFor(p, plan) && Topological(p) && i < |p.nodes| && plan.live[i] && CostsNonnegative(plan)
    ensures LargestChain(p, plan, i, Deepest(p, plan, i))
  {
    if p.nodes[i].operation != Feedback {
      var path := ChainReaches(p, plan, i);
      hide Deepest;
      assert EndsAt(p, plan, path, i);
      forall other: seq<nat> | EndsAt(p, plan, other, i)
        ensures ChainCost(plan, other) <= Deepest(p, plan, i)
      {
        ChainBelow(p, plan, other);
      }
      hide EndsAt;
      hide ChainCost;
    }
  }

  // ---------- when nothing is refreshed ----------

  // The node needs no refresh before or after itself.
  predicate NodeFits(p: Program, plan: Plan, i: nat)
    requires PlanFor(p, plan) && Topological(p) && i < |p.nodes|
  {
    (p.nodes[i].operation != Feedback && p.nodes[i].parents != [] ==> Deepest(p, plan, i) <= plan.ceiling) &&
    (plan.refreshAfter[i] ==> Deepest(p, plan, i) <= plan.refreshed)
  }

  function HighestOf(levels: seq<int>, parents: seq<int>, k: nat): (level: int)
    requires k <= |parents| && forall j :: 0 <= j < |parents| ==> 0 <= parents[j] < |levels|
    ensures level >= -1 && forall j :: 0 <= j < k ==> levels[parents[j]] <= level
    ensures level == -1 || exists j :: 0 <= j < k && levels[parents[j]] == level
  {
    if k == 0 then -1
    else
      var rest, level := HighestOf(levels, parents, k - 1), levels[parents[k - 1]];
      if level > rest then level else rest
  }

  // Reading counts at least nothing, and nothing exactly when every operand fits; then it leaves all levels alone.
  lemma {:induction false} ReadFree(s: Levels, parents: seq<int>, k: nat, cost: int, ceiling: int, refreshed: int)
    requires k <= |parents| && forall j :: 0 <= j < |parents| ==> 0 <= parents[j] < |s.levels|
    ensures var (read, level) := ReadOperands(s, parents, k, cost, ceiling, refreshed);
            read.refreshes >= s.refreshes &&
            (read.refreshes == s.refreshes <==> forall j :: 0 <= j < k ==> s.levels[parents[j]] + cost <= ceiling) &&
            (read.refreshes == s.refreshes ==> read == s && level == HighestOf(s.levels, parents, k))
    decreases k
  {
    if k > 0 { ReadFree(s, parents, k - 1, cost, ceiling, refreshed); }
  }

  // The levels of the first n nodes as long as nothing was refreshed.
  ghost predicate LevelsFree(p: Program, plan: Plan, s: Levels, n: nat)
    requires PlanFor(p, plan) && Topological(p)
  {
    |s.levels| == |s.produced| == |p.nodes| &&
    forall v: nat :: v < |p.nodes| ==>
                       s.levels[v] == (if v < n && plan.live[v] then Deepest(p, plan, v) else -1) &&
                       (v < n && plan.live[v] ==> s.produced[v] == Deepest(p, plan, v))
  }

  lemma {:induction false} HighestIs(p: Program, plan: Plan, s: Levels, i: nat, k: nat)
    requires PlanFor(p, plan) && Topological(p) && i < |p.nodes| && ParentsBefore(p.nodes, i)
    requires k <= |p.nodes[i].parents| && LevelsFree(p, plan, s, i)
    ensures HighestOf(s.levels, p.nodes[i].parents, k) == DeepestOf(p, plan, i, k)
    ensures forall j :: 0 <= j < k ==> s.levels[p.nodes[i].parents[j]] == Deepest(p, plan, p.nodes[i].parents[j])
    decreases k
  {
    if k > 0 {
      HighestIs(p, plan, s, i, k - 1);
      var v: nat := p.nodes[i].parents[k - 1];
      assert s.levels[v] == Deepest(p, plan, v) by {
        if !plan.live[v] { assert !Consumes(p, plan, v); }
        hide DeepestOf;
      }
      hide Deepest;
      hide LevelsFree;
    }
  }

  lemma NodeGrows(p: Program, plan: Plan, s: Levels, i: nat)
    requires PlanFor(p, plan) && i < |p.nodes| == |s.levels| == |s.produced| && ParentsBefore(p.nodes, i)
    ensures SimulateNode(p, plan, s, i).refreshes >= s.refreshes
  {
    ReadFree(s, p.nodes[i].parents, |p.nodes[i].parents|, plan.cost[i], plan.ceiling, plan.refreshed);
    hide ReadOperands;
  }

  // An operand level is at least fresh, so the highest one decides whether every operand fits.
  lemma HighestFits(levels: seq<int>, parents: seq<int>, cost: int, ceiling: int)
    requires forall j :: 0 <= j < |parents| ==> 0 <= parents[j] < |levels| && levels[parents[j]] >= -1
    ensures (forall j :: 0 <= j < |parents| ==> levels[parents[j]] + cost <= ceiling)
            <==> (parents != [] ==> HighestOf(levels, parents, |parents|) + cost <= ceiling)
  {
    var level := HighestOf(levels, parents, |parents|);
    if parents != [] && level == -1 { assert levels[parents[0]] == level; }
    hide HighestOf;
  }

  // The level of a node when it is computed, while nothing has been refreshed.
  lemma FreeRead(p: Program, plan: Plan, s: Levels, i: nat)
    requires PlanFor(p, plan) && Topological(p) && Consumes(p, plan, i) && ParentsBefore(p.nodes, i)
    requires LevelsFree(p, plan, s, i) && CostsNonnegative(plan)
    ensures var (read, level) := ReadOperands(s, p.nodes[i].parents, |p.nodes[i].parents|, plan.cost[i], plan.ceiling,
                                              plan.refreshed);
            read.refreshes >= s.refreshes &&
            (read.refreshes == s.refreshes <==>
               (p.nodes[i].parents != [] ==> Deepest(p, plan, i) <= plan.ceiling)) &&
            (read.refreshes == s.refreshes ==> read == s && level + plan.cost[i] == Deepest(p, plan, i))
  {
    var parents := p.nodes[i].parents;
    ReadFree(s, parents, |parents|, plan.cost[i], plan.ceiling, plan.refreshed);
    HighestIs(p, plan, s, i, |parents|);
    DeepestIs(p, plan, i);
    LevelsAtLeast(p, plan, s, i);
    hide *;
    HighestFits(s.levels, parents, plan.cost[i], plan.ceiling);
  }

  lemma LevelsAtLeast(p: Program, plan: Plan, s: Levels, i: nat)
    requires PlanFor(p, plan) && Topological(p) && i < |p.nodes| && ParentsBefore(p.nodes, i)
    requires LevelsFree(p, plan, s, i) && CostsNonnegative(plan)
    ensures |s.levels| == |p.nodes|
    ensures forall j :: 0 <= j < |p.nodes[i].parents| ==>
                          0 <= p.nodes[i].parents[j] < |s.levels| && s.levels[p.nodes[i].parents[j]] >= -1
  {
    hide Deepest;
    hide Topological;
  }

  lemma NodeFree(p: Program, plan: Plan, s: Levels, i: nat)
    requires PlanFor(p, plan) && Topological(p) && i < |p.nodes| && plan.live[i] && ParentsBefore(p.nodes, i)
    requires LevelsFree(p, plan, s, i) && CostsNonnegative(plan) && plan.refreshed >= 0
    ensures |s.levels| == |s.produced| == |p.nodes|
    ensures var r := SimulateNode(p, plan, s, i);
            r.refreshes >= s.refreshes && (r.refreshes == s.refreshes <==> NodeFits(p, plan, i)) &&
            (r.refreshes == s.refreshes ==>
               r.levels == s.levels[i := Deepest(p, plan, i)] && r.produced == s.produced[i := Deepest(p, plan, i)])
  {
    if p.nodes[i].operation == Feedback {
      assert Deepest(p, plan, i) == -1 by { assert !Consumes(p, plan, i); }
      hide Deepest;
    } else {
      FreeRead(p, plan, s, i);
      hide Deepest;
    }
    hide ReadOperands;
    hide LevelsFree;
    hide Topological;
  }

  lemma {:induction false} SimulationFree(p: Program, plan: Plan, produced: seq<int>, n: nat)
    requires PlanFor(p, plan) && Topological(p) && n <= |p.nodes| == |produced|
    requires CostsNonnegative(plan) && plan.refreshed >= 0
    ensures var s := Simulated(p, plan, produced, n);
            (s.refreshes == 0 <==> forall i: nat :: i < n && plan.live[i] ==> NodeFits(p, plan, i)) &&
            (s.refreshes == 0 ==> LevelsFree(p, plan, s, n))
    decreases n
  {
    if n > 0 {
      var before, i := Simulated(p, plan, produced, n - 1), n - 1;
      SimulationFree(p, plan, produced, n - 1);
      assert ParentsBefore(p.nodes, i);
      NodeGrows(p, plan, before, i);
      if before.refreshes == 0 && plan.live[i] {
        NodeFree(p, plan, before, i);
        hide SimulateNode;
        hide NodeFits;
        hide Deepest;
      }
      hide NodeFits;
      hide Deepest;
    }
  }

  lemma FitsByChains(p: Program, plan: Plan)
    requires PlanFor(p, plan) && Topological(p) && CostsNonnegative(plan) && plan.refreshed >= 0
    ensures ChainsFit(p, plan) <==> forall i: nat :: i < |p.nodes| && plan.live[i] ==> NodeFits(p, plan, i)
  {
    if ChainsFit(p, plan) {
      forall i: nat | i < |p.nodes| && plan.live[i] ensures NodeFits(p, plan, i) {
        if p.nodes[i].operation == Feedback {
          assert !Consumes(p, plan, i);
        } else {
          var path := ChainReaches(p, plan, i);
          hide Deepest;
          hide Chain;
          assert Chain(p, plan, path) && ChainFits(p, plan, path);
        }
      }
    } else {
      var path: seq<nat> :| Chain(p, plan, path) && !ChainFits(p, plan, path);
      ChainBelow(p, plan, path);
      hide Deepest;
      hide ChainCost;
      assert !NodeFits(p, plan, path[|path| - 1]);
    }
  }

  /**
   Nothing is refreshed exactly when no chain of operands passes the ceiling where it is read, nor the refresh level
   where a refresh is planned; and then the recorded levels are the costs of the largest chains.
   */
  lemma RefreshFree(p: Program, plan: Plan, produced: seq<int>)
    requires PlanFor(p, plan) && Topological(p) && |produced| == |p.nodes|
    requires CostsNonnegative(plan) && plan.refreshed >= 0
    ensures var s := Simulated(p, plan, produced, |p.nodes|);
            (s.refreshes == 0 <==> ChainsFit(p, plan)) &&
            (s.refreshes == 0 ==>
               forall i: nat :: i < |p.nodes| && plan.live[i] ==> LargestChain(p, plan, i, s.produced[i]))
  {
    SimulationFree(p, plan, produced, |p.nodes|);
    FitsByChains(p, plan);
    hide Simulated;
    hide NodeFits;
    forall i: nat | i < |p.nodes| && plan.live[i] ensures LargestChain(p, plan, i, Deepest(p, plan, i)) {
      DeepestIsLargest(p, plan, i);
    }
    hide Deepest;
    hide LargestChain;
    hide ChainsFit;
  }

  lemma PlannedCosts(p: Program, plan: Plan)
    requires Accepted(p) && PlanFor(p, plan) && CostsExact(p, plan)
    ensures CostsNonnegative(plan)
    ensures forall i: nat :: i < |p.nodes| && p.nodes[i].parents == [] ==> plan.cost[i] == 0
  {
    hide Accepted;
    forall i: nat | i < |p.nodes|
      ensures plan.cost[i] >= 0 && (p.nodes[i].parents == [] ==> plan.cost[i] == 0)
    {
      assert NodeAccepted(p, i);
      if Deferred(p, i) { assert NodeDepth(p, i) == 2; }
    }
  }

  /** No chain of operands of the plan costs more than the ceiling. */
  ghost predicate ChainsBelow(p: Program, plan: Plan)
    requires PlanFor(p, plan)
  {
    forall path: seq<nat> :: Chain(p, plan, path) ==> ChainCost(plan, path) <= plan.ceiling
  }

  // A chain that ends at a node without operands is that node alone.
  lemma RootChain(p: Program, plan: Plan, path: seq<nat>)
    requires PlanFor(p, plan) && Chain(p, plan, path) && p.nodes[path[|path| - 1]].parents == []
    ensures ChainCost(plan, path) == -1 + plan.cost[path[|path| - 1]]
  {
    if |path| > 1 { PrefixChain(p, plan, path); }
    SingleCost(plan, path);
  }

  lemma ChainsFitBelow(p: Program, plan: Plan)
    requires Accepted(p) && PlanFor(p, plan) && CostsExact(p, plan) && plan.ceiling > plan.refreshed >= 0
    ensures ChainsFit(p, plan) ==> ChainsBelow(p, plan)
    ensures ChainsBelow(p, plan) && (forall i :: 0 <= i < |p.nodes| ==> !plan.refreshAfter[i]) ==> ChainsFit(p, plan)
  {
    PlannedCosts(p, plan);
    hide CostsExact;
    hide Accepted;
    hide ChainCost;
    hide Consumes;
    forall path: seq<nat> | ChainsFit(p, plan) && Chain(p, plan, path)
      ensures ChainCost(plan, path) <= plan.ceiling
    {
      assert ChainFits(p, plan, path);
      if p.nodes[path[|path| - 1]].parents == [] { RootChain(p, plan, path); }
    }
  }

  lemma SameChains(p: Program, a: Plan, b: Plan)
    requires PlanFor(p, a) && PlanFor(p, b) && a.cost == b.cost && a.live == b.live && a.ceiling == b.ceiling
    ensures ChainsBelow(p, a) <==> ChainsBelow(p, b)
  {
    forall path: seq<nat>
      ensures Chain(p, a, path) <==> Chain(p, b, path)
      ensures Chain(p, a, path) ==> ChainCost(a, path) == ChainCost(b, path)
    {
      assert forall i: nat :: Consumes(p, a, i) <==> Consumes(p, b, i);
      if Chain(p, a, path) { SameCost(a, b, path); }
    }
  }

  lemma {:induction false} SameCost(a: Plan, b: Plan, path: seq<nat>)
    requires a.cost == b.cost && forall k :: 0 <= k < |path| ==> path[k] < |a.cost|
    ensures ChainCost(a, path) == ChainCost(b, path)
    decreases |path|
  {
    if path != [] { SameCost(a, b, path[..|path| - 1]); }
  }

  /** A finished plan needs no refresh exactly when no chain of its costs passes the ceiling. */
  lemma PlannedRefreshFree(p: Program, plan: Plan)
    requires Accepted(p) && PlanHolds(p, plan) && plan.ceiling > plan.refreshed >= 0
    ensures PlanFor(p, plan) && (plan.refreshes == 0 <==> ChainsBelow(p, plan))
  {
    var plain := plan.(refreshAfter := seq(|p.nodes|, _ => false));
    PlannedFacts(p, plan);
    CostsKept(p, plan, plain);
    PlannedCosts(p, plan);
    hide *;
    ChainsFitBelow(p, plan);
    ChainsFitBelow(p, plain);
    SameChains(p, plan, plain);
    RefreshesFree(p, plan);
    RefreshesFree(p, plain);
  }

  lemma PlannedFacts(p: Program, plan: Plan)
    requires Accepted(p) && PlanHolds(p, plan)
    ensures PlanFor(p, plan) && Topological(p) && CostsExact(p, plan) && plan.refreshes == Refreshes(p, plan)
    ensures var plain := plan.(refreshAfter := seq(|p.nodes|, _ => false));
            PlanFor(p, plain) && plan.refreshes <= Refreshes(p, plain) &&
            forall i :: 0 <= i < |p.nodes| ==> !plain.refreshAfter[i]
  {
    hide Accepted;
    hide Topological;
    hide CostsExact;
    hide Refreshes;
    hide Searched;
    hide Reached;
  }

  lemma RefreshesFree(p: Program, plan: Plan)
    requires PlanFor(p, plan) && Topological(p) && CostsNonnegative(plan) && plan.refreshed >= 0
    ensures Refreshes(p, plan) == 0 <==> ChainsFit(p, plan)
  {
    RefreshFree(p, plan, FreshLevels(p));
    hide Simulated;
    hide ChainsFit;
  }
}
