/**
 What one pass of the refresh search decides (native/fideslib_stage0/include/packed_depth.hpp:125-140), node by node:
 each decision stands on those before it, in program order, and on the previous pass for the nodes after it.
 */
module PackedGreedy {
  import opened PackedProgram
  import opened PackedDepth

  /** The refreshes of after for the nodes below i, those of before for the others. */
  function Between(before: Plan, after: Plan, i: nat): (plan: Plan)
    requires i <= |before.refreshAfter| == |after.refreshAfter|
    ensures |plan.refreshAfter| == |before.refreshAfter|
  {
    before.(refreshAfter := after.refreshAfter[..i] + before.refreshAfter[i..])
  }

  lemma TotalOnly(p: Program, a: Plan, b: Plan)
    requires PlanFor(p, a) && PlanFor(p, b) && Topological(p) && b == a.(refreshes := b.refreshes)
    ensures Refreshes(p, a) == Refreshes(p, b)
  {
    TotalIgnored(p, a, b.refreshes, FreshLevels(p), |p.nodes|);
    hide Simulated;
  }

  // An attempt changes no refresh but its own, and records the right total.
  lemma AttemptKeeps(p: Program, plan: Plan, uses: seq<nat>, i: nat)
    requires PlanFor(p, plan) && Topological(p) && |uses| == |p.nodes| && i < |p.nodes|
    requires plan.refreshes == Refreshes(p, plan)
    ensures var next := Attempt(p, plan, uses, i);
            PlanFor(p, next) && next.refreshes == Refreshes(p, next) &&
            next == plan.(refreshAfter := plan.refreshAfter[i := next.refreshAfter[i]], refreshes := next.refreshes) &&
            (next.refreshAfter[i] <==>
               plan.refreshAfter[i] ||
               (plan.live[i] && uses[i] >= 2 && Refreshes(p, WithRefresh(plan, i)) < Refreshes(p, plan)))
  {
    var trial := WithRefresh(plan, i);
    TotalOnly(p, trial, trial.(refreshes := Refreshes(p, trial)));
    hide Refreshes;
    hide Topological;
  }

  // After the attempts below n the plan is its own refreshes there and those of the start behind.
  ghost predicate DecidedTo(p: Program, plan: Plan, passed: Plan, n: nat)
  {
    PlanFor(p, plan) && PlanFor(p, passed) && Topological(p) && n <= |p.nodes| &&
    passed == Between(plan, passed, n).(refreshes := passed.refreshes) && passed.refreshes == Refreshes(p, passed)
  }

  lemma {:induction false} PassDecided(p: Program, plan: Plan, uses: seq<nat>, n: nat)
    requires PlanFor(p, plan) && Topological(p) && |uses| == |p.nodes| && n <= |p.nodes|
    requires plan.refreshes == Refreshes(p, plan)
    ensures DecidedTo(p, plan, Pass(p, plan, uses, n), n)
    decreases n
  {
    hide Refreshes;
    hide Topological;
    if n > 0 {
      PassDecided(p, plan, uses, n - 1);
      AttemptKeeps(p, Pass(p, plan, uses, n - 1), uses, n - 1);
      hide Attempt;
      var before, after := Pass(p, plan, uses, n - 1), Pass(p, plan, uses, n);
      assert after.refreshAfter == after.refreshAfter[..n] + plan.refreshAfter[n..];
    } else {
      assert plan.refreshAfter == plan.refreshAfter[..0] + plan.refreshAfter[0..];
    }
  }

  // Later attempts leave earlier decisions alone.
  lemma {:induction false} PassFixes(p: Program, plan: Plan, uses: seq<nat>, n: nat, m: nat)
    requires PlanFor(p, plan) && Topological(p) && |uses| == |p.nodes| && n <= m <= |p.nodes|
    requires plan.refreshes == Refreshes(p, plan)
    ensures PlanFor(p, Pass(p, plan, uses, n)) && PlanFor(p, Pass(p, plan, uses, m))
    ensures Pass(p, plan, uses, m).refreshAfter[..n] == Pass(p, plan, uses, n).refreshAfter[..n]
    decreases m
  {
    hide Refreshes;
    hide Topological;
    if m > n {
      PassFixes(p, plan, uses, n, m - 1);
      PassDecided(p, plan, uses, m - 1);
      AttemptKeeps(p, Pass(p, plan, uses, m - 1), uses, m - 1);
      hide Attempt;
    }
  }

  /**
   A pass refreshes after node i exactly when that was so before it, or when the node is live, is read at least twice,
   and the refresh lowers the total, given the decisions of this pass below i and the old ones from i on.
   */
  lemma PassDecides(p: Program, plan: Plan, uses: seq<nat>, i: nat)
    requires PlanFor(p, plan) && Topological(p) && |uses| == |p.nodes| && i < |p.nodes|
    requires plan.refreshes == Refreshes(p, plan)
    ensures var next := Pass(p, plan, uses, |p.nodes|);
            PlanFor(p, next) && |plan.refreshAfter| == |plan.live| == |next.refreshAfter| == |p.nodes| &&
            var at := Between(plan, next, i);
            PlanFor(p, at) && PlanFor(p, WithRefresh(at, i)) &&
            (next.refreshAfter[i] <==>
              plan.refreshAfter[i] ||
              (plan.live[i] && uses[i] >= 2 && Refreshes(p, WithRefresh(at, i)) < Refreshes(p, at)))
  {
    hide *;
    var next, here, after := Pass(p, plan, uses, |p.nodes|), Pass(p, plan, uses, i), Pass(p, plan, uses, i + 1);
    PassDecided(p, plan, uses, i);
    PassFixes(p, plan, uses, i, |p.nodes|);
    PassFixes(p, plan, uses, i + 1, |p.nodes|);
    BetweenIs(p, plan, next, here, i);
    PlanLengths(p, plan);
    PlanLengths(p, next);
    PlanLengths(p, after);
    SameAt(next.refreshAfter, after.refreshAfter, i, |p.nodes|);
    NextAttempt(p, plan, uses, i);
    var at := Between(plan, next, i);
    TotalOnly(p, here, at);
    WithSame(p, here, at, i);
    TotalOnly(p, WithRefresh(here, i), WithRefresh(at, i));
    AttemptKeeps(p, here, uses, i);
  }

  lemma PlanLengths(p: Program, plan: Plan)
    requires PlanFor(p, plan)
    ensures |plan.refreshAfter| == |plan.live| == |p.nodes|
  {
  }

  lemma SameAt(a: seq<bool>, b: seq<bool>, i: nat, n: nat)
    requires |a| == |b| == n && i < n && a[..i + 1] == b[..i + 1]
    ensures a[i] == b[i]
  {
    assert a[..i + 1][i] == a[i] && b[..i + 1][i] == b[i];
  }

  lemma WithSame(p: Program, a: Plan, b: Plan, i: nat)
    requires PlanFor(p, a) && PlanFor(p, b) && i < |p.nodes| && b == a.(refreshes := b.refreshes)
    ensures PlanFor(p, WithRefresh(a, i)) && PlanFor(p, WithRefresh(b, i))
    ensures WithRefresh(b, i) == WithRefresh(a, i).(refreshes := WithRefresh(b, i).refreshes)
  {
  }

  lemma NextAttempt(p: Program, plan: Plan, uses: seq<nat>, i: nat)
    requires PlanFor(p, plan) && Topological(p) && |uses| == |p.nodes| && i < |p.nodes|
    ensures Pass(p, plan, uses, i + 1) == Attempt(p, Pass(p, plan, uses, i), uses, i)
  {
    hide Attempt;
  }

  lemma BetweenIs(p: Program, plan: Plan, next: Plan, here: Plan, i: nat)
    requires DecidedTo(p, plan, here, i) && PlanFor(p, next) && next.refreshAfter[..i] == here.refreshAfter[..i]
    requires i < |p.nodes|
    ensures PlanFor(p, Between(plan, next, i)) && here.refreshes == Refreshes(p, here)
    ensures Between(plan, next, i) == here.(refreshes := Between(plan, next, i).refreshes)
    ensures here.refreshAfter[i] == plan.refreshAfter[i] && here.live == plan.live
  {
    hide Refreshes;
    hide Topological;
    assert here.refreshAfter == here.refreshAfter[..i] + plan.refreshAfter[i..];
    assert here.refreshAfter[i] == plan.refreshAfter[i..][0];
  }
}
