/** plan_packed_uses (native/fideslib_stage0/include/packed_lifetime.hpp:12-22): operand edges and last readers. */
module PackedLifetime {
  import opened PackedProgram

  /** Occurrences of v. */
  function CountOf(s: seq<int>, v: int): nat
  {
    if s == [] then 0 else CountOf(s[..|s| - 1], v) + if s[|s| - 1] == v then 1 else 0
  }

  lemma {:induction false} CountPositive(s: seq<int>, v: int)
    ensures CountOf(s, v) > 0 <==> v in s
  {
    if s != [] {
      var front := s[..|s| - 1];
      CountPositive(front, v);
      assert s == front + [s[|s| - 1]];
    }
  }

  predicate LiveAt(live: seq<bool>, i: nat) { live == [] || (i < |live| && live[i]) }

  predicate LiveFor(p: Program, live: seq<bool>) { live == [] || |live| == |p.nodes| }

  // Node i once for each operand of node i that is v.
  function Copies(i: int, count: nat): (s: seq<int>)
    ensures |s| == count && forall k :: 0 <= k < count ==> s[k] == i
  {
    seq(count, _ => i)
  }

  /** The live readers of v among the first n nodes, one entry per operand edge, in program order. */
  function Consumers(nodes: seq<Node>, live: seq<bool>, v: int, n: nat): seq<int>
    requires n <= |nodes|
  {
    if n == 0 then []
    else Consumers(nodes, live, v, n - 1) +
         if LiveAt(live, n - 1) then Copies(n - 1, CountOf(nodes[n - 1].parents, v)) else []
  }

  predicate Reads(nodes: seq<Node>, live: seq<bool>, i: nat, v: int)
    requires i < |nodes|
  {
    LiveAt(live, i) && v in nodes[i].parents
  }

  lemma {:induction false} CountAppend(a: seq<int>, b: seq<int>, v: int)
    ensures CountOf(a + b, v) == CountOf(a, v) + CountOf(b, v)
  {
    if b == [] {
      assert a + b == a;
    } else {
      assert (a + b)[..|a + b| - 1] == a + b[..|b| - 1];
      CountAppend(a, b[..|b| - 1], v);
    }
  }

  lemma {:induction false} CountCopies(i: int, count: nat, v: int)
    ensures CountOf(Copies(i, count), v) == if i == v then count else 0
  {
    if count > 0 {
      assert Copies(i, count)[..count - 1] == Copies(i, count - 1);
      CountCopies(i, count - 1, v);
    }
  }

  /** A reader appears once per operand edge. */
  lemma {:induction false} ConsumerEdges(nodes: seq<Node>, live: seq<bool>, v: int, n: nat, c: int)
    requires n <= |nodes|
    ensures CountOf(Consumers(nodes, live, v, n), c)
            == if 0 <= c < n && LiveAt(live, c) then CountOf(nodes[c].parents, v) else 0
    decreases n
  {
    hide LiveAt;
    if n > 0 {
      ConsumerEdges(nodes, live, v, n - 1, c);
      var added := if LiveAt(live, n - 1) then Copies(n - 1, CountOf(nodes[n - 1].parents, v)) else [];
      CountAppend(Consumers(nodes, live, v, n - 1), added, c);
      CountCopies(n - 1, CountOf(nodes[n - 1].parents, v), c);
    }
  }

  ghost predicate Ascends(s: seq<int>, n: nat)
  {
    (forall k :: 0 <= k < |s| ==> 0 <= s[k] < n) && forall j, k :: 0 <= j < k < |s| ==> s[j] <= s[k]
  }

  /** Readers are listed in program order. */
  lemma {:induction false} ConsumersAscend(nodes: seq<Node>, live: seq<bool>, v: int, n: nat)
    requires n <= |nodes|
    ensures Ascends(Consumers(nodes, live, v, n), n)
    decreases n
  {
    if n > 0 { ConsumersAscend(nodes, live, v, n - 1); }
  }

  /** The last live reader of v before n, or zero. */
  ghost predicate LastReader(nodes: seq<Node>, live: seq<bool>, v: int, n: nat, last: int)
    requires n <= |nodes|
  {
    (exists i: nat :: i < n && i == last && Reads(nodes, live, i, v) &&
                      forall k: nat :: i < k < n ==> !Reads(nodes, live, k, v)) ||
    (last == 0 && forall k: nat :: k < n ==> !Reads(nodes, live, k, v))
  }

  datatype UsePlan = UsePlan(last: seq<int>, consumers: seq<seq<int>>)

  ghost predicate EdgesUpTo(p: Program, live: seq<bool>, plan: UsePlan, n: nat)
    requires n <= |p.nodes|
  {
    |plan.last| == |plan.consumers| == |p.nodes| &&
    forall v: nat :: v < |p.nodes| ==>
                       plan.consumers[v] == Consumers(p.nodes, live, v, n) &&
                       LastReader(p.nodes, live, v, n, plan.last[v])
  }

  // One operand edge of node i.
  function AddEdge(plan: UsePlan, i: nat, v: nat): (next: UsePlan)
    requires v < |plan.last| == |plan.consumers|
  {
    UsePlan(plan.last[v := i], plan.consumers[v := plan.consumers[v] + [i]])
  }

  // The first k operand edges of node i have been added to the plan for the first i nodes.
  ghost predicate EdgesPartly(p: Program, live: seq<bool>, plan: UsePlan, i: nat, k: nat)
    requires i < |p.nodes| && k <= |p.nodes[i].parents|
  {
    |plan.last| == |plan.consumers| == |p.nodes| &&
    forall v: nat :: v < |p.nodes| ==>
                       plan.consumers[v]
                       == Consumers(p.nodes, live, v, i) + Copies(i, CountOf(p.nodes[i].parents[..k], v)) &&
                       if v in p.nodes[i].parents[..k] then plan.last[v] == i
                       else LastReader(p.nodes, live, v, i, plan.last[v])
  }

  lemma EdgeAdded(p: Program, live: seq<bool>, plan: UsePlan, i: nat, k: nat)
    requires i < |p.nodes| && k < |p.nodes[i].parents| && ParentsBefore(p.nodes, i)
    requires EdgesPartly(p, live, plan, i, k)
    ensures EdgesPartly(p, live, AddEdge(plan, i, p.nodes[i].parents[k]), i, k + 1)
  {
    var parents := p.nodes[i].parents;
    var next := AddEdge(plan, i, parents[k]);
    assert parents[..k + 1][..k] == parents[..k];
    forall v: nat | v < |p.nodes|
      ensures next.consumers[v] == Consumers(p.nodes, live, v, i) + Copies(i, CountOf(parents[..k + 1], v))
      ensures v in parents[..k + 1] <==> v == parents[k] || v in parents[..k]
    {
      assert parents[..k + 1] == parents[..k] + [parents[k]];
      assert CountOf(parents[..k + 1], v) == CountOf(parents[..k], v) + if parents[k] == v then 1 else 0;
    }
    hide LastReader;
  }

  lemma NodeAdded(p: Program, live: seq<bool>, plan: UsePlan, i: nat)
    requires i < |p.nodes| && LiveAt(live, i) && EdgesPartly(p, live, plan, i, |p.nodes[i].parents|)
    ensures EdgesUpTo(p, live, plan, i + 1)
  {
    var parents := p.nodes[i].parents;
    assert parents[..|parents|] == parents;
    forall v: nat | v < |p.nodes| ensures LastReader(p.nodes, live, v, i + 1, plan.last[v]) {
      if v in parents { assert Reads(p.nodes, live, i, v); }
    }
  }

  lemma NodeSkipped(p: Program, live: seq<bool>, plan: UsePlan, i: nat)
    requires i < |p.nodes| && !LiveAt(live, i) && EdgesUpTo(p, live, plan, i)
    ensures EdgesUpTo(p, live, plan, i + 1)
  {
  }

  /** Consumers are the live operand edges; last is the final live reader, or past the end for outputs. */
  method PlanPackedUses(p: Program, live: seq<bool>) returns (plan: UsePlan)
    requires Topological(p) && OutputsInside(p) && LiveFor(p, live)
    ensures |plan.last| == |plan.consumers| == |p.nodes|
    ensures forall v: nat :: v < |p.nodes| ==> plan.consumers[v] == Consumers(p.nodes, live, v, |p.nodes|)
    ensures forall v: nat :: v < |p.nodes| ==>
              if v in p.outputs then plan.last[v] == |p.nodes|
              else LastReader(p.nodes, live, v, |p.nodes|, plan.last[v])
  {
    plan := UsePlan(seq(|p.nodes|, _ => 0), seq(|p.nodes|, _ => []));
    for i := 0 to |p.nodes|
      invariant EdgesUpTo(p, live, plan, i)
    {
      plan := AddNode(p, live, plan, i);
    }
    ghost var edges := plan;
    for k := 0 to |p.outputs|
      invariant |plan.last| == |p.nodes| && plan.consumers == edges.consumers
      invariant forall v: nat :: v < |p.nodes| ==>
                  plan.last[v] == if v in p.outputs[..k] then |p.nodes| else edges.last[v]
    {
      plan := plan.(last := plan.last[p.outputs[k] := |p.nodes|]);
    }
    assert p.outputs[..|p.outputs|] == p.outputs;
  }

  method AddNode(p: Program, live: seq<bool>, before: UsePlan, i: nat) returns (plan: UsePlan)
    requires Topological(p) && i < |p.nodes| && EdgesUpTo(p, live, before, i)
    ensures EdgesUpTo(p, live, plan, i + 1)
  {
    plan := before;
    if !LiveAt(live, i) {
      NodeSkipped(p, live, plan, i);
      return;
    }
    assert ParentsBefore(p.nodes, i);
    var parents := p.nodes[i].parents;
    assert EdgesPartly(p, live, plan, i, 0);
    for k := 0 to |parents|
      invariant EdgesPartly(p, live, plan, i, k)
    {
      EdgeAdded(p, live, plan, i, k);
      plan := AddEdge(plan, i, parents[k]);
    }
    NodeAdded(p, live, plan, i);
  }
}
