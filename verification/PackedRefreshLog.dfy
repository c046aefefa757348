/**
 The total of the level simulation as a count (native/fideslib_stage0/include/packed_depth.hpp:72-98): the operand reads
 whose level plus cost passes the ceiling, and the nodes whose own refresh is taken. A log says which those are by what
 every read sees, without running anything, and a program and a plan have exactly one.
 */
module PackedRefreshLog {
  import opened PackedProgram
  import opened PackedDepth
  import opened PackedRefresh

  // Read (i, k) is the k-th operand of node i. computed is the level before a node's own refresh, levels the one after.
  datatype Log = Log(over: set<(nat, nat)>, after: set<nat>, computed: seq<int>, levels: seq<int>)

  predicate IsRead(p: Program, plan: Plan, i: nat, k: nat)
    requires PlanFor(p, plan)
  {
    Consumes(p, plan, i) && k < |p.nodes[i].parents|
  }

  predicate Earlier(j: nat, m: nat, i: nat, k: nat) { j < i || (j == i && m < k) }

  // Read (j, m) refreshed node v.
  predicate Renews(p: Program, log: Log, j: nat, m: nat, v: int)
  {
    (j, m) in log.over && j < |p.nodes| && m < |p.nodes[j].parents| && p.nodes[j].parents[m] == v
  }

  /** Some read before (i, k) refreshed node v. */
  ghost predicate RefreshedBefore(p: Program, log: Log, v: int, i: nat, k: nat)
  {
    exists j: nat, m: nat :: Renews(p, log, j, m, v) && Earlier(j, m, i, k)
  }

  /** The level of node v that read (i, k) finds. */
  ghost function Seen(p: Program, plan: Plan, log: Log, v: int, i: nat, k: nat): int
    requires 0 <= v < |log.levels|
  {
    if RefreshedBefore(p, log, v, i, k) then plan.refreshed else log.levels[v]
  }

  /** The level of operand k of node i that the node computes with. */
  ghost function Used(p: Program, plan: Plan, log: Log, i: nat, k: nat): int
    requires PlanFor(p, plan) && Topological(p) && |log.levels| == |p.nodes| && IsRead(p, plan, i, k)
  {
    assert ParentsBefore(p.nodes, i);
    if (i, k) in log.over then plan.refreshed else Seen(p, plan, log, p.nodes[i].parents[k], i, k)
  }

  /** A read is over exactly when what it finds, plus the cost of the node, passes the ceiling. */
  ghost predicate ReadFits(p: Program, plan: Plan, log: Log, i: nat, k: nat)
    requires PlanFor(p, plan) && Topological(p) && |log.levels| == |p.nodes| && IsRead(p, plan, i, k)
  {
    assert ParentsBefore(p.nodes, i);
    (i, k) in log.over <==> Seen(p, plan, log, p.nodes[i].parents[k], i, k) + plan.cost[i] > plan.ceiling
  }

  /** level is the highest of the levels used, and no lower than that of a fresh ciphertext. */
  ghost predicate HighestUsed(p: Program, plan: Plan, log: Log, i: nat, count: nat, level: int)
    requires PlanFor(p, plan) && Topological(p) && |log.levels| == |p.nodes| && Consumes(p, plan, i)
    requires count <= |p.nodes[i].parents|
  {
    level >= -1 && (forall k: nat :: k < count ==> Used(p, plan, log, i, k) <= level) &&
    (level == -1 || exists k: nat :: k < count && Used(p, plan, log, i, k) == level)
  }

  /** What the log says of one live node: the level it computes, whether it is refreshed, and the level it leaves. */
  ghost predicate NodeLogged(p: Program, plan: Plan, log: Log, i: nat)
    requires PlanFor(p, plan) && Topological(p) && |log.levels| == |log.computed| == |p.nodes|
    requires i < |p.nodes| && plan.live[i]
  {
    (if p.nodes[i].operation == Feedback then log.computed[i] == -1
     else HighestUsed(p, plan, log, i, |p.nodes[i].parents|, log.computed[i] - plan.cost[i])) &&
    (i in log.after <==> plan.refreshAfter[i] && log.computed[i] > plan.refreshed) &&
    log.levels[i] == if i in log.after then plan.refreshed else log.computed[i]
  }

  // The log is right about the nodes below n and the first k reads of node n, and says nothing about the others; nodes
  // that are not live stay fresh.
  ghost predicate FitsTo(p: Program, plan: Plan, log: Log, n: nat, k: nat)
    requires PlanFor(p, plan) && Topological(p)
  {
    |log.levels| == |log.computed| == |p.nodes| &&
    (forall i: nat, m: nat :: (i, m) in log.over ==> Earlier(i, m, n, k) && IsRead(p, plan, i, m)) &&
    (forall i: nat :: i in log.after ==> i < n && i < |p.nodes| && plan.live[i]) &&
    (forall i: nat, m: nat :: Earlier(i, m, n, k) && IsRead(p, plan, i, m) ==> ReadFits(p, plan, log, i, m)) &&
    (forall i: nat :: i < n && i < |p.nodes| && plan.live[i] ==> NodeLogged(p, plan, log, i)) &&
    forall i: nat :: i < |p.nodes| && !(i < n && plan.live[i]) ==> log.levels[i] == log.computed[i] == -1
  }

  /** The log of the whole program. */
  ghost predicate LogFits(p: Program, plan: Plan, log: Log)
    requires PlanFor(p, plan) && Topological(p)
  {
    FitsTo(p, plan, log, |p.nodes|, 0)
  }

  // ---------- the simulation has a log ----------

  // The simulation after the nodes below n and k operands of node n.
  ghost predicate Follows(p: Program, plan: Plan, log: Log, s: Levels, n: nat, k: nat)
    requires PlanFor(p, plan) && Topological(p)
  {
    |log.levels| == |s.levels| == |s.produced| == |p.nodes| && s.refreshes == |log.over| + |log.after| &&
    (forall v: nat :: v < |p.nodes| ==> s.levels[v] == Seen(p, plan, log, v, n, k)) &&
    forall i: nat :: i < n && i < |p.nodes| && plan.live[i] ==> s.produced[i] == log.levels[i]
  }

  function WithRead(log: Log, i: nat, k: nat): Log { log.(over := log.over + {(i, k)}) }

  // Adding a read changes nothing that earlier reads find, and for later ones only its own operand.
  lemma AddedRead(p: Program, plan: Plan, log: Log, n: nat, k: nat, v: int, i: nat, m: nat)
    requires PlanFor(p, plan) && IsRead(p, plan, n, k) && 0 <= v < |log.levels|
    ensures !Earlier(n, k, i, m) ==>
              Seen(p, plan, WithRead(log, n, k), v, i, m) == Seen(p, plan, log, v, i, m)
    ensures Earlier(n, k, i, m) ==>
              Seen(p, plan, WithRead(log, n, k), v, i, m)
              == if v == p.nodes[n].parents[k] then plan.refreshed else Seen(p, plan, log, v, i, m)
  {
    var next := WithRead(log, n, k);
    forall j: nat, a: nat
      ensures Renews(p, next, j, a, v)
              <==> Renews(p, log, j, a, v) || (j == n && a == k && v == p.nodes[n].parents[k])
    {
    }
    if RefreshedBefore(p, log, v, i, m) {
      var j: nat, a: nat :| Renews(p, log, j, a, v) && Earlier(j, a, i, m);
      assert Renews(p, next, j, a, v);
    }
    if Earlier(n, k, i, m) && v == p.nodes[n].parents[k] { assert Renews(p, next, n, k, v); }
  }

  // Between (n, k) and (n, k + 1) only read (n, k) itself could have refreshed anything.
  lemma NextRead(p: Program, plan: Plan, log: Log, v: int, n: nat, k: nat)
    requires 0 <= v < |log.levels| && (n, k) !in log.over
    ensures Seen(p, plan, log, v, n, k + 1) == Seen(p, plan, log, v, n, k)
  {
    if RefreshedBefore(p, log, v, n, k) {
      var j: nat, m: nat :| Renews(p, log, j, m, v) && Earlier(j, m, n, k);
      assert Earlier(j, m, n, k + 1);
    }
  }

  lemma UsedKept(p: Program, plan: Plan, log: Log, n: nat, k: nat, i: nat, m: nat)
    requires PlanFor(p, plan) && Topological(p) && |log.levels| == |p.nodes|
    requires IsRead(p, plan, n, k) && IsRead(p, plan, i, m) && Earlier(i, m, n, k)
    ensures Used(p, plan, WithRead(log, n, k), i, m) == Used(p, plan, log, i, m)
    ensures ReadFits(p, plan, WithRead(log, n, k), i, m) <==> ReadFits(p, plan, log, i, m)
  {
    assert ParentsBefore(p.nodes, i);
    AddedRead(p, plan, log, n, k, p.nodes[i].parents[m], i, m);
    hide Seen;
  }

  lemma LoggedKept(p: Program, plan: Plan, log: Log, n: nat, k: nat, i: nat)
    requires PlanFor(p, plan) && Topological(p) && |log.levels| == |log.computed| == |p.nodes|
    requires IsRead(p, plan, n, k) && i < n && plan.live[i] && NodeLogged(p, plan, log, i)
    ensures NodeLogged(p, plan, WithRead(log, n, k), i)
  {
    hide Used;
    if Consumes(p, plan, i) {
      forall m: nat | m < |p.nodes[i].parents|
        ensures Used(p, plan, WithRead(log, n, k), i, m) == Used(p, plan, log, i, m)
      {
        UsedKept(p, plan, log, n, k, i, m);
      }
    }
  }

  // One read, in the simulation and in the log.
  lemma ReadStep(p: Program, plan: Plan, log: Log, s: Levels, n: nat, k: nat, level: int) returns (next: Log)
    requires PlanFor(p, plan) && Topological(p) && IsRead(p, plan, n, k) && ParentsBefore(p.nodes, n)
    requires FitsTo(p, plan, log, n, k) && Follows(p, plan, log, s, n, k) && HighestUsed(p, plan, log, n, k, level)
    ensures |next.levels| == |p.nodes| == |s.levels|
    ensures var v := p.nodes[n].parents[k];
            var over := s.levels[v] + plan.cost[n] > plan.ceiling;
            var levels := if over then s.levels[v := plan.refreshed] else s.levels;
            Follows(p, plan, next, Levels(levels, s.produced, s.refreshes + if over then 1 else 0), n, k + 1) &&
            HighestUsed(p, plan, next, n, k + 1, if levels[v] > level then levels[v] else level)
    ensures FitsTo(p, plan, next, n, k + 1)
  {
    var v := p.nodes[n].parents[k];
    assert (n, k) !in log.over;
    if s.levels[v] + plan.cost[n] > plan.ceiling {
      next := WithRead(log, n, k);
      OverFits(p, plan, log, n, k);
      OverFollows(p, plan, log, s, n, k);
      OverHighest(p, plan, log, n, k, level);
      hide *;
    } else {
      next := log;
      UnderFits(p, plan, log, n, k);
      UnderFollows(p, plan, log, s, n, k);
      UnderHighest(p, plan, log, n, k, level);
      hide *;
    }
  }

  lemma OverFits(p: Program, plan: Plan, log: Log, n: nat, k: nat)
    requires PlanFor(p, plan) && Topological(p) && IsRead(p, plan, n, k) && ParentsBefore(p.nodes, n)
    requires FitsTo(p, plan, log, n, k)
    requires Seen(p, plan, log, p.nodes[n].parents[k], n, k) + plan.cost[n] > plan.ceiling
    ensures FitsTo(p, plan, WithRead(log, n, k), n, k + 1)
  {
    var next := WithRead(log, n, k);
    AddedRead(p, plan, log, n, k, p.nodes[n].parents[k], n, k);
    hide Seen;
    hide Topological;
    forall i: nat, m: nat | Earlier(i, m, n, k + 1) && IsRead(p, plan, i, m)
      ensures ReadFits(p, plan, next, i, m)
    {
      if Earlier(i, m, n, k) {
        UsedKept(p, plan, log, n, k, i, m);
        hide ReadFits;
      }
    }
    hide ReadFits;
    hide NodeLogged;
    forall i: nat | i < n && i < |p.nodes| && plan.live[i] ensures NodeLogged(p, plan, next, i) {
      LoggedKept(p, plan, log, n, k, i);
    }
  }

  lemma OverFollows(p: Program, plan: Plan, log: Log, s: Levels, n: nat, k: nat)
    requires PlanFor(p, plan) && Topological(p) && IsRead(p, plan, n, k) && ParentsBefore(p.nodes, n)
    requires Follows(p, plan, log, s, n, k) && (n, k) !in log.over
    ensures Follows(p, plan, WithRead(log, n, k),
                    Levels(s.levels[p.nodes[n].parents[k] := plan.refreshed], s.produced, s.refreshes + 1), n, k + 1)
  {
    var next, levels := WithRead(log, n, k), s.levels[p.nodes[n].parents[k] := plan.refreshed];
    forall v: nat | v < |p.nodes| ensures levels[v] == Seen(p, plan, next, v, n, k + 1) {
      AddedRead(p, plan, log, n, k, v, n, k + 1);
      NextRead(p, plan, log, v, n, k);
      hide Seen;
    }
    hide Seen;
    assert next.levels == log.levels && next.after == log.after;
    assert |next.over| == |log.over| + 1;
    assert |next.levels| == |levels| == |s.produced| == |p.nodes|;
  }

  lemma OverHighest(p: Program, plan: Plan, log: Log, n: nat, k: nat, level: int)
    requires PlanFor(p, plan) && Topological(p) && |log.levels| == |p.nodes| && IsRead(p, plan, n, k)
    requires HighestUsed(p, plan, log, n, k, level)
    ensures HighestUsed(p, plan, WithRead(log, n, k), n, k + 1,
                        if plan.refreshed > level then plan.refreshed else level)
  {
    var next := WithRead(log, n, k);
    assert Used(p, plan, next, n, k) == plan.refreshed;
    hide Used;
    forall m: nat | m < k ensures Used(p, plan, next, n, m) == Used(p, plan, log, n, m) {
      UsedKept(p, plan, log, n, k, n, m);
    }
  }

  lemma UnderFits(p: Program, plan: Plan, log: Log, n: nat, k: nat)
    requires PlanFor(p, plan) && Topological(p) && IsRead(p, plan, n, k) && ParentsBefore(p.nodes, n)
    requires FitsTo(p, plan, log, n, k) && (n, k) !in log.over
    requires Seen(p, plan, log, p.nodes[n].parents[k], n, k) + plan.cost[n] <= plan.ceiling
    ensures FitsTo(p, plan, log, n, k + 1)
  {
    hide Seen;
    hide Topological;
    assert ReadFits(p, plan, log, n, k);
    hide ReadFits;
    hide NodeLogged;
    forall i: nat, m: nat | Earlier(i, m, n, k + 1) && IsRead(p, plan, i, m) ensures ReadFits(p, plan, log, i, m) {
      if (i, m) != (n, k) { assert Earlier(i, m, n, k); }
    }
  }

  lemma UnderFollows(p: Program, plan: Plan, log: Log, s: Levels, n: nat, k: nat)
    requires PlanFor(p, plan) && Topological(p) && IsRead(p, plan, n, k)
    requires Follows(p, plan, log, s, n, k) && (n, k) !in log.over
    ensures Follows(p, plan, log, Levels(s.levels, s.produced, s.refreshes), n, k + 1)
  {
    forall v: nat | v < |p.nodes| ensures Seen(p, plan, log, v, n, k + 1) == s.levels[v] {
      NextRead(p, plan, log, v, n, k);
      hide Seen;
    }
    hide Seen;
  }

  lemma UnderHighest(p: Program, plan: Plan, log: Log, n: nat, k: nat, level: int)
    requires PlanFor(p, plan) && Topological(p) && |log.levels| == |p.nodes| && IsRead(p, plan, n, k)
    requires HighestUsed(p, plan, log, n, k, level) && (n, k) !in log.over && ParentsBefore(p.nodes, n)
    ensures var used := Seen(p, plan, log, p.nodes[n].parents[k], n, k);
            HighestUsed(p, plan, log, n, k + 1, if used > level then used else level)
  {
    assert Used(p, plan, log, n, k) == Seen(p, plan, log, p.nodes[n].parents[k], n, k);
    hide Used;
    hide Seen;
  }

  lemma OperandsNext(s: Levels, parents: seq<int>, k: nat, cost: int, ceiling: int, refreshed: int, before: Levels,
                     level: int)
    requires k < |parents| && forall j :: 0 <= j < |parents| ==> 0 <= parents[j] < |s.levels|
    requires (before, level) == ReadOperands(s, parents, k, cost, ceiling, refreshed)
    ensures |before.levels| == |s.levels|
    ensures var over := before.levels[parents[k]] + cost > ceiling;
            var levels := if over then before.levels[parents[k] := refreshed] else before.levels;
            ReadOperands(s, parents, k + 1, cost, ceiling, refreshed)
            == (Levels(levels, before.produced, before.refreshes + if over then 1 else 0),
                if levels[parents[k]] > level then levels[parents[k]] else level)
  {
  }

  lemma NoReadsYet(p: Program, plan: Plan, log: Log, s: Levels, n: nat)
    requires PlanFor(p, plan) && Topological(p) && Consumes(p, plan, n) && ParentsBefore(p.nodes, n)
    requires Follows(p, plan, log, s, n, 0)
    ensures |log.levels| == |p.nodes| == |s.levels|
    ensures ReadOperands(s, p.nodes[n].parents, 0, plan.cost[n], plan.ceiling, plan.refreshed) == (s, -1)
    ensures HighestUsed(p, plan, log, n, 0, -1)
  {
    hide Seen;
  }

  // All reads of one node.
  lemma {:induction false} AllReads(p: Program, plan: Plan, log: Log, s: Levels, n: nat, k: nat) returns (next: Log)
    requires PlanFor(p, plan) && Topological(p) && Consumes(p, plan, n) && ParentsBefore(p.nodes, n)
    requires |s.levels| == |p.nodes|
    requires k <= |p.nodes[n].parents| && FitsTo(p, plan, log, n, 0) && Follows(p, plan, log, s, n, 0)
    ensures |next.levels| == |p.nodes|
    ensures var (read, level) := ReadOperands(s, p.nodes[n].parents, k, plan.cost[n], plan.ceiling, plan.refreshed);
            Follows(p, plan, next, read, n, k) && HighestUsed(p, plan, next, n, k, level)
    ensures FitsTo(p, plan, next, n, k)
    decreases k
  {
    hide ReadOperands;
    hide Follows;
    hide FitsTo;
    hide HighestUsed;
    hide Topological;
    if k == 0 {
      next := log;
      NoReadsYet(p, plan, log, s, n);
    } else {
      var prior := AllReads(p, plan, log, s, n, k - 1);
      var (before, level) := ReadOperands(s, p.nodes[n].parents, k - 1, plan.cost[n], plan.ceiling, plan.refreshed);
      OperandsNext(s, p.nodes[n].parents, k - 1, plan.cost[n], plan.ceiling, plan.refreshed, before, level);
      next := ReadStep(p, plan, prior, before, n, k - 1, level);
    }
  }

  // Setting the level of node n changes nothing that reads of other nodes find.
  ghost predicate SameReads(log: Log, next: Log, n: nat)
  {
    next.over == log.over && |next.levels| == |log.levels| && |next.computed| == |log.computed| &&
    forall v: nat :: v < |log.levels| && v != n ==> next.levels[v] == log.levels[v]
  }

  lemma SeenKept(p: Program, plan: Plan, log: Log, next: Log, n: nat, v: nat, i: nat, m: nat)
    requires SameReads(log, next, n) && v < |log.levels| && v != n
    ensures Seen(p, plan, next, v, i, m) == Seen(p, plan, log, v, i, m)
  {
    assert forall j: nat, a: nat :: Renews(p, next, j, a, v) <==> Renews(p, log, j, a, v);
  }

  lemma UsedSet(p: Program, plan: Plan, log: Log, next: Log, n: nat, i: nat, m: nat)
    requires PlanFor(p, plan) && Topological(p) && |log.levels| == |p.nodes| && SameReads(log, next, n)
    requires IsRead(p, plan, i, m) && i <= n
    ensures Used(p, plan, next, i, m) == Used(p, plan, log, i, m)
    ensures ReadFits(p, plan, next, i, m) <==> ReadFits(p, plan, log, i, m)
  {
    assert ParentsBefore(p.nodes, i);
    SeenKept(p, plan, log, next, n, p.nodes[i].parents[m], i, m);
    hide Seen;
  }

  lemma HighestSet(p: Program, plan: Plan, log: Log, next: Log, n: nat, i: nat, count: nat, level: int)
    requires PlanFor(p, plan) && Topological(p) && |log.levels| == |p.nodes| && SameReads(log, next, n)
    requires Consumes(p, plan, i) && i <= n && count <= |p.nodes[i].parents|
    requires HighestUsed(p, plan, log, i, count, level)
    ensures HighestUsed(p, plan, next, i, count, level)
  {
    hide Used;
    forall m: nat | m < count ensures Used(p, plan, next, i, m) == Used(p, plan, log, i, m) {
      UsedSet(p, plan, log, next, n, i, m);
    }
  }

  function ReadCount(p: Program, plan: Plan, n: nat): nat
    requires PlanFor(p, plan)
  {
    if Consumes(p, plan, n) then |p.nodes[n].parents| else 0
  }

  // After all reads of node n the next node starts with the same levels.
  lemma SeenAfter(p: Program, plan: Plan, log: Log, n: nat, v: nat)
    requires PlanFor(p, plan) && Topological(p) && n < |p.nodes| && v < |p.nodes|
    requires FitsTo(p, plan, log, n, ReadCount(p, plan, n))
    ensures Seen(p, plan, log, v, n + 1, 0) == Seen(p, plan, log, v, n, ReadCount(p, plan, n))
    ensures v == n ==> !RefreshedBefore(p, log, v, n + 1, 0)
  {
    var k := ReadCount(p, plan, n);
    if RefreshedBefore(p, log, v, n, k) {
      var j: nat, m: nat :| Renews(p, log, j, m, v) && Earlier(j, m, n, k);
      assert Earlier(j, m, n + 1, 0);
    }
    if RefreshedBefore(p, log, v, n + 1, 0) {
      var j: nat, m: nat :| Renews(p, log, j, m, v) && Earlier(j, m, n + 1, 0);
      assert (j, m) in log.over && Earlier(j, m, n, k);
      assert ParentsBefore(p.nodes, j);
    }
  }

  function Finished(log: Log, n: nat, refresh: bool, computed: int, level: int): (next: Log)
    requires n < |log.levels| == |log.computed|
  {
    Log(log.over, if refresh then log.after + {n} else log.after, log.computed[n := computed], log.levels[n := level])
  }

  // One live node is finished, in the simulation and in the log.
  lemma FinishedFits(p: Program, plan: Plan, log: Log, n: nat, computed: int, refresh: bool, level: int)
    requires PlanFor(p, plan) && Topological(p) && n < |p.nodes| && plan.live[n]
    requires FitsTo(p, plan, log, n, ReadCount(p, plan, n))
    requires if p.nodes[n].operation == Feedback then computed == -1
             else HighestUsed(p, plan, log, n, |p.nodes[n].parents|, computed - plan.cost[n])
    requires refresh <==> plan.refreshAfter[n] && computed > plan.refreshed
    requires level == if refresh then plan.refreshed else computed
    ensures FitsTo(p, plan, Finished(log, n, refresh, computed, level), n + 1, 0)
  {
    var next := Finished(log, n, refresh, computed, level);
    assert SameReads(log, next, n);
    hide HighestUsed;
    hide Topological;
    forall i: nat, m: nat | Earlier(i, m, n + 1, 0) && IsRead(p, plan, i, m)
      ensures ReadFits(p, plan, next, i, m)
    {
      assert Earlier(i, m, n, ReadCount(p, plan, n));
      UsedSet(p, plan, log, next, n, i, m);
      hide ReadFits;
    }
    forall i: nat | i < n + 1 && i < |p.nodes| && plan.live[i] ensures NodeLogged(p, plan, next, i) {
      if i < n { assert NodeLogged(p, plan, log, i); }
      if p.nodes[i].operation != Feedback {
        HighestSet(p, plan, log, next, n, i, |p.nodes[i].parents|, next.computed[i] - plan.cost[i]);
      }
      hide ReadFits;
    }
    hide ReadFits;
    hide NodeLogged;
  }

  lemma FinishedFollows(p: Program, plan: Plan, log: Log, s: Levels, n: nat, computed: int, refresh: bool, level: int)
    requires PlanFor(p, plan) && Topological(p) && n < |p.nodes| && plan.live[n]
    requires FitsTo(p, plan, log, n, ReadCount(p, plan, n)) && Follows(p, plan, log, s, n, ReadCount(p, plan, n))
    ensures |s.levels| == |s.produced| == |p.nodes|
    ensures Follows(p, plan, Finished(log, n, refresh, computed, level),
                    Levels(s.levels[n := level], s.produced[n := level], s.refreshes + if refresh then 1 else 0),
                    n + 1, 0)
  {
    var next, levels := Finished(log, n, refresh, computed, level), s.levels[n := level];
    assert n !in log.after;
    assert SameReads(log, next, n);
    forall v: nat | v < |p.nodes| ensures levels[v] == Seen(p, plan, next, v, n + 1, 0) {
      SeenAfter(p, plan, log, n, v);
      if v == n {
        assert forall j: nat, a: nat :: Renews(p, next, j, a, v) <==> Renews(p, log, j, a, v);
      } else {
        SeenKept(p, plan, log, next, n, v, n + 1, 0);
        hide Seen;
      }
    }
    hide Seen;
    assert |next.after| == |log.after| + if refresh then 1 else 0;
  }

  lemma DeadNode(p: Program, plan: Plan, log: Log, s: Levels, n: nat)
    requires PlanFor(p, plan) && Topological(p) && n < |p.nodes| && !plan.live[n]
    requires FitsTo(p, plan, log, n, 0) && Follows(p, plan, log, s, n, 0)
    ensures FitsTo(p, plan, log, n + 1, 0) && Follows(p, plan, log, s, n + 1, 0)
  {
    forall v: nat | v < |p.nodes| ensures Seen(p, plan, log, v, n + 1, 0) == Seen(p, plan, log, v, n, 0) {
      SeenAfter(p, plan, log, n, v);
    }
    hide Seen;
    hide ReadFits;
    hide NodeLogged;
  }

  // What the simulation does with a live node, with its reads named.
  lemma NodeParts(p: Program, plan: Plan, s: Levels, n: nat) returns (read: Levels, computed: int)
    requires n < |p.nodes| == |s.levels| == |s.produced|
    requires PlanFor(p, plan) && plan.live[n] && ParentsBefore(p.nodes, n)
    ensures |read.levels| == |read.produced| == |p.nodes|
    ensures p.nodes[n].operation == Feedback ==> read == s && computed == -1
    ensures p.nodes[n].operation != Feedback ==>
              (read, computed - plan.cost[n])
              == ReadOperands(s, p.nodes[n].parents, |p.nodes[n].parents|, plan.cost[n], plan.ceiling, plan.refreshed)
    ensures var refresh := plan.refreshAfter[n] && computed > plan.refreshed;
            var level := if refresh then plan.refreshed else computed;
            SimulateNode(p, plan, s, n) == Levels(read.levels[n := level], read.produced[n := level],
                                                  read.refreshes + if refresh then 1 else 0)
  {
    read, computed := NodeRead(p, plan, s, n).0, Computed(p, plan, s, n);
    hide ReadOperands;
  }

  lemma LiveNode(p: Program, plan: Plan, log: Log, s: Levels, n: nat) returns (next: Log)
    requires PlanFor(p, plan) && Topological(p) && n < |p.nodes| && plan.live[n] && ParentsBefore(p.nodes, n)
    requires FitsTo(p, plan, log, n, 0) && Follows(p, plan, log, s, n, 0)
    ensures |s.levels| == |s.produced| == |p.nodes|
    ensures FitsTo(p, plan, next, n + 1, 0) && Follows(p, plan, next, SimulateNode(p, plan, s, n), n + 1, 0)
  {
    hide ReadOperands;
    hide FitsTo;
    hide Follows;
    hide HighestUsed;
    hide Topological;
    hide SimulateNode;
    FollowsLength(p, plan, log, s, n, 0);
    var read, computed := NodeParts(p, plan, s, n);
    var refresh := plan.refreshAfter[n] && computed > plan.refreshed;
    var level := if refresh then plan.refreshed else computed;
    var full := log;
    if p.nodes[n].operation != Feedback { full := AllReads(p, plan, log, s, n, |p.nodes[n].parents|); }
    FitsLength(p, plan, full, n, ReadCount(p, plan, n));
    FinishedFits(p, plan, full, n, computed, refresh, level);
    FinishedFollows(p, plan, full, read, n, computed, refresh, level);
    next := Finished(full, n, refresh, computed, level);
  }

  lemma FollowsLength(p: Program, plan: Plan, log: Log, s: Levels, n: nat, k: nat)
    requires PlanFor(p, plan) && Topological(p) && Follows(p, plan, log, s, n, k)
    ensures |s.levels| == |s.produced| == |p.nodes|
  {
  }

  lemma FitsLength(p: Program, plan: Plan, log: Log, n: nat, k: nat)
    requires PlanFor(p, plan) && Topological(p) && FitsTo(p, plan, log, n, k)
    ensures |log.levels| == |log.computed| == |p.nodes|
  {
  }

  lemma EmptyLog(p: Program, plan: Plan, produced: seq<int>) returns (log: Log)
    requires PlanFor(p, plan) && Topological(p) && |produced| == |p.nodes|
    ensures FitsTo(p, plan, log, 0, 0)
    ensures Follows(p, plan, log, Levels(seq(|p.nodes|, _ => -1), produced, 0), 0, 0)
  {
    log := Log({}, {}, seq(|p.nodes|, _ => -1), seq(|p.nodes|, _ => -1));
    assert forall v: nat :: !RefreshedBefore(p, log, v, 0, 0);
    hide RefreshedBefore;
    hide ReadFits;
    hide NodeLogged;
  }

  lemma SimulatedNext(p: Program, plan: Plan, produced: seq<int>, n: nat)
    requires PlanFor(p, plan) && Topological(p) && n < |p.nodes| == |produced|
    ensures ParentsBefore(p.nodes, n)
    ensures Simulated(p, plan, produced, n + 1) == SimulateNode(p, plan, Simulated(p, plan, produced, n), n)
    ensures !plan.live[n] ==> Simulated(p, plan, produced, n + 1) == Simulated(p, plan, produced, n)
  {
    hide ReadOperands;
  }

  /** Every simulation has a log. */
  lemma {:induction false} LogTo(p: Program, plan: Plan, produced: seq<int>, n: nat) returns (log: Log)
    requires PlanFor(p, plan) && Topological(p) && n <= |p.nodes| == |produced|
    ensures FitsTo(p, plan, log, n, 0) && Follows(p, plan, log, Simulated(p, plan, produced, n), n, 0)
    decreases n
  {
    hide FitsTo;
    hide Follows;
    hide Topological;
    hide SimulateNode;
    if n == 0 {
      log := EmptyLog(p, plan, produced);
    } else {
      var before := LogTo(p, plan, produced, n - 1);
      SimulatedNext(p, plan, produced, n - 1);
      hide Simulated;
      if plan.live[n - 1] {
        log := LiveNode(p, plan, before, Simulated(p, plan, produced, n - 1), n - 1);
      } else {
        DeadNode(p, plan, before, Simulated(p, plan, produced, n - 1), n - 1);
        log := before;
      }
    }
  }

  // ---------- the log is unique ----------

  // Two logs say the same about the nodes below n and the first k reads of node n.
  ghost predicate Agree(a: Log, b: Log, n: nat, k: nat)
  {
    |a.levels| == |a.computed| == |b.levels| == |b.computed| &&
    (forall i: nat, m: nat :: Earlier(i, m, n, k) ==> ((i, m) in a.over <==> (i, m) in b.over)) &&
    forall i: nat :: i < n && i < |a.levels| ==>
                       a.levels[i] == b.levels[i] && a.computed[i] == b.computed[i] && (i in a.after <==> i in b.after)
  }

  lemma SeenAgrees(p: Program, plan: Plan, a: Log, b: Log, v: nat, n: nat, k: nat)
    requires Agree(a, b, n, k) && v < n && v < |a.levels|
    ensures Seen(p, plan, a, v, n, k) == Seen(p, plan, b, v, n, k)
  {
    if RefreshedBefore(p, a, v, n, k) {
      var j: nat, m: nat :| Renews(p, a, j, m, v) && Earlier(j, m, n, k);
      assert Renews(p, b, j, m, v);
    }
    if RefreshedBefore(p, b, v, n, k) {
      var j: nat, m: nat :| Renews(p, b, j, m, v) && Earlier(j, m, n, k);
      assert Renews(p, a, j, m, v);
    }
  }

  // Agreement up to a later read holds for earlier ones.
  lemma AgreeEarlier(a: Log, b: Log, n: nat, k: nat, m: nat)
    requires Agree(a, b, n, k) && m <= k
    ensures Agree(a, b, n, m)
  {
    assert forall i: nat, c: nat :: Earlier(i, c, n, m) ==> Earlier(i, c, n, k);
  }

  lemma ReadAgrees(p: Program, plan: Plan, a: Log, b: Log, n: nat, k: nat)
    requires PlanFor(p, plan) && Topological(p) && IsRead(p, plan, n, k) && Agree(a, b, n, k)
    requires |a.levels| == |p.nodes| && ReadFits(p, plan, a, n, k) && ReadFits(p, plan, b, n, k)
    ensures Agree(a, b, n, k + 1) && Used(p, plan, a, n, k) == Used(p, plan, b, n, k)
  {
    assert ParentsBefore(p.nodes, n);
    SeenAgrees(p, plan, a, b, p.nodes[n].parents[k], n, k);
    hide Seen;
    forall i: nat, m: nat | Earlier(i, m, n, k + 1) ensures (i, m) in a.over <==> (i, m) in b.over {
      if (i, m) != (n, k) { assert Earlier(i, m, n, k); }
    }
  }

  lemma {:induction false} ReadsAgree(p: Program, plan: Plan, a: Log, b: Log, n: nat, k: nat)
    requires PlanFor(p, plan) && Topological(p) && Consumes(p, plan, n) && k <= |p.nodes[n].parents|
    requires LogFits(p, plan, a) && LogFits(p, plan, b) && Agree(a, b, n, 0)
    ensures Agree(a, b, n, k) && |a.levels| == |b.levels| == |p.nodes|
    ensures forall m: nat :: m < k ==> Used(p, plan, a, n, m) == Used(p, plan, b, n, m)
    decreases k
  {
    hide Used;
    if k > 0 {
      ReadsAgree(p, plan, a, b, n, k - 1);
      ReadOf(p, plan, a, n, k - 1);
      ReadOf(p, plan, b, n, k - 1);
      hide LogFits;
      hide Agree;
      hide ReadFits;
      ReadAgrees(p, plan, a, b, n, k - 1);
    } else {
      hide Agree;
      hide ReadFits;
    }
  }

  lemma ReadOf(p: Program, plan: Plan, log: Log, i: nat, m: nat)
    requires PlanFor(p, plan) && Topological(p) && LogFits(p, plan, log) && IsRead(p, plan, i, m)
    ensures |log.levels| == |p.nodes| && ReadFits(p, plan, log, i, m)
  {
    assert Earlier(i, m, |p.nodes|, 0);
    hide ReadFits;
    hide NodeLogged;
  }

  lemma NodeOf(p: Program, plan: Plan, log: Log, i: nat)
    requires PlanFor(p, plan) && Topological(p) && LogFits(p, plan, log) && i < |p.nodes|
    ensures |log.levels| == |log.computed| == |p.nodes|
    ensures if plan.live[i] then NodeLogged(p, plan, log, i)
            else log.levels[i] == log.computed[i] == -1 && i !in log.after
  {
    hide ReadFits;
    hide NodeLogged;
  }

  lemma HighestAgrees(p: Program, plan: Plan, a: Log, b: Log, n: nat, count: nat, x: int, y: int)
    requires PlanFor(p, plan) && Topological(p) && |a.levels| == |b.levels| == |p.nodes| && Consumes(p, plan, n)
    requires count <= |p.nodes[n].parents|
    requires forall m: nat :: m < count ==> Used(p, plan, a, n, m) == Used(p, plan, b, n, m)
    requires HighestUsed(p, plan, a, n, count, x) && HighestUsed(p, plan, b, n, count, y)
    ensures x == y
  {
    hide Used;
  }

  // Reads of a node that consumes nothing are in no log.
  lemma NoReads(p: Program, plan: Plan, log: Log, n: nat)
    requires PlanFor(p, plan) && Topological(p) && LogFits(p, plan, log) && n < |p.nodes|
    ensures forall m: nat :: m >= ReadCount(p, plan, n) ==> (n, m) !in log.over
  {
    hide ReadFits;
    hide NodeLogged;
  }

  lemma NodeAgrees(p: Program, plan: Plan, a: Log, b: Log, n: nat)
    requires PlanFor(p, plan) && Topological(p) && n < |p.nodes|
    requires LogFits(p, plan, a) && LogFits(p, plan, b) && Agree(a, b, n, 0)
    ensures Agree(a, b, n + 1, 0)
  {
    NodeOf(p, plan, a, n);
    NodeOf(p, plan, b, n);
    NoReads(p, plan, a, n);
    NoReads(p, plan, b, n);
    if Consumes(p, plan, n) {
      var count := |p.nodes[n].parents|;
      ReadsAgree(p, plan, a, b, n, count);
      hide LogFits;
      hide Used;
      hide HighestUsed;
      HighestAgrees(p, plan, a, b, n, count, a.computed[n] - plan.cost[n], b.computed[n] - plan.cost[n]);
    }
    hide LogFits;
    hide Used;
    hide HighestUsed;
    var k := ReadCount(p, plan, n);
    assert Agree(a, b, n, k);
    forall i: nat, m: nat | Earlier(i, m, n + 1, 0) ensures (i, m) in a.over <==> (i, m) in b.over {
      if i < n || m < k { assert Earlier(i, m, n, k); }
    }
  }

  lemma {:induction false} LogsAgree(p: Program, plan: Plan, a: Log, b: Log, n: nat)
    requires PlanFor(p, plan) && Topological(p) && n <= |p.nodes| && LogFits(p, plan, a) && LogFits(p, plan, b)
    ensures Agree(a, b, n, 0)
    decreases n
  {
    if n > 0 {
      hide LogFits;
      hide Agree;
      LogsAgree(p, plan, a, b, n - 1);
      NodeAgrees(p, plan, a, b, n - 1);
    } else {
      hide ReadFits;
      hide NodeLogged;
    }
  }

  lemma WholeAgrees(p: Program, plan: Plan, a: Log, b: Log)
    requires PlanFor(p, plan) && Topological(p) && LogFits(p, plan, a) && LogFits(p, plan, b)
    requires Agree(a, b, |p.nodes|, 0)
    ensures a == b
  {
    hide ReadFits;
    hide NodeLogged;
    hide Topological;
    forall e: (nat, nat) ensures e in a.over <==> e in b.over {
      var (i, m) := e;
      if e in a.over { assert (i, m) in a.over; }
      if e in b.over { assert (i, m) in b.over; }
    }
    assert a.over == b.over;
    assert a.after == b.after;
    assert a.levels == b.levels && a.computed == b.computed;
  }

  /** A program and a plan have exactly one log. */
  lemma LogUnique(p: Program, plan: Plan, a: Log, b: Log)
    requires PlanFor(p, plan) && Topological(p) && LogFits(p, plan, a) && LogFits(p, plan, b)
    ensures a == b
  {
    hide *;
    LogsAgree(p, plan, a, b, |p.nodes|);
    WholeAgrees(p, plan, a, b);
  }

  /**
   The refreshes of a simulation are the reads that are over plus the nodes that are refreshed, in the one log of the
   program and the plan; and the recorded levels of live nodes are the logged ones.
   */
  lemma RefreshTotal(p: Program, plan: Plan, produced: seq<int>) returns (log: Log)
    requires PlanFor(p, plan) && Topological(p) && |produced| == |p.nodes|
    ensures LogFits(p, plan, log) && forall other: Log :: LogFits(p, plan, other) ==> other == log
    ensures var s := Simulated(p, plan, produced, |p.nodes|);
            s.refreshes == |log.over| + |log.after| && |log.levels| == |p.nodes| &&
            forall i: nat :: i < |p.nodes| && plan.live[i] ==> s.produced[i] == log.levels[i]
  {
    log := LogTo(p, plan, produced, |p.nodes|);
    hide Simulated;
    hide FitsTo;
    hide Topological;
    hide Seen;
    forall other: Log | LogFits(p, plan, other) ensures other == log { LogUnique(p, plan, other, log); }
  }
}
