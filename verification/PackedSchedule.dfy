/**
 PackedReadySchedule (native/fideslib_stage0/include/packed_schedule.hpp:8-68): a ready frontier with feedback epochs
 as barriers and exact operand-edge counts in every reachable state.
 */
module PackedSchedule {
  import opened KeySums
  import opened PackedLifetime
  import opened PackedProgram

  // ---------- what the counters stand for ----------

  /** Operand positions whose producer has not run. A dead producer never runs. */
  function Waiting(parents: seq<int>, live: seq<bool>, done: seq<bool>): nat
  {
    if parents == [] then 0
    else Waiting(parents[..|parents| - 1], live, done) + if Ran(live, done, parents[|parents| - 1]) then 0 else 1
  }

  predicate Ran(live: seq<bool>, done: seq<bool>, i: int)
  {
    0 <= i < |done| && i < |live| && live[i] && done[i]
  }

  /** Operand edges from unfinished nodes to v. */
  function Uses(nodes: seq<Node>, done: seq<bool>, v: int, n: nat): nat
    requires n <= |nodes| == |done|
  {
    if n == 0 then 0 else Uses(nodes, done, v, n - 1) + if done[n - 1] then 0 else CountOf(nodes[n - 1].parents, v)
  }

  /** Feedback nodes up to and including i. */
  function Epoch(nodes: seq<Node>, i: nat): nat
    requires i < |nodes|
  {
    (if i == 0 then 0 else Epoch(nodes, i - 1)) + if nodes[i].operation == Feedback then 1 else 0
  }

  function Unfinished(done: seq<bool>, n: nat): nat
    requires n <= |done|
  {
    if n == 0 then 0 else Unfinished(done, n - 1) + if done[n - 1] then 0 else 1
  }

  function UnfinishedIn(done: seq<bool>, epoch: seq<int>, e: int, n: nat): nat
    requires n <= |done| && n <= |epoch|
  {
    if n == 0 then 0
    else UnfinishedIn(done, epoch, e, n - 1) + if !done[n - 1] && epoch[n - 1] == e then 1 else 0
  }

  lemma {:induction false} WaitingAfter(parents: seq<int>, live: seq<bool>, done: seq<bool>, i: nat)
    requires i < |done| == |live| && live[i] && !done[i]
    ensures Waiting(parents, live, done[i := true]) == Waiting(parents, live, done) - CountOf(parents, i)
  {
    if parents != [] { WaitingAfter(parents[..|parents| - 1], live, done, i); }
  }

  lemma {:induction false} WaitingZero(parents: seq<int>, live: seq<bool>, done: seq<bool>)
    ensures Waiting(parents, live, done) == 0 <==> forall k :: 0 <= k < |parents| ==> Ran(live, done, parents[k])
  {
    if parents != [] {
      var front := parents[..|parents| - 1];
      WaitingZero(front, live, done);
      assert forall k :: 0 <= k < |front| ==> front[k] == parents[k];
    }
  }

  lemma {:induction false} UsesAfter(nodes: seq<Node>, done: seq<bool>, i: nat, v: int, n: nat)
    requires n <= |nodes| == |done| && i < |done| && !done[i]
    ensures Uses(nodes, done[i := true], v, n)
            == Uses(nodes, done, v, n) - if i < n then CountOf(nodes[i].parents, v) else 0
    decreases n
  {
    if n > 0 { UsesAfter(nodes, done, i, v, n - 1); }
  }

  lemma {:induction false} UsesZero(nodes: seq<Node>, done: seq<bool>, v: int, n: nat)
    requires n <= |nodes| == |done|
    ensures Uses(nodes, done, v, n) == 0 <==> forall j: nat :: j < n && !done[j] ==> v !in nodes[j].parents
    decreases n
  {
    if n > 0 {
      UsesZero(nodes, done, v, n - 1);
      CountPositive(nodes[n - 1].parents, v);
    }
  }

  lemma {:induction false} UnfinishedAfter(done: seq<bool>, i: nat, n: nat)
    requires n <= |done| && i < |done| && !done[i]
    ensures Unfinished(done[i := true], n) == Unfinished(done, n) - if i < n then 1 else 0
    decreases n
  {
    if n > 0 { UnfinishedAfter(done, i, n - 1); }
  }

  lemma {:induction false} UnfinishedZero(done: seq<bool>, n: nat)
    requires n <= |done|
    ensures Unfinished(done, n) == 0 <==> forall j: nat :: j < n ==> done[j]
    decreases n
  {
    if n > 0 { UnfinishedZero(done, n - 1); }
  }

  lemma {:induction false} UnfinishedInAfter(done: seq<bool>, epoch: seq<int>, i: nat, e: int, n: nat)
    requires n <= |done| == |epoch| && i < |done| && !done[i]
    ensures UnfinishedIn(done[i := true], epoch, e, n)
            == UnfinishedIn(done, epoch, e, n) - if i < n && epoch[i] == e then 1 else 0
    decreases n
  {
    if n > 0 { UnfinishedInAfter(done, epoch, i, e, n - 1); }
  }

  lemma {:induction false} UnfinishedInPrefix(done: seq<bool>, epoch: seq<int>, more: seq<int>, e: int, n: nat)
    requires n <= |done| && n <= |epoch|
    ensures UnfinishedIn(done, epoch + more, e, n) == UnfinishedIn(done, epoch, e, n)
    decreases n
  {
    if n > 0 { UnfinishedInPrefix(done, epoch, more, e, n - 1); }
  }

  lemma {:induction false} UnfinishedInZero(done: seq<bool>, epoch: seq<int>, e: int, n: nat)
    requires n <= |done| && n <= |epoch|
    ensures UnfinishedIn(done, epoch, e, n) == 0 <==> forall j: nat :: j < n && epoch[j] == e ==> done[j]
    decreases n
  {
    if n > 0 { UnfinishedInZero(done, epoch, e, n - 1); }
  }

  lemma {:induction false} EpochGrows(nodes: seq<Node>, i: nat, j: nat)
    requires i <= j < |nodes|
    ensures Epoch(nodes, i) <= Epoch(nodes, j)
    decreases j
  {
    if i < j { EpochGrows(nodes, i, j - 1); }
  }

  // ---------- the invariant, piece by piece ----------

  ghost predicate PendingExact(p: Program, live: seq<bool>, done: seq<bool>, pending: seq<int>)
  {
    |pending| == |done| == |live| == |p.nodes| &&
    forall i: nat :: i < |pending| ==>
                       pending[i] == if live[i] then Waiting(p.nodes[i].parents, live, done) else 0
  }

  ghost predicate UsesExact(p: Program, done: seq<bool>, uses: seq<int>)
  {
    |uses| == |done| == |p.nodes| &&
    forall v: nat :: v < |uses| ==> uses[v] == Uses(p.nodes, done, v, |p.nodes|)
  }

  ghost predicate EpochsExact(p: Program, done: seq<bool>, epoch: seq<int>, epochRemaining: seq<int>, remaining: int)
  {
    |epoch| == |done| == |p.nodes| && remaining == Unfinished(done, |done|) &&
    (forall i: nat :: i < |epoch| ==> epoch[i] == Epoch(p.nodes, i) && epoch[i] < |epochRemaining|) &&
    forall e: nat :: e < |epochRemaining| ==> epochRemaining[e] == UnfinishedIn(done, epoch, e, |done|)
  }

  predicate IsReady(done: seq<bool>, epoch: seq<int>, pending: seq<int>, active: int, i: int)
  {
    0 <= i < |done| && i < |epoch| && i < |pending| && !done[i] && epoch[i] == active && pending[i] == 0
  }

  ghost predicate FrontierExact(done: seq<bool>, epoch: seq<int>, pending: seq<int>, active: int, ready: set<int>)
  {
    forall i :: i in ready <==> IsReady(done, epoch, pending, active, i)
  }

  /** Every unfinished node is in the active epoch or later, and the active epoch is unfinished while any node is. */
  ghost predicate BarrierHolds(done: seq<bool>, epoch: seq<int>, active: int)
    requires |done| == |epoch|
  {
    active >= 0 && (forall i: nat :: i < |done| && !done[i] ==> epoch[i] >= active) &&
    ((exists i: nat :: i < |done| && !done[i]) ==> exists i: nat :: i < |done| && !done[i] && epoch[i] == active)
  }

  /** The nodes completed so far, in order: live, distinct, after their operands, epochs never decreasing. */
  ghost predicate HistoryHolds(p: Program, live: seq<bool>, done: seq<bool>, epoch: seq<int>, active: int,
                               order: seq<int>)
    requires |epoch| == |p.nodes|
  {
    (forall i: int :: i in order <==> Ran(live, done, i)) &&
    (forall j, k :: 0 <= j < k < |order| ==> order[j] != order[k]) &&
    (forall k :: 0 <= k < |order| ==> AfterOperands(p, order, k)) &&
    EpochsOrdered(epoch, active, order)
  }

  ghost predicate AfterOperands(p: Program, order: seq<int>, k: nat)
    requires k < |order|
  {
    0 <= order[k] < |p.nodes| && forall v :: v in p.nodes[order[k]].parents ==> v in order[..k]
  }

  ghost predicate EpochsOrdered(epoch: seq<int>, active: int, order: seq<int>)
  {
    (forall k :: 0 <= k < |order| ==> 0 <= order[k] < |epoch| && epoch[order[k]] <= active) &&
    forall j, k :: 0 <= j < k < |order| ==> epoch[order[j]] <= epoch[order[k]]
  }

  /** Every operand of a live node is live. */
  predicate ParentClosed(p: Program, live: seq<bool>)
  {
    |live| == |p.nodes| &&
    forall i: nat :: i < |p.nodes| && live[i] ==>
      forall k :: 0 <= k < |p.nodes[i].parents| ==> LiveParent(p, live, i, k)
  }

  predicate LiveParent(p: Program, live: seq<bool>, i: nat, k: nat)
    requires i < |p.nodes| && k < |p.nodes[i].parents|
  {
    0 <= p.nodes[i].parents[k] < |live| && live[p.nodes[i].parents[k]]
  }

  // ---------- progress ----------

  lemma {:induction false} FirstUnfinished(done: seq<bool>, n: nat) returns (m: nat)
    requires n <= |done| && exists j: nat :: j < n && !done[j]
    ensures m < n && !done[m] && forall j: nat :: j < m ==> done[j]
    decreases n
  {
    if forall j: nat :: j < n - 1 ==> done[j] {
      m := n - 1;
    } else {
      m := FirstUnfinished(done, n - 1);
    }
  }

  /** While a node is unfinished, some node is ready: the first unfinished one has only finished operands. */
  lemma FrontierNonempty(p: Program, live: seq<bool>, done: seq<bool>, epoch: seq<int>, pending: seq<int>, active: int)
    requires Topological(p) && ParentClosed(p, live) && PendingExact(p, live, done, pending)
    requires |epoch| == |p.nodes| && forall i: nat :: i < |epoch| ==> epoch[i] == Epoch(p.nodes, i)
    requires BarrierHolds(done, epoch, active) && (forall i: nat :: i < |done| && !live[i] ==> done[i])
    requires exists j: nat :: j < |done| && !done[j]
    ensures exists i :: IsReady(done, epoch, pending, active, i)
  {
    var m := FirstUnfinished(done, |done|);
    var a: nat :| a < |done| && !done[a] && epoch[a] == active;
    assert m <= a;
    EpochGrows(p.nodes, m, a);
    var parents := p.nodes[m].parents;
    assert ParentsBefore(p.nodes, m);
    forall k | 0 <= k < |parents| ensures Ran(live, done, parents[k]) { assert LiveParent(p, live, m, k); }
    WaitingZero(parents, live, done);
    assert IsReady(done, epoch, pending, active, m);
  }

  // ---------- one completion, on values ----------

  ghost predicate Decremented(before: seq<int>, after: seq<int>, edges: seq<int>)
  {
    |after| == |before| && forall v: nat :: v < |after| ==> after[v] == before[v] - CountOf(edges, v)
  }

  lemma PendingStep(p: Program, live: seq<bool>, done: seq<bool>, pending: seq<int>, i: nat, next: seq<int>)
    requires PendingExact(p, live, done, pending) && i < |done| && live[i] && !done[i]
    requires Decremented(pending, next, Consumers(p.nodes, live, i, |p.nodes|))
    ensures PendingExact(p, live, done[i := true], next)
  {
    forall c: nat | c < |next|
      ensures next[c] == if live[c] then Waiting(p.nodes[c].parents, live, done[i := true]) else 0
    {
      ConsumerEdges(p.nodes, live, i, |p.nodes|, c);
      WaitingAfter(p.nodes[c].parents, live, done, i);
      hide Waiting;
      hide Consumers;
    }
  }

  lemma UsesStep(p: Program, done: seq<bool>, uses: seq<int>, i: nat, next: seq<int>)
    requires UsesExact(p, done, uses) && i < |done| && !done[i] && Decremented(uses, next, p.nodes[i].parents)
    ensures UsesExact(p, done[i := true], next)
  {
    forall v: nat | v < |next| ensures next[v] == Uses(p.nodes, done[i := true], v, |p.nodes|) {
      UsesAfter(p.nodes, done, i, v, |p.nodes|);
      hide Uses;
    }
  }

  lemma EpochsStep(p: Program, done: seq<bool>, epoch: seq<int>, left: seq<int>, remaining: int, i: nat)
    requires EpochsExact(p, done, epoch, left, remaining) && i < |done| && !done[i]
    ensures 0 <= epoch[i] < |left|
    ensures EpochsExact(p, done[i := true], epoch, left[epoch[i] := left[epoch[i]] - 1], remaining - 1)
  {
    UnfinishedAfter(done, i, |done|);
    forall e: nat | e < |left|
      ensures UnfinishedIn(done[i := true], epoch, e, |done|)
              == UnfinishedIn(done, epoch, e, |done|) - if epoch[i] == e then 1 else 0
    {
      UnfinishedInAfter(done, epoch, i, e, |done|);
    }
    hide UnfinishedIn;
    hide Unfinished;
  }

  lemma HistoryStep(p: Program, live: seq<bool>, done: seq<bool>, epoch: seq<int>, active: int, order: seq<int>,
                    pending: seq<int>, i: nat)
    requires |epoch| == |p.nodes| && HistoryHolds(p, live, done, epoch, active, order)
    requires PendingExact(p, live, done, pending) && IsReady(done, epoch, pending, active, i) && live[i]
    ensures HistoryHolds(p, live, done[i := true], epoch, active, order + [i])
  {
    var next := order + [i];
    WaitingZero(p.nodes[i].parents, live, done);
    forall x: int ensures x in next <==> Ran(live, done[i := true], x) { assert x in next <==> x in order || x == i; }
    forall k | 0 <= k < |next| ensures AfterOperands(p, next, k) {
      if k < |order| {
        assert AfterOperands(p, order, k) && next[..k] == order[..k];
      } else {
        assert next[..k] == order;
      }
    }
    assert i !in order;
    hide *;
    EpochsAppend(epoch, active, order, i);
    HistoryFrom(p, live, done[i := true], epoch, active, next);
  }

  lemma HistoryFrom(p: Program, live: seq<bool>, done: seq<bool>, epoch: seq<int>, active: int, order: seq<int>)
    requires |epoch| == |p.nodes| && EpochsOrdered(epoch, active, order)
    requires forall i: int :: i in order <==> Ran(live, done, i)
    requires forall j, k :: 0 <= j < k < |order| ==> order[j] != order[k]
    requires forall k :: 0 <= k < |order| ==> AfterOperands(p, order, k)
    ensures HistoryHolds(p, live, done, epoch, active, order)
  {
    hide AfterOperands;
    hide Ran;
    hide EpochsOrdered;
  }

  lemma EpochsAppend(epoch: seq<int>, active: int, order: seq<int>, i: nat)
    requires EpochsOrdered(epoch, active, order) && i < |epoch| && epoch[i] == active
    ensures EpochsOrdered(epoch, active, order + [i])
  {
  }

  lemma EpochsOrderedLater(epoch: seq<int>, active: int, later: int, order: seq<int>)
    requires EpochsOrdered(epoch, active, order) && active <= later
    ensures EpochsOrdered(epoch, later, order)
  {
  }

  // ---------- loops over edges ----------

  // --counts[v] for every edge to v
  method Decrement(counts: seq<int>, edges: seq<int>) returns (next: seq<int>)
    requires forall k :: 0 <= k < |edges| ==> 0 <= edges[k] < |counts|
    ensures Decremented(counts, next, edges)
  {
    next := counts;
    for k := 0 to |edges|
      invariant Decremented(counts, next, edges[..k])
    {
      assert edges[..k + 1][..k] == edges[..k];
      next := next[edges[k] := next[edges[k]] - 1];
    }
    assert edges[..|edges|] == edges;
  }

  // Consumers whose last missing operand just arrived join the frontier when they belong to the active epoch.
  method Wake(pending: seq<int>, ready: set<int>, edges: seq<int>, epoch: seq<int>, active: int)
    returns (next: seq<int>, woken: set<int>)
    requires |epoch| == |pending| && forall k :: 0 <= k < |edges| ==> 0 <= edges[k] < |pending|
    requires forall v: nat :: v < |pending| ==> CountOf(edges, v) <= pending[v]
    ensures Decremented(pending, next, edges)
    ensures forall i :: i in woken <==> i in ready || (i in edges && Woken(next, epoch, active, i))
  {
    next, woken := pending, ready;
    for k := 0 to |edges|
      invariant Decremented(pending, next, edges[..k])
      invariant forall i :: i in woken <==> i in ready || (i in edges[..k] && Woken(next, epoch, active, i))
    {
      var consumer := edges[k];
      assert edges[..k + 1][..k] == edges[..k] && edges[..k + 1] == edges[..k] + [consumer];
      CountPrefix(edges, k + 1, consumer);
      if consumer in edges[..k] { CountPositive(edges[..k], consumer); }
      next := next[consumer := next[consumer] - 1];
      if next[consumer] == 0 && epoch[consumer] == active { woken := woken + {consumer}; }
    }
    assert edges[..|edges|] == edges;
  }

  predicate Woken(pending: seq<int>, epoch: seq<int>, active: int, i: int)
    requires |epoch| == |pending|
  {
    0 <= i < |pending| && pending[i] == 0 && epoch[i] == active
  }

  lemma {:induction false} CountPrefix(edges: seq<int>, k: nat, v: int)
    requires k <= |edges|
    ensures CountOf(edges[..k], v) <= CountOf(edges, v)
    decreases |edges| - k
  {
    if k == |edges| {
      assert edges[..k] == edges;
    } else {
      CountPrefix(edges, k + 1, v);
      assert edges[..k + 1][..k] == edges[..k];
    }
  }

  // Unfinished nodes of the active epoch with no missing operand.
  method Activate(done: seq<bool>, epoch: seq<int>, pending: seq<int>, active: int) returns (ready: set<int>)
    requires |done| == |epoch| == |pending|
    ensures FrontierExact(done, epoch, pending, active, ready)
  {
    ready := {};
    for i := 0 to |done|
      invariant forall k :: k in ready <==> k < i && IsReady(done, epoch, pending, active, k)
    {
      if !done[i] && epoch[i] == active && pending[i] == 0 { ready := ready + {i}; }
    }
  }

  lemma FrontierUnion(done: seq<bool>, epoch: seq<int>, pending: seq<int>, active: int,
                      ready: set<int>, found: set<int>)
    requires (forall k :: k !in ready) && FrontierExact(done, epoch, pending, active, found)
    ensures FrontierExact(done, epoch, pending, active, ready + found)
  {
    hide IsReady;
    forall i ensures i in ready + found <==> IsReady(done, epoch, pending, active, i) { assert i !in ready; }
  }

  lemma BarrierAfterSkip(done: seq<bool>, epoch: seq<int>, left: seq<int>, p: Program, remaining: int, active: int)
    requires EpochsExact(p, done, epoch, left, remaining) && 0 <= active <= |left|
    requires forall e: nat :: e < active ==> left[e] == 0
    requires active < |left| ==> left[active] != 0
    ensures BarrierHolds(done, epoch, active)
  {
    forall i: nat | i < |done| && !done[i] ensures epoch[i] >= active {
      if epoch[i] < active { UnfinishedInZero(done, epoch, epoch[i], |done|); }
    }
    if active < |left| { UnfinishedInZero(done, epoch, active, |done|); }
  }

  lemma FrontierStep(done: seq<bool>, epoch: seq<int>, pending: seq<int>, active: int, ready: set<int>, i: nat,
                     edges: seq<int>, next: seq<int>, woken: set<int>)
    requires |done| == |epoch| == |pending| && FrontierExact(done, epoch, pending, active, ready) && i in ready
    requires Decremented(pending, next, edges) && (forall c :: c in edges ==> c != i && 0 <= c < |done| && !done[c])
    requires forall c: nat :: c < |pending| ==> next[c] >= 0
    requires forall c :: c in woken <==> c in ready - {i} || (c in edges && Woken(next, epoch, active, c))
    ensures FrontierExact(done[i := true], epoch, next, active, woken)
  {
    forall c ensures c in woken <==> IsReady(done[i := true], epoch, next, active, c) {
      if 0 <= c < |pending| { CountPositive(edges, c); }
    }
  }

  // ---------- the counters at the start ----------

  function Dead(live: seq<bool>): (done: seq<bool>)
    ensures |done| == |live| && forall i :: 0 <= i < |live| ==> done[i] == !live[i]
  {
    seq(|live|, i requires 0 <= i < |live| => !live[i])
  }

  // Totals over the first i nodes; current is the epoch of the last of them.
  ghost predicate CountedTo(p: Program, done: seq<bool>, epoch: seq<int>, left: seq<int>, remaining: int, current: int,
                            i: nat)
    requires i <= |p.nodes| == |done|
  {
    |epoch| == i && current == (if i == 0 then 0 else Epoch(p.nodes, i - 1)) &&
    |left| == (if i == 0 then 0 else current + 1) &&
    remaining == Unfinished(done, i) &&
    (forall k: nat :: k < i ==> epoch[k] == Epoch(p.nodes, k) && epoch[k] <= current) &&
    forall e: nat :: e < |left| ==> left[e] == UnfinishedIn(done, epoch, e, i)
  }

  lemma CountNode(p: Program, done: seq<bool>, epoch: seq<int>, left: seq<int>, remaining: int, current: int, i: nat,
                  next: int, grown: seq<int>)
    requires i < |p.nodes| == |done| && CountedTo(p, done, epoch, left, remaining, current, i)
    requires next == current + if p.nodes[i].operation == Feedback then 1 else 0
    requires grown == if next >= |left| then left + seq(next + 1 - |left|, _ => 0) else left
    ensures 0 <= next < |grown|
    ensures CountedTo(p, done, epoch + [next], if done[i] then grown else grown[next := grown[next] + 1],
                      remaining + (if done[i] then 0 else 1), next, i + 1)
  {
    var after := epoch + [next];
    forall e: nat | e < |grown| ensures grown[e] == UnfinishedIn(done, epoch, e, i) == UnfinishedIn(done, after, e, i) {
      UnfinishedInPrefix(done, epoch, [next], e, i);
      if e >= |left| { UnfinishedInZero(done, epoch, e, i); }
    }
    assert next == Epoch(p.nodes, i);
    assert forall e: nat :: UnfinishedIn(done, after, e, i + 1)
                            == UnfinishedIn(done, after, e, i) + if !done[i] && next == e then 1 else 0;
  }

  // Epochs, operand counts and totals before anything has run.
  method CountNodes(p: Program, live: seq<bool>)
    returns (epoch: seq<int>, left: seq<int>, pending: seq<int>, remaining: int)
    requires |live| == |p.nodes| > 0
    ensures |pending| == |p.nodes| && forall i: nat :: i < |p.nodes| ==>
              pending[i] == if live[i] then |p.nodes[i].parents| else 0
    ensures EpochsExact(p, Dead(live), epoch, left, remaining)
  {
    var current := 0;
    epoch, left, pending, remaining := [], [], [], 0;
    ghost var done := Dead(live);
    for i := 0 to |p.nodes|
      invariant |pending| == i && CountedTo(p, done, epoch, left, remaining, current, i)
      invariant forall k: nat :: k < i ==> pending[k] == if live[k] then |p.nodes[k].parents| else 0
    {
      var next := current + if p.nodes[i].operation == Feedback then 1 else 0;
      var grown := if next >= |left| then left + seq(next + 1 - |left|, _ => 0) else left;
      CountNode(p, done, epoch, left, remaining, current, i, next, grown);
      hide *;
      epoch, current, left := epoch + [next], next, grown;
      pending := pending + [if live[i] then |p.nodes[i].parents| else 0];
      if live[i] { left, remaining := left[next := left[next] + 1], remaining + 1; }
    }
    AllCounted(p, done, epoch, left, remaining, current);
  }

  lemma AllCounted(p: Program, done: seq<bool>, epoch: seq<int>, left: seq<int>, remaining: int, current: int)
    requires |p.nodes| == |done| > 0 && CountedTo(p, done, epoch, left, remaining, current, |p.nodes|)
    ensures EpochsExact(p, done, epoch, left, remaining)
  {
    hide Epoch;
    hide Unfinished;
    hide UnfinishedIn;
  }

  lemma {:induction false} AllWaiting(parents: seq<int>, live: seq<bool>, done: seq<bool>)
    requires forall i :: !Ran(live, done, i)
    ensures Waiting(parents, live, done) == |parents|
  {
    if parents != [] { AllWaiting(parents[..|parents| - 1], live, done); }
  }

  lemma {:induction false} EdgesAreUses(nodes: seq<Node>, live: seq<bool>, v: int, n: nat)
    requires n <= |nodes| == |live| && |live| > 0
    ensures |Consumers(nodes, live, v, n)| == Uses(nodes, Dead(live), v, n)
    decreases n
  {
    if n > 0 { EdgesAreUses(nodes, live, v, n - 1); }
  }

  lemma StartExact(p: Program, live: seq<bool>, pending: seq<int>, uses: seq<int>, consumers: seq<seq<int>>)
    requires |live| == |p.nodes| == |pending| == |uses| == |consumers| && |live| > 0
    requires forall i: nat :: i < |p.nodes| ==> pending[i] == if live[i] then |p.nodes[i].parents| else 0
    requires forall v: nat :: v < |p.nodes| ==> uses[v] == |consumers[v]|
    requires forall v: nat :: v < |p.nodes| ==> consumers[v] == Consumers(p.nodes, live, v, |p.nodes|)
    ensures PendingExact(p, live, Dead(live), pending) && UsesExact(p, Dead(live), uses)
    ensures forall i: int :: !Ran(live, Dead(live), i)
  {
    forall i: nat | i < |p.nodes| ensures Waiting(p.nodes[i].parents, live, Dead(live)) == |p.nodes[i].parents| {
      AllWaiting(p.nodes[i].parents, live, Dead(live));
    }
    forall v: nat | v < |p.nodes| ensures uses[v] == Uses(p.nodes, Dead(live), v, |p.nodes|) {
      EdgesAreUses(p.nodes, live, v, |p.nodes|);
    }
    hide Waiting;
    hide Uses;
    hide Consumers;
  }

  /** Everything a node reads has run before it. */
  lemma OperandsRan(p: Program, live: seq<bool>, done: seq<bool>, epoch: seq<int>, active: int, order: seq<int>, c: nat,
                    v: int)
    requires |epoch| == |p.nodes| && HistoryHolds(p, live, done, epoch, active, order)
    requires Ran(live, done, c) && c < |p.nodes| && v in p.nodes[c].parents
    ensures Ran(live, done, v)
  {
    assert c in order;
    var k :| 0 <= k < |order| && order[k] == c;
    assert AfterOperands(p, order, k);
    assert v in order[..k];
    assert v in order;
  }

  // ---------- the schedule ----------

  datatype Completion = Completed | NotReady | CannotAdvance

  class PackedReadySchedule {
    const program: Program
    const live: seq<bool>
    const consumers: seq<seq<int>>
    const epoch: seq<int>
    const pinned: seq<bool>
    var pending: seq<int>
    var remainingUses: seq<int>
    var epochRemaining: seq<int>
    var done: seq<bool>
    var ready: set<int>
    var activeEpoch: int
    var remaining: int
    ghost var order: seq<int>

    ghost predicate Fixed()
    {
      Topological(program) && OutputsInside(program) && |live| == |program.nodes| > 0 &&
      |consumers| == |epoch| == |pinned| == |program.nodes| &&
      (forall v: nat :: v < |consumers| ==> consumers[v] == Consumers(program.nodes, live, v, |program.nodes|)) &&
      forall i: nat :: i < |pinned| ==> (pinned[i] <==> i in program.outputs)
    }

    ghost predicate Counts()
      reads this
    {
      PendingExact(program, live, done, pending) && UsesExact(program, done, remainingUses) &&
      EpochsExact(program, done, epoch, epochRemaining, remaining) &&
      forall i: nat :: i < |done| && !live[i] ==> done[i]
    }

    ghost predicate Valid()
      reads this
    {
      Fixed() && Counts() && FrontierExact(done, epoch, pending, activeEpoch, ready) &&
      BarrierHolds(done, epoch, activeEpoch) && HistoryHolds(program, live, done, epoch, activeEpoch, order)
    }

    constructor (program: Program, live: seq<bool>)
      requires Topological(program) && OutputsInside(program) && |live| == |program.nodes| > 0
      ensures Valid() && this.program == program && this.live == live && order == []
    {
      var plan := PlanPackedUses(program, live);
      var epochs, left, waiting, total := CountNodes(program, live);
      var used := seq(|program.nodes|, v requires 0 <= v < |plan.consumers| => |plan.consumers[v]|);
      StartExact(program, live, waiting, used, plan.consumers);
      this.program, this.live, consumers, epoch := program, live, plan.consumers, epochs;
      pending, remainingUses, epochRemaining, done := waiting, used, left, Dead(live);
      pinned := seq(|program.nodes|, i requires 0 <= i => i in program.outputs);
      remaining, activeEpoch, ready, order := total, 0, {}, [];
      new;
      ActivateEpoch();
    }

    method ActivateEpoch()
      requires Fixed() && Counts() && activeEpoch >= 0
      requires forall e: nat :: e < activeEpoch && e < |epochRemaining| ==> epochRemaining[e] == 0
      requires forall k :: k !in ready
      requires activeEpoch <= |epochRemaining| && HistoryHolds(program, live, done, epoch, activeEpoch, order)
      modifies this`activeEpoch, this`ready
      ensures Valid()
    {
      ghost var before := activeEpoch;
      while activeEpoch < |epochRemaining| && epochRemaining[activeEpoch] == 0
        invariant before <= activeEpoch <= |epochRemaining| && ready == old(ready)
        invariant forall e: nat :: e < activeEpoch ==> epochRemaining[e] == 0
      {
        activeEpoch := activeEpoch + 1;
      }
      BarrierAfterSkip(done, epoch, epochRemaining, program, remaining, activeEpoch);
      EpochsOrderedLater(epoch, before, activeEpoch, order);
      var found := Activate(done, epoch, pending, activeEpoch);
      FrontierUnion(done, epoch, pending, activeEpoch, ready, found);
      ready := ready + found;
    }

    predicate Empty()
      reads this
    {
      remaining == 0
    }

    /** Node operation is the last reader of parent that is still to run, and parent is no output. */
    predicate FinalUse(parent: int, operation: int)
      requires 0 <= parent < |remainingUses| && parent < |pinned| && 0 <= operation < |program.nodes|
      reads this
    {
      !pinned[parent] && remainingUses[parent] == CountOf(program.nodes[operation].parents, parent)
    }

    /** Nobody will read node i again, and it is no output. */
    predicate Releasable(i: int)
      requires 0 <= i < |remainingUses| && i < |pinned|
      reads this
    {
      !pinned[i] && remainingUses[i] == 0
    }

    lemma FinalUseMeans(parent: nat, operation: nat)
      requires Valid() && parent < |program.nodes| && operation < |program.nodes| && !done[operation]
      ensures FinalUse(parent, operation) <==>
              parent !in program.outputs &&
              forall j: nat :: j < |done| && !done[j] && j != operation ==> parent !in program.nodes[j].parents
    {
      var others := done[operation := true];
      UsesAfter(program.nodes, done, operation, parent, |done|);
      UsesZero(program.nodes, others, parent, |done|);
      hide Uses;
    }

    lemma ReleasableMeans(i: nat)
      requires Valid() && i < |program.nodes|
      ensures Releasable(i) <==>
              i !in program.outputs && forall j: nat :: j < |done| && !done[j] ==> i !in program.nodes[j].parents
    {
      UsesZero(program.nodes, done, i, |done|);
    }

    /** The first unfinished reader of node i, or -1. */
    method NextConsumer(i: nat) returns (c: int)
      requires Valid() && i < |program.nodes|
      ensures c == -1 <==> forall j: nat :: j < |done| && !done[j] ==> i !in program.nodes[j].parents
      ensures c != -1 ==> 0 <= c < |done| && !done[c] && i in program.nodes[c].parents &&
                          forall j: nat :: j < c && !done[j] ==> i !in program.nodes[j].parents
    {
      var readers := consumers[i];
      ReadersExact(i);
      for k := 0 to |readers|
        invariant forall j :: 0 <= j < k ==> done[readers[j]]
      {
        if !done[readers[k]] { return readers[k]; }
      }
      return -1;
    }

    lemma ReadersExact(i: nat)
      requires Valid() && i < |program.nodes|
      ensures Ascends(consumers[i], |program.nodes|)
      ensures forall j: nat :: j < |done| && !done[j] && i in program.nodes[j].parents ==> j in consumers[i]
      ensures forall j :: j in consumers[i] ==> 0 <= j < |done| && live[j] && i in program.nodes[j].parents
    {
      ConsumersAscend(program.nodes, live, i, |program.nodes|);
      forall j: int
        ensures j in consumers[i] <==> 0 <= j < |done| && live[j] && i in program.nodes[j].parents
      {
        ConsumerEdges(program.nodes, live, i, |program.nodes|, j);
        CountPositive(consumers[i], j);
        if 0 <= j < |done| { CountPositive(program.nodes[j].parents, i); }
      }
    }

    lemma Sizes()
      requires Valid()
      ensures |program.nodes| == |live| == |consumers| == |epoch| == |pinned| == |done| == |pending| == |remainingUses|
      ensures forall i :: i in ready ==> 0 <= i < |done|
    {
    }

    lemma ReadyFacts(i: int)
      requires Valid() && i in ready
      ensures 0 <= i < |done| && !done[i] && live[i] && epoch[i] == activeEpoch && pending[i] == 0
      ensures forall k :: 0 <= k < |program.nodes[i].parents| ==> 0 <= program.nodes[i].parents[k] < |program.nodes|
      ensures forall c :: c in consumers[i] ==> c != i && 0 <= c < |done| && !done[c]
      ensures forall k :: 0 <= k < |consumers[i]| ==> 0 <= consumers[i][k] < |pending|
      ensures forall v: nat :: v < |pending| ==> CountOf(consumers[i], v) <= pending[v]
    {
      assert IsReady(done, epoch, pending, activeEpoch, i) && ParentsBefore(program.nodes, i);
      ReadersExact(i);
      forall c | c in consumers[i] ensures c != i && !done[c] {
        assert ParentsBefore(program.nodes, c);
        if done[c] { OperandsRan(program, live, done, epoch, activeEpoch, order, c, i); }
      }
      forall v: nat | v < |pending| ensures CountOf(consumers[i], v) <= pending[v] {
        ConsumerEdges(program.nodes, live, i, |program.nodes|, v);
        WaitingAfter(program.nodes[v].parents, live, done, i);
      }
    }

    lemma EarlierFinished()
      requires Fixed() && Counts() && BarrierHolds(done, epoch, activeEpoch)
      ensures forall e: nat :: e < activeEpoch && e < |epochRemaining| ==> epochRemaining[e] == 0
    {
      forall e: nat | e < activeEpoch && e < |epochRemaining| ensures epochRemaining[e] == 0 {
        UnfinishedInZero(done, epoch, e, |done|);
      }
    }

    // The active epoch still has work: the barrier stays where it is.
    lemma StillActive()
      requires Fixed() && Counts() && 0 <= activeEpoch < |epochRemaining| && epochRemaining[activeEpoch] != 0
      requires forall e: nat :: e < activeEpoch ==> epochRemaining[e] == 0
      ensures BarrierHolds(done, epoch, activeEpoch)
    {
      BarrierAfterSkip(done, epoch, epochRemaining, program, remaining, activeEpoch);
    }

    // The active epoch is finished: its frontier is empty.
    lemma NothingReady()
      requires Fixed() && Counts() && FrontierExact(done, epoch, pending, activeEpoch, ready)
      requires 0 <= activeEpoch < |epochRemaining| && epochRemaining[activeEpoch] == 0
      ensures forall k :: k !in ready
    {
      UnfinishedInZero(done, epoch, activeEpoch, |done|);
      forall k ensures k !in ready {
        assert 0 <= k < |done| && epoch[k] == activeEpoch ==> done[k];
      }
    }

    lemma SomeReady()
      requires Valid() && ParentClosed(program, live) && remaining != 0
      ensures ready != {}
    {
      UnfinishedZero(done, |done|);
      FrontierNonempty(program, live, done, epoch, pending, activeEpoch);
      var i :| IsReady(done, epoch, pending, activeEpoch, i);
      assert i in ready;
    }

    lemma StepCounts(i: int, uses: seq<int>, next: seq<int>)
      requires Valid() && i in ready && 0 <= i < |done|
      requires Decremented(remainingUses, uses, program.nodes[i].parents)
      requires Decremented(pending, next, consumers[i])
      ensures PendingExact(program, live, done[i := true], next) && UsesExact(program, done[i := true], uses)
      ensures 0 <= activeEpoch < |epochRemaining|
      ensures EpochsExact(program, done[i := true], epoch,
                          epochRemaining[activeEpoch := epochRemaining[activeEpoch] - 1], remaining - 1)
    {
      CountFacts(i);
      hide *;
      PendingStep(program, live, done, pending, i, next);
      UsesStep(program, done, remainingUses, i, uses);
      EpochsStep(program, done, epoch, epochRemaining, remaining, i);
    }

    // What a completion needs to know about the ready node and the counters.
    lemma CountFacts(i: int)
      requires Valid() && i in ready
      ensures |program.nodes| == |live| == |consumers| == |epoch| == |done| == |pending| == |remainingUses|
      ensures 0 <= i < |done| && !done[i] && live[i] && epoch[i] == activeEpoch
      ensures consumers[i] == Consumers(program.nodes, live, i, |program.nodes|)
      ensures PendingExact(program, live, done, pending) && UsesExact(program, done, remainingUses)
      ensures EpochsExact(program, done, epoch, epochRemaining, remaining)
    {
      Sizes();
      ReadyFacts(i);
      hide PendingExact;
      hide UsesExact;
      hide EpochsExact;
      hide HistoryHolds;
      hide BarrierHolds;
      hide FrontierExact;
    }

    lemma StepFrontier(i: int, next: seq<int>, woken: set<int>)
      requires Valid() && i in ready && 0 <= i < |done| && |next| == |epoch|
      requires Decremented(pending, next, consumers[i])
      requires forall c :: c in woken <==> c in ready - {i} || (c in consumers[i] && Woken(next, epoch, activeEpoch, c))
      ensures FrontierExact(done[i := true], epoch, next, activeEpoch, woken)
      ensures HistoryHolds(program, live, done[i := true], epoch, activeEpoch, order + [i])
    {
      Sizes();
      ReadyFacts(i);
      hide PendingExact;
      hide UsesExact;
      hide EpochsExact;
      hide HistoryHolds;
      hide BarrierHolds;
      hide FrontierExact;
      hide Fixed;
      assert IsReady(done, epoch, pending, activeEpoch, i);
      HistoryStep(program, live, done, epoch, activeEpoch, order, pending, i);
      forall c: nat | c < |pending| ensures next[c] >= 0 {}
      FrontierStep(done, epoch, pending, activeEpoch, ready, i, consumers[i], next, woken);
    }

    /** Runs node i. Nothing changes unless it was ready; a parent-closed live set can always advance. */
    method Complete(i: int) returns (r: Completion)
      requires Valid()
      modifies this
      ensures Valid()
      ensures r.NotReady? <==> old(i !in ready)
      ensures r.NotReady? ==> unchanged(this)
      ensures !r.NotReady? ==> 0 <= i < |old(done)| && done == old(done)[i := true] && order == old(order) + [i]
      ensures !r.NotReady? ==> remaining == old(remaining) - 1
      ensures r.CannotAdvance? <==> old(i in ready) && remaining != 0 && ready == {}
      ensures ParentClosed(program, live) ==> !r.CannotAdvance?
    {
      hide PendingExact;
      hide UsesExact;
      hide EpochsExact;
      hide FrontierExact;
      hide BarrierHolds;
      hide HistoryHolds;
      hide Fixed;
      hide ParentClosed;
      if i !in ready { return NotReady; }
      Sizes();
      ReadyFacts(i);
      var uses := Decrement(remainingUses, program.nodes[i].parents);
      var waiting, woken := Wake(pending, ready - {i}, consumers[i], epoch, activeEpoch);
      StepCounts(i, uses, waiting);
      StepFrontier(i, waiting, woken);
      EarlierFinished();
      done, order, remaining := done[i := true], order + [i], remaining - 1;
      epochRemaining := epochRemaining[activeEpoch := epochRemaining[activeEpoch] - 1];
      remainingUses, pending, ready := uses, waiting, woken;
      if epochRemaining[activeEpoch] == 0 {
        NothingReady();
        ActivateEpoch();
      } else {
        StillActive();
      }
      if ParentClosed(program, live) && remaining != 0 { SomeReady(); }
      r := if remaining != 0 && ready == {} then CannotAdvance else Completed;
    }

    /** A finished run has completed exactly the live nodes, each once, operands first, epochs in order. */
    lemma FinishedRun()
      requires Valid() && Empty()
      ensures forall i :: i in order <==> 0 <= i < |live| && live[i]
      ensures forall j, k :: 0 <= j < k < |order| ==> order[j] != order[k]
      ensures forall k :: 0 <= k < |order| ==> AfterOperands(program, order, k)
      ensures forall j, k :: 0 <= j < k < |order| ==> 0 <= order[j] < |epoch| && 0 <= order[k] < |epoch| &&
                                                      epoch[order[j]] <= epoch[order[k]]
      ensures ParentClosed(program, live)
    {
      UnfinishedZero(done, |done|);
      assert forall i :: 0 <= i < |live| && live[i] ==> Ran(live, done, i);
      forall i: nat, k: nat | i < |program.nodes| && live[i] && k < |program.nodes[i].parents|
        ensures LiveParent(program, live, i, k)
      {
        OperandsRan(program, live, done, epoch, activeEpoch, order, i, program.nodes[i].parents[k]);
      }
    }
  }

  /**
   Runs ready nodes, in any order, until nothing is left or nothing is ready. Every order of picks finishes exactly
   when the live set is closed under operands.
   */
  method Drain(schedule: PackedReadySchedule) returns (finished: bool)
    requires schedule.Valid()
    modifies schedule
    ensures schedule.Valid() && finished == schedule.Empty()
    ensures finished <==> ParentClosed(schedule.program, schedule.live)
  {
    while !schedule.Empty() && schedule.ready != {}
      invariant schedule.Valid()
      decreases schedule.remaining
    {
      Bounded(schedule.program, schedule.done, schedule.epoch, schedule.epochRemaining, schedule.remaining);
      var i := AnyKey(schedule.ready);
      var r := schedule.Complete(i);
    }
    finished := schedule.Empty();
    if finished {
      schedule.FinishedRun();
    } else if ParentClosed(schedule.program, schedule.live) {
      schedule.SomeReady();
    }
  }

  /** A live set that leaves out an operand: its reader is never ready, so no schedule over it finishes. */
  method OpenLiveSetStalls() returns (finished: bool)
    ensures !finished
  {
    var program := Program(false, 2, [Node(Input, 1, [], [0.0]), Node(MulPublic, 1, [0], [1.0])], [1]);
    var live := [false, true];
    assert !LiveParent(program, live, 1, 0);
    var schedule := new PackedReadySchedule(program, live);
    finished := Drain(schedule);
  }

  lemma Bounded(p: Program, done: seq<bool>, epoch: seq<int>, left: seq<int>, remaining: int)
    requires EpochsExact(p, done, epoch, left, remaining)
    ensures remaining >= 0
  {
  }
}
