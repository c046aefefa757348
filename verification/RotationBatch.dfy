/**
 rotate_prefix_batch (native/fideslib_stage0/include/rotation_batch.hpp:18-63): a trie of rotation step lists, walked
 once, gives every output its own steps and pays for every distinct step prefix once.
 */
module RotationBatch {
  import opened Options
  import RotationSteps

  datatype Edge = Edge(step: int, child: nat)

  // Children in ascending step order, as an ordered map iterates them.
  datatype Node = Node(children: seq<Edge>, outputs: seq<nat>)

  datatype Stats = Stats(requests: int, edges: int, preparations: int, siblingBatches: int)

  // ---------- the trie ----------

  predicate Ascending(children: seq<Edge>)
  {
    forall j, k :: 0 <= j < k < |children| ==> children[j].step < children[k].step
  }

  /** Names are the step prefixes the nodes stand for. */
  ghost predicate NodeHolds(tree: seq<Node>, names: seq<seq<int>>, k: nat)
    requires k < |tree| == |names|
  {
    Ascending(tree[k].children) &&
    forall e :: e in tree[k].children ==> k < e.child < |tree| && names[e.child] == names[k] + [e.step]
  }

  ghost predicate HasParent(tree: seq<Node>, names: seq<seq<int>>, c: nat)
    requires c < |tree| == |names|
  {
    exists k: nat, e :: k < c && e in tree[k].children && e.child == c
  }

  ghost predicate Trie(tree: seq<Node>, names: seq<seq<int>>)
  {
    |tree| == |names| >= 1 && names[0] == [] &&
    (forall j, k :: 0 <= j < k < |names| ==> names[j] != names[k]) &&
    (forall k: nat :: k < |tree| ==> NodeHolds(tree, names, k)) &&
    forall c: nat :: 0 < c < |tree| ==> HasParent(tree, names, c)
  }

  function InsertEdge(children: seq<Edge>, e: Edge): seq<Edge>
  {
    if children == [] then [e]
    else if e.step < children[0].step then [e] + children
    else [children[0]] + InsertEdge(children[1..], e)
  }

  lemma {:induction false} InsertKeeps(children: seq<Edge>, e: Edge)
    requires Ascending(children) && forall k :: 0 <= k < |children| ==> children[k].step != e.step
    ensures var r := InsertEdge(children, e);
            Ascending(r) && |r| == |children| + 1 && forall x :: x in r <==> x == e || x in children
  {
    if children == [] {
    } else if e.step < children[0].step {
      assert forall x :: x in [e] + children <==> x == e || x in children;
    } else {
      var rest := children[1..];
      InsertKeeps(rest, e);
      var r := InsertEdge(rest, e);
      assert children == [children[0]] + rest;
      forall k | 0 <= k < |r| ensures children[0].step < r[k].step {
        assert r[k] in r;
        if r[k] in rest { assert exists m :: 0 <= m < |rest| && rest[m] == r[k] && children[m + 1] == r[k]; }
      }
    }
  }

  /** The child along a step, if there is one. */
  method FindChild(children: seq<Edge>, step: int) returns (r: Option<nat>)
    ensures r.Some? ==> Edge(step, r.value) in children
    ensures r.None? ==> forall k :: 0 <= k < |children| ==> children[k].step != step
  {
    for k := 0 to |children|
      invariant forall j :: 0 <= j < k ==> children[j].step != step
    {
      if children[k].step == step { return Some(children[k].child); }
    }
    return None;
  }

  function AddChild(tree: seq<Node>, parent: nat, step: int): seq<Node>
    requires parent < |tree|
  {
    tree[parent := tree[parent].(children := InsertEdge(tree[parent].children, Edge(step, |tree|)))] + [Node([], [])]
  }

  lemma AddedEdges(tree: seq<Node>, parent: nat, step: int)
    requires parent < |tree| && Ascending(tree[parent].children)
    requires forall k :: 0 <= k < |tree[parent].children| ==> tree[parent].children[k].step != step
    ensures var next := AddChild(tree, parent, step);
            |next| == |tree| + 1 && Ascending(next[parent].children) &&
            |next[parent].children| == |tree[parent].children| + 1 && next[parent].outputs == tree[parent].outputs &&
            (forall x :: x in next[parent].children <==> x == Edge(step, |tree|) || x in tree[parent].children) &&
            next[|tree|] == Node([], []) && forall k :: 0 <= k < |tree| && k != parent ==> next[k] == tree[k]
  {
    InsertKeeps(tree[parent].children, Edge(step, |tree|));
  }

  /** A node whose name extends another's by one step is its child along that step. */
  lemma ChildEdge(tree: seq<Node>, names: seq<seq<int>>, parent: nat, c: nat, step: int)
    requires Trie(tree, names) && parent < |tree| && c < |tree| && names[c] == names[parent] + [step]
    ensures Edge(step, c) in tree[parent].children
  {
    assert c > 0 && HasParent(tree, names, c);
    var k: nat, e :| k < c && e in tree[k].children && e.child == c;
    assert NodeHolds(tree, names, k);
    SameInit(names[k], e.step, names[parent], step);
  }

  lemma NewName(tree: seq<Node>, names: seq<seq<int>>, parent: nat, step: int)
    requires Trie(tree, names) && parent < |tree|
    requires forall k :: 0 <= k < |tree[parent].children| ==> tree[parent].children[k].step != step
    ensures names[parent] + [step] !in names
  {
    var name := names[parent] + [step];
    if name in names {
      var c :| 0 <= c < |names| && names[c] == name;
      ChildEdge(tree, names, parent, c, step);
    }
  }

  lemma SameInit(a: seq<int>, x: int, b: seq<int>, y: int)
    requires a + [x] == b + [y]
    ensures a == b && x == y
  {
    assert (a + [x])[..|a|] == a && (b + [y])[..|b|] == b;
    assert (a + [x])[|a|] == x && (b + [y])[|b|] == y;
  }

  lemma AddKeepsTrie(tree: seq<Node>, names: seq<seq<int>>, parent: nat, step: int)
    requires Trie(tree, names) && parent < |tree|
    requires forall k :: 0 <= k < |tree[parent].children| ==> tree[parent].children[k].step != step
    ensures Trie(AddChild(tree, parent, step), names + [names[parent] + [step]])
  {
    var next, longer := AddChild(tree, parent, step), names + [names[parent] + [step]];
    assert NodeHolds(tree, names, parent);
    AddedEdges(tree, parent, step);
    NewName(tree, names, parent, step);
    hide AddChild;
    forall k: nat | k < |next| ensures NodeHolds(next, longer, k) {
      if k < |tree| { assert NodeHolds(tree, names, k); }
    }
    forall c: nat | 0 < c < |next| ensures HasParent(next, longer, c) {
      if c < |tree| {
        assert HasParent(tree, names, c);
        var k: nat, e :| k < c && e in tree[k].children && e.child == c;
        assert e in next[k].children;
      } else {
        assert Edge(step, |tree|) in next[parent].children;
      }
    }
  }

  // ---------- sums over nodes ----------

  /** g over the selected nodes among the first n. */
  function Tally(sel: nat -> bool, g: nat -> int, n: nat): int
  {
    if n == 0 then 0 else Tally(sel, g, n - 1) + if sel(n - 1) then g(n - 1) else 0
  }

  lemma {:induction false} TallySplit(sel: nat -> bool, a: nat -> bool, b: nat -> bool, g: nat -> int, n: nat)
    requires forall k: nat :: k < n ==> (sel(k) <==> a(k) || b(k)) && !(a(k) && b(k))
    ensures Tally(sel, g, n) == Tally(a, g, n) + Tally(b, g, n)
  {
    if n > 0 { TallySplit(sel, a, b, g, n - 1); }
  }

  lemma {:induction false} TallyNone(sel: nat -> bool, g: nat -> int, n: nat)
    requires forall k: nat :: k < n ==> !sel(k)
    ensures Tally(sel, g, n) == 0
  {
    if n > 0 { TallyNone(sel, g, n - 1); }
  }

  lemma {:induction false} TallyOne(sel: nat -> bool, g: nat -> int, n: nat, c: nat)
    requires c < n && forall k: nat :: k < n ==> (sel(k) <==> k == c)
    ensures Tally(sel, g, n) == g(c)
  {
    if n - 1 == c { TallyNone(sel, g, n - 1); } else { TallyOne(sel, g, n - 1, c); }
  }

  lemma {:induction false} TallyEqual(a: nat -> bool, b: nat -> bool, f: nat -> int, g: nat -> int, n: nat)
    requires forall k: nat :: k < n ==> a(k) == b(k) && f(k) == g(k)
    ensures Tally(a, f, n) == Tally(b, g, n)
  {
    if n > 0 { TallyEqual(a, b, f, g, n - 1); }
  }

  function Fanout(tree: seq<Node>): nat -> int { (k: nat) => if k < |tree| then |tree[k].children| else 0 }

  function Inner(tree: seq<Node>): nat -> int { (k: nat) => if k < |tree| && |tree[k].children| > 0 then 1 else 0 }

  function Branching(tree: seq<Node>): nat -> int { (k: nat) => if k < |tree| && |tree[k].children| > 1 then 1 else 0 }

  function Below(names: seq<seq<int>>, name: seq<int>): nat -> bool { (k: nat) => k < |names| && name <= names[k] }

  function All(): nat -> bool { (k: nat) => true }

  lemma {:induction false} TallyBump(f: nat -> int, g: nat -> int, n: nat, c: nat)
    requires forall k: nat :: k < n ==> g(k) == f(k) + if k == c then 1 else 0
    ensures Tally(All(), g, n) == Tally(All(), f, n) + if c < n then 1 else 0
  {
    if n > 0 { TallyBump(f, g, n - 1, c); }
  }

  /** Every node but the root is one edge. */
  ghost predicate EdgesCounted(tree: seq<Node>) { Tally(All(), Fanout(tree), |tree|) + 1 == |tree| }

  lemma AddKeepsCount(tree: seq<Node>, parent: nat, step: int)
    requires EdgesCounted(tree) && parent < |tree| && Ascending(tree[parent].children)
    requires forall k :: 0 <= k < |tree[parent].children| ==> tree[parent].children[k].step != step
    ensures EdgesCounted(AddChild(tree, parent, step))
  {
    var next, n := AddChild(tree, parent, step), |tree|;
    AddedEdges(tree, parent, step);
    assert Fanout(next)(n) == 0;
    forall k: nat | k < n ensures Fanout(next)(k) == Fanout(tree)(k) + if k == parent then 1 else 0 {}
    hide AddChild;
    TallyBump(Fanout(tree), Fanout(next), n, parent);
  }

  // ---------- building ----------

  /** Outputs hang at the node named by their own steps. */
  ghost predicate OutputsPlaced(tree: seq<Node>, names: seq<seq<int>>, paths: seq<seq<int>>, n: nat)
    requires |tree| == |names| && n <= |paths|
  {
    (forall k: nat, i: nat :: k < |tree| ==> Held(tree, names, paths, n, k, i)) &&
    forall i: nat :: i < n ==> paths[i] in names
  }

  ghost predicate Held(tree: seq<Node>, names: seq<seq<int>>, paths: seq<seq<int>>, n: nat, k: nat, i: nat)
    requires |tree| == |names| && n <= |paths| && k < |tree|
  {
    i in tree[k].outputs <==> i < n && paths[i] == names[k]
  }

  ghost predicate OnSomePath(paths: seq<seq<int>>, name: seq<int>, n: nat)
    requires n <= |paths|
  {
    exists i: nat :: i < n && name <= paths[i]
  }

  /** No node but the root is named by anything else than a prefix of one of the first n paths. */
  ghost predicate NamesUsed(names: seq<seq<int>>, paths: seq<seq<int>>, n: nat)
    requires n <= |paths|
  {
    forall k :: 0 < k < |names| ==> OnSomePath(paths, names[k], n)
  }

  method Insert(tree: seq<Node>, ghost names: seq<seq<int>>, ghost paths: seq<seq<int>>, i: nat, path: seq<int>)
    returns (grown: seq<Node>, ghost longer: seq<seq<int>>, leaf: nat)
    requires Trie(tree, names) && EdgesCounted(tree) && i < |paths| && path == paths[i]
    requires OutputsPlaced(tree, names, paths, i) && NamesUsed(names, paths, i)
    ensures Trie(grown, longer) && EdgesCounted(grown) && OutputsPlaced(grown, longer, paths, i)
    ensures NamesUsed(longer, paths, i + 1) && leaf < |grown| && longer[leaf] == path
  {
    grown, longer, leaf := tree, names, 0;
    RootNamed(tree, names, paths, i);
    hide *;
    for j := 0 to |path|
      invariant Trie(grown, longer) && EdgesCounted(grown) && OutputsPlaced(grown, longer, paths, i)
      invariant NamesUsed(longer, paths, i + 1) && leaf < |grown| == |longer| && longer[leaf] == path[..j]
    {
      TakenPrefix(path, j);
      grown, longer, leaf := Descend(grown, longer, paths, i, leaf, path[j], path[..j + 1]);
    }
    assert path[..|path|] == path;
  }

  lemma TakenPrefix(path: seq<int>, j: nat)
    requires j < |path|
    ensures path[..j + 1] == path[..j] + [path[j]] && path[..j + 1] <= path
  {
  }

  lemma RootNamed(tree: seq<Node>, names: seq<seq<int>>, paths: seq<seq<int>>, i: nat)
    requires Trie(tree, names) && i < |paths| && NamesUsed(names, paths, i)
    ensures |tree| == |names| >= 1 && names[0] == [] && NamesUsed(names, paths, i + 1)
  {
    forall k | 0 < k < |names| ensures OnSomePath(paths, names[k], i + 1) { assert OnSomePath(paths, names[k], i); }
    hide OnSomePath;
  }

  lemma EdgeNamed(tree: seq<Node>, names: seq<seq<int>>, leaf: nat, step: int, child: nat)
    requires Trie(tree, names) && leaf < |tree| && Edge(step, child) in tree[leaf].children
    ensures child < |tree| == |names| && names[child] == names[leaf] + [step]
  {
    assert NodeHolds(tree, names, leaf);
  }

  lemma AddedSizes(tree: seq<Node>, parent: nat, step: int)
    requires parent < |tree|
    ensures |AddChild(tree, parent, step)| == |tree| + 1
  {
  }

  // One step down the trie, along a new edge if there is none for this step.
  method Descend(tree: seq<Node>, ghost names: seq<seq<int>>, ghost paths: seq<seq<int>>, i: nat, leaf: nat, step: int,
                 ghost name: seq<int>) returns (grown: seq<Node>, ghost longer: seq<seq<int>>, next: nat)
    requires Trie(tree, names) && EdgesCounted(tree) && i < |paths| && |tree| == |names|
    requires OutputsPlaced(tree, names, paths, i) && NamesUsed(names, paths, i + 1)
    requires leaf < |tree| && name == names[leaf] + [step] && name <= paths[i]
    ensures Trie(grown, longer) && EdgesCounted(grown) && |grown| == |longer| && OutputsPlaced(grown, longer, paths, i)
    ensures NamesUsed(longer, paths, i + 1) && next < |grown| && longer[next] == name
  {
    assert NodeHolds(tree, names, leaf);
    var found := FindChild(tree[leaf].children, step);
    if found.Some? {
      EdgeNamed(tree, names, leaf, step, found.value);
      return tree, names, found.value;
    }
    AddKeepsTrie(tree, names, leaf, step);
    AddKeepsCount(tree, leaf, step);
    hide *;
    AddKeepsOutputs(tree, names, paths, i, leaf, step);
    AddUsesPath(names, paths, i, name);
    AddedSizes(tree, leaf, step);
    grown, longer, next := AddChild(tree, leaf, step), names + [name], |tree|;
  }

  lemma AddUsesPath(names: seq<seq<int>>, paths: seq<seq<int>>, i: nat, name: seq<int>)
    requires i < |paths| && NamesUsed(names, paths, i + 1) && name <= paths[i]
    ensures NamesUsed(names + [name], paths, i + 1)
  {
    assert OnSomePath(paths, name, i + 1);
    hide OnSomePath;
  }

  lemma AddKeepsOutputs(tree: seq<Node>, names: seq<seq<int>>, paths: seq<seq<int>>, i: nat, parent: nat, step: int)
    requires Trie(tree, names) && parent < |tree| && i <= |paths| && OutputsPlaced(tree, names, paths, i)
    requires forall k :: 0 <= k < |tree[parent].children| ==> tree[parent].children[k].step != step
    ensures |AddChild(tree, parent, step)| == |tree| + 1
    ensures OutputsPlaced(AddChild(tree, parent, step), names + [names[parent] + [step]], paths, i)
  {
    var next, longer := AddChild(tree, parent, step), names + [names[parent] + [step]];
    assert NodeHolds(tree, names, parent);
    AddedEdges(tree, parent, step);
    NewName(tree, names, parent, step);
    hide *;
    OutputsAfterAdd(tree, names, paths, i, next, longer, names[parent] + [step]);
  }

  lemma OutputsAfterAdd(tree: seq<Node>, names: seq<seq<int>>, paths: seq<seq<int>>, i: nat, next: seq<Node>,
                        longer: seq<seq<int>>, name: seq<int>)
    requires |tree| == |names| && i <= |paths| && OutputsPlaced(tree, names, paths, i)
    requires |next| == |tree| + 1 && longer == names + [name] && name !in names && next[|tree|].outputs == []
    requires forall k :: 0 <= k < |tree| ==> next[k].outputs == tree[k].outputs
    ensures OutputsPlaced(next, longer, paths, i)
  {
    forall m: nat | m < i ensures paths[m] in longer && paths[m] != name { assert paths[m] in names; }
    forall k: nat, m: nat | k < |next| ensures Held(next, longer, paths, i, k, m) {
      if k < |tree| { assert Held(tree, names, paths, i, k, m); }
    }
  }

  method Build(paths: seq<seq<int>>) returns (tree: seq<Node>, ghost names: seq<seq<int>>)
    ensures Trie(tree, names) && EdgesCounted(tree) && OutputsPlaced(tree, names, paths, |paths|)
    ensures NamesUsed(names, paths, |paths|)
  {
    tree, names := [Node([], [])], [[]];
    for i := 0 to |paths|
      invariant Trie(tree, names) && EdgesCounted(tree) && OutputsPlaced(tree, names, paths, i)
      invariant NamesUsed(names, paths, i)
    {
      var leaf: nat;
      tree, names, leaf := Insert(tree, names, paths, i, paths[i]);
      OutputKeeps(tree, names, paths, i, leaf);
      hide *;
      tree := WithOutput(tree, leaf, i);
    }
  }

  function WithOutput(tree: seq<Node>, leaf: nat, i: nat): seq<Node>
    requires leaf < |tree|
  {
    tree[leaf := tree[leaf].(outputs := tree[leaf].outputs + [i])]
  }

  lemma OutputKeeps(tree: seq<Node>, names: seq<seq<int>>, paths: seq<seq<int>>, i: nat, leaf: nat)
    requires Trie(tree, names) && EdgesCounted(tree) && i < |paths| && OutputsPlaced(tree, names, paths, i)
    requires leaf < |tree| && names[leaf] == paths[i]
    ensures var next := WithOutput(tree, leaf, i);
            Trie(next, names) && EdgesCounted(next) && OutputsPlaced(next, names, paths, i + 1)
  {
    var next := WithOutput(tree, leaf, i);
    forall k: nat | k < |tree| ensures NodeHolds(next, names, k) { assert NodeHolds(tree, names, k); }
    forall c: nat | 0 < c < |tree| ensures HasParent(next, names, c) {
      assert HasParent(tree, names, c);
      var k: nat, e :| k < c && e in tree[k].children && e.child == c;
      assert e in next[k].children;
    }
    forall k: nat | k < |tree| ensures Fanout(next)(k) == Fanout(tree)(k) {}
    TallyEqual(All(), All(), Fanout(next), Fanout(tree), |tree|);
    OutputsAfterDelivery(tree, names, paths, i, leaf);
    hide HasParent;
    hide NodeHolds;
    hide OutputsPlaced;
    hide Fanout;
  }

  lemma OutputsAfterDelivery(tree: seq<Node>, names: seq<seq<int>>, paths: seq<seq<int>>, i: nat, leaf: nat)
    requires |tree| == |names| && i < |paths| && OutputsPlaced(tree, names, paths, i)
    requires forall j, k :: 0 <= j < k < |names| ==> names[j] != names[k]
    requires leaf < |tree| && names[leaf] == paths[i]
    ensures OutputsPlaced(WithOutput(tree, leaf, i), names, paths, i + 1)
  {
    var next, n := WithOutput(tree, leaf, i), i + 1;
    forall k: nat, m: nat | k < |tree| ensures Held(next, names, paths, n, k, m) {
      assert Held(tree, names, paths, i, k, m);
      if k < leaf { assert names[k] != names[leaf]; } else if leaf < k { assert names[leaf] != names[k]; }
    }
  }

  // ---------- distinct prefixes ----------

  /** Distinct non-empty prefixes of the step lists. */
  ghost function Prefixes(paths: seq<seq<int>>): set<seq<int>>
  {
    set i: int, n: int | 0 <= i < |paths| && 0 < n <= |paths[i]| :: paths[i][..n]
  }

  /** A trie holds every prefix of every node's name. */
  lemma {:induction false} NamesClosed(tree: seq<Node>, names: seq<seq<int>>, c: nat, name: seq<int>)
    requires Trie(tree, names) && c < |tree| && name <= names[c]
    ensures name in names
    decreases c
  {
    if name != names[c] {
      assert c > 0 && HasParent(tree, names, c);
      var k: nat, e :| k < c && e in tree[k].children && e.child == c;
      assert NodeHolds(tree, names, k);
      ShorterPrefix(name, names[k], e.step);
      NamesClosed(tree, names, k, name);
    }
  }

  lemma ShorterPrefix(name: seq<int>, parent: seq<int>, step: int)
    requires name <= parent + [step] && name != parent + [step]
    ensures name <= parent
  {
  }

  lemma {:induction false} DistinctCard<T>(s: seq<T>)
    requires forall j, k :: 0 <= j < k < |s| ==> s[j] != s[k]
    ensures |set x | x in s| == |s|
  {
    if s != [] {
      var front, last := s[..|s| - 1], s[|s| - 1];
      DistinctCard(front);
      assert (set x | x in s) == (set x | x in front) + {last};
      assert last !in front;
    }
  }

  lemma PrefixesAreNames(tree: seq<Node>, names: seq<seq<int>>, paths: seq<seq<int>>)
    requires Trie(tree, names) && OutputsPlaced(tree, names, paths, |paths|) && NamesUsed(names, paths, |paths|)
    ensures |Prefixes(paths)| == |tree| - 1
  {
    var rest := names[1..];
    forall j, k | 0 <= j < k < |rest| ensures rest[j] != rest[k] { assert names[j + 1] != names[k + 1]; }
    forall name: seq<int> ensures name in rest <==> name in Prefixes(paths) {
      NameOrPrefix(tree, names, paths, name);
    }
    DistinctCard(rest);
    assert (set x | x in rest) == Prefixes(paths);
  }

  lemma NameOrPrefix(tree: seq<Node>, names: seq<seq<int>>, paths: seq<seq<int>>, name: seq<int>)
    requires Trie(tree, names) && OutputsPlaced(tree, names, paths, |paths|) && NamesUsed(names, paths, |paths|)
    ensures name in names[1..] <==> name in Prefixes(paths)
  {
    if name in names[1..] { NameIsPrefix(tree, names, paths, name); }
    if name in Prefixes(paths) { PrefixIsName(tree, names, paths, name); }
  }

  lemma NameIsPrefix(tree: seq<Node>, names: seq<seq<int>>, paths: seq<seq<int>>, name: seq<int>)
    requires Trie(tree, names) && NamesUsed(names, paths, |paths|) && name in names[1..]
    ensures name in Prefixes(paths)
  {
    var k :| 0 <= k < |names[1..]| && names[1..][k] == name;
    assert names[k + 1] == name && names[0] != names[k + 1];
    assert OnSomePath(paths, names[k + 1], |paths|);
    var i: nat :| i < |paths| && name <= paths[i];
    assert paths[i][..|name|] == name;
  }

  lemma PrefixIsName(tree: seq<Node>, names: seq<seq<int>>, paths: seq<seq<int>>, name: seq<int>)
    requires Trie(tree, names) && OutputsPlaced(tree, names, paths, |paths|) && name in Prefixes(paths)
    ensures name in names[1..]
  {
    var i: int, n: int :| 0 <= i < |paths| && 0 < n <= |paths[i]| && paths[i][..n] == name;
    var c :| 0 <= c < |names| && names[c] == paths[i];
    NamesClosed(tree, names, c, name);
    var k :| 0 <= k < |names| && names[k] == name;
    hide Prefixes;
    assert names[1..][k - 1] == name;
  }

  function Front(name: seq<int>): seq<int> { if name == [] then [] else name[..|name| - 1] }

  /** Prefixes that some request continues. */
  ghost function Continued(paths: seq<seq<int>>): set<seq<int>>
  {
    set q | q in Prefixes(paths) :: Front(q)
  }

  /** Prefixes that requests continue in at least two ways. */
  ghost function Forks(paths: seq<seq<int>>): set<seq<int>>
  {
    set q, r | q in Prefixes(paths) && r in Prefixes(paths) && q != r && Front(q) == Front(r) :: Front(q)
  }

  // The names of the first n nodes that g counts.
  ghost function NamesWhere(names: seq<seq<int>>, g: nat -> int, n: nat): set<seq<int>>
    requires n <= |names|
  {
    set k: nat | k < n && g(k) == 1 :: names[k]
  }

  /** Counting distinctly named nodes counts names. */
  lemma {:induction false} TallyNames(names: seq<seq<int>>, g: nat -> int, n: nat)
    requires n <= |names| && forall k: nat :: k < n ==> g(k) == 0 || g(k) == 1
    requires forall j, k :: 0 <= j < k < |names| ==> names[j] != names[k]
    ensures Tally(All(), g, n) == |NamesWhere(names, g, n)|
  {
    if n > 0 {
      TallyNames(names, g, n - 1);
      var fewer := NamesWhere(names, g, n - 1);
      if g(n - 1) == 1 {
        assert NamesWhere(names, g, n) == fewer + {names[n - 1]} && names[n - 1] !in fewer;
      } else {
        assert NamesWhere(names, g, n) == fewer;
      }
    }
  }

  // Every child is one continuation of its parent's name, and every continuation is one child.
  lemma ChildContinues(tree: seq<Node>, names: seq<seq<int>>, paths: seq<seq<int>>, k: nat, j: nat)
    requires Trie(tree, names) && NamesUsed(names, paths, |paths|) && k < |tree| && j < |tree[k].children|
    ensures names[k] + [tree[k].children[j].step] in Prefixes(paths)
  {
    var e := tree[k].children[j];
    assert NodeHolds(tree, names, k) && e in tree[k].children;
    assert names[1..][e.child - 1] == names[e.child];
    NameIsPrefix(tree, names, paths, names[e.child]);
  }

  lemma PrefixChild(tree: seq<Node>, names: seq<seq<int>>, paths: seq<seq<int>>, q: seq<int>) returns (k: nat, j: nat)
    requires Trie(tree, names) && |tree| == |names| && OutputsPlaced(tree, names, paths, |paths|)
    requires q in Prefixes(paths)
    ensures q != [] && k < |tree| && names[k] == Front(q)
    ensures j < |tree[k].children| && tree[k].children[j].step == q[|q| - 1]
  {
    PrefixIsName(tree, names, paths, q);
    var c := NameIndex(names, q);
    FrontOf(q);
    hide Front;
    hide Trie;
    hide Prefixes;
    hide OutputsPlaced;
    NamesClosed(tree, names, c, Front(q));
    k :| 0 <= k < |names| && names[k] == Front(q);
    ChildEdge(tree, names, k, c, q[|q| - 1]);
    j :| 0 <= j < |tree[k].children| && tree[k].children[j] == Edge(q[|q| - 1], c);
  }

  lemma NameIndex(names: seq<seq<int>>, q: seq<int>) returns (c: nat)
    requires |names| >= 1 && names[0] == [] && q in names[1..]
    requires forall j, k :: 0 <= j < k < |names| ==> names[j] != names[k]
    ensures c < |names| && names[c] == q && q != []
  {
    var d :| 0 <= d < |names[1..]| && names[1..][d] == q;
    c := d + 1;
    assert names[0] != names[c];
  }

  lemma FrontOf(q: seq<int>)
    requires q != []
    ensures q == Front(q) + [q[|q| - 1]] && Front(q) <= q
  {
  }

  lemma InnerContinues(tree: seq<Node>, names: seq<seq<int>>, paths: seq<seq<int>>)
    requires Trie(tree, names) && OutputsPlaced(tree, names, paths, |paths|) && NamesUsed(names, paths, |paths|)
    ensures NamesWhere(names, Inner(tree), |tree|) == Continued(paths)
  {
    forall k: nat | k < |tree| && Inner(tree)(k) == 1 ensures names[k] in Continued(paths) {
      ChildContinues(tree, names, paths, k, 0);
      var q := names[k] + [tree[k].children[0].step];
      assert Front(q) == names[k];
    }
    forall p | p in Continued(paths) ensures p in NamesWhere(names, Inner(tree), |tree|) {
      var q :| q in Prefixes(paths) && Front(q) == p;
      var k, j := PrefixChild(tree, names, paths, q);
      assert Inner(tree)(k) == 1;
    }
  }

  lemma ForkBranches(tree: seq<Node>, names: seq<seq<int>>, paths: seq<seq<int>>, q: seq<int>, r: seq<int>)
    requires Trie(tree, names) && OutputsPlaced(tree, names, paths, |paths|)
    requires q in Prefixes(paths) && r in Prefixes(paths) && q != r && Front(q) == Front(r)
    ensures Front(q) in NamesWhere(names, Branching(tree), |tree|)
  {
    var k, a := PrefixChild(tree, names, paths, q);
    var m, b := PrefixChild(tree, names, paths, r);
    assert k == m;
    assert q == Front(q) + [q[|q| - 1]] && r == Front(r) + [r[|r| - 1]];
    assert a != b;
    assert Branching(tree)(k) == 1;
  }

  lemma BranchForks(tree: seq<Node>, names: seq<seq<int>>, paths: seq<seq<int>>, k: nat)
    requires Trie(tree, names) && NamesUsed(names, paths, |paths|) && k < |tree| && |tree[k].children| > 1
    ensures names[k] in Forks(paths)
  {
    assert NodeHolds(tree, names, k);
    ChildContinues(tree, names, paths, k, 0);
    ChildContinues(tree, names, paths, k, 1);
    var q, r := names[k] + [tree[k].children[0].step], names[k] + [tree[k].children[1].step];
    assert q[|names[k]|] != r[|names[k]|] && Front(q) == names[k] && Front(r) == names[k];
  }

  lemma BranchingForks(tree: seq<Node>, names: seq<seq<int>>, paths: seq<seq<int>>)
    requires Trie(tree, names) && OutputsPlaced(tree, names, paths, |paths|) && NamesUsed(names, paths, |paths|)
    ensures NamesWhere(names, Branching(tree), |tree|) == Forks(paths)
  {
    forall k: nat | k < |tree| && Branching(tree)(k) == 1 ensures names[k] in Forks(paths) {
      BranchForks(tree, names, paths, k);
    }
    forall p | p in Forks(paths) ensures p in NamesWhere(names, Branching(tree), |tree|) {
      var q, r :| q in Prefixes(paths) && r in Prefixes(paths) && q != r && Front(q) == Front(r) && Front(q) == p;
      ForkBranches(tree, names, paths, q, r);
    }
  }

  // ---------- walking ----------

  /** Folding rotate over the steps, first step first. */
  function Walk<V>(value: V, steps: seq<int>, rotate: (V, int) -> V): V
  {
    if steps == [] then value else Walk(rotate(value, steps[0]), steps[1..], rotate)
  }

  /** Every result is the input rotated along its own steps. */
  ghost predicate Walked<V>(results: seq<V>, input: V, paths: seq<seq<int>>, rotate: (V, int) -> V)
  {
    |results| == |paths| && forall i :: 0 <= i < |paths| ==> results[i] == Walk(input, paths[i], rotate)
  }

  /** A sibling batch returns what single rotations would. */
  ghost predicate Agrees<V(!new)>(rotate: (V, int) -> V, siblings: (V, seq<int>) -> seq<V>)
  {
    forall value: V, steps: seq<int> ::
      Sized(siblings, value, steps) &&
      forall k :: 0 <= k < |steps| ==> siblings(value, steps)[k] == rotate(value, steps[k])
  }

  /** Some sibling batch has the wrong size. */
  ghost predicate Misbehaves<V(!new)>(siblings: (V, seq<int>) -> seq<V>)
  {
    exists v: V, steps: seq<int> :: !Sized(siblings, v, steps)
  }

  predicate Sized<V>(siblings: (V, seq<int>) -> seq<V>, value: V, steps: seq<int>)
  {
    |siblings(value, steps)| == |steps|
  }

  function StepsOf(children: seq<Edge>): (steps: seq<int>)
    ensures |steps| == |children| && forall k :: 0 <= k < |children| ==> steps[k] == children[k].step
  {
    seq(|children|, k requires 0 <= k < |children| => children[k].step)
  }

  // Output i lies at this node or below one of the visited steps.
  predicate Visited(path: seq<int>, base: seq<int>, steps: seq<int>)
  {
    base <= path && (path == base || path[|base|] in steps)
  }

  ghost predicate Filled<V>(paths: seq<seq<int>>, base: seq<int>, steps: seq<int>, value: V, rotate: (V, int) -> V,
                            results: seq<V>, out: seq<V>)
  {
    |out| == |results| == |paths| &&
    forall i :: 0 <= i < |paths| ==>
                  out[i] == if Visited(paths[i], base, steps) then Walk(value, paths[i][|base|..], rotate)
                            else results[i]
  }

  /** Every output at or below base has been rotated along the rest of its path; the others are untouched. */
  ghost predicate SubtreeFilled<V>(paths: seq<seq<int>>, base: seq<int>, value: V, rotate: (V, int) -> V,
                                   results: seq<V>, out: seq<V>)
  {
    |out| == |results| == |paths| &&
    forall i :: 0 <= i < |paths| ==>
                  out[i] == if base <= paths[i] then Walk(value, paths[i][|base|..], rotate) else results[i]
  }

  lemma ChildVisited(path: seq<int>, base: seq<int>, steps: seq<int>, s: int)
    ensures Visited(path, base, steps + [s]) <==> Visited(path, base, steps) || base + [s] <= path
    ensures base + [s] <= path ==> |path| > |base| && path[|base|] == s && path[|base|..][1..] == path[|base| + 1..]
  {
    ExtendsBy(path, base, s);
  }

  lemma ExtendsBy(path: seq<int>, base: seq<int>, s: int)
    ensures base + [s] <= path <==> base <= path && |path| > |base| && path[|base|] == s
  {
    if base <= path && |path| > |base| && path[|base|] == s { assert path[..|base| + 1] == base + [s]; }
  }

  lemma FilledNext<V>(paths: seq<seq<int>>, base: seq<int>, steps: seq<int>, s: int, value: V, rotate: (V, int) -> V,
                      results: seq<V>, out: seq<V>, next: seq<V>)
    requires Filled(paths, base, steps, value, rotate, results, out) && s !in steps
    requires SubtreeFilled(paths, base + [s], rotate(value, s), rotate, out, next)
    ensures Filled(paths, base, steps + [s], value, rotate, results, next)
  {
    forall i | 0 <= i < |paths|
      ensures next[i] == if Visited(paths[i], base, steps + [s]) then Walk(value, paths[i][|base|..], rotate)
                         else results[i]
    {
      ChildVisited(paths[i], base, steps, s);
    }
  }

  // ---------- the traversal ----------

  // Nodes below the root of the subtree along one of the steps.
  function Under(names: seq<seq<int>>, base: seq<int>, steps: seq<int>): nat -> bool
  {
    (k: nat) => k < |names| && base < names[k] && names[k][|base|] in steps
  }

  /** The three counters of the nodes selected. */
  function Charged(stats: Stats, tree: seq<Node>, sel: nat -> bool): Stats
  {
    stats.(edges := stats.edges + Tally(sel, Fanout(tree), |tree|),
           preparations := stats.preparations + Tally(sel, Inner(tree), |tree|),
           siblingBatches := stats.siblingBatches + Tally(sel, Branching(tree), |tree|))
  }

  lemma ChargedSplit(stats: Stats, tree: seq<Node>, sel: nat -> bool, a: nat -> bool, b: nat -> bool)
    requires forall k: nat :: k < |tree| ==> (sel(k) <==> a(k) || b(k)) && !(a(k) && b(k))
    ensures Charged(stats, tree, sel) == Charged(Charged(stats, tree, a), tree, b)
  {
    TallySplit(sel, a, b, Fanout(tree), |tree|);
    TallySplit(sel, a, b, Inner(tree), |tree|);
    TallySplit(sel, a, b, Branching(tree), |tree|);
  }

  lemma ChargedNone(stats: Stats, tree: seq<Node>, sel: nat -> bool)
    requires forall k: nat :: k < |tree| ==> !sel(k)
    ensures Charged(stats, tree, sel) == stats
  {
    TallyNone(sel, Fanout(tree), |tree|);
    TallyNone(sel, Inner(tree), |tree|);
    TallyNone(sel, Branching(tree), |tree|);
  }

  lemma UnderNext(names: seq<seq<int>>, base: seq<int>, steps: seq<int>, s: int, k: nat)
    requires s !in steps && k < |names|
    ensures Under(names, base, steps + [s])(k) <==> Under(names, base, steps)(k) || Below(names, base + [s])(k)
    ensures !(Under(names, base, steps)(k) && Below(names, base + [s])(k))
  {
    ExtendsBy(names[k], base, s);
  }

  lemma ChargedNext(stats: Stats, tree: seq<Node>, names: seq<seq<int>>, base: seq<int>, steps: seq<int>, s: int)
    requires |tree| == |names| && s !in steps
    ensures Charged(stats, tree, Under(names, base, steps + [s]))
            == Charged(Charged(stats, tree, Under(names, base, steps)), tree, Below(names, base + [s]))
  {
    forall k: nat | k < |tree|
      ensures Under(names, base, steps + [s])(k) <==> Under(names, base, steps)(k) || Below(names, base + [s])(k)
      ensures !(Under(names, base, steps)(k) && Below(names, base + [s])(k))
    {
      UnderNext(names, base, steps, s, k);
    }
    ChargedSplit(stats, tree, Under(names, base, steps + [s]), Under(names, base, steps), Below(names, base + [s]));
  }

  function Here(index: nat): nat -> bool { (k: nat) => k == index }

  /** Below a node: the node itself, and everything under one of its steps. */
  lemma BelowSplit(tree: seq<Node>, names: seq<seq<int>>, index: nat, k: nat)
    requires Trie(tree, names) && index < |tree| && k < |tree|
    ensures Below(names, names[index])(k)
            <==> Here(index)(k) || Under(names, names[index], StepsOf(tree[index].children))(k)
    ensures !(Here(index)(k) && Under(names, names[index], StepsOf(tree[index].children))(k))
  {
    var base := names[index];
    if base < names[k] {
      var s := names[k][|base|];
      ExtendsBy(names[k], base, s);
      NamesClosed(tree, names, k, base + [s]);
      var c :| 0 <= c < |names| && names[c] == base + [s];
      ChildEdge(tree, names, index, c, s);
      var e :| 0 <= e < |tree[index].children| && tree[index].children[e] == Edge(s, c);
      assert StepsOf(tree[index].children)[e] == s;
    } else if base == names[k] {
      assert k == index;
    }
  }

  lemma ChargedSubtree(stats: Stats, tree: seq<Node>, names: seq<seq<int>>, index: nat)
    requires Trie(tree, names) && index < |tree|
    ensures Charged(stats, tree, Below(names, names[index]))
            == Charged(Charged(stats, tree, Here(index)), tree,
                       Under(names, names[index], StepsOf(tree[index].children)))
  {
    var under := Under(names, names[index], StepsOf(tree[index].children));
    forall k: nat | k < |tree|
      ensures Below(names, names[index])(k) <==> Here(index)(k) || under(k)
      ensures !(Here(index)(k) && under(k))
    {
      BelowSplit(tree, names, index, k);
    }
    ChargedSplit(stats, tree, Below(names, names[index]), Here(index), under);
  }

  lemma ChargedHere(stats: Stats, tree: seq<Node>, index: nat)
    requires index < |tree|
    ensures var n := |tree[index].children|;
            Charged(stats, tree, Here(index))
            == stats.(edges := stats.edges + n, preparations := stats.preparations + (if n > 0 then 1 else 0),
                      siblingBatches := stats.siblingBatches + if n > 1 then 1 else 0)
  {
    TallyOne(Here(index), Fanout(tree), |tree|, index);
    TallyOne(Here(index), Inner(tree), |tree|, index);
    TallyOne(Here(index), Branching(tree), |tree|, index);
  }

  // results[output] = value for the outputs of one node
  method Deliver<V>(outputs: seq<nat>, value: V, results: seq<V>) returns (out: seq<V>)
    requires forall k :: 0 <= k < |outputs| ==> outputs[k] < |results|
    ensures |out| == |results| && forall i :: 0 <= i < |out| ==> out[i] == if i in outputs then value else results[i]
  {
    out := results;
    for k := 0 to |outputs|
      invariant |out| == |results|
      invariant forall i :: 0 <= i < |out| ==> out[i] == if i in outputs[..k] then value else results[i]
    {
      out := out[outputs[k] := value];
    }
    assert outputs[..|outputs|] == outputs;
  }

  lemma OutputOf(tree: seq<Node>, names: seq<seq<int>>, paths: seq<seq<int>>, k: nat, i: nat)
    requires k < |tree| == |names| && OutputsPlaced(tree, names, paths, |paths|) && i in tree[k].outputs
    ensures i < |paths| && paths[i] == names[k]
  {
    assert Held(tree, names, paths, |paths|, k, i);
  }

  lemma DeliveredHere<V>(tree: seq<Node>, names: seq<seq<int>>, paths: seq<seq<int>>, index: nat, value: V,
                         rotate: (V, int) -> V, results: seq<V>, out: seq<V>)
    requires index < |tree| == |names| && OutputsPlaced(tree, names, paths, |paths|) && |out| == |results| == |paths|
    requires forall i :: 0 <= i < |out| ==> out[i] == if i in tree[index].outputs then value else results[i]
    ensures Filled(paths, names[index], [], value, rotate, results, out)
  {
    forall i: nat | i < |paths| ensures i in tree[index].outputs <==> Visited(paths[i], names[index], []) {
      assert Held(tree, names, paths, |paths|, index, i);
    }
    hide Visited;
    forall i: nat | i < |paths| && paths[i] == names[index]
      ensures Walk(value, paths[i][|names[index]|..], rotate) == value
    {
    }
    OnlyBase(paths, names[index]);
  }

  lemma OnlyBase(paths: seq<seq<int>>, base: seq<int>)
    ensures forall i :: 0 <= i < |paths| ==> (Visited(paths[i], base, []) <==> paths[i] == base)
  {
  }

  lemma FilledAll<V>(tree: seq<Node>, names: seq<seq<int>>, paths: seq<seq<int>>, index: nat, value: V,
                     rotate: (V, int) -> V, results: seq<V>, out: seq<V>)
    requires Trie(tree, names) && index < |tree| && OutputsPlaced(tree, names, paths, |paths|)
    requires Filled(paths, names[index], StepsOf(tree[index].children), value, rotate, results, out)
    ensures SubtreeFilled(paths, names[index], value, rotate, results, out)
  {
    var base := names[index];
    forall i: nat | i < |paths| && base <= paths[i] ensures Visited(paths[i], base, StepsOf(tree[index].children)) {
      var c: nat :| c < |names| && names[c] == paths[i];
      BelowSplit(tree, names, index, c);
    }
  }

  method Visit<V(!new)>(tree: seq<Node>, ghost names: seq<seq<int>>, ghost paths: seq<seq<int>>, index: nat, value: V,
                        rotate: (V, int) -> V, siblings: (V, seq<int>) -> seq<V>, results: seq<V>, stats: Stats)
    returns (ok: bool, out: seq<V>, after: Stats)
    requires Trie(tree, names) && OutputsPlaced(tree, names, paths, |paths|) && index < |tree| && |results| == |paths|
    ensures |out| == |paths|
    ensures ok ==> after == Charged(stats, tree, Below(names, names[index]))
    ensures Agrees(rotate, siblings) ==> ok && SubtreeFilled(paths, names[index], value, rotate, results, out)
    ensures !ok ==> Misbehaves(siblings)
    decreases |tree| - index
  {
    var node, base := tree[index], names[index];
    assert NodeHolds(tree, names, index);
    forall k | 0 <= k < |node.outputs| ensures node.outputs[k] < |results| {
      OutputOf(tree, names, paths, index, node.outputs[k]);
    }
    out := Deliver(node.outputs, value, results);
    DeliveredHere(tree, names, paths, index, value, rotate, results, out);
    ChargedHere(stats, tree, index);
    ChargedSubtree(stats, tree, names, index);
    var steps := StepsOf(node.children);
    after := stats;
    if node.children != [] {
      after := after.(preparations := after.preparations + 1, edges := after.edges + |node.children|);
      var nexts: seq<V>;
      if |node.children| == 1 {
        nexts := [rotate(value, steps[0])];
      } else {
        after := after.(siblingBatches := after.siblingBatches + 1);
        nexts := siblings(value, steps);
        if |nexts| != |steps| {
          assert !Sized(siblings, value, steps);
          return false, out, after;
        }
      }
      ok, out, after := VisitChildren(tree, names, paths, index, value, nexts, rotate, siblings, results, out, after);
      if !ok { return; }
    } else {
      assert steps == [];
      ChargedNone(after, tree, Under(names, base, []));
    }
    ok := true;
    if Agrees(rotate, siblings) { FilledAll(tree, names, paths, index, value, rotate, results, out); }
  }

  method VisitChildren<V(!new)>(tree: seq<Node>, ghost names: seq<seq<int>>, ghost paths: seq<seq<int>>, index: nat,
                                ghost value: V, nexts: seq<V>, rotate: (V, int) -> V,
                                siblings: (V, seq<int>) -> seq<V>, ghost results: seq<V>, first: seq<V>, stats: Stats)
    returns (ok: bool, out: seq<V>, after: Stats)
    requires Trie(tree, names) && OutputsPlaced(tree, names, paths, |paths|) && index < |tree|
    requires |nexts| == |tree[index].children| && |first| == |paths|
    requires Agrees(rotate, siblings) ==>
               Filled(paths, names[index], [], value, rotate, results, first) &&
               forall k :: 0 <= k < |nexts| ==> nexts[k] == rotate(value, tree[index].children[k].step)
    ensures |out| == |paths|
    ensures ok ==> after == Charged(stats, tree, Under(names, names[index], StepsOf(tree[index].children)))
    ensures Agrees(rotate, siblings) ==>
              ok && Filled(paths, names[index], StepsOf(tree[index].children), value, rotate, results, out)
    ensures !ok ==> Misbehaves(siblings)
    decreases |tree| - index, 0
  {
    var children := tree[index].children;
    ghost var base, steps := names[index], StepsOf(children);
    out, after := first, stats;
    ChargedNone(stats, tree, Under(names, base, []));
    assert steps[..0] == [];
    for j := 0 to |children|
      invariant |out| == |paths| && after == Charged(stats, tree, Under(names, base, steps[..j]))
      invariant Agrees(rotate, siblings) ==> Filled(paths, base, steps[..j], value, rotate, results, out)
    {
      ChildFacts(tree, names, index, j);
      assert steps[..j + 1] == steps[..j] + [steps[j]];
      ChargedNext(stats, tree, names, base, steps[..j], steps[j]);
      ghost var before := out;
      hide *;
      ok, out, after := Visit(tree, names, paths, children[j].child, nexts[j], rotate, siblings, out, after);
      if !ok { return; }
      if Agrees(rotate, siblings) {
        FilledNext(paths, base, steps[..j], steps[j], value, rotate, results, before, out);
      }
    }
    assert steps[..|steps|] == steps;
    ok := true;
  }

  lemma ChildFacts(tree: seq<Node>, names: seq<seq<int>>, index: nat, j: nat)
    requires Trie(tree, names) && index < |tree| && j < |tree[index].children|
    ensures var e, steps := tree[index].children[j], StepsOf(tree[index].children);
            index < e.child < |tree| && names[e.child] == names[index] + [e.step] && steps[j] == e.step &&
            e.step !in steps[..j]
  {
    assert NodeHolds(tree, names, index) && tree[index].children[j] in tree[index].children;
  }

  // ---------- the batch ----------

  /** The rotation steps of every request. */
  function PathsOf(offsets: seq<int>, slots: int, naf: bool): (paths: seq<seq<int>>)
    requires RotationSteps.SlotsAccepted(slots)
    ensures |paths| == |offsets|
    ensures forall i :: 0 <= i < |offsets| ==> paths[i] == RotationSteps.StepList(offsets[i], slots, naf)
  {
    seq(|offsets|, i requires 0 <= i < |offsets| => RotationSteps.StepList(offsets[i], slots, naf))
  }

  method PathsFor(offsets: seq<int>, slots: int, naf: bool) returns (r: Option<seq<seq<int>>>)
    requires RotationSteps.IsInt(slots)
    ensures r.None? <==> offsets != [] && !RotationSteps.SlotsAccepted(slots)
    ensures r.Some? ==> |r.value| == |offsets|
    ensures r.Some? && RotationSteps.SlotsAccepted(slots) ==> r.value == PathsOf(offsets, slots, naf)
  {
    var paths: seq<seq<int>> := [];
    for i := 0 to |offsets|
      invariant |paths| == i && (i > 0 ==> RotationSteps.SlotsAccepted(slots))
      invariant forall k :: 0 <= k < i ==> paths[k] == RotationSteps.StepList(offsets[k], slots, naf)
    {
      var steps := RotationSteps.Steps(offsets[i], slots, naf);
      if steps.None? { return None; }
      hide *;
      paths := paths + [steps.value];
    }
    r := Some(paths);
  }

  /** Edges are the distinct non-empty prefixes; every continued prefix is prepared once, every fork is one batch. */
  ghost predicate CountersGrow(before: Stats, after: Stats, paths: seq<seq<int>>)
  {
    after == Stats(before.requests + |paths|, before.edges + |Prefixes(paths)|,
                   before.preparations + |Continued(paths)|, before.siblingBatches + |Forks(paths)|)
  }

  /**
   Every request gets its own rotation, step by step, when sibling batches agree with single rotations; all four
   counters are exact.
   */
  method RotatePrefixBatch<V(!new)>(input: V, offsets: seq<int>, slots: int, naf: bool, rotate: (V, int) -> V,
                                    siblings: (V, seq<int>) -> seq<V>, stats: Stats)
    returns (r: Option<seq<V>>, after: Stats)
    requires RotationSteps.IsInt(slots)
    ensures offsets != [] && !RotationSteps.SlotsAccepted(slots) ==> r.None?
    ensures r.None? ==> (offsets != [] && !RotationSteps.SlotsAccepted(slots)) ||
                        Misbehaves(siblings)
    ensures Agrees(rotate, siblings) && RotationSteps.SlotsAccepted(slots) ==>
              r.Some? && Walked(r.value, input, PathsOf(offsets, slots, naf), rotate)
    ensures r.Some? && RotationSteps.SlotsAccepted(slots) ==>
              CountersGrow(stats, after, PathsOf(offsets, slots, naf))
  {
    after := stats;
    var found := PathsFor(offsets, slots, naf);
    if found.None? { return None, after; }
    r, after := RotatePaths(input, found.value, rotate, siblings, stats);
  }

  // Builds the trie of all paths and walks it from the root.
  method RotatePaths<V(!new)>(input: V, paths: seq<seq<int>>, rotate: (V, int) -> V,
                              siblings: (V, seq<int>) -> seq<V>, stats: Stats)
    returns (r: Option<seq<V>>, after: Stats)
    ensures r.None? ==> Misbehaves(siblings)
    ensures Agrees(rotate, siblings) ==> r.Some? && Walked(r.value, input, paths, rotate)
    ensures r.Some? ==> CountersGrow(stats, after, paths)
  {
    hide *;
    ghost var names: seq<seq<int>>;
    var tree: seq<Node>;
    tree, names := Build(paths);
    RootSizes(tree, names);
    var blank := Blank(|paths|, input);
    var ok, out, charged := Visit(tree, names, paths, 0, input, rotate, siblings, blank, Requested(stats, |paths|));
    BatchCounts(tree, names, paths, stats);
    BatchResults(tree, names, paths, input, rotate, blank, out);
    after := charged;
    r := if ok then Some(out) else None;
  }

  function Blank<V>(n: nat, v: V): (r: seq<V>)
    ensures |r| == n
  {
    seq(n, _ => v)
  }

  function Requested(stats: Stats, n: nat): Stats { stats.(requests := stats.requests + n) }

  lemma RootSizes(tree: seq<Node>, names: seq<seq<int>>)
    requires Trie(tree, names)
    ensures |tree| == |names| >= 1
  {
  }

  lemma BatchCounts(tree: seq<Node>, names: seq<seq<int>>, paths: seq<seq<int>>, stats: Stats)
    requires Trie(tree, names) && |tree| == |names| >= 1 && EdgesCounted(tree)
    requires OutputsPlaced(tree, names, paths, |paths|) && NamesUsed(names, paths, |paths|)
    ensures CountersGrow(stats, Charged(Requested(stats, |paths|), tree, Below(names, names[0])), paths)
  {
    PrefixesAreNames(tree, names, paths);
    TallyEqual(Below(names, names[0]), All(), Fanout(tree), Fanout(tree), |tree|);
    TallyEqual(Below(names, names[0]), All(), Inner(tree), Inner(tree), |tree|);
    TallyEqual(Below(names, names[0]), All(), Branching(tree), Branching(tree), |tree|);
    TallyNames(names, Inner(tree), |tree|);
    TallyNames(names, Branching(tree), |tree|);
    InnerContinues(tree, names, paths);
    BranchingForks(tree, names, paths);
    hide NamesWhere;
    hide Continued;
    hide Forks;
    hide Prefixes;
    hide Tally;
  }

  lemma BatchResults<V>(tree: seq<Node>, names: seq<seq<int>>, paths: seq<seq<int>>, input: V, rotate: (V, int) -> V,
                        blank: seq<V>, out: seq<V>)
    requires Trie(tree, names) && |tree| == |names| >= 1
    ensures SubtreeFilled(paths, names[0], input, rotate, blank, out) ==> Walked(out, input, paths, rotate)
  {
    forall i | 0 <= i < |paths| ensures [] <= paths[i] && paths[i][0..] == paths[i] {}
    hide Walk;
  }
}
