/**
 Well-formed packed programs: what read_packed_program accepts
 (native/fideslib_stage0/include/packed_program.hpp:33-134).
 */
module PackedProgram {
  import opened Powers

  datatype Operation =
    | Input | Public | Feedback | Add | Mul | AddPublic | MulPublic | Linear | LinearRef
    | Repeat | Cheb | Sum | Gather | Scatter

  datatype Node = Node(operation: Operation, size: int, parents: seq<int>, data: seq<real>)

  // version2 is the second file format, which adds feedback and shared linear weights.
  datatype Program = Program(version2: bool, slots: int, nodes: seq<Node>, outputs: seq<int>)

  predicate Integral(x: real) { x.Floor as real == x }

  function OperandCount(op: Operation): nat
  {
    match op
    case Input => 0
    case Public => 0
    case Add => 2
    case Mul => 2
    case _ => 1
  }

  predicate Distinct(data: seq<real>)
  {
    forall i, j :: 0 <= i < j < |data| ==> data[i] != data[j]
  }

  predicate IndicesBelow(data: seq<real>, limit: int)
  {
    forall k :: 0 <= k < |data| ==> 0.0 <= data[k] < limit as real && Integral(data[k])
  }

  predicate SizesWithin(data: seq<real>, slots: int)
  {
    forall k :: 0 <= k < |data| ==> 1.0 <= data[k] <= slots as real && Integral(data[k])
  }

  predicate ParentsBefore(nodes: seq<Node>, i: nat)
    requires i < |nodes|
  {
    forall k :: 0 <= k < |nodes[i].parents| ==> 0 <= nodes[i].parents[k] < i
  }

  /** The operation-specific rules, given the operand sizes. */
  predicate DataAccepted(p: Program, i: nat)
    requires i < |p.nodes| && ParentsBefore(p.nodes, i)
    requires |p.nodes[i].parents| == OperandCount(p.nodes[i].operation)
  {
    var n := p.nodes[i];
    var count := |n.data|;
    var inputSize := if n.parents == [] then 0 else p.nodes[n.parents[0]].size;
    match n.operation
    case Input => count == n.size
    case Public => count == n.size
    case Add => count == 0 && inputSize == n.size && p.nodes[n.parents[1]].size == n.size
    case Mul => count == 0 && inputSize == n.size && p.nodes[n.parents[1]].size == n.size
    case AddPublic => count == n.size && inputSize == n.size
    case MulPublic => count == n.size && inputSize == n.size
    case Linear => count == n.size * inputSize
    case Feedback => p.version2 && count == 0 && n.size == inputSize
    case LinearRef =>
      p.version2 && count == 1 && Integral(n.data[0]) && 0.0 <= n.data[0] < i as real &&
      var weight := p.nodes[n.data[0].Floor];
      weight.operation == Linear && weight.size == n.size && |weight.data| == n.size * inputSize
    case Repeat =>
      count == 3 && SizesWithin(n.data, p.slots) &&
      (p.version2 || PowerOfTwo(n.data[2].Floor)) &&
      n.data[0].Floor * n.data[1].Floor == inputSize && inputSize * n.data[2].Floor == n.size
    case Cheb => 4 <= count <= 1027 && n.data[0] < n.data[1] && inputSize == n.size
    case Sum =>
      count == 1 && SizesWithin(n.data, p.slots) && PowerOfTwo(n.data[0].Floor) && n.size * n.data[0].Floor == inputSize
    case Gather => count == n.size && IndicesBelow(n.data, inputSize)
    case Scatter => count == inputSize && IndicesBelow(n.data, n.size) && Distinct(n.data)
  }

  predicate NodeAccepted(p: Program, i: nat)
    requires i < |p.nodes|
  {
    var n := p.nodes[i];
    1 <= n.size <= p.slots && ParentsBefore(p.nodes, i) && |n.data| <= p.slots * p.slots &&
    |n.parents| == OperandCount(n.operation) && DataAccepted(p, i)
  }

  predicate Accepted(p: Program)
  {
    2 <= p.slots <= 32768 && PowerOfTwo(p.slots) &&
    1 <= |p.nodes| <= 100000 && 1 <= |p.outputs| <= |p.nodes| &&
    (forall i :: 0 <= i < |p.nodes| ==> NodeAccepted(p, i)) &&
    OutputsInside(p)
  }

  predicate OutputsInside(p: Program)
  {
    forall k :: 0 <= k < |p.outputs| ==> 0 <= p.outputs[k] < |p.nodes|
  }

  /** Every operand of a node comes before it. */
  predicate Topological(p: Program)
  {
    forall i: nat :: i < |p.nodes| ==> ParentsBefore(p.nodes, i)
  }

  lemma AcceptedTopological(p: Program)
    requires Accepted(p)
    ensures Topological(p) && OutputsInside(p)
  {
    forall i: nat | i < |p.nodes| ensures ParentsBefore(p.nodes, i) { assert NodeAccepted(p, i); }
  }
}
