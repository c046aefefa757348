/**
 DeferredMamba2State (src/fhemamba/ssm_algebra.py:13-66) for one head: a checkpoint and fewer than window pending
 rank-one updates stand for the dense recurrence state.
 */
module SsmAlgebra {
  import opened Options
  import opened Reals
  import opened Slots

  datatype Write = Write(u: Vector, key: Vector, weight: real)

  type Matrix = seq<Vector>

  predicate Shape(m: Matrix, channels: nat, width: nat)
  {
    |m| == channels && forall p :: 0 <= p < channels ==> |m[p]| == width
  }

  predicate WritesFit(pending: seq<Write>, channels: nat, width: nat)
  {
    forall i :: 0 <= i < |pending| ==> |pending[i].u| == channels && |pending[i].key| == width
  }

  // ---------- entries ----------

  /** weight * u * key */
  function Outer(w: Write, p: nat, n: nat): real
    requires p < |w.u| && n < |w.key|
  {
    Times(Times(w.weight, w.u[p]), w.key[n])
  }

  /** The checkpoint, decayed, plus the first m pending updates. */
  function Entry(base: Matrix, decay: real, pending: seq<Write>, p: nat, n: nat, m: nat): real
    requires p < |base| && n < |base[p]| && WritesFit(pending, |base|, |base[p]|) && m <= |pending|
  {
    if m == 0 then Times(decay, base[p][n])
    else Entry(base, decay, pending, p, n, m - 1) + Outer(pending[m - 1], p, n)
  }

  /** The dense state a checkpoint and its first m pending updates stand for. */
  function Materialized(base: Matrix, decay: real, pending: seq<Write>, channels: nat, width: nat, m: nat): (r: Matrix)
    requires Shape(base, channels, width) && WritesFit(pending, channels, width) && m <= |pending|
    ensures Shape(r, channels, width)
  {
    seq(channels, p requires 0 <= p < channels =>
      seq(width, n requires 0 <= n < width => Entry(base, decay, pending, p, n, m)))
  }

  /** One dense step: state * decay + u b^T. */
  function DenseStep(state: Matrix, decay: real, u: Vector, b: Vector): (r: Matrix)
    requires Shape(state, |u|, |b|)
    ensures Shape(r, |u|, |b|)
  {
    seq(|u|, p requires 0 <= p < |u| =>
      seq(|b|, n requires 0 <= n < |b| => Times(decay, state[p][n]) + Times(u[p], b[n])))
  }

  // ---------- what a step does to the entries ----------

  function DecayedWrites(pending: seq<Write>, decay: real): (r: seq<Write>)
    ensures |r| == |pending|
  {
    seq(|pending|, i requires 0 <= i < |pending| => pending[i].(weight := Times(pending[i].weight, decay)))
  }

  lemma OuterDecays(w: Write, decay: real, p: nat, n: nat)
    requires p < |w.u| && n < |w.key|
    ensures Outer(w.(weight := Times(w.weight, decay)), p, n) == Times(decay, Outer(w, p, n))
  {
    DecayAlgebra(w.weight, decay, w.u[p], w.key[n]);
    hide Times;
  }

  lemma DecayAlgebra(w: real, decay: real, u: real, k: real)
    ensures Times(Times(Times(w, decay), u), k) == Times(decay, Times(Times(w, u), k))
  {
    assert ((w * decay) * u) * k == decay * ((w * u) * k);
  }

  lemma TimesAdds(c: real, x: real, y: real)
    ensures Times(c, x + y) == Times(c, x) + Times(c, y)
  {
  }

  lemma TimesAssociates(x: real, y: real, z: real)
    ensures Times(Times(x, y), z) == Times(y, Times(x, z))
  {
  }

  lemma TimesUnit(x: real)
    ensures Times(1.0, x) == x
  {
  }

  /** Decaying the checkpoint factor and every weight decays every entry. */
  lemma {:induction false} EntryDecays(base: Matrix, scale: real, pending: seq<Write>, decay: real, p: nat, n: nat,
                                       m: nat)
    requires p < |base| && n < |base[p]| && WritesFit(pending, |base|, |base[p]|) && m <= |pending|
    ensures Entry(base, Times(scale, decay), DecayedWrites(pending, decay), p, n, m)
            == Times(decay, Entry(base, scale, pending, p, n, m))
    decreases m
  {
    if m == 0 {
      TimesAssociates(scale, decay, base[p][n]);
    } else {
      EntryDecays(base, scale, pending, decay, p, n, m - 1);
      OuterDecays(pending[m - 1], decay, p, n);
      TimesAdds(decay, Entry(base, scale, pending, p, n, m - 1), Outer(pending[m - 1], p, n));
      hide Times;
      hide Outer;
    }
  }

  lemma {:induction false} EntryPrefix(base: Matrix, scale: real, pending: seq<Write>, more: seq<Write>, p: nat,
                                       n: nat, m: nat)
    requires p < |base| && n < |base[p]| && WritesFit(pending + more, |base|, |base[p]|) && m <= |pending|
    requires WritesFit(pending, |base|, |base[p]|)
    ensures Entry(base, scale, pending + more, p, n, m) == Entry(base, scale, pending, p, n, m)
    decreases m
  {
    if m > 0 { EntryPrefix(base, scale, pending, more, p, n, m - 1); }
  }

  function Pended(pending: seq<Write>, decay: real, u: Vector, b: Vector): seq<Write>
  {
    DecayedWrites(pending, decay) + [Write(u, b, 1.0)]
  }

  /** After a step every entry is the dense step of the old one. */
  lemma StepEntry(base: Matrix, scale: real, pending: seq<Write>, decay: real, u: Vector, b: Vector, p: nat, n: nat)
    requires p < |base| && n < |base[p]| && WritesFit(pending, |base|, |base[p]|) && |u| == |base| && |b| == |base[p]|
    ensures WritesFit(Pended(pending, decay, u, b), |base|, |base[p]|)
    ensures Entry(base, Times(scale, decay), Pended(pending, decay, u, b), p, n, |pending| + 1)
            == Times(decay, Entry(base, scale, pending, p, n, |pending|)) + Times(u[p], b[n])
  {
    var decayed := DecayedWrites(pending, decay);
    EntryDecays(base, scale, pending, decay, p, n, |pending|);
    EntryPrefix(base, Times(scale, decay), decayed, [Write(u, b, 1.0)], p, n, |pending|);
    TimesUnit(u[p]);
    hide Times;
  }

  // ---------- readout ----------

  // base_decay * <base row, c> plus the first m scored updates
  function Readout(base: Matrix, decay: real, pending: seq<Write>, c: Vector, p: nat, m: nat): real
    requires p < |base| && |base[p]| == |c| && WritesFit(pending, |base|, |c|) && m <= |pending|
  {
    if m == 0 then Times(decay, Dot(base[p], c))
    else
      Readout(base, decay, pending, c, p, m - 1) +
      Times(Times(pending[m - 1].weight, Dot(pending[m - 1].key, c)), pending[m - 1].u[p])
  }

  function EntryTerms(base: Matrix, decay: real, pending: seq<Write>, c: Vector, p: nat, m: nat): nat -> real
    requires p < |base| && |base[p]| == |c| && WritesFit(pending, |base|, |c|) && m <= |pending|
  {
    (n: nat) => if n < |c| then Times(Entry(base, decay, pending, p, n, m), c[n]) else 0.0
  }

  function WriteTerms(w: Write, c: Vector, p: nat): nat -> real
    requires |w.key| == |c| && p < |w.u|
  {
    (n: nat) => if n < |c| then Times(Outer(w, p, n), c[n]) else 0.0
  }

  lemma BaseTerm(decay: real, x: real, c: real, sum: real)
    ensures Times(decay, sum + Times(x, c)) == Times(decay, sum) + Times(Times(decay, x), c)
  {
    assert decay * (x * c) == (decay * x) * c;
  }

  lemma {:induction false} BaseReads(base: Matrix, decay: real, pending: seq<Write>, c: Vector, p: nat, n: nat)
    requires p < |base| && |base[p]| == |c| && WritesFit(pending, |base|, |c|) && n <= |c|
    ensures Sum(n, EntryTerms(base, decay, pending, c, p, 0)) == Times(decay, Sum(n, Products(base[p], c)))
  {
    if n > 0 {
      BaseReads(base, decay, pending, c, p, n - 1);
      BaseTerm(decay, base[p][n - 1], c[n - 1], Sum(n - 1, Products(base[p], c)));
      hide Times;
    } else {
      assert Times(decay, 0.0) == 0.0;
    }
  }

  lemma ScoreTerm(w: real, u: real, k: real, c: real, sum: real)
    ensures Times(Times(w, sum + Times(k, c)), u) == Times(Times(w, sum), u) + Times(Times(Times(w, u), k), c)
  {
    assert (w * (k * c)) * u == ((w * u) * k) * c;
    assert (w * (sum + k * c)) * u == (w * sum) * u + (w * (k * c)) * u;
  }

  lemma {:induction false} WriteReads(w: Write, c: Vector, p: nat, n: nat)
    requires |w.key| == |c| && p < |w.u| && n <= |c|
    ensures Sum(n, WriteTerms(w, c, p)) == Times(Times(w.weight, Sum(n, Products(w.key, c))), w.u[p])
  {
    if n > 0 {
      WriteReads(w, c, p, n - 1);
      ScoreTerm(w.weight, w.u[p], w.key[n - 1], c[n - 1], Sum(n - 1, Products(w.key, c)));
      hide Times;
    } else {
      assert Times(Times(w.weight, 0.0), w.u[p]) == 0.0;
    }
  }

  /** The deferred readout is the readout of the entries it stands for. */
  lemma {:induction false} ReadoutMeans(base: Matrix, decay: real, pending: seq<Write>, c: Vector, p: nat, m: nat)
    requires p < |base| && |base[p]| == |c| && WritesFit(pending, |base|, |c|) && m <= |pending|
    ensures Readout(base, decay, pending, c, p, m) == Sum(|c|, EntryTerms(base, decay, pending, c, p, m))
    decreases m
  {
    if m == 0 {
      BaseReads(base, decay, pending, c, p, |c|);
    } else {
      ReadoutMeans(base, decay, pending, c, p, m - 1);
      var w := pending[m - 1];
      WriteReads(w, c, p, |c|);
      forall n: nat | n < |c|
        ensures EntryTerms(base, decay, pending, c, p, m)(n)
                == EntryTerms(base, decay, pending, c, p, m - 1)(n) + WriteTerms(w, c, p)(n)
      {
        SplitTimes(Entry(base, decay, pending, p, n, m - 1), Outer(w, p, n), c[n]);
        hide Times;
        hide Outer;
      }
      hide Times;
      hide EntryTerms;
      hide WriteTerms;
      SumAdd(|c|, EntryTerms(base, decay, pending, c, p, m - 1), WriteTerms(w, c, p),
             EntryTerms(base, decay, pending, c, p, m));
    }
  }

  lemma SplitTimes(x: real, y: real, c: real)
    ensures Times(x + y, c) == Times(x, c) + Times(y, c)
  {
  }

  lemma StepMaterialized(base: Matrix, scale: real, pending: seq<Write>, decay: real, u: Vector, b: Vector)
    requires Shape(base, |u|, |b|) && WritesFit(pending, |u|, |b|)
    ensures WritesFit(Pended(pending, decay, u, b), |u|, |b|)
    ensures Materialized(base, Times(scale, decay), Pended(pending, decay, u, b), |u|, |b|, |pending| + 1)
            == DenseStep(Materialized(base, scale, pending, |u|, |b|, |pending|), decay, u, b)
  {
    var next := Pended(pending, decay, u, b);
    var left := Materialized(base, Times(scale, decay), next, |u|, |b|, |pending| + 1);
    var right := DenseStep(Materialized(base, scale, pending, |u|, |b|, |pending|), decay, u, b);
    forall p | 0 <= p < |u| ensures left[p] == right[p] {
      forall n | 0 <= n < |b| ensures left[p][n] == right[p][n] { StepEntry(base, scale, pending, decay, u, b, p, n); }
    }
  }

  lemma ReadoutDense(base: Matrix, scale: real, pending: seq<Write>, channels: nat, c: Vector, p: nat)
    requires Shape(base, channels, |c|) && WritesFit(pending, channels, |c|) && p < channels
    ensures Readout(base, scale, pending, c, p, |pending|)
            == Dot(Materialized(base, scale, pending, channels, |c|, |pending|)[p], c)
  {
    var state := Materialized(base, scale, pending, channels, |c|, |pending|);
    ReadoutMeans(base, scale, pending, c, p, |pending|);
    forall n: nat | n < |c| ensures EntryTerms(base, scale, pending, c, p, |pending|)(n) == Products(state[p], c)(n) {
      assert state[p][n] == Entry(base, scale, pending, p, n, |pending|);
    }
    SumEqual(|c|, EntryTerms(base, scale, pending, c, p, |pending|), Products(state[p], c));
  }

  lemma CheckpointMaterialized(base: Matrix, channels: nat, width: nat)
    requires Shape(base, channels, width)
    ensures Materialized(base, 1.0, [], channels, width, 0) == base
  {
    var state := Materialized(base, 1.0, [], channels, width, 0);
    forall p | 0 <= p < channels ensures state[p] == base[p] {
      forall n | 0 <= n < width ensures state[p][n] == base[p][n] { TimesUnit(base[p][n]); }
    }
  }

  // state + (weight * u) key^T
  function AddWrite(state: Matrix, w: Write): Matrix
    requires Shape(state, |w.u|, |w.key|)
  {
    seq(|w.u|, p requires 0 <= p < |w.u| => seq(|w.key|, n requires 0 <= n < |w.key| => state[p][n] + Outer(w, p, n)))
  }

  lemma MaterializedNext(base: Matrix, decay: real, pending: seq<Write>, channels: nat, width: nat, m: nat)
    requires Shape(base, channels, width) && WritesFit(pending, channels, width) && m < |pending|
    ensures AddWrite(Materialized(base, decay, pending, channels, width, m), pending[m])
            == Materialized(base, decay, pending, channels, width, m + 1)
  {
    var left := AddWrite(Materialized(base, decay, pending, channels, width, m), pending[m]);
    var right := Materialized(base, decay, pending, channels, width, m + 1);
    forall p | 0 <= p < channels ensures left[p] == right[p] {
      forall n | 0 <= n < width ensures left[p][n] == right[p][n] {}
    }
  }

  // base_decay * (base c)
  function CheckpointReads(base: Matrix, decay: real, c: Vector, channels: nat, width: nat): (r: Vector)
    requires Shape(base, channels, width) && |c| == width
    ensures |r| == channels
  {
    seq(channels, p requires 0 <= p < channels => Times(decay, Dot(base[p], c)))
  }

  // output + scored * u
  function AddScored(output: Vector, u: Vector, scored: real): (r: Vector)
    requires |output| == |u|
    ensures |r| == |u|
  {
    seq(|u|, p requires 0 <= p < |u| => output[p] + Times(scored, u[p]))
  }

  // ---------- the deferred state ----------

  class DeferredMamba2State {
    const channels: nat
    const width: nat
    const window: nat
    var base: Matrix
    var baseDecay: real
    var pending: seq<Write>
    var flushes: int

    ghost predicate Valid()
      reads this
    {
      channels > 0 && width > 0 && window > 0 && Shape(base, channels, width) && WritesFit(pending, channels, width) &&
      |pending| < window
    }

    /** The dense recurrence state. */
    ghost function Dense(): Matrix
      requires Valid()
      reads this
    {
      Materialized(base, baseDecay, pending, channels, width, |pending|)
    }

    constructor (initial: Matrix, channels: nat, width: nat, window: nat)
      requires channels > 0 && width > 0 && Shape(initial, channels, width) && window > 0
      ensures Valid() && Dense() == initial && this.window == window && this.channels == channels && this.width == width
      ensures pending == [] && flushes == 0
    {
      this.channels, this.width, this.window := channels, width, window;
      base, baseDecay, pending, flushes := initial, 1.0, [], 0;
      new;
      CheckpointMaterialized(initial, channels, width);
    }

    method Materialize() returns (state: Matrix)
      requires Shape(base, channels, width) && WritesFit(pending, channels, width)
      ensures state == Materialized(base, baseDecay, pending, channels, width, |pending|)
    {
      state := Materialized(base, baseDecay, pending, channels, width, 0);
      for m := 0 to |pending|
        invariant state == Materialized(base, baseDecay, pending, channels, width, m)
      {
        MaterializedNext(base, baseDecay, pending, channels, width, m);
        state := AddWrite(state, pending[m]);
      }
    }

    /** Folds the pending updates into the checkpoint; the dense state does not change. */
    method Flush()
      requires channels > 0 && width > 0 && window > 0 && |pending| <= window
      requires Shape(base, channels, width) && WritesFit(pending, channels, width)
      modifies this
      ensures Valid() && pending == []
      ensures Dense() == old(Materialized(base, baseDecay, pending, channels, width, |pending|))
      ensures flushes == old(flushes) + if old(pending) == [] then 0 else 1
    {
      if pending == [] { return; }
      var state := Materialize();
      base, baseDecay := state, 1.0;
      pending := [];
      flushes := flushes + 1;
      CheckpointMaterialized(state, channels, width);
    }

    /** One step of the dense recurrence, read out along c; the window is flushed when it fills up. */
    method Step(decay: real, update: Vector, b: Vector, c: Vector) returns (r: Option<Vector>)
      requires Valid()
      modifies this
      ensures Valid()
      ensures r.None? <==> |update| != channels || |b| != width || |c| != width
      ensures r.None? ==> unchanged(this)
      ensures r.Some? ==> Dense() == DenseStep(old(Dense()), decay, update, b)
      ensures r.Some? ==> |r.value| == channels && forall p: nat :: p < channels ==> r.value[p] == Dot(Dense()[p], c)
      ensures r.Some? ==> if |old(pending)| + 1 == window then pending == [] && flushes == old(flushes) + 1
                          else |pending| == |old(pending)| + 1 && flushes == old(flushes)
    {
      if |update| != channels || |b| != width || |c| != width { return None; }
      StepMaterialized(base, baseDecay, pending, decay, update, b);
      baseDecay := Times(baseDecay, decay);
      pending := Pended(pending, decay, update, b);
      hide Materialized;
      hide DenseStep;
      hide Dot;
      var output := ReadOut(c);
      if |pending| == window { Flush(); }
      r := Some(output);
    }

    /** The readout contracts the checkpoint once and every pending update by its score. */
    method ReadOut(c: Vector) returns (output: Vector)
      requires Shape(base, channels, width) && WritesFit(pending, channels, width) && |c| == width
      ensures |output| == channels && forall p: nat :: p < channels ==>
                output[p] == Dot(Materialized(base, baseDecay, pending, channels, width, |pending|)[p], c)
    {
      output := CheckpointReads(base, baseDecay, c, channels, width);
      for m := 0 to |pending|
        invariant |output| == channels
        invariant forall p: nat :: p < channels ==> output[p] == Readout(base, baseDecay, pending, c, p, m)
      {
        var w := pending[m];
        var score := Dot(w.key, c);
        output := AddScored(output, w.u, Times(w.weight, score));
      }
      forall p: nat | p < channels
        ensures output[p] == Dot(Materialized(base, baseDecay, pending, channels, width, |pending|)[p], c)
      {
        ReadoutDense(base, baseDecay, pending, channels, c, p);
      }
    }
  }

  /** Builds a state from a tensor; empty shapes and windows below one are refused. */
  method NewState(initial: Matrix, channels: nat, width: nat, window: int) returns (r: Option<DeferredMamba2State>)
    requires Shape(initial, channels, width)
    ensures r.None? <==> channels < 1 || width < 1 || window < 1
    ensures r.Some? ==> fresh(r.value) && r.value.Valid() && r.value.Dense() == initial && r.value.window == window
    ensures r.Some? ==> r.value.channels == channels && r.value.width == width && r.value.flushes == 0
  {
    if channels < 1 || width < 1 || window < 1 { return None; }
    var state := new DeferredMamba2State(initial, channels, width, window);
    r := Some(state);
  }
}
