/**
 The two states of mamba3_step (src/fhemamba/mamba3.py:132-150) for one head: a finite history of rank-one writes
 against the dense recurrence it factors. Decay, lag and write weights, keys, values and readouts are inputs.
 */
module Mamba3 {
  import opened Options
  import opened Reals
  import opened Sequences
  import opened Slots

  datatype Token = Token(decay: real, lag: real, write: real, key: Vector, value: Vector, readout: Vector)

  // k and v are the previous key and value, which the lag weight writes once more.
  datatype Dense = Dense(ssm: seq<Vector>, k: Vector, v: Vector)

  datatype Factored = Factored(keys: seq<Vector>, values: seq<Vector>, weights: seq<real>)

  predicate TokenFits(t: Token, width: nat, channels: nat)
  {
    |t.key| == |t.readout| == width && |t.value| == channels
  }

  predicate DenseFits(d: Dense, width: nat, channels: nat)
  {
    |d.ssm| == channels && |d.k| == width && |d.v| == channels && forall p :: 0 <= p < channels ==> |d.ssm[p]| == width
  }

  predicate FactoredFits(f: Factored, width: nat, channels: nat)
  {
    |f.keys| == |f.values| == |f.weights| &&
    forall i :: 0 <= i < |f.keys| ==> |f.keys[i]| == width && |f.values[i]| == channels
  }

  // ---------- rank-one terms ----------

  function Outer(v: real, k: real, w: real): real { v * k * w }

  lemma OuterScales(v: real, k: real, w: real, decay: real)
    ensures Outer(v, k, Times(w, decay)) == Times(Outer(v, k, w), decay)
  {
    assert v * k * (w * decay) == (v * k * w) * decay;
  }

  lemma OuterAdds(v: real, k: real, w: real, lag: real)
    ensures Outer(v, k, w + lag) == Outer(v, k, w) + Outer(v, k, lag)
  {
  }

  lemma OuterZero(v: real, k: real, w: real)
    ensures v == 0.0 ==> Outer(v, k, w) == 0.0
  {
  }

  lemma TimesAdds(x: real, y: real, c: real)
    ensures Times(x + y, c) == Times(x, c) + Times(y, c)
  {
  }

  lemma TimesZero(x: real)
    ensures Times(0.0, x) == 0.0
  {
  }

  // ---------- the dense recurrence ----------

  /** state * decay + (v k^T) * lag + (value key^T) * write */
  function DenseEntry(d: Dense, t: Token, p: nat, n: nat): real
    requires DenseFits(d, |t.key|, |t.value|) && p < |t.value| && n < |t.key|
  {
    Times(d.ssm[p][n], t.decay) + Outer(d.v[p], d.k[n], t.lag) + Outer(t.value[p], t.key[n], t.write)
  }

  function DenseRow(d: Dense, t: Token, p: nat): (row: Vector)
    requires DenseFits(d, |t.key|, |t.value|) && p < |t.value|
    ensures |row| == |t.key|
  {
    seq(|t.key|, n requires 0 <= n < |t.key| => DenseEntry(d, t, p, n))
  }

  function DenseNext(d: Dense, t: Token): (next: Dense)
    requires DenseFits(d, |t.key|, |t.value|)
    ensures DenseFits(next, |t.key|, |t.value|)
  {
    Dense(seq(|t.value|, p requires 0 <= p < |t.value| => DenseRow(d, t, p)), t.key, t.value)
  }

  /** Channel p after a step: the new state read along the token, plus the skip connection. */
  function DenseOutput(next: Dense, t: Token, skip: real, p: nat): real
    requires DenseFits(next, |t.readout|, |t.value|) && p < |t.value|
  {
    Dot(next.ssm[p], t.readout) + Times(t.value[p], skip)
  }

  // ---------- the factored history ----------

  /** Older weights decay; the newest of them also takes the lag write. */
  function Decayed(weights: seq<real>, t: Token): (r: seq<real>)
    ensures |r| == |weights|
  {
    seq(|weights|, i requires 0 <= i < |weights| =>
      Times(weights[i], t.decay) + if i == |weights| - 1 then t.lag else 0.0)
  }

  function FactoredNext(f: Factored, t: Token): (next: Factored)
    requires FactoredFits(f, |t.key|, |t.value|)
    ensures FactoredFits(next, |t.key|, |t.value|) && |next.keys| == |f.keys| + 1
  {
    Factored(f.keys + [t.key], f.values + [t.value], Decayed(f.weights, t) + [t.write])
  }

  function Score(f: Factored, readout: Vector, i: nat): real
    requires i < |f.keys| == |f.weights| && |f.keys[i]| == |readout|
  {
    Times(Dot(f.keys[i], readout), f.weights[i])
  }

  /** Contributions of the first m history entries to channel p. */
  function HistoryOutput(f: Factored, readout: Vector, channels: nat, p: nat, m: nat): real
    requires FactoredFits(f, |readout|, channels) && p < channels && m <= |f.keys|
  {
    if m == 0 then 0.0
    else HistoryOutput(f, readout, channels, p, m - 1) + Times(f.values[m - 1][p], Score(f, readout, m - 1))
  }

  // y += value * score for one history entry
  function Accumulate(y: Vector, value: Vector, score: real): (r: Vector)
    requires |y| == |value|
    ensures |r| == |y|
  {
    seq(|y|, p requires 0 <= p < |y| => y[p] + Times(value[p], score))
  }

  function Skipped(value: Vector, skip: real): (r: Vector)
    ensures |r| == |value|
  {
    seq(|value|, p requires 0 <= p < |value| => Times(value[p], skip))
  }

  method FactoredStep(f: Factored, t: Token, skip: real) returns (r: Option<(Vector, Factored)>)
    requires |t.key| == |t.readout|
    ensures r.None? <==> !FactoredFits(f, |t.key|, |t.value|)
    ensures r.Some? ==> var (y, next) := r.value;
                        next == FactoredNext(f, t) && |y| == |t.value| &&
                        forall p: nat :: p < |y| ==>
                          y[p] == Times(t.value[p], skip) + HistoryOutput(next, t.readout, |t.value|, p, |next.keys|)
  {
    if !FactoredFits(f, |t.key|, |t.value|) { return None; }
    var weights := seq(|f.weights|, i requires 0 <= i < |f.weights| => Times(f.weights[i], t.decay));
    if weights != [] { weights := weights[|weights| - 1 := weights[|weights| - 1] + t.lag]; }
    assert weights == Decayed(f.weights, t);
    var next := Factored(f.keys + [t.key], f.values + [t.value], weights + [t.write]);
    var y := Skipped(t.value, skip);
    for i := 0 to |next.keys|
      invariant |y| == |t.value|
      invariant forall p: nat :: p < |y| ==>
                  y[p] == Times(t.value[p], skip) + HistoryOutput(next, t.readout, |t.value|, p, i)
    {
      y := Accumulate(y, next.values[i], Score(next, t.readout, i));
    }
    r := Some((y, next));
  }

  // ---------- one representation of the other ----------

  /** Entry (p, n) of the first m writes of the history. */
  function HistoryEntry(f: Factored, width: nat, channels: nat, p: nat, n: nat, m: nat): real
    requires FactoredFits(f, width, channels) && p < channels && n < width && m <= |f.keys|
  {
    if m == 0 then 0.0
    else HistoryEntry(f, width, channels, p, n, m - 1) + Outer(f.values[m - 1][p], f.keys[m - 1][n], f.weights[m - 1])
  }

  ghost predicate EntriesAgree(d: Dense, f: Factored, width: nat, channels: nat)
    requires DenseFits(d, width, channels) && FactoredFits(f, width, channels)
  {
    forall p: nat, n: nat :: p < channels && n < width ==> EntryAgrees(d, f, width, channels, p, n)
  }

  ghost predicate EntryAgrees(d: Dense, f: Factored, width: nat, channels: nat, p: nat, n: nat)
    requires DenseFits(d, width, channels) && FactoredFits(f, width, channels) && p < channels && n < width
  {
    d.ssm[p][n] == HistoryEntry(f, width, channels, p, n, |f.keys|)
  }

  /** The dense state is the sum of the weighted writes, and its k and v are the newest key and value. */
  ghost predicate Represents(d: Dense, f: Factored, width: nat, channels: nat)
  {
    DenseFits(d, width, channels) && FactoredFits(f, width, channels) && EntriesAgree(d, f, width, channels) &&
    if f.keys == [] then d.k == Zeros(width) && d.v == Zeros(channels)
    else d.k == f.keys[|f.keys| - 1] && d.v == f.values[|f.values| - 1]
  }

  lemma {:induction false} HistoryPrefix(f: Factored, g: Factored, width: nat, channels: nat, p: nat, n: nat, m: nat)
    requires FactoredFits(f, width, channels) && FactoredFits(g, width, channels) && p < channels && n < width
    requires m <= |f.keys| <= |g.keys|
    requires forall i :: 0 <= i < m ==>
               f.keys[i] == g.keys[i] && f.values[i] == g.values[i] && f.weights[i] == g.weights[i]
    ensures HistoryEntry(f, width, channels, p, n, m) == HistoryEntry(g, width, channels, p, n, m)
    decreases m
  {
    if m > 0 { HistoryPrefix(f, g, width, channels, p, n, m - 1); }
  }

  /** Decaying every weight, and lagging the newest, acts on the sum as one dense step without the new write. */
  lemma {:induction false} HistoryDecays(f: Factored, t: Token, width: nat, channels: nat, p: nat, n: nat, m: nat)
    requires FactoredFits(f, width, channels) && p < channels && n < width && m <= |f.keys|
    ensures HistoryEntry(f.(weights := Decayed(f.weights, t)), width, channels, p, n, m)
            == Times(HistoryEntry(f, width, channels, p, n, m), t.decay) +
               if 0 < m == |f.keys| then Outer(f.values[m - 1][p], f.keys[m - 1][n], t.lag) else 0.0
    decreases m
  {
    if m == 0 {
      TimesZero(t.decay);
    } else {
      HistoryDecays(f, t, width, channels, p, n, m - 1);
      var v, k, w := f.values[m - 1][p], f.keys[m - 1][n], f.weights[m - 1];
      OuterScales(v, k, w, t.decay);
      OuterAdds(v, k, Times(w, t.decay), t.lag);
      TimesAdds(HistoryEntry(f, width, channels, p, n, m - 1), Outer(v, k, w), t.decay);
      hide Outer;
      hide Times;
    }
  }

  lemma StepEntry(d: Dense, f: Factored, t: Token, width: nat, channels: nat, p: nat, n: nat)
    requires Represents(d, f, width, channels) && TokenFits(t, width, channels) && p < channels && n < width
    ensures EntryAgrees(DenseNext(d, t), FactoredNext(f, t), width, channels, p, n)
  {
    var m, next := |f.keys|, FactoredNext(f, t);
    var decayed := f.(weights := Decayed(f.weights, t));
    HistoryDecays(f, t, width, channels, p, n, m);
    HistoryPrefix(decayed, next, width, channels, p, n, m);
    assert EntryAgrees(d, f, width, channels, p, n);
    assert HistoryEntry(next, width, channels, p, n, m + 1)
        == HistoryEntry(next, width, channels, p, n, m) + Outer(t.value[p], t.key[n], t.write);
    OuterZero(d.v[p], d.k[n], t.lag);
    hide Outer;
    hide Times;
    assert DenseNext(d, t).ssm[p][n] == DenseEntry(d, t, p, n);
  }

  /** Every step keeps the representation, the first one included. */
  lemma StepRepresents(d: Dense, f: Factored, t: Token, width: nat, channels: nat)
    requires Represents(d, f, width, channels) && TokenFits(t, width, channels)
    ensures Represents(DenseNext(d, t), FactoredNext(f, t), width, channels)
  {
    forall p: nat, n: nat | p < channels && n < width
      ensures EntryAgrees(DenseNext(d, t), FactoredNext(f, t), width, channels, p, n)
    {
      StepEntry(d, f, t, width, channels, p, n);
    }
    hide EntryAgrees;
  }

  // ---------- the readouts ----------

  // Entry n of the first m writes, times the readout.
  function HistoryTerms(f: Factored, c: Vector, channels: nat, p: nat, m: nat): nat -> real
    requires FactoredFits(f, |c|, channels) && p < channels && m <= |f.keys|
  {
    (n: nat) => if n < |c| then Times(HistoryEntry(f, |c|, channels, p, n, m), c[n]) else 0.0
  }

  function WriteTerms(k: Vector, c: Vector, v: real, w: real): nat -> real
    requires |k| == |c|
  {
    (n: nat) => if n < |c| then Times(Outer(v, k[n], w), c[n]) else 0.0
  }

  lemma WriteTerm(v: real, k: real, w: real, c: real, sum: real)
    ensures Times(v, Times(sum + Times(k, c), w)) == Times(v, Times(sum, w)) + Times(Outer(v, k, w), c)
  {
    assert (sum + k * c) * w == sum * w + (k * c) * w;
    assert v * ((k * c) * w) == (v * k * w) * c;
    Expand(v, sum * w, (k * c) * w);
  }

  lemma Expand(v: real, a: real, b: real)
    ensures v * (a + b) == v * a + v * b
  {
  }

  lemma {:induction false} WriteReads(k: Vector, c: Vector, v: real, w: real, n: nat)
    requires |k| == |c| && n <= |c|
    ensures Sum(n, WriteTerms(k, c, v, w)) == Times(v, Times(Sum(n, Products(k, c)), w))
  {
    if n == 0 {
      TimesZero(w);
      assert Times(v, 0.0) == 0.0;
    } else {
      WriteReads(k, c, v, w, n - 1);
      WriteTerm(v, k[n - 1], w, c[n - 1], Sum(n - 1, Products(k, c)));
      hide Times;
      hide Outer;
    }
  }

  /** Reading the summed writes is summing the scored values. */
  lemma {:induction false} HistoryReads(f: Factored, c: Vector, channels: nat, p: nat, m: nat)
    requires FactoredFits(f, |c|, channels) && p < channels && m <= |f.keys|
    ensures Sum(|c|, HistoryTerms(f, c, channels, p, m)) == HistoryOutput(f, c, channels, p, m)
    decreases m
  {
    if m == 0 {
      forall n: nat | n < |c| ensures HistoryTerms(f, c, channels, p, 0)(n) == 0.0 { TimesZero(c[n]); }
      SumZero(|c|, HistoryTerms(f, c, channels, p, 0));
    } else {
      HistoryReads(f, c, channels, p, m - 1);
      var v, k, w := f.values[m - 1][p], f.keys[m - 1], f.weights[m - 1];
      forall n: nat | n < |c|
        ensures HistoryTerms(f, c, channels, p, m)(n)
                == HistoryTerms(f, c, channels, p, m - 1)(n) + WriteTerms(k, c, v, w)(n)
      {
        TimesAdds(HistoryEntry(f, |c|, channels, p, n, m - 1), Outer(v, k[n], w), c[n]);
        hide Times;
        hide Outer;
      }
      WriteReads(k, c, v, w, |c|);
      hide Times;
      hide Outer;
      hide HistoryTerms;
      hide WriteTerms;
      SumAdd(|c|, HistoryTerms(f, c, channels, p, m - 1), WriteTerms(k, c, v, w), HistoryTerms(f, c, channels, p, m));
    }
  }

  /** Both states read out the same value in every channel. */
  lemma ReadoutsAgree(d: Dense, f: Factored, t: Token, skip: real, width: nat, channels: nat, p: nat)
    requires Represents(d, f, width, channels) && TokenFits(t, width, channels) && p < channels
    ensures DenseOutput(d, t, skip, p)
            == Times(t.value[p], skip) + HistoryOutput(f, t.readout, channels, p, |f.keys|)
  {
    HistoryReads(f, t.readout, channels, p, |f.keys|);
    forall n: nat | n < width
      ensures Products(d.ssm[p], t.readout)(n) == HistoryTerms(f, t.readout, channels, p, |f.keys|)(n)
    {
      assert EntryAgrees(d, f, width, channels, p, n);
    }
    SumEqual(width, Products(d.ssm[p], t.readout), HistoryTerms(f, t.readout, channels, p, |f.keys|));
  }

  // ---------- whole sequences ----------

  function DenseStart(width: nat, channels: nat): Dense
  {
    Dense(seq(channels, _ => Zeros(width)), Zeros(width), Zeros(channels))
  }

  const FACTORED_START := Factored([], [], [])

  predicate TokensFit(tokens: seq<Token>, width: nat, channels: nat)
  {
    forall i :: 0 <= i < |tokens| ==> TokenFits(tokens[i], width, channels)
  }

  function DenseAfter(tokens: seq<Token>, width: nat, channels: nat): (d: Dense)
    requires TokensFit(tokens, width, channels)
    ensures DenseFits(d, width, channels)
  {
    if tokens == [] then DenseStart(width, channels)
    else DenseNext(DenseAfter(tokens[..|tokens| - 1], width, channels), tokens[|tokens| - 1])
  }

  function FactoredAfter(tokens: seq<Token>, width: nat, channels: nat): (f: Factored)
    requires TokensFit(tokens, width, channels)
    ensures FactoredFits(f, width, channels) && |f.keys| == |tokens|
  {
    if tokens == [] then FACTORED_START
    else FactoredNext(FactoredAfter(tokens[..|tokens| - 1], width, channels), tokens[|tokens| - 1])
  }

  /** After any token sequence the two states represent each other and have just read out the same outputs. */
  lemma {:induction false} HistoriesAgree(tokens: seq<Token>, width: nat, channels: nat, skip: real)
    requires TokensFit(tokens, width, channels)
    ensures Represents(DenseAfter(tokens, width, channels), FactoredAfter(tokens, width, channels), width, channels)
    ensures tokens != [] ==>
              var t := tokens[|tokens| - 1];
              var d, f := DenseAfter(tokens, width, channels), FactoredAfter(tokens, width, channels);
              forall p: nat :: p < channels ==>
                DenseOutput(d, t, skip, p) ==
                  Times(t.value[p], skip) + HistoryOutput(f, t.readout, channels, p, |tokens|)
    decreases |tokens|
  {
    if tokens == [] {
      StartsRepresent(width, channels);
    } else {
      var front, t := tokens[..|tokens| - 1], tokens[|tokens| - 1];
      HistoriesAgree(front, width, channels, skip);
      StepRepresents(DenseAfter(front, width, channels), FactoredAfter(front, width, channels), t, width, channels);
      hide Represents;
      hide DenseNext;
      hide FactoredNext;
      var d, f := DenseAfter(tokens, width, channels), FactoredAfter(tokens, width, channels);
      forall p: nat | p < channels
        ensures DenseOutput(d, t, skip, p) ==
                  Times(t.value[p], skip) + HistoryOutput(f, t.readout, channels, p, |tokens|)
      {
        ReadoutsAgree(d, f, t, skip, width, channels, p);
      }
    }
  }

  lemma StartsRepresent(width: nat, channels: nat)
    ensures Represents(DenseStart(width, channels), FACTORED_START, width, channels)
  {
    forall p: nat, n: nat | p < channels && n < width
      ensures EntryAgrees(DenseStart(width, channels), FACTORED_START, width, channels, p, n)
    {
    }
  }
}
