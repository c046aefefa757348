/**
 _affine_scan and chunked_scan (src/fhemamba/reference.py:69-113) on one lane: a doubling scan inside chunks and a
 serial carry across them equal the sequential recurrence.
 */
module Scan {
  import opened Modular
  import opened Options
  import opened Reals

  // h -> a * h + b
  datatype Affine = Affine(a: real, b: real)

  /** b + a * h */
  function MulAdd(b: real, a: real, h: real): real { b + a * h }

  function Apply(m: Affine, h: real): real { MulAdd(m.b, m.a, h) }

  /** First m1, then m2. */
  function Compose(m2: Affine, m1: Affine): Affine { Affine(Times(m2.a, m1.a), MulAdd(m2.b, m2.a, m1.b)) }

  lemma MulAddNests(b2: real, a2: real, b1: real, a1: real, h: real)
    ensures MulAdd(MulAdd(b2, a2, b1), Times(a2, a1), h) == MulAdd(b2, a2, MulAdd(b1, a1, h))
  {
    assert (a2 * a1) * h == a2 * (a1 * h);
  }

  lemma TimesAssociates(x: real, y: real, z: real)
    ensures Times(x, Times(y, z)) == Times(Times(x, y), z)
  {
  }

  lemma ComposeApplies(m2: Affine, m1: Affine, h: real)
    ensures Apply(Compose(m2, m1), h) == Apply(m2, Apply(m1, h))
  {
    MulAddNests(m2.b, m2.a, m1.b, m1.a, h);
    hide MulAdd;
    hide Times;
  }

  lemma ComposeAssociates(m3: Affine, m2: Affine, m1: Affine)
    ensures Compose(m3, Compose(m2, m1)) == Compose(Compose(m3, m2), m1)
  {
    MulAddNests(m3.b, m3.a, m2.b, m2.a, m1.b);
    TimesAssociates(m3.a, m2.a, m1.a);
    hide MulAdd;
    hide Times;
  }

  /** Steps lo to hi - 1 as one map. */
  function Fold(maps: seq<Affine>, lo: nat, hi: nat): Affine
    requires lo < hi <= |maps|
    decreases hi
  {
    if hi == lo + 1 then maps[lo] else Compose(maps[hi - 1], Fold(maps, lo, hi - 1))
  }

  lemma {:induction false} FoldSplit(maps: seq<Affine>, lo: nat, mid: nat, hi: nat)
    requires lo < mid < hi <= |maps|
    ensures Fold(maps, lo, hi) == Compose(Fold(maps, mid, hi), Fold(maps, lo, mid))
    decreases hi
  {
    if hi > mid + 1 {
      FoldSplit(maps, lo, mid, hi - 1);
      ComposeAssociates(maps[hi - 1], Fold(maps, mid, hi - 1), Fold(maps, lo, mid));
      hide Compose;
    }
  }

  /** The sequential recurrence h_t = a_t * h_(t-1) + b_t after t steps. */
  function State(decay: seq<real>, update: seq<real>, start: real, t: nat): real
    requires t <= |decay| == |update|
  {
    if t == 0 then start else Apply(Affine(decay[t - 1], update[t - 1]), State(decay, update, start, t - 1))
  }

  /** The product of the first t factors. */
  function Product(decay: seq<real>, t: nat): real
    requires t <= |decay|
  {
    if t == 0 then 1.0 else Times(decay[t - 1], Product(decay, t - 1))
  }

  function Maps(decay: seq<real>, update: seq<real>): (maps: seq<Affine>)
    requires |decay| == |update|
    ensures |maps| == |decay|
  {
    seq(|decay|, t requires 0 <= t < |decay| => Affine(decay[t], update[t]))
  }

  lemma {:induction false} FoldIsState(decay: seq<real>, update: seq<real>, start: real, lo: nat, hi: nat)
    requires lo < hi <= |decay| == |update|
    ensures Apply(Fold(Maps(decay, update), lo, hi), State(decay, update, start, lo)) == State(decay, update, start, hi)
    decreases hi
  {
    if hi > lo + 1 {
      var maps := Maps(decay, update);
      FoldIsState(decay, update, start, lo, hi - 1);
      ComposeApplies(maps[hi - 1], Fold(maps, lo, hi - 1), State(decay, update, start, lo));
      hide Apply;
      hide Compose;
    }
  }

  lemma {:induction false} FoldFactor(decay: seq<real>, update: seq<real>, hi: nat)
    requires 0 < hi <= |decay| == |update|
    ensures Fold(Maps(decay, update), 0, hi).a == Product(decay, hi)
  {
    if hi > 1 {
      FoldFactor(decay, update, hi - 1);
      hide Times;
      hide MulAdd;
    }
  }

  // ---------- the doubling scan ----------

  function From(t: nat, offset: nat): nat { if t + 1 <= offset then 0 else t + 1 - offset }

  /** After rounds up to this offset every entry covers that many steps back, or all of them. */
  ghost predicate Windows(maps: seq<Affine>, a: seq<real>, b: seq<real>, offset: nat)
  {
    offset > 0 && |a| == |b| == |maps| &&
    forall t: nat :: t < |maps| ==> Affine(a[t], b[t]) == Fold(maps, From(t, offset), t + 1)
  }

  // The first entries, then every later one combined with the one offset before it.
  function JoinedUpdates(b: seq<real>, a: seq<real>, offset: nat): (r: seq<real>)
    requires offset <= |b| == |a|
    ensures |r| == |b|
  {
    seq(|b|, t requires 0 <= t < |b| => if t < offset then b[t] else MulAdd(b[t], a[t], b[t - offset]))
  }

  function JoinedDecays(a: seq<real>, offset: nat): (r: seq<real>)
    requires offset <= |a|
    ensures |r| == |a|
  {
    seq(|a|, t requires 0 <= t < |a| => if t < offset then a[t] else Times(a[t], a[t - offset]))
  }

  lemma RoundDoubles(maps: seq<Affine>, a: seq<real>, b: seq<real>, offset: nat)
    requires Windows(maps, a, b, offset) && offset < |maps| && |a| == |b| == |maps|
    ensures Windows(maps, JoinedDecays(a, offset), JoinedUpdates(b, a, offset), 2 * offset)
  {
    hide Fold;
    hide Times;
    hide MulAdd;
    var nextA, nextB := JoinedDecays(a, offset), JoinedUpdates(b, a, offset);
    forall t: nat | t < |maps| ensures Affine(nextA[t], nextB[t]) == Fold(maps, From(t, 2 * offset), t + 1) {
      if t >= offset { WindowsJoin(maps, a, b, offset, t); }
    }
  }

  lemma WindowsJoin(maps: seq<Affine>, a: seq<real>, b: seq<real>, offset: nat, t: nat)
    requires Windows(maps, a, b, offset) && offset <= t < |maps|
    ensures Compose(Affine(a[t], b[t]), Affine(a[t - offset], b[t - offset])) == Fold(maps, From(t, 2 * offset), t + 1)
  {
    hide Compose;
    FoldSplit(maps, From(t, 2 * offset), t + 1 - offset, t + 1);
    assert From(t - offset, offset) == From(t, 2 * offset) && From(t, offset) == t + 1 - offset;
  }

  /** a[t] becomes the product up to t, b[t] the state up to t from zero. */
  method AffineScan(decay: seq<real>, update: seq<real>) returns (a: seq<real>, b: seq<real>)
    requires |decay| == |update|
    ensures |a| == |b| == |decay|
    ensures forall t: nat :: t < |decay| ==> a[t] == Product(decay, t + 1) && b[t] == State(decay, update, 0.0, t + 1)
    ensures forall t: nat :: t < |decay| ==> Affine(a[t], b[t]) == Fold(Maps(decay, update), 0, t + 1)
  {
    a, b := decay, update;
    ghost var maps := Maps(decay, update);
    var offset := 1;
    while offset < |decay|
      invariant Windows(maps, a, b, offset)
      decreases |decay| - offset
    {
      assert |a| == |b| == |decay|;
      RoundDoubles(maps, a, b, offset);
      b := JoinedUpdates(b, a, offset);
      a := JoinedDecays(a, offset);
      offset := offset * 2;
    }
    forall t: nat | t < |decay|
      ensures Affine(a[t], b[t]) == Fold(maps, 0, t + 1)
      ensures a[t] == Product(decay, t + 1) && b[t] == State(decay, update, 0.0, t + 1)
    {
      FoldFactor(decay, update, t + 1);
      FoldIsState(decay, update, 0.0, 0, t + 1);
      FromZero(Fold(maps, 0, t + 1));
    }
  }

  lemma FromZero(m: Affine)
    ensures Apply(m, 0.0) == m.b
  {
  }

  // ---------- chunks ----------

  /** Extra steps that leave the carry unchanged: -length modulo chunk. */
  function Padding(length: nat, chunk: nat): nat
    requires chunk > 0
  {
    (0 - length) % chunk
  }

  lemma PaddedLength(length: nat, chunk: nat)
    requires chunk > 0
    ensures (length + Padding(length, chunk)) % chunk == 0 && Padding(length, chunk) < chunk
  {
    var q := (0 - length) / chunk;
    assert 0 - length == q * chunk + Padding(length, chunk);
    assert length + Padding(length, chunk) == (-q) * chunk;
    ModMultiple(0, -q, chunk);
  }

  lemma {:induction false} StatePrefix(decay: seq<real>, update: seq<real>, a: seq<real>, b: seq<real>, start: real,
                                       t: nat)
    requires |decay| == |update| && |a| == |b| && t <= |decay| && decay <= a && update <= b
    ensures State(a, b, start, t) == State(decay, update, start, t)
    decreases t
  {
    if t > 0 { StatePrefix(decay, update, a, b, start, t - 1); }
  }

  /** The recurrence from step lo on, started from the state at lo. */
  lemma {:induction false} StateFrom(decay: seq<real>, update: seq<real>, start: real, lo: nat, hi: nat, t: nat)
    requires lo + t <= hi <= |decay| == |update|
    ensures State(decay[lo..hi], update[lo..hi], State(decay, update, start, lo), t)
            == State(decay, update, start, lo + t)
    decreases t
  {
    if t > 0 { StateFrom(decay, update, start, lo, hi, t - 1); }
  }

  /** One chunk: entry t is B + A * carry. */
  method ScanChunk(decay: seq<real>, update: seq<real>, carry: real) returns (states: seq<real>)
    requires |decay| == |update|
    ensures |states| == |decay| && forall t: nat :: t < |states| ==> states[t] == State(decay, update, carry, t + 1)
  {
    var a, b := AffineScan(decay, update);
    states := seq(|a|, t requires 0 <= t < |a| => MulAdd(b[t], a[t], carry));
    forall t: nat | t < |states| ensures states[t] == State(decay, update, carry, t + 1) {
      FoldIsState(decay, update, carry, 0, t + 1);
      assert Apply(Affine(a[t], b[t]), carry) == states[t];
      hide Fold;
    }
  }

  /**
   All states of the recurrence for every length, chunk size and initial state. A chunk size below one and the empty
   sequence, which has no piece to concatenate, are refused.
   */
  method ChunkedScan(decay: seq<real>, update: seq<real>, chunk: int, initial: Option<real>)
    returns (r: Option<seq<real>>)
    requires |decay| == |update|
    ensures r.None? <==> chunk < 1 || decay == []
    ensures r.Some? ==> |r.value| == |decay| && forall t: nat :: t < |decay| ==>
              r.value[t] == State(decay, update, if initial.Some? then initial.value else 0.0, t + 1)
  {
    if chunk < 1 || decay == [] { return None; }
    var pad := Padding(|decay|, chunk);
    PaddedLength(|decay|, chunk);
    var a, b := decay + seq(pad, _ => 1.0), update + seq(pad, _ => 0.0);
    var carry := if initial.Some? then initial.value else 0.0;
    var states := ScanChunks(a, b, chunk, carry);
    forall t: nat | t < |decay| ensures states[t] == State(decay, update, carry, t + 1) {
      StatePrefix(decay, update, a, b, carry, t + 1);
    }
    r := Some(states[..|decay|]);
  }

  method ScanChunks(a: seq<real>, b: seq<real>, chunk: nat, start: real) returns (states: seq<real>)
    requires |a| == |b| && chunk > 0 && |a| % chunk == 0
    ensures |states| == |a| && forall t: nat :: t < |a| ==> states[t] == State(a, b, start, t + 1)
  {
    states := [];
    var carry, lo := start, 0;
    while lo < |a|
      invariant lo <= |a| && lo % chunk == 0 && |states| == lo && carry == State(a, b, start, lo)
      invariant forall t: nat :: t < lo ==> states[t] == State(a, b, start, t + 1)
    {
      NextChunk(lo, |a|, chunk);
      var hi := lo + chunk;
      var piece := ScanChunk(a[lo..hi], b[lo..hi], carry);
      forall t: nat | t < chunk ensures piece[t] == State(a, b, start, lo + t + 1) {
        StateFrom(a, b, start, lo, hi, t + 1);
      }
      hide *;
      states := states + piece;
      carry := piece[chunk - 1];
      lo := hi;
    }
  }

  lemma NextChunk(lo: nat, total: nat, chunk: nat)
    requires chunk > 0 && lo < total && lo % chunk == 0 && total % chunk == 0
    ensures lo + chunk <= total && (lo + chunk) % chunk == 0
  {
    var p, q := lo / chunk, total / chunk;
    assert lo == p * chunk && total == q * chunk;
    MultipleGap(chunk, q - p);
    assert (q - p) * chunk == total - lo;
    ModMultiple(lo, 1, chunk);
  }
}
