/**
 Which blocks of a joint gate are rescaled or refused, and where a series is split into blocks
 (native/fideslib_stage0/include/stage1_joint_gates.hpp:73-75, 86-102), said about the coefficients themselves.
 */
module JointBlocks {
  import opened Binary64
  import opened Reals
  import opened Powers
  import opened JointGates

  // ---------- the smallest row maximum ----------

  ghost predicate Nonzero(row: seq<real>) { exists h :: 0 <= h < |row| && row[h] != 0.0 }

  /** Some entry has at least this magnitude. */
  ghost predicate HasEntry(row: seq<real>, m: real) { exists h :: 0 <= h < |row| && Abs(row[h]) >= m }

  /** m is the largest magnitude in the row. */
  ghost predicate Largest(row: seq<real>, m: real)
  {
    (exists h :: 0 <= h < |row| && Abs(row[h]) == m) && forall h :: 0 <= h < |row| ==> Abs(row[h]) <= m
  }

  lemma {:induction false} RowMaxMeans(row: seq<real>)
    ensures RowMax(row) >= 0.0 && (RowMax(row) > 0.0 <==> Nonzero(row))
    ensures RowMax(row) > 0.0 ==> Largest(row, RowMax(row))
    ensures forall h :: 0 <= h < |row| ==> Abs(row[h]) <= RowMax(row)
    decreases |row|
  {
    if row != [] {
      var rest, n := row[..|row| - 1], |row| - 1;
      RowMaxMeans(rest);
      assert forall h :: 0 <= h < n ==> rest[h] == row[h];
      assert RowMax(row) == Max(RowMax(rest), Abs(row[n]));
      hide RowMax;
      if Nonzero(row) {
        var h :| 0 <= h < |row| && row[h] != 0.0;
        assert Abs(row[h]) > 0.0;
        if h < n { assert rest[h] != 0.0; }
      }
      if RowMax(rest) > 0.0 {
        var h :| 0 <= h < |rest| && Abs(rest[h]) == RowMax(rest);
        assert row[h] != 0.0 && Abs(row[h]) == RowMax(rest);
      }
      if Abs(row[n]) > 0.0 { assert row[n] != 0.0; }
    }
  }

  /**
   The minimum is at most one, no larger than what every row that is not zero offers, and taken by a row unless one.
   */
  lemma {:induction false} MinimumMeans(c: Rows)
    ensures 0.0 < BlockMinimum(c) <= 1.0
    ensures forall i :: 0 <= i < |c| && Nonzero(c[i]) ==> HasEntry(c[i], BlockMinimum(c))
    ensures BlockMinimum(c) == 1.0 || exists i :: 0 <= i < |c| && Largest(c[i], BlockMinimum(c))
    decreases |c|
  {
    if c != [] {
      var rest, n := c[..|c| - 1], |c| - 1;
      MinimumMeans(rest);
      RowMaxMeans(c[n]);
      assert forall i :: 0 <= i < n ==> rest[i] == c[i];
      MinimumNext(c);
      hide BlockMinimum;
      hide RowMax;
      hide Nonzero;
      if BlockMinimum(c) != 1.0 && BlockMinimum(c) == BlockMinimum(rest) {
        var i :| 0 <= i < |rest| && Largest(rest[i], BlockMinimum(rest));
        assert Largest(c[i], BlockMinimum(c));
      }
      hide Largest;
      forall i | 0 <= i < |c| && Nonzero(c[i]) ensures HasEntry(c[i], BlockMinimum(c)) {
        if i < n {
          Weaker(c[i], BlockMinimum(rest), BlockMinimum(c));
        } else {
          LargestEntry(c[n], RowMax(c[n]));
          Weaker(c[n], RowMax(c[n]), BlockMinimum(c));
        }
      }
    }
  }

  lemma MinimumNext(c: Rows)
    requires c != []
    ensures var rest, maximum := BlockMinimum(c[..|c| - 1]), RowMax(c[|c| - 1]);
            BlockMinimum(c) == if maximum > 0.0 then Min(rest, maximum) else rest
  {
    hide RowMax;
  }

  lemma LargestEntry(row: seq<real>, m: real)
    requires Largest(row, m)
    ensures HasEntry(row, m)
  {
  }

  lemma Weaker(row: seq<real>, m: real, other: real)
    requires HasEntry(row, m) && other <= m
    ensures HasEntry(row, other)
  {
  }

  // ---------- rescaling ----------

  // An entry is representable after so many doublings.
  predicate Representable(x: real, shift: int) { Times(Abs(x), Ldexp(shift)) >= SMALLEST }

  /** After so many doublings every row that is not zero has an entry of at least the smallest supported magnitude. */
  ghost predicate Lifted(c: Rows, shift: int)
  {
    forall i :: 0 <= i < |c| && Nonzero(c[i]) ==> exists h :: 0 <= h < |c[i]| && Representable(c[i][h], shift)
  }

  /** The exponent is the difference of logarithms, rounded up. */
  ghost predicate RoundsUp(exponent: real -> int)
  {
    forall m: real :: 0.0 < m < SMALLEST ==>
                        Times(m, Ldexp(exponent(m))) >= SMALLEST > Times(m, Ldexp(exponent(m) - 1))
  }

  lemma TimesGrows(x: real, a: int, b: int)
    requires x >= 0.0 && a <= b
    ensures Times(x, Ldexp(a)) <= Times(x, Ldexp(b))
  {
    LdexpMono(a, b);
    hide Ldexp;
    MonoProduct(Ldexp(a), Ldexp(b), x, Times(x, Ldexp(a)), Times(x, Ldexp(b)));
  }

  lemma UnitShift(x: real)
    ensures Times(x, Ldexp(0)) == x
  {
    UnitInverse();
  }

  lemma EnoughLifts(c: Rows, shift: int)
    requires Times(BlockMinimum(c), Ldexp(shift)) >= SMALLEST
    ensures Lifted(c, shift)
  {
    MinimumMeans(c);
    hide BlockMinimum;
    hide Ldexp;
    forall i | 0 <= i < |c| && Nonzero(c[i]) ensures exists h :: 0 <= h < |c[i]| && Representable(c[i][h], shift) {
      var h :| 0 <= h < |c[i]| && Abs(c[i][h]) >= BlockMinimum(c);
      TimesMono(BlockMinimum(c), Abs(c[i][h]), Ldexp(shift));
      hide Times;
      assert Representable(c[i][h], shift);
    }
  }

  lemma TooLittleFails(c: Rows, shift: int)
    requires Times(BlockMinimum(c), Ldexp(shift)) < SMALLEST && BlockMinimum(c) < 1.0
    ensures !Lifted(c, shift)
  {
    MinimumMeans(c);
    hide BlockMinimum;
    hide Ldexp;
    var i :| 0 <= i < |c| && Largest(c[i], BlockMinimum(c));
    var k :| 0 <= k < |c[i]| && Abs(c[i][k]) == BlockMinimum(c);
    assert c[i][k] != 0.0;
    forall h | 0 <= h < |c[i]| ensures !Representable(c[i][h], shift) {
      TimesMono(Abs(c[i][h]), BlockMinimum(c), Ldexp(shift));
      hide Times;
    }
    hide Representable;
    assert Nonzero(c[i]);
  }

  /** A block is shifted by the least number of doublings that lifts all its rows: by none if all are large enough. */
  lemma ShiftIsLeast(c: Rows, exponent: real -> int, shift: int)
    requires RoundsUp(exponent) && shift >= 0
    ensures BlockShift(c, exponent) >= 0 && (Lifted(c, shift) <==> shift >= BlockShift(c, exponent))
  {
    var m, least := BlockMinimum(c), BlockShift(c, exponent);
    MinimumMeans(c);
    UnitShift(m);
    if m >= SMALLEST {
      assert least == 0;
      hide *;
      TimesGrows(m, 0, shift);
      EnoughLifts(c, shift);
    } else {
      assert least == exponent(m);
      assert Times(m, Ldexp(least)) >= SMALLEST > Times(m, Ldexp(least - 1));
      hide *;
      if least <= 0 { TimesGrows(m, least, 0); }
      if shift >= least {
        TimesGrows(m, least, shift);
        EnoughLifts(c, shift);
      } else {
        TimesGrows(m, shift, least - 1);
        TooLittleFails(c, shift);
      }
    }
  }

  /**
   A block is refused exactly when fifty doublings do not lift all its rows; it is rescaled exactly when some row
   needs lifting.
   */
  lemma BlockRefused(c: Rows, exponent: real -> int)
    requires RoundsUp(exponent)
    ensures BlockShift(c, exponent) > 50 <==> !Lifted(c, 50)
    ensures BlockShift(c, exponent) != 0 <==> !Lifted(c, 0)
  {
    ShiftIsLeast(c, exponent, 50);
    ShiftIsLeast(c, exponent, 0);
    hide *;
  }

  /** The blocks that the recursive splits end in, left parts first. */
  ghost function Blocks(c: Rows, baby: nat): (blocks: seq<Rows>)
    requires |c| > 0 && baby > 0 && forall i :: 0 <= i < |c| ==> |c[i]| == |c[0]|
    decreases |c|
  {
    if |c| - 1 < baby then [c]
    else
      var k := SplitPoint(|c| - 1, baby);
      PartsRectangular(c, k, |c[0]|);
      Blocks(LeftRows(c, k, |c|), baby) + Blocks(RightRows(c, k), baby)
  }

  /** A series is refused exactly when some block is, and costs a rescale level exactly when some block does. */
  lemma {:induction false} BlocksDecide(c: Rows, baby: nat, exponent: real -> int)
    requires |c| > 0 && baby > 0 && (forall i :: 0 <= i < |c| ==> |c[i]| == |c[0]|) && RoundsUp(exponent)
    ensures Encodable(c, baby, exponent) <==> forall b :: b in Blocks(c, baby) ==> Lifted(b, 50)
    ensures Rescaled(c, baby, exponent) <==> exists b :: b in Blocks(c, baby) && !Lifted(b, 0)
    decreases |c|
  {
    if |c| - 1 < baby {
      BlockRefused(c, exponent);
      hide BlockShift;
      hide Lifted;
      assert c in Blocks(c, baby);
    } else {
      var k := SplitPoint(|c| - 1, baby);
      PartsRectangular(c, k, |c[0]|);
      BlocksDecide(LeftRows(c, k, |c|), baby, exponent);
      BlocksDecide(RightRows(c, k), baby, exponent);
      hide Lifted;
      hide LeftRows;
      hide RightRows;
    }
  }

  // ---------- the size of a block ----------

  lemma {:induction false} BabyLogMeans(degree: nat, log: nat)
    requires log == 1 || (log > 1 && Pow2(log - 1) < degree + 1)
    ensures var r := BabyLog(degree, log);
            r >= log && Pow2(r) >= degree + 1 && (r > 1 ==> Pow2(r - 1) < degree + 1)
    decreases degree + 1 - Pow2(log)
  {
    if Pow2(log) < degree + 1 { BabyLogMeans(degree, log + 1); }
  }

  /** Blocks are the least power of two, from two on, whose square covers the longer of the two coefficient lists. */
  lemma BabyIsLeast(spec: JointGateSpec) returns (half: nat)
    requires spec.Valid()
    ensures half >= 1 && BabyStep(spec.Degree()) == Pow2(half)
    ensures Pow2(half) * Pow2(half) >= |spec.p| && Pow2(half) * Pow2(half) >= |spec.q|
    ensures half > 1 ==> Pow2(half - 1) * Pow2(half - 1) < |spec.p| || Pow2(half - 1) * Pow2(half - 1) < |spec.q|
  {
    var degree := spec.Degree();
    BabyLogMeans(degree, 1);
    var log := BabyLog(degree, 1);
    half := (log + 1) / 2;
    hide BabyLog;
    hide Pow2;
    Pow2Sum(half, half);
    if log < 2 * half { Pow2Grows(log, 2 * half); }
    if half > 1 {
      Pow2Sum(half - 1, half - 1);
      if 2 * half - 2 < log - 1 { Pow2Grows(2 * half - 2, log - 1); }
    }
  }
}
