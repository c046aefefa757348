/**
 Signed-digit rotation steps (native/fideslib_stage0/include/rotation_steps.hpp:13-48): the non-adjacent form sums to
 its input, is the shortest signed-power sum even modulo the slot count, and overflows only on large positive inputs.
 */
module RotationSteps {
  import opened Modular
  import opened Options
  import opened Powers

  const INT_MIN := -0x8000_0000
  const INT_MAX := 0x7FFF_FFFF

  predicate IsInt(x: int) { INT_MIN <= x <= INT_MAX }

  function Total(steps: seq<int>): int
  {
    if steps == [] then 0 else steps[0] + Total(steps[1..])
  }

  lemma {:induction false} TotalAppend(a: seq<int>, b: seq<int>)
    ensures Total(a + b) == Total(a) + Total(b)
  {
    if a == [] {
      assert a + b == b;
    } else {
      TotalAppend(a[1..], b);
      assert (a + b)[1..] == a[1..] + b;
    }
  }

  predicate Signed(step: int, k: nat) { step == Pow2(k) || step == 0 - Pow2(k) }

  ghost predicate SignedPower(step: int) { exists k: nat :: Signed(step, k) }

  ghost predicate SignedPowers(steps: seq<int>) { forall i :: 0 <= i < |steps| ==> SignedPower(steps[i]) }

  // ---------- the non-adjacent form ----------

  /** The digit in {-1, 1} that leaves a multiple of four. */
  function Digit(odd: int): (d: int)
    requires odd % 2 == 1
    ensures (d == 1 || d == -1) && (odd - d) % 4 == 0
  {
    2 - odd % 4
  }

  function Magnitude(x: int): nat { if x < 0 then -x else x }

  /** What is left of the value after its lowest digit. */
  function Rest(remaining: int): (r: int)
    ensures remaining != 0 ==> Magnitude(r) < Magnitude(remaining)
  {
    if remaining % 2 == 1 then (remaining - Digit(remaining)) / 2 else remaining / 2
  }

  /** Exponents and signs of the form, lowest first; k is the exponent of the next digit. */
  function Naf(remaining: int, k: nat): seq<int>
    decreases Magnitude(remaining)
  {
    if remaining == 0 then []
    else if remaining % 2 == 1 then [Digit(remaining) * Pow2(k)] + Naf(Rest(remaining), k + 1)
    else Naf(Rest(remaining), k + 1)
  }

  /** Number of nonzero digits. */
  function Weight(n: int): nat
    decreases Magnitude(n)
  {
    if n == 0 then 0 else n % 2 + Weight(Rest(n))
  }

  lemma {:induction false} NafLength(n: int, k: nat)
    ensures |Naf(n, k)| == Weight(n)
    decreases Magnitude(n)
  {
    if n != 0 { NafLength(Rest(n), k + 1); }
  }

  lemma DigitTimes(d: int, p: int)
    requires d == 1 || d == -1
    ensures d * p == if d == 1 then p else -p
  {
  }

  lemma {:induction false} NafTotal(n: int, k: nat)
    ensures Total(Naf(n, k)) == n * Pow2(k)
    decreases Magnitude(n)
  {
    if n != 0 {
      NafTotal(Rest(n), k + 1);
      var p := Pow2(k);
      assert Pow2(k + 1) == 2 * p;
      SplitLowest(n, Rest(n), p);
    }
  }

  lemma SplitLowest(n: int, rest: int, p: int)
    requires rest == Rest(n)
    ensures n * p == rest * (2 * p) + if n % 2 == 1 then Digit(n) * p else 0
  {
    var e := if n % 2 == 1 then Digit(n) else 0;
    assert n == 2 * rest + e;
    hide *;
    LowestAlgebra(n, rest, e, p);
  }

  lemma LowestAlgebra(n: int, rest: int, e: int, p: int)
    requires n == 2 * rest + e
    ensures n * p == rest * (2 * p) + if e == 0 then 0 else e * p
  {
  }

  /** Digits are signed powers in increasing order, and no two neighbouring powers are both used. */
  ghost predicate NonAdjacent(steps: seq<int>, k: nat)
  {
    steps == [] ||
    exists e: nat :: k <= e && Signed(steps[0], e) && NonAdjacent(steps[1..], e + 2)
  }

  lemma {:induction false} NonAdjacentFrom(steps: seq<int>, k: nat, low: nat)
    requires NonAdjacent(steps, k) && low <= k
    ensures NonAdjacent(steps, low)
  {
  }

  lemma {:induction false} NafNonAdjacent(n: int, k: nat)
    ensures NonAdjacent(Naf(n, k), k)
    decreases Magnitude(n)
  {
    if n != 0 {
      var rest := Rest(n);
      if n % 2 == 1 {
        DigitTimes(Digit(n), Pow2(k));
        assert Signed(Naf(n, k)[0], k);
        assert rest % 2 == 0;
        if rest != 0 {
          NafNonAdjacent(Rest(rest), k + 2);
          assert Naf(rest, k + 1) == Naf(Rest(rest), k + 2);
        }
        assert Naf(n, k)[1..] == Naf(rest, k + 1);
      } else {
        NafNonAdjacent(rest, k + 1);
        NonAdjacentFrom(Naf(rest, k + 1), k + 1, k);
      }
    }
  }

  // ---------- minimality ----------

  lemma EvenWeight(h: int)
    ensures Weight(2 * h) == Weight(h)
  {
    var n := 2 * h;
    assert n % 2 == 0 && n / 2 == h;
    if h != 0 { assert Rest(n) == h; }
  }

  lemma OddWeight(q: int, d: int)
    requires d == 1 || d == -1
    ensures Weight(4 * q + d) == 1 + Weight(q)
  {
    assert Digit(4 * q + d) == d && Rest(4 * q + d) == 2 * q;
    EvenWeight(q);
  }

  /** Weight of an odd number next to twice q. */
  lemma NextToDouble(q: int, d: int)
    requires d == 1 || d == -1
    ensures Weight(2 * q + d) == 1 + Weight(if q % 2 == 0 then q else q + d)
  {
    hide Weight;
    var h := if q % 2 == 0 then q / 2 else (q + d) / 2;
    EvenWeight(h);
    if q % 2 == 0 { OddWeight(h, d); } else { OddWeight(h, -d); }
  }

  /** Adding or removing one changes the weight by at most one. */
  lemma {:induction false} WeightUnit(n: int, d: int)
    requires d == 1 || d == -1
    ensures Weight(n + d) <= Weight(n) + 1
    decreases Magnitude(n)
  {
    hide Weight;
    if n == 0 {
      NextToDouble(0, d);
    } else if n % 2 == 0 {
      UnitOfEven(n / 2, d);
    } else {
      UnitOfOdd((n - Digit(n)) / 4, Digit(n), d);
    }
  }

  lemma {:induction false} UnitOfEven(m: int, d: int)
    requires (d == 1 || d == -1) && m != 0
    ensures Weight(2 * m + d) <= Weight(2 * m) + 1
    decreases Magnitude(2 * m), 0
  {
    hide Weight;
    EvenWeight(m);
    NextToDouble(m, d);
    if m % 2 == 1 {
      var q := (m - 1) / 2;
      NextToDouble(q, 1);
      EvenWeight(q);
      EvenWeight(q + 1);
      if q % 2 == 0 { if d == 1 { WeightUnit(q, 1); } } else { if d == -1 { WeightUnit(q + 1, -1); } }
    }
  }

  lemma {:induction false} UnitOfOdd(q: int, e: int, d: int)
    requires (d == 1 || d == -1) && (e == 1 || e == -1)
    ensures Weight(4 * q + e + d) <= Weight(4 * q + e) + 1
    decreases Magnitude(4 * q + e), 0
  {
    hide Weight;
    OddWeight(q, e);
    if d == -e {
      EvenWeight(2 * q);
      EvenWeight(q);
    } else {
      EvenWeight(2 * q + d);
      NextToDouble(q, d);
      if q % 2 == 1 { WeightUnit(q, d); }
    }
  }

  /** So does adding or removing any power of two. */
  lemma {:induction false} WeightShift(n: int, d: int, k: nat, p: int)
    requires (d == 1 || d == -1) && p == d * Pow2(k)
    ensures Weight(n + p) <= Weight(n) + 1
    decreases k
  {
    hide Weight;
    hide Digit;
    hide Rest;
    if k == 0 {
      WeightUnit(n, d);
    } else {
      var h := d * Pow2(k - 1);
      DoubleTimes(d, Pow2(k - 1));
      if n % 2 == 0 {
        WeightShift(n / 2, d, k - 1, h);
        EvenWeight(n / 2);
        EvenWeight(n / 2 + h);
      } else {
        ShiftOdd((n - Digit(n)) / 4, Digit(n), d, k, h);
      }
    }
  }

  lemma DoubleTimes(d: int, p: int)
    ensures d * (2 * p) == 2 * (d * p)
  {
  }

  lemma {:induction false} ShiftOdd(q: int, e: int, d: int, k: nat, h: int)
    requires k > 0 && (d == 1 || d == -1) && (e == 1 || e == -1) && h == d * Pow2(k - 1)
    ensures Weight(4 * q + e + 2 * h) <= Weight(4 * q + e) + 1
    decreases k, 0
  {
    hide Weight;
    OddWeight(q, e);
    if k == 1 {
      assert h == d;
      if d == e {
        assert 4 * q + e + 2 * d == 4 * (q + d) - e;
        OddWeight(q + d, -e);
        WeightUnit(q, d);
      } else {
        assert 4 * q + e + 2 * d == 4 * q - e;
        OddWeight(q, -e);
      }
    } else {
      var g := d * Pow2(k - 2);
      DoubleTimes(d, Pow2(k - 2));
      WeightShift(q, d, k - 2, g);
      OddWeight(q + g, e);
    }
  }

  /** No list of signed powers of two with the same sum is shorter. */
  lemma {:induction false} NafShortest(steps: seq<int>)
    requires SignedPowers(steps)
    ensures Weight(Total(steps)) <= |steps|
  {
    if steps != [] {
      NafShortest(steps[1..]);
      var k: nat :| Signed(steps[0], k);
      var d := if steps[0] == Pow2(k) then 1 else -1;
      DigitTimes(d, Pow2(k));
      WeightShift(Total(steps[1..]), d, k, steps[0]);
    }
  }

  /** Among all numbers congruent to c modulo 2^t, none is lighter than the one nearest zero. */
  lemma {:induction false} NearestIsLightest(c: int, m: int, t: nat)
    requires t >= 1 && 0 - Pow2(t - 1) <= c <= Pow2(t - 1)
    ensures Weight(c) <= Weight(c + m * Pow2(t))
    decreases t
  {
    hide Weight;
    if t == 1 {
      NearestBit(c, c + m * Pow2(1), m);
    } else {
      var p := Pow2(t - 1);
      DoubleTimes(m, p);
      DoubleTimes(m, Pow2(t - 2));
      HalfNearest(c, m, t, p, c + 2 * (m * p), m * p);
    }
  }

  lemma NearestBit(c: int, n: int, m: int)
    requires -1 <= c <= 1 && n == c + m * 2
    ensures Weight(c) <= Weight(n)
  {
    if c != 0 {
      OddIsHeavy(n);
      NextToDouble(0, c);
    }
  }

  lemma OddIsHeavy(n: int)
    ensures n % 2 == 1 ==> Weight(n) >= 1
  {
  }

  lemma {:induction false} HalfNearest(c: int, m: int, t: nat, p: int, n: int, mp: int)
    requires t >= 2 && p == Pow2(t - 1) && p == 2 * Pow2(t - 2) && mp == m * p && mp % 2 == 0
    requires -p <= c <= p && n == c + 2 * mp
    ensures Weight(c) <= Weight(n)
    decreases t, 0
  {
    hide Weight;
    if c % 2 == 0 {
      NearestIsLightest(c / 2, m, t - 1);
      EvenWeight(c / 2);
      EvenWeight(c / 2 + mp);
    } else {
      var q, e := (c - Digit(c)) / 4, Digit(c);
      NearestIsLightest(2 * q, m, t - 1);
      OddWeight(q, e);
      OddWeight(q + mp / 2, e);
      EvenWeight(q);
      EvenWeight(q + mp / 2);
    }
  }

  // ---------- range of the digits ----------

  /** Number of binary positions the form occupies. */
  function Positions(n: int): (p: nat)
    ensures p == 0 <==> n == 0
    decreases Magnitude(n)
  {
    if n == 0 then 0 else 1 + Positions(Rest(n))
  }

  lemma {:induction false} Pow2ModThree(j: nat)
    ensures Pow2(j) % 3 != 0
  {
    if j > 0 {
      Pow2ModThree(j - 1);
      DoubleModThree(Pow2(j - 1));
    }
  }

  lemma DoubleModThree(x: nat)
    ensures x % 3 != 0 ==> (2 * x) % 3 != 0
  {
  }

  /** j positions reach exactly the numbers of magnitude at most 2^(j+1) / 3. */
  lemma {:induction false} PositionsReach(n: int, j: nat)
    ensures Positions(n) <= j <==> 3 * Magnitude(n) <= 2 * Pow2(j)
    decreases j
  {
    if j == 0 {
      assert Pow2(0) == 1;
    } else if n != 0 {
      PositionsReach(Rest(n), j - 1);
      var p := Pow2(j - 1);
      Pow2ModThree(j - 1);
      RestReach(n, p);
    }
  }

  lemma RestReach(n: int, p: int)
    requires n != 0 && p % 3 != 0
    ensures 3 * Magnitude(Rest(n)) <= 2 * p <==> 3 * Magnitude(n) <= 4 * p
  {
    if n % 2 == 1 { OddReach((n - Digit(n)) / 4, Digit(n), p); }
  }

  lemma OddReach(q: int, d: int, p: int)
    requires (d == 1 || d == -1) && p % 3 != 0
    ensures 3 * Magnitude(2 * q) <= 2 * p <==> 3 * Magnitude(4 * q + d) <= 4 * p
  {
    var a := Magnitude(q);
    assert 3 * a <= p <==> 3 * a + 1 <= p;
    if q != 0 { assert 4 * a - 1 <= Magnitude(4 * q + d) <= 4 * a + 1; }
  }

  // Steps of magnitude at most top; only one sign of the top power is used, and it comes last.
  predicate Ranged(steps: seq<int>, positive: bool, top: int)
  {
    steps != [] && steps[|steps| - 1] == (if positive then top else -top) &&
    forall i :: 0 <= i < |steps| ==> -top <= steps[i] <= top && steps[i] != (if positive then -top else top)
  }

  lemma RangedCons(first: int, tail: seq<int>, positive: bool, top: int)
    requires Ranged(tail, positive, top) && -top < first < top
    ensures Ranged([first] + tail, positive, top)
  {
  }

  lemma RangedOne(n: int, k: nat)
    requires n == 1 || n == -1
    ensures Ranged(Naf(n, k), n > 0, Pow2(k)) && Positions(n) == 1
  {
    assert Rest(n) == 0 && Digit(n) == n;
    DigitTimes(n, Pow2(k));
    assert Naf(n, k) == [n * Pow2(k)];
  }

  lemma SignKept(n: int)
    requires n != 0
    ensures Rest(n) == 0 ==> n == 1 || n == -1
    ensures Rest(n) != 0 ==> (n > 0 <==> Rest(n) > 0)
  {
  }

  /** The top digit carries the sign of the number; every other digit is smaller. */
  lemma {:induction false} DigitRange(n: int, k: nat)
    requires n != 0
    ensures Ranged(Naf(n, k), n > 0, Pow2(k + Positions(n) - 1))
    decreases Magnitude(n)
  {
    SignKept(n);
    if Rest(n) == 0 {
      RangedOne(n, k);
    } else {
      var rest, top, p := Rest(n), Pow2(k + Positions(n) - 1), Pow2(k);
      DigitRange(rest, k + 1);
      assert k + 1 + Positions(rest) - 1 == k + Positions(n) - 1;
      Pow2Grows(k, k + Positions(n) - 1);
      var first := if n % 2 == 1 then Digit(n) * p else 0;
      if n % 2 == 1 { DigitTimes(Digit(n), p); }
      NafCons(n, k, first);
      hide *;
      if n % 2 == 1 { RangedCons(first, Naf(rest, k + 1), n > 0, top); }
    }
  }

  lemma NafCons(n: int, k: nat, first: int)
    requires n != 0 && (n % 2 == 1 ==> first == Digit(n) * Pow2(k))
    ensures Naf(n, k) == (if n % 2 == 1 then [first] else []) + Naf(Rest(n), k + 1)
  {
  }

  lemma Pow2Values()
    ensures Pow2(30) == 0x4000_0000 && Pow2(31) == 0x8000_0000 && Pow2(32) == 0x1_0000_0000
  {
    assert Pow2(10) == 1024;
    Pow2Sum(10, 10);
    Pow2Sum(20, 10);
  }

  /** Some digit leaves the signed 32-bit range exactly when the input exceeds 0x55555555. */
  lemma OverflowThreshold(n: int)
    requires IsInt(n)
    ensures (exists i :: 0 <= i < |Naf(n, 0)| && !IsInt(Naf(n, 0)[i])) <==> n > 0x5555_5555
  {
    if n != 0 {
      Pow2Values();
      PositionsReach(n, 31);
      PositionsReach(n, 32);
      DigitRange(n, 0);
      var e := Positions(n) - 1;
      if e < 31 { Pow2Grows(e, 31); }
      hide Naf;
      hide Positions;
    }
  }

  method NafSteps(value: int) returns (r: Option<seq<int>>)
    requires IsInt(value)
    ensures r.None? <==> value > 0x5555_5555
    ensures r.Some? ==> r.value == Naf(value, 0)
  {
    var steps: seq<int> := [];
    var remaining, power := value, 1;
    ghost var k := 0;
    assert Naf(value, 0) == [] + Naf(value, 0) && power == Pow2(0);
    hide Naf;
    hide Pow2;
    hide IsInt;
    while remaining != 0
      invariant power == Pow2(k) && Naf(value, 0) == steps + Naf(remaining, k)
      invariant forall i :: 0 <= i < |steps| ==> IsInt(steps[i])
      decreases Magnitude(remaining)
    {
      NafNext(steps, remaining, k, power);
      ghost var tail := Naf(Rest(remaining), k + 1);
      if remaining % 2 != 0 {
        var digit := 2 - remaining % 4;
        var step := digit * power;
        if !IsInt(step) {
          OverflowFound(value, steps, step, tail);
          return None;
        }
        steps := steps + [step];
        remaining := remaining - digit;
      }
      remaining := remaining / 2;
      power := power * 2;
      k := k + 1;
    }
    NothingLeft(value, steps, k);
    r := Some(steps);
  }

  lemma OverflowFound(value: int, steps: seq<int>, step: int, tail: seq<int>)
    requires IsInt(value) && Naf(value, 0) == steps + [step] + tail && !IsInt(step)
    ensures value > 0x5555_5555
  {
    OverflowThreshold(value);
    hide IsInt;
    assert Naf(value, 0)[|steps|] == step;
  }

  lemma NothingLeft(value: int, steps: seq<int>, k: nat)
    requires IsInt(value) && Naf(value, 0) == steps + Naf(0, k) && forall i :: 0 <= i < |steps| ==> IsInt(steps[i])
    ensures steps == Naf(value, 0) && value <= 0x5555_5555
  {
    assert steps + [] == steps;
    OverflowThreshold(value);
    hide IsInt;
  }

  // Taking the lowest signed digit off.
  lemma NafNext(steps: seq<int>, remaining: int, k: nat, power: int)
    requires remaining != 0 && power == Pow2(k)
    ensures steps + Naf(remaining, k)
            == (if remaining % 2 == 1 then steps + [Digit(remaining) * power] else steps) + Naf(Rest(remaining), k + 1)
    ensures power * 2 == Pow2(k + 1)
  {
    var digit, rest := if remaining % 2 == 1 then [Digit(remaining) * power] else [], Naf(Rest(remaining), k + 1);
    assert Naf(remaining, k) == digit + rest;
    assert steps + (digit + rest) == (steps + digit) + rest;
    if remaining % 2 == 0 { assert steps + [] == steps; }
  }

  // ---------- rotations of a slot vector ----------

  /** C++ remainder: the sign of the dividend. */
  function TruncMod(x: int, y: int): (r: int)
    requires y > 0
    ensures -y < r < y && (x - r) % y == 0 && (-y < x < y ==> r == x)
  {
    TruncModMeans(x, y);
    if x >= 0 then x % y else -((-x) % y)
  }

  lemma TruncModMeans(x: int, y: int)
    requires y > 0
    ensures var r := if x >= 0 then x % y else -((-x) % y);
            -y < r < y && (x - r) % y == 0 && (-y < x < y ==> r == x)
  {
    if x >= 0 { EuclidSplit(x, y); } else { EuclidSplit(-x, y); }
  }

  lemma EuclidSplit(x: nat, y: nat)
    requires y > 0
    ensures x % y < y && (x - x % y) % y == 0 && (x % y - x) % y == 0 && (x < y ==> x % y == x)
  {
    var q, r := x / y, x % y;
    assert x - r == q * y;
    ModMultiple(0, q, y);
    ModMultiple(0, -q, y);
    assert r - x == -q * y;
  }

  function TwoExponent(slots: nat): (t: nat)
    requires PowerOfTwo(slots)
    ensures Pow2(t) == slots
  {
    if slots == 1 then 0 else 1 + TwoExponent(slots / 2)
  }

  predicate SlotsAccepted(slots: int) { slots >= 2 && PowerOfTwo(slots) }

  predicate Congruent(a: int, b: int, slots: int)
    requires slots > 0
  {
    (a - b) % slots == 0
  }

  function Nearest(offset: int, slots: int): int
    requires SlotsAccepted(slots)
  {
    var turn := TruncMod(offset, slots);
    var below := if turn > slots / 2 then turn - slots else turn;
    if below < -(slots / 2) then below + slots else below
  }

  /** The representative within half a turn; offsets already there are kept. */
  method CanonicalRotation(offset: int, slots: int) returns (r: Option<int>)
    ensures r.None? <==> !SlotsAccepted(slots)
    ensures r.Some? ==> Congruent(r.value, offset, slots) && 0 - slots <= 2 * r.value <= slots
    ensures r.Some? && 0 - slots <= 2 * offset <= slots ==> r.value == offset
    ensures r.Some? && (2 * r.value == slots || 2 * r.value == 0 - slots) ==> (r.value > 0 <==> offset > 0)
    ensures r.Some? ==> r.value == Nearest(offset, slots)
  {
    if !SlotsAccepted(slots) { return None; }
    var nearest := TruncMod(offset, slots);
    if nearest > slots / 2 { nearest := nearest - slots; }
    if nearest < -(slots / 2) { nearest := nearest + slots; }
    ShiftedCongruent(offset, TruncMod(offset, slots), nearest, slots);
    r := Some(nearest);
  }

  lemma ShiftedCongruent(x: int, y: int, z: int, slots: int)
    requires slots > 0 && (x - y) % slots == 0 && (z == y || z == y - slots || z == y + slots)
    ensures Congruent(z, x, slots)
  {
    var q := (x - y) / slots;
    assert x - y == q * slots;
    var k := if z == y then -q else if z == y - slots then -q - 1 else -q + 1;
    assert z - x == k * slots;
    ModMultiple(0, k, slots);
  }

  /** Binary digits of bits from exponent k on, all with one sign. */
  function Binary(bits: nat, sign: int, k: nat): seq<int>
  {
    if bits == 0 then []
    else (if bits % 2 == 1 then [sign * Pow2(k)] else []) + Binary(bits / 2, sign, k + 1)
  }

  lemma {:induction false} BinaryMeans(bits: nat, sign: int, k: nat)
    requires sign == 1 || sign == -1
    ensures Total(Binary(bits, sign, k)) == sign * bits * Pow2(k)
    ensures SignedPowers(Binary(bits, sign, k))
    ensures forall i :: 0 <= i < |Binary(bits, sign, k)| ==> Magnitude(Binary(bits, sign, k)[i]) <= bits * Pow2(k)
    decreases bits
  {
    if bits > 0 {
      var p, half := Pow2(k), bits / 2;
      BinaryMeans(half, sign, k + 1);
      DigitTimes(sign, p);
      assert Signed(sign * p, k);
      var tail := Binary(half, sign, k + 1);
      TotalAppend(if bits % 2 == 1 then [sign * p] else [], tail);
      BinarySplit(bits, half, sign, p);
      assert Pow2(k + 1) == 2 * p;
      forall i | 0 <= i < |tail| ensures Magnitude(tail[i]) <= bits * p && SignedPower(tail[i]) {}
    }
  }

  // x in the direction of the sign.
  function Along(sign: int, x: int): int { if sign == 1 then x else -x }

  // From low on, strictly growing in the direction of the sign.
  predicate Ascends(steps: seq<int>, sign: int, low: int)
  {
    (forall i :: 0 <= i < |steps| ==> Along(sign, steps[i]) >= low) &&
    forall i, j :: 0 <= i < j < |steps| ==> Along(sign, steps[i]) < Along(sign, steps[j])
  }

  lemma AscendsOnto(step: int, tail: seq<int>, sign: int, low: int)
    requires Along(sign, step) == low > 0 && Ascends(tail, sign, 2 * low)
    ensures Ascends([step] + tail, sign, low)
  {
    hide Along;
  }

  lemma AscendsWeaker(tail: seq<int>, sign: int, low: int)
    requires low > 0 && Ascends(tail, sign, 2 * low)
    ensures Ascends([] + tail, sign, low)
  {
    hide Along;
    assert [] + tail == tail;
  }

  /** Binary digits have one sign and strictly growing magnitudes, so no power occurs twice. */
  lemma {:induction false} BinaryAscends(bits: nat, sign: int, k: nat)
    requires sign == 1 || sign == -1
    ensures Ascends(Binary(bits, sign, k), sign, Pow2(k))
    decreases bits
  {
    hide Ascends;
    if bits > 0 {
      BinaryAscends(bits / 2, sign, k + 1);
      assert Pow2(k + 1) == 2 * Pow2(k);
      SignTwice(sign, Pow2(k));
      hide Pow2;
      hide Along;
      if bits % 2 == 1 {
        AscendsOnto(sign * Pow2(k), Binary(bits / 2, sign, k + 1), sign, Pow2(k));
      } else {
        AscendsWeaker(Binary(bits / 2, sign, k + 1), sign, Pow2(k));
      }
    } else {
      NothingAscends(sign, Pow2(k));
    }
  }

  lemma NothingAscends(sign: int, low: int)
    ensures Ascends([], sign, low)
  {
  }

  lemma SignTwice(sign: int, p: nat)
    requires sign == 1 || sign == -1
    ensures Along(sign, sign * p) == p
  {
  }

  /** x comes before y among multiples of one sign. */
  predicate FurtherOut(x: int, y: int) { 0 < x < y || y < x < 0 }

  lemma BinaryOneSigned(bits: nat, sign: int)
    requires sign == 1 || sign == -1
    ensures var steps := Binary(bits, sign, 0);
            forall i, j :: 0 <= i < j < |steps| ==> FurtherOut(steps[i], steps[j])
  {
    BinaryAscends(bits, sign, 0);
    assert Pow2(0) == 1;
    hide Binary;
  }

  lemma BinarySplit(bits: nat, half: nat, sign: int, p: nat)
    requires half == bits / 2 && bits > 0
    ensures sign * bits * p == (if bits % 2 == 1 then sign * p else 0) + sign * half * (2 * p)
    ensures half * (2 * p) <= bits * p && p <= bits * p
  {
    SplitProduct(bits, half, sign, p);
    SplitProduct(bits, half, 1, p);
    AtLeastOnce(bits, p);
  }

  lemma SplitProduct(bits: nat, half: nat, sign: int, p: nat)
    requires half == bits / 2
    ensures sign * bits * p == (if bits % 2 == 1 then sign * p else 0) + sign * half * (2 * p)
  {
    var e := bits % 2;
    assert bits == 2 * half + e;
    Expand(half, e, sign, p);
  }

  lemma Expand(half: int, e: int, sign: int, p: int)
    ensures sign * (2 * half + e) * p == sign * e * p + sign * half * (2 * p)
  {
  }

  lemma AtLeastOnce(bits: nat, p: nat)
    requires bits > 0
    ensures p <= bits * p
  {
  }

  /** The signed steps of one rotation, lowest power first. */
  function StepList(offset: int, slots: int, naf: bool): seq<int>
    requires SlotsAccepted(slots)
  {
    var c := Nearest(offset, slots);
    if naf then Naf(c, 0) else Binary(Magnitude(c), if c < 0 then -1 else 1, 0)
  }

  /** Steps of a rotation: they add up to the offset around the vector and never turn more than half way. */
  method Steps(offset: int, slots: int, naf: bool) returns (r: Option<seq<int>>)
    requires IsInt(slots)
    ensures r.None? <==> !SlotsAccepted(slots)
    ensures r.Some? ==> r.value == StepList(offset, slots, naf)
    ensures r.Some? ==> Congruent(Total(r.value), offset, slots) && SignedPowers(r.value)
    ensures r.Some? ==> forall i :: 0 <= i < |r.value| ==> 0 - slots <= 2 * r.value[i] <= slots
    ensures r.Some? && naf ==> NonAdjacent(r.value, 0) &&
                               forall other :: SignedPowers(other) && Congruent(Total(other), offset, slots)
                                               ==> |r.value| <= |other|
    ensures r.Some? && !naf ==> forall i, j :: 0 <= i < j < |r.value| ==> FurtherOut(r.value[i], r.value[j])
  {
    var nearest := CanonicalRotation(offset, slots);
    if nearest.None? { return None; }
    if naf {
      HalfTurnSteps(nearest.value, slots);
      LightestAround(nearest.value, offset, slots);
      r := NafSteps(nearest.value);
      return;
    }
    var steps := BinarySteps(nearest.value);
    r := Some(steps);
    BinaryMeans(Magnitude(nearest.value), if nearest.value < 0 then -1 else 1, 0);
    BinaryOneSigned(Magnitude(nearest.value), if nearest.value < 0 then -1 else 1);
    assert Pow2(0) == 1;
    hide Binary;
  }

  method BinarySteps(offset: int) returns (steps: seq<int>)
    ensures steps == Binary(Magnitude(offset), if offset < 0 then -1 else 1, 0)
  {
    var sign := if offset < 0 then -1 else 1;
    var bits, power := Magnitude(offset), 1;
    steps := [];
    ghost var k := 0;
    while bits > 0
      invariant power == Pow2(k) && Binary(Magnitude(offset), sign, 0) == steps + Binary(bits, sign, k)
    {
      BinaryNext(steps, bits, sign, k, power);
      hide *;
      if bits % 2 == 1 { steps := steps + [sign * power]; }
      bits := bits / 2;
      power := power * 2;
      k := k + 1;
    }
    assert steps + [] == steps;
  }

  // Taking the lowest binary digit off.
  lemma BinaryNext(steps: seq<int>, bits: nat, sign: int, k: nat, power: int)
    requires bits > 0 && power == Pow2(k)
    ensures steps + Binary(bits, sign, k)
            == (if bits % 2 == 1 then steps + [sign * power] else steps) + Binary(bits / 2, sign, k + 1)
    ensures power * 2 == Pow2(k + 1)
  {
    var digit, rest := if bits % 2 == 1 then [sign * power] else [], Binary(bits / 2, sign, k + 1);
    assert Binary(bits, sign, k) == digit + rest;
    assert steps + (digit + rest) == (steps + digit) + rest;
    if bits % 2 == 0 { assert steps + [] == steps; }
  }

  lemma {:induction false} NonAdjacentSigned(steps: seq<int>, k: nat)
    requires NonAdjacent(steps, k)
    ensures SignedPowers(steps)
  {
    if steps != [] {
      var e: nat :| k <= e && Signed(steps[0], e) && NonAdjacent(steps[1..], e + 2);
      NonAdjacentSigned(steps[1..], e + 2);
      forall i | 0 <= i < |steps| ensures SignedPower(steps[i]) {
        if i > 0 { assert steps[i] == steps[1..][i - 1]; }
      }
    }
  }

  lemma HalfTurnSteps(c: int, slots: nat)
    requires SlotsAccepted(slots) && slots <= INT_MAX && 0 - slots <= 2 * c <= slots
    ensures INT_MIN <= c <= INT_MAX && c <= 0x5555_5555
    ensures Total(Naf(c, 0)) == c && NonAdjacent(Naf(c, 0), 0) && SignedPowers(Naf(c, 0))
    ensures forall i :: 0 <= i < |Naf(c, 0)| ==> 0 - slots <= 2 * Naf(c, 0)[i] <= slots
  {
    var t := SlotExponent(slots);
    NafSum(c);
    hide *;
    NafNonAdjacent(c, 0);
    NonAdjacentSigned(Naf(c, 0), 0);
    if c == 0 { NafZero(); } else { HalfTurnRange(c, slots, t); }
  }

  lemma SlotExponent(slots: nat) returns (t: nat)
    requires SlotsAccepted(slots)
    ensures t > 0 && slots == Pow2(t)
  {
    t := TwoExponent(slots);
    assert Pow2(0) == 1;
  }

  lemma NafSum(c: int)
    ensures Total(Naf(c, 0)) == c
  {
    NafTotal(c, 0);
    assert Pow2(0) == 1;
    hide Naf;
    hide Total;
  }

  lemma NafZero()
    ensures Naf(0, 0) == []
  {
  }

  lemma HalfTurnRange(c: int, slots: nat, t: nat)
    requires slots == Pow2(t) && t > 0 && 0 - slots <= 2 * c <= slots && c != 0
    ensures forall i :: 0 <= i < |Naf(c, 0)| ==> 0 - slots <= 2 * Naf(c, 0)[i] <= slots
  {
    PositionsReach(c, t);
    DigitRange(c, 0);
    var e := Positions(c) - 1;
    hide Naf;
    hide Positions;
    assert slots == 2 * Pow2(t - 1);
    if e < t - 1 { Pow2Grows(e, t - 1); }
  }

  lemma LightestAround(c: int, offset: int, slots: nat)
    requires SlotsAccepted(slots) && 0 - slots <= 2 * c <= slots && Congruent(c, offset, slots)
    ensures forall other :: SignedPowers(other) && Congruent(Total(other), offset, slots) ==> |Naf(c, 0)| <= |other|
  {
    var t := TwoExponent(slots);
    assert t > 0 && Pow2(t) == 2 * Pow2(t - 1);
    forall other | SignedPowers(other) && Congruent(Total(other), offset, slots) ensures |Naf(c, 0)| <= |other| {
      var m := Apart(Total(other), c, offset, slots);
      hide *;
      NearestIsLightest(c, m, t);
      NafShortest(other);
      NafLength(c, 0);
    }
  }

  lemma Apart(n: int, c: int, offset: int, slots: nat) returns (m: int)
    requires slots > 0 && Congruent(c, offset, slots) && Congruent(n, offset, slots)
    ensures n == c + m * slots
  {
    var a, b := (n - offset) / slots, (c - offset) / slots;
    assert n - offset == a * slots && c - offset == b * slots;
    m := a - b;
  }
}
