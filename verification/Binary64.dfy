/** Finite binary64 numbers as integers times powers of two, with the arithmetic facts the rounding arguments need. */
module Binary64 {
  import opened Powers
  import opened Reals

  /** ldexp(1, e) */
  function Ldexp(e: int): (x: real)
    ensures x > 0.0
  {
    if e >= 0 then Pow2(e) as real else Inverse(Pow2(-e))
  }

  function Inverse(n: nat): (x: real)
    requires n > 0
    ensures x > 0.0 && x * n as real == 1.0
  {
    1.0 / n as real
  }

  lemma InverseDouble(n: nat, x: real, y: real)
    requires n > 0 && x == Inverse(n) && y == Inverse(2 * n)
    ensures x == 2.0 * y
  {
    var r := n as real;
    hide Inverse;
    assert y * (2.0 * r) == (2.0 * y) * r;
    if x < 2.0 * y { MulPos(2.0 * y - x, r); }
    if x > 2.0 * y { MulPos(x - 2.0 * y, r); }
  }

  lemma LdexpNext(e: int)
    ensures Ldexp(e + 1) == 2.0 * Ldexp(e)
  {
    if e < 0 {
      assert Pow2(-e) == 2 * Pow2(-e - 1);
      InverseDouble(Pow2(-e - 1), Inverse(Pow2(-e - 1)), Inverse(Pow2(-e)));
      if e == -1 { UnitInverse(); }
      hide Inverse;
    }
  }

  lemma UnitInverse()
    ensures Pow2(0) == 1 && Inverse(1) == 1.0
  {
  }

  lemma {:induction false} LdexpSum(a: int, b: int)
    ensures Ldexp(a + b) == Times(Ldexp(a), Ldexp(b))
    decreases if b < 0 then -b else b
  {
    if b == 0 {
      UnitInverse();
    } else {
      hide Ldexp;
      var c := if b > 0 then b - 1 else b;
      LdexpSum(a, if b > 0 then b - 1 else b + 1);
      LdexpNext(a + c);
      LdexpNext(c);
      TimesDouble(Ldexp(a), Ldexp(c), Ldexp(c + 1));
      assert a + (c + 1) == a + c + 1;
    }
  }

  lemma TimesDouble(x: real, y: real, z: real)
    requires z == 2.0 * y
    ensures Times(x, z) == 2.0 * Times(x, y)
  {
  }

  lemma LdexpUndone(e: int)
    ensures Times(Ldexp(e), Ldexp(-e)) == 1.0
  {
    LdexpSum(e, -e);
    UnitInverse();
    hide Times;
  }

  lemma {:induction false} LdexpMono(a: int, b: int)
    requires a <= b
    ensures Ldexp(a) <= Ldexp(b)
    decreases b - a
  {
    if a < b {
      LdexpMono(a, b - 1);
      LdexpNext(b - 1);
      hide Ldexp;
    }
  }

  // ---------- finite numbers ----------

  const SIGNIFICANDS := 9007199254740992

  predicate Encodes(x: real, k: int, e: int)
  {
    -SIGNIFICANDS < k < SIGNIFICANDS && -1074 <= e <= 971 && x == Times(k as real, Ldexp(e))
  }

  /** x is a finite binary64 number. */
  ghost predicate Finite(x: real) { exists k: int, e: int :: Encodes(x, k, e) }

  /** The largest of them. */
  function Largest(): real { Times((SIGNIFICANDS - 1) as real, Ldexp(971)) }

  // The exponent is a parameter, so that no power of two is unfolded more than ten times.
  lemma SignificandPower(bits: nat)
    requires bits == 53
    ensures Pow2(bits) == SIGNIFICANDS && Pow2(bits - 1) < SIGNIFICANDS
  {
    assert Pow2(10) == 1024 && Pow2(3) == 8;
    hide Pow2;
    Pow2Product(10, 10, 20, 1024, 1024);
    Pow2Product(20, 20, 40, 1048576, 1048576);
    Pow2Product(40, 10, 50, 1099511627776, 1024);
    Pow2Product(50, 3, bits, 1125899906842624, 8);
    Pow2Grows(bits - 1, bits);
  }

  lemma Pow2Product(a: nat, b: nat, c: nat, p: nat, q: nat)
    requires c == a + b && p == Pow2(a) && q == Pow2(b)
    ensures Pow2(c) == p * q
  {
    Pow2Sum(a, b);
  }

  lemma PowerFinite(e: int)
    requires -1074 <= e <= 1023
    ensures Finite(Ldexp(e))
  {
    if e <= 971 {
      hide Ldexp;
      assert Encodes(Ldexp(e), 1, e);
    } else {
      var bits := 53;
      SignificandPower(bits);
      LdexpSum(bits - 1, e - 52);
      assert Ldexp(bits - 1) == Pow2(bits - 1) as real;
      hide Ldexp;
      hide Pow2;
      assert Encodes(Ldexp(e), Pow2(bits - 1), e - 52);
    }
  }

  lemma LargestFinite(top: int)
    requires top == 1024
    ensures Finite(Largest()) && Largest() < Ldexp(top)
  {
    var bits := 53;
    assert Encodes(Largest(), SIGNIFICANDS - 1, 971);
    SignificandPower(bits);
    LdexpSum(bits, 971);
    assert Ldexp(bits) == SIGNIFICANDS as real;
    hide Ldexp;
    LessTimes((SIGNIFICANDS - 1) as real, SIGNIFICANDS as real, Ldexp(971));
  }

  lemma LessTimes(a: real, b: real, c: real)
    requires a < b && c > 0.0
    ensures Times(a, c) < Times(b, c)
  {
    MulPos(b - a, c);
  }

  lemma {:induction false} BitLength(k: nat, limit: nat) returns (b: nat)
    requires 0 < k < Pow2(limit)
    ensures 1 <= b <= limit && Pow2(b - 1) <= k < Pow2(b)
    decreases limit
  {
    if limit > 0 && k < Pow2(limit - 1) { b := BitLength(k, limit - 1); } else { b := limit; }
  }

  lemma PositiveSignificand(x: real, k: int, e: int)
    requires Encodes(x, k, e) && x > 0.0
    ensures k > 0
  {
    hide Ldexp;
    if k <= 0 { MulNonneg(-(k as real), Ldexp(e)); }
  }

  /** A positive finite number lies between two neighbouring powers of two. */
  lemma Bracket(x: real) returns (t: int)
    requires Finite(x) && x > 0.0
    ensures -1073 <= t <= 1024 && Ldexp(t - 1) <= x < Ldexp(t)
  {
    var k: int, e: int :| Encodes(x, k, e);
    PositiveSignificand(x, k, e);
    var bits := 53;
    SignificandPower(bits);
    var b := BitLength(k, bits);
    t := b + e;
    hide Ldexp;
    hide Pow2;
    EncodedBracket(x, k, e, b);
  }

  lemma EncodedBracket(x: real, k: nat, e: int, b: nat)
    requires x == Times(k as real, Ldexp(e)) && b >= 1 && Pow2(b - 1) <= k < Pow2(b)
    ensures Ldexp(b + e - 1) <= x < Ldexp(b + e)
  {
    var low, high := Pow2(b - 1) as real, Pow2(b) as real;
    assert Ldexp(b) == high && Ldexp(b - 1) == low;
    LdexpSum(b, e);
    LdexpSum(b - 1, e);
    hide *;
    assert b - 1 + e == b + e - 1;
    LessTimes(k as real, high, Ldexp(e));
    TimesMono(low, k as real, Ldexp(e));
  }

  /** A multiple of 2^g below one, with a factor of so many bits, stays this far below one. */
  lemma StepBelow(n: nat, g: int, bits: nat)
    requires Times(n as real, Ldexp(g)) < 1.0 && n < Pow2(bits)
    ensures 1.0 - Times(n as real, Ldexp(g)) >= Ldexp(-(bits + 1))
  {
    if g >= 0 {
      LdexpMono(0, g);
      UnitInverse();
      if n > 0 { TimesMono(1.0, n as real, Ldexp(g)); }
      LdexpMono(-(bits + 1), -1);
      HalfLdexp();
    } else if g >= -(bits + 1) {
      LdexpMono(-(bits + 1), g);
      WholeStep(n, Pow2(-g), Ldexp(g));
    } else {
      RoomBelow(n, g, bits);
      LdexpMono(-(bits + 1), -1);
      HalfLdexp();
    }
  }

  lemma HalfLdexp()
    ensures Ldexp(-1) == 0.5
  {
    LdexpNext(-1);
    UnitInverse();
  }

  lemma WholeStep(n: nat, p: nat, x: real)
    requires p > 0 && x == Inverse(p) && Times(n as real, x) < 1.0
    ensures 1.0 - Times(n as real, x) >= x
  {
    var px := Times(p as real, x);
    assert px == 1.0;
    hide Inverse;
    if n >= p { MonoProduct(p as real, n as real, x, px, Times(n as real, x)); }
    MonoProduct((n + 1) as real, p as real, x, Times((n + 1) as real, x), px);
    assert Times((n + 1) as real, x) == Times(n as real, x) + x;
  }

  lemma RoomBelow(n: nat, g: int, bits: nat)
    requires n < Pow2(bits) && g < -(bits + 1)
    ensures Times(n as real, Ldexp(g)) <= 0.5
  {
    LdexpSum(bits, g);
    LdexpMono(bits + g, -1);
    HalfLdexp();
    assert Ldexp(bits) == Pow2(bits) as real;
    hide Ldexp;
    hide Pow2;
    TimesMono(n as real, Pow2(bits) as real, Ldexp(g));
  }
}
