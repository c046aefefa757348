/** Remainders and products of natural numbers. */
module Modular {

  lemma {:induction false} ModUnique(x: int, d: nat, q: int, r: nat)
    requires d > 0 && r < d && x == q * d + r
    ensures x % d == r && x / d == q
  {
    var w := x / d - q;
    assert x == (x / d) * d + x % d;
    assert w * d == r - x % d;
    MultipleGap(d, w);
  }

  lemma MultipleGap(d: nat, w: int)
    requires d > 0
    ensures w >= 1 ==> w * d >= d
    ensures w <= -1 ==> w * d + d <= 0
  {
  }

  lemma ModAdd(x: int, y: int, d: nat)
    requires d > 0
    ensures (x % d + y) % d == (x + y) % d
  {
    var q, s, r := x / d, (x % d + y) / d, (x % d + y) % d;
    assert x + y == q * d + (s * d + r);
    assert q * d + s * d == (q + s) * d;
    ModUnique(x + y, d, q + s, r);
  }

  lemma ModMultiple(x: int, k: int, d: nat)
    requires d > 0
    ensures (x + k * d) % d == x % d
  {
    var q, r := x / d, x % d;
    assert x + k * d == (q + k) * d + r;
    ModUnique(x + k * d, d, q + k, r);
  }

  lemma ModSmall(x: nat, d: nat)
    requires x < d
    ensures x % d == x
  {
  }

  lemma NonNegative(a: nat, b: nat)
    ensures a * b >= 0
  {
  }

  lemma ProductMono(a: nat, b: nat, w: nat)
    requires a <= b
    ensures a * w <= b * w
  {
  }

  /** Block q of width w ends within the first count blocks. */
  lemma BlockBelow(q: nat, count: nat, w: nat)
    requires q < count
    ensures q * w + w <= count * w
  {
    NonNegative(count - q - 1, w);
  }
}
