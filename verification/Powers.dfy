/** Powers of two, as a function of the exponent and as a test. */
module Powers {

  function Pow2(n: nat): (p: nat)
    ensures p > 0
  {
    if n == 0 then 1 else 2 * Pow2(n - 1)
  }

  lemma {:induction false} Pow2Sum(a: nat, b: nat)
    ensures Pow2(a + b) == Pow2(a) * Pow2(b)
  {
    if a > 0 { Pow2Sum(a - 1, b); }
  }

  lemma {:induction false} Pow2Grows(a: nat, b: nat)
    requires a < b
    ensures Pow2(a) < Pow2(b)
  {
    if b > a + 1 { Pow2Grows(a, b - 1); }
  }

  lemma {:induction false} Pow2Exceeds(n: nat)
    ensures Pow2(n) > n
  {
    if n > 0 { Pow2Exceeds(n - 1); }
  }

  predicate PowerOfTwo(r: nat) { r == 1 || (r % 2 == 0 && r > 0 && PowerOfTwo(r / 2)) }

  /** Doubling one power of two does not jump over another. */
  lemma {:induction false} DoublingReaches(a: nat, b: nat)
    requires PowerOfTwo(a) && PowerOfTwo(b) && a < b
    ensures PowerOfTwo(2 * a) && 2 * a <= b
  {
    assert (2 * a) / 2 == a;
    if a > 1 { DoublingReaches(a / 2, b / 2); }
  }
}
