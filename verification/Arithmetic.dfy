/** The few facts about products and quotients of variables that the solver needs to be told. */
module Arithmetic {
  function Pow2(k: nat): (p: nat)
    ensures p > 0
  {
    if k == 0 then 1 else 2 * Pow2(k - 1)
  }

  function Pow10(k: nat): (p: nat)
    ensures p > 0
  {
    if k == 0 then 1 else 10 * Pow10(k - 1)
  }

  lemma {:induction false} MulMonotone(a: nat, b: nat, c: nat)
    requires a <= b
    ensures a * c <= b * c
  {
    if c > 0 {
      MulMonotone(a, b, c - 1);
      assert a * c == a * (c - 1) + a && b * c == b * (c - 1) + b;
    }
  }

  lemma DivMod(n: nat, d: nat)
    requires d > 0
    ensures n == n / d * d + n % d && 0 <= n % d < d && 0 <= n / d
  {
  }

  /** A quotient and a remainder below the divisor are the quotient and the remainder. */
  lemma Quotient(n: nat, d: nat, q: nat, r: nat)
    requires n == q * d + r && r < d
    ensures n / d == q && n % d == r
  {
    DivMod(n, d);
    MulStrict(q, n / d, d);
    MulStrict(n / d, q, d);
  }

  lemma MulStrict(a: nat, b: nat, c: nat)
    ensures a < b ==> a * c + c <= b * c
  {
    if a < b {
      MulMonotone(a + 1, b, c);
      assert (a + 1) * c == a * c + c;
    }
  }

  lemma FloorBelow(n: nat, d: nat)
    requires d > 0
    ensures n / d * d <= n < (n / d + 1) * d
  {
    DivMod(n, d);
    assert (n / d + 1) * d == n / d * d + d;
  }

  lemma QuotientBelow(n: nat, d: nat, bound: nat)
    requires d > 0 && n < bound * d
    ensures n / d < bound
  {
    FloorBelow(n, d);
    if n / d >= bound { MulMonotone(bound, n / d, d); }
  }

  lemma QuotientAtLeast(n: nat, d: nat, bound: nat)
    requires d > 0 && bound * d <= n
    ensures bound <= n / d
  {
    FloorBelow(n, d);
    if n / d < bound { MulMonotone(n / d + 1, bound, d); }
  }
}
