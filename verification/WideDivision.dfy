/** The vault program's exact floor(a * b / d) on 128-bit words: a widening multiplication out of 64-bit halves,
    then a long division bit by bit. Models mul_div_floor, mul_div_wide and widening_mul. */
module WideDivision {
  import opened Arithmetic
  import opened Options

  const HALF := 0x1_0000_0000_0000_0000
  const WORD := 0x1_0000_0000_0000_0000_0000_0000_0000_0000

  type U128 = x: int | 0 <= x < WORD

  /** `n >> i`. */
  function Shift(n: nat, i: nat): nat {
    if i == 0 then n else Shift(n, i - 1) / 2
  }

  lemma Pow32()
    ensures Pow2(32) == 0x1_0000_0000
  {
    assert Pow2(4) == 16;
    Pow2Adds(4, 4);
    Pow2Adds(8, 8);
    Pow2Adds(16, 16);
  }

  lemma Pow128()
    ensures Pow2(128) == WORD
  {
    hide Pow2;
    Pow32();
    Pow2Adds(32, 32);
    Pow2Adds(64, 64);
  }

  lemma {:induction false} Pow2Adds(i: nat, j: nat)
    ensures Pow2(i + j) == Pow2(i) * Pow2(j)
  {
    if i > 0 { Pow2Adds(i - 1, j); }
  }

  /** Shifting a two-word number: the high word stays above the low one's bits. */
  lemma {:induction false} ShiftSplits(hi: nat, lo: nat, k: nat, i: nat)
    requires i <= k
    ensures Shift(hi * Pow2(k) + lo, i) == hi * Pow2(k - i) + Shift(lo, i)
  {
    if i > 0 {
      ShiftSplits(hi, lo, k, i - 1);
      var p := Pow2(k - i);
      assert Pow2(k - (i - 1)) == 2 * p;
      hide Pow2;
      Twice(hi, p);
      assert Shift(hi * Pow2(k) + lo, i - 1) == 2 * (hi * p) + Shift(lo, i - 1);
    }
  }

  lemma Twice(a: nat, b: nat)
    ensures a * (2 * b) == 2 * (a * b)
  {
  }

  lemma {:induction false} ShiftBound(n: nat, k: nat, i: nat)
    requires i <= k && n < Pow2(k)
    ensures Shift(n, i) < Pow2(k - i)
  {
    if i > 0 { ShiftBound(n, k, i - 1); }
  }

  // ----- Multiplication ------------------------------------------------------------------------

  method WideningMul(a: U128, b: U128) returns (hi: U128, lo: U128)
    ensures hi * WORD + lo == a * b
  {
    Schoolbook(a, b);
    var aHi, aLo := a / HALF, a % HALF;
    var bHi, bLo := b / HALF, b % HALF;
    var ll: U128 := aLo * bLo;
    var lh: U128 := aLo * bHi;
    var hl: U128 := aHi * bLo;
    var hh: U128 := aHi * bHi;
    var mid: U128 := ll / HALF + lh % HALF + hl % HALF;
    lo := ll % HALF + mid % HALF * HALF;
    hi := hh + lh / HALF + hl / HALF + mid / HALF;
  }

  /** Nothing overflows a word, and the two words make up the product. */
  lemma Schoolbook(a: U128, b: U128)
    ensures var aHi, aLo, bHi, bLo := a / HALF, a % HALF, b / HALF, b % HALF;
            var ll, lh, hl, hh := aLo * bLo, aLo * bHi, aHi * bLo, aHi * bHi;
            var mid := ll / HALF + lh % HALF + hl % HALF;
            var hi := hh + lh / HALF + hl / HALF + mid / HALF;
            && 0 <= ll < WORD && 0 <= lh < WORD && 0 <= hl < WORD && 0 <= hh < WORD && 0 <= mid < WORD && 0 <= hi < WORD
            && hi * WORD + (ll % HALF + mid % HALF * HALF) == a * b
  {
    var aHi, aLo, bHi, bLo := a / HALF, a % HALF, b / HALF, b % HALF;
    assert a == aHi * HALF + aLo && b == bHi * HALF + bLo;
    Product(aHi, bHi);
    Product(aLo, bLo);
    Product(aLo, bHi);
    Product(aHi, bLo);
    Sum(a, b, aHi, aLo, bHi, bLo, aLo * bLo, aLo * bHi, aHi * bLo, aHi * bHi);
  }

  lemma Sum(a: U128, b: U128, aHi: nat, aLo: nat, bHi: nat, bLo: nat, ll: nat, lh: nat, hl: nat, hh: nat)
    requires a == aHi * HALF + aLo && b == bHi * HALF + bLo
    requires ll == aLo * bLo && lh == aLo * bHi && hl == aHi * bLo && hh == aHi * bHi
    ensures var mid := ll / HALF + lh % HALF + hl % HALF;
            var hi := hh + lh / HALF + hl / HALF + mid / HALF;
            hi < WORD && hi * WORD + (ll % HALF + mid % HALF * HALF) == a * b
  {
    Recombine(aHi, aLo, bHi, bLo);
    var mid := ll / HALF + lh % HALF + hl % HALF;
    Columns(ll, lh, hl, hh, mid);
    HighFits(a, b, hh + lh / HALF + hl / HALF + mid / HALF, ll % HALF + mid % HALF * HALF);
  }

  lemma Product(x: nat, y: nat)
    requires x < HALF && y < HALF
    ensures x * y <= (HALF - 1) * (HALF - 1) < WORD
  {
    MulMonotone(x, HALF - 1, y);
    MulMonotone(y, HALF - 1, HALF - 1);
  }

  lemma Recombine(aHi: nat, aLo: nat, bHi: nat, bLo: nat)
    ensures (aHi * HALF + aLo) * (bHi * HALF + bLo)
         == aHi * bHi * WORD + (aHi * bLo + aLo * bHi) * HALF + aLo * bLo
  {
    var x, y := aHi * HALF, bHi * HALF;
    assert (x + aLo) * (y + bLo) == x * y + x * bLo + aLo * y + aLo * bLo;
    assert x * y == aHi * bHi * (HALF * HALF);
    assert x * bLo == aHi * bLo * HALF;
    assert aLo * y == aLo * bHi * HALF;
  }

  /** The column sums of the schoolbook product. */
  lemma Columns(ll: nat, lh: nat, hl: nat, hh: nat, mid: nat)
    requires mid == ll / HALF + lh % HALF + hl % HALF
    ensures (hh + lh / HALF + hl / HALF + mid / HALF) * WORD + (ll % HALF + mid % HALF * HALF)
         == hh * WORD + (hl + lh) * HALF + ll
  {
    assert mid == mid / HALF * HALF + mid % HALF;
  }

  lemma HighFits(a: U128, b: U128, hi: nat, lo: nat)
    requires hi * WORD + lo == a * b
    ensures hi < WORD
  {
    MulMonotone(a, WORD - 1, b);
    MulMonotone(b, WORD - 1, WORD - 1);
  }

  // ----- Division ------------------------------------------------------------------------------

  /** One step of long division: bring down a bit, subtract the divisor if it fits. */
  lemma DivisionStep(n: nat, quo: nat, d: nat, rem: nat, bit: nat)
    requires 0 < d && quo * d + rem == n && rem < d && bit < 2
    ensures var r := 2 * rem + bit;
            && (r >= d ==> (2 * quo + 1) * d + (r - d) == 2 * n + bit && r - d < d)
            && (r < d ==> 2 * quo * d + r == 2 * n + bit)
  {
  }

  lemma BitsOf(hi: U128, lo: U128, i: nat)
    requires i < 128
    ensures var n := hi * WORD + lo;
            Shift(n, i) == 2 * Shift(n, i + 1) + Shift(lo, i) % 2
  {
    Pow128();
    ShiftSplits(hi, lo, 128, i);
    ShiftSplits(hi, lo, 128, i + 1);
    Twice(hi, Pow2(128 - (i + 1)));
  }

  lemma TopWord(hi: U128, lo: U128)
    ensures Shift(hi * WORD + lo, 128) == hi
  {
    Pow128();
    ShiftSplits(hi, lo, 128, 128);
    ShiftBound(lo, 128, 128);
  }

  /** The quotient has at most as many bits as were brought down. */
  lemma QuotientFits(n: nat, d: nat, quo: nat, rem: nat, i: nat, hi: U128, lo: U128)
    requires i <= 128 && n == Shift(hi * WORD + lo, i) && hi < d && quo * d + rem == n && rem < d
    ensures quo < WORD
  {
    Pow128();
    ShiftSplits(hi, lo, 128, i);
    ShiftBound(lo, 128, i);
    hide Shift, Pow2;
    BelowPower(n, d, quo, rem, hi, Shift(lo, i), Pow2(128 - i));
    PowerFits(i);
  }

  lemma BelowPower(n: nat, d: nat, quo: nat, rem: nat, hi: nat, lo: nat, p: nat)
    requires n == hi * p + lo && lo < p && hi < d
    requires n == quo * d + rem
    ensures quo < p
  {
    assert (hi + 1) * p == hi * p + p;
    MulMonotone(hi + 1, d, p);
    if quo >= p { MulMonotone(p, quo, d); }
  }

  lemma PowerFits(i: nat)
    requires i <= 128
    ensures Pow2(128 - i) <= WORD
  {
    Pow128();
    Pow2Adds(128 - i, i);
    MulMonotone(1, Pow2(i), Pow2(128 - i));
  }

  /** One round of the loop, on words that wrap: the carry stands for the bit the shift loses. */
  method BringDown(rem: U128, quo: U128, bit: nat, d: U128) returns (rem': U128, quo': U128)
    requires bit < 2 && rem < d && 2 * quo + (if 2 * rem + bit >= d then 1 else 0) < WORD
    ensures 2 * rem + bit >= d ==> rem' == 2 * rem + bit - d && quo' == 2 * quo + 1
    ensures 2 * rem + bit < d ==> rem' == 2 * rem + bit && quo' == 2 * quo
  {
    var carry := rem / (WORD / 2);
    rem' := 2 * rem % WORD + bit;
    quo' := 2 * quo % WORD;
    if carry == 1 || rem' >= d {
      rem' := if rem' >= d then rem' - d else rem' - d + WORD;
      quo' := quo' + 1;
    }
  }

  /** What one round keeps: the quotient and remainder of the bits brought down so far. */
  lemma RoundKeeps(hi: U128, lo: U128, d: U128, i: nat, quo: U128, rem: U128, bit: nat)
    requires i < 128 && hi < d && rem < d && bit == Shift(lo, i) % 2
    requires quo * d + rem == Shift(hi * WORD + lo, i + 1)
    ensures var fits := 2 * rem + bit >= d;
            var quo', rem' := 2 * quo + (if fits then 1 else 0), 2 * rem + bit - (if fits then d else 0);
            quo' < WORD && 0 <= rem' < d && quo' * d + rem' == Shift(hi * WORD + lo, i)
  {
    hide Shift;
    var n := hi * WORD + lo;
    BitsOf(hi, lo, i);
    DivisionStep(Shift(n, i + 1), quo, d, rem, bit);
    if 2 * rem + bit >= d {
      QuotientFits(Shift(n, i), d, 2 * quo + 1, 2 * rem + bit - d, i, hi, lo);
    } else {
      QuotientFits(Shift(n, i), d, 2 * quo, 2 * rem + bit, i, hi, lo);
    }
  }

  method MulDivWide(a: U128, b: U128, d: U128) returns (r: Option<U128>)
    requires d > 0
    ensures r == if a * b / d < WORD then Some(a * b / d) else None
  {
    hide Shift;
    var hi, lo := WideningMul(a, b);
    ghost var n := hi * WORD + lo;
    if hi >= d {
      TooLarge(n, d, hi, lo);
      return None;
    }
    var rem: U128 := hi;
    var quo: U128 := 0;
    TopWord(hi, lo);
    var i := 128;
    while i > 0
      invariant 0 <= i <= 128
      invariant rem < d && quo * d + rem == Shift(n, i)
    {
      i := i - 1;
      var bit := Shift(lo, i) % 2;
      RoundKeeps(hi, lo, d, i, quo, rem, bit);
      rem, quo := BringDown(rem, quo, bit, d);
    }
    WholeNumber(n);
    Quotient(n, d, quo, rem);
    return Some(quo);
  }

  lemma WholeNumber(n: nat)
    ensures Shift(n, 0) == n
  {
  }

  lemma TooLarge(n: nat, d: nat, hi: nat, lo: nat)
    requires 0 < d <= hi && n == hi * WORD + lo
    ensures n / d >= WORD
  {
    MulMonotone(d, hi, WORD);
    QuotientAtLeast(n, d, WORD);
  }

  method MulDivFloor(a: U128, b: U128, d: U128) returns (r: Option<U128>)
    ensures r == if d > 0 && a * b / d < WORD then Some(a * b / d) else None
  {
    if d == 0 {
      return None;
    }
    if a * b < WORD {
      DividedFits(a * b, d);
      return Some(a * b / d);
    }
    r := MulDivWide(a, b, d);
  }

  lemma DividedFits(n: nat, d: nat)
    requires d > 0
    ensures n / d <= n
  {
    MulMonotone(1, d, n + 1);
    QuotientBelow(n, d, n + 1);
  }
}
