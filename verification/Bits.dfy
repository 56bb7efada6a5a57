/** Bitwise AND on natural numbers, and what it computes for the two masks the program
    uses: the low bits of a power of two, and everything but those low bits. */
module Bits {
  function Pow2(k: nat): (p: nat)
    ensures p > 0
  {
    if k == 0 then 1 else 2 * Pow2(k - 1)
  }

  function And(x: nat, y: nat): nat {
    if x == 0 || y == 0 then 0 else (x % 2) * (y % 2) + 2 * And(x / 2, y / 2)
  }

  /** x & (2^k - 1) is the remainder of x by 2^k. */
  lemma {:induction false} LowMask(x: nat, k: nat)
    ensures And(x, Pow2(k) - 1) == x % Pow2(k)
  {
    if x != 0 && k != 0 {
      LowMask(x / 2, k - 1);
      assert (Pow2(k) - 1) % 2 == 1 && (Pow2(k) - 1) / 2 == Pow2(k - 1) - 1;
      HalfRemainder(x, Pow2(k - 1));
    }
  }

  /** x & ~(2^k - 1), in a word of w bits, rounds x down to a multiple of 2^k. */
  lemma {:induction false} HighMask(x: nat, k: nat, w: nat)
    requires k <= w && x < Pow2(w)
    ensures Pow2(k) <= Pow2(w) && And(x, Pow2(w) - Pow2(k)) == x - x % Pow2(k)
    decreases w
  {
    if k == 0 || k == w || x == 0 {
      HighMaskEnds(x, k, w);
    } else {
      HighMask(x / 2, k - 1, w - 1);
      HighMaskStep(x, k, w);
    }
  }

  lemma HighMaskEnds(x: nat, k: nat, w: nat)
    requires k <= w && x < Pow2(w)
    requires k == 0 || k == w || x == 0
    ensures Pow2(k) <= Pow2(w) && And(x, Pow2(w) - Pow2(k)) == x - x % Pow2(k)
  {
    Pow2Monotone(k, w);
    hide And, Pow2;
    if x == 0 {
      AndZero(Pow2(w) - Pow2(k));
      SmallRemainder(x, Pow2(k));
    } else if k == w {
      AndZero(x);
      SmallRemainder(x, Pow2(w));
    } else {
      LowMask(x, w);
      SmallRemainder(x, Pow2(w));
      RemainderOne(x);
    }
  }

  lemma AndZero(x: nat)
    ensures And(x, 0) == 0 && And(0, x) == 0
  {
  }

  lemma RemainderOne(x: nat)
    ensures x % 1 == 0 && Pow2(0) == 1
  {
  }

  lemma HighMaskStep(x: nat, k: nat, w: nat)
    requires 0 < k < w && x != 0
    requires Pow2(k - 1) <= Pow2(w - 1)
    requires And(x / 2, Pow2(w - 1) - Pow2(k - 1)) == x / 2 - x / 2 % Pow2(k - 1)
    ensures Pow2(k) <= Pow2(w) && And(x, Pow2(w) - Pow2(k)) == x - x % Pow2(k)
  {
    HalfRemainder(x, Pow2(k - 1));
    HalfMask(x, k, w);
  }

  lemma HalfMask(x: nat, k: nat, w: nat)
    requires 0 < k < w && x != 0
    ensures Pow2(k - 1) <= Pow2(w - 1) && Pow2(k) <= Pow2(w)
    ensures And(x, Pow2(w) - Pow2(k)) == 2 * And(x / 2, Pow2(w - 1) - Pow2(k - 1))
  {
    Pow2Monotone(k, w);
    Pow2Monotone(k - 1, w - 1);
    var half := Pow2(w - 1) - Pow2(k - 1);
    assert Pow2(w) - Pow2(k) == 2 * half;
    assert (2 * half) % 2 == 0 && (2 * half) / 2 == half;
    if half == 0 { assert And(x / 2, half) == 0; }
  }

  lemma SmallRemainder(x: nat, d: nat)
    requires x < d
    ensures x % d == x
  {
  }

  lemma {:induction false} Pow2Monotone(j: nat, k: nat)
    requires j <= k
    ensures Pow2(j) <= Pow2(k)
    decreases k
  {
    if j < k { Pow2Monotone(j, k - 1); }
  }

  lemma HalfRemainder(x: nat, p: nat)
    requires p > 0
    ensures x % (2 * p) == x % 2 + 2 * (x / 2 % p)
  {
    var q, r := x / 2 / p, x / 2 % p;
    assert x == 2 * (q * p + r) + x % 2;
    assert x == q * (2 * p) + (2 * r + x % 2);
    DivisionUnique(x, 2 * p, q, 2 * r + x % 2);
  }

  lemma DivisionUnique(x: nat, d: nat, q: nat, r: nat)
    requires d > 0 && r < d && x == q * d + r
    ensures x / d == q && x % d == r
  {
    var k := x / d - q;
    Division(x, d);
    MulMinus(x / d, q, d);
    if k > 0 { MulAtLeast(k, d); }
    if k < 0 {
      MulMinus(q, x / d, d);
      MulAtLeast(-k, d);
    }
  }

  lemma Division(x: nat, d: nat)
    requires d > 0
    ensures x == x / d * d + x % d && 0 <= x % d < d
  {
  }

  lemma MulMinus(a: int, b: int, d: int)
    ensures (a - b) * d == a * d - b * d
  {
  }

  lemma MulAtLeast(k: nat, d: nat)
    requires k > 0
    ensures k * d >= d
  {
  }
}
