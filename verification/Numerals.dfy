/** Positional numerals: the value of a digit sequence, its canonical digits, and the size
    one base needs to hold what another holds. */
module Numerals {
  import opened Basics
  import opened Bits

  function Pow(b: nat, n: nat): (p: nat)
    ensures b > 0 ==> p > 0
  {
    if n == 0 then 1 else b * Pow(b, n - 1)
  }

  lemma {:induction false} PosMul(x: nat, y: nat)
    ensures 0 <= x * y && (x > 0 && y > 0 ==> x * y > 0)
  {
  }

  ghost predicate Digits(b: nat, s: seq<nat>) {
    forall i :: 0 <= i < |s| ==> s[i] < b
  }

  /** The number with digits s, most significant first. */
  function Val(b: nat, s: seq<nat>): nat {
    if s == [] then 0 else Val(b, s[..|s| - 1]) * b + s[|s| - 1]
  }

  /** The digits of n, with no leading zero. */
  function DigitsOf(b: nat, n: nat): (s: seq<nat>)
    requires b >= 2
    ensures Digits(b, s)
    decreases n
  {
    if n == 0 then [] else
      Shrinks(n, b);
      DigitsOf(b, n / b) + [n % b]
  }

  lemma {:induction false} Shrinks(n: nat, b: nat)
    requires n > 0 && b >= 2
    ensures 0 <= n / b < n && 0 <= n % b < b && n == n / b * b + n % b
  {
  }

  lemma {:induction false} DigitsOfVal(b: nat, n: nat)
    requires b >= 2
    ensures Val(b, DigitsOf(b, n)) == n
    ensures n > 0 ==> DigitsOf(b, n) != [] && DigitsOf(b, n)[0] != 0
    decreases n
  {
    if n > 0 {
      Shrinks(n, b);
      DigitsOfVal(b, n / b);
      var s := DigitsOf(b, n);
      assert s[..|s| - 1] == DigitsOf(b, n / b);
      if n / b == 0 { assert n % b == n; }
    }
  }

  lemma {:induction false} DivMulAdd(q: nat, b: nat, r: nat)
    requires r < b
    ensures (q * b + r) / b == q && (q * b + r) % b == r
  {
    PosMul(q, b);
    DivisionUnique(q * b + r, b, q, r);
  }

  /** A numeral with no leading zero is the canonical one of its value. */
  lemma {:induction false} ValDigitsOf(b: nat, s: seq<nat>)
    requires b >= 2 && Digits(b, s) && (s != [] ==> s[0] != 0)
    ensures DigitsOf(b, Val(b, s)) == s
    ensures s != [] ==> Val(b, s) > 0
    decreases |s|
  {
    if s != [] {
      var t, d := s[..|s| - 1], s[|s| - 1];
      if t == [] {
        assert Val(b, t) == 0 && Val(b, s) == d;
        DivMulAdd(0, b, d);
        assert DigitsOf(b, d) == DigitsOf(b, 0) + [d];
      } else {
        ValDigitsOf(b, t);
        PosMul(Val(b, t), b);
        DivMulAdd(Val(b, t), b, d);
      }
      assert s == t + [d];
    }
  }

  function StripZeros(s: seq<nat>): (t: seq<nat>)
    ensures |t| <= |s| && t == s[|s| - |t|..]
    ensures forall i :: 0 <= i < |s| - |t| ==> s[i] == 0
    ensures t != [] ==> t[0] != 0
  {
    if s == [] || s[0] != 0 then s else StripZeros(s[1..])
  }

  lemma {:induction false} ValPrepend(b: nat, d: nat, s: seq<nat>)
    ensures Val(b, [d] + s) == d * Pow(b, |s|) + Val(b, s)
    decreases |s|
  {
    if s == [] {
      assert Val(b, [d]) == Val(b, []) * b + d by { assert [d][..0] == []; }
      assert [d] + s == [d];
    } else {
      var t, e := s[..|s| - 1], s[|s| - 1];
      ValPrepend(b, d, t);
      assert ([d] + s)[..|s|] == [d] + t;
      var p := Pow(b, |t|);
      assert Pow(b, |s|) == b * p;
      assert (d * p + Val(b, t)) * b == d * (b * p) + Val(b, t) * b by { Distribute(d, p, b, Val(b, t)); }
    }
  }

  lemma {:induction false} Distribute(d: nat, p: nat, b: nat, v: nat)
    ensures (d * p + v) * b == d * (b * p) + v * b
  {
    assert d * p * b == d * (b * p);
  }

  lemma {:induction false} ZerosDoNotCount(b: nat, s: seq<nat>)
    ensures Val(b, StripZeros(s)) == Val(b, s)
    decreases |s|
  {
    if s != [] && s[0] == 0 {
      ZerosDoNotCount(b, s[1..]);
      ValPrepend(b, 0, s[1..]);
      assert s == [0] + s[1..];
    }
  }

  /** Stripping the zeros off a buffer leaves the canonical digits of its value. */
  lemma {:induction false} StripIsCanonical(b: nat, s: seq<nat>)
    requires b >= 2 && Digits(b, s)
    ensures StripZeros(s) == DigitsOf(b, Val(b, s))
  {
    ZerosDoNotCount(b, s);
    ValDigitsOf(b, StripZeros(s));
  }

  lemma {:induction false} ValBelow(b: nat, s: seq<nat>)
    requires Digits(b, s)
    ensures Val(b, s) < Pow(b, |s|)
    decreases |s|
  {
    if s != [] {
      var t, d := s[..|s| - 1], s[|s| - 1];
      ValBelow(b, t);
      NextBelow(Val(b, t), Pow(b, |t|), b, d);
    }
  }

  lemma {:induction false} NextBelow(v: nat, p: nat, b: nat, d: nat)
    requires v < p && d < b
    ensures v * b + d < b * p
  {
    assert (v + 1) * b <= p * b;
  }

  lemma {:induction false} MulAssociates(x: nat, y: nat, z: nat)
    ensures x * (y * z) == x * y * z
  {
  }

  // ---------- how large a buffer must be ----------

  lemma {:induction false} PowAdd(b: nat, m: nat, n: nat)
    ensures Pow(b, m + n) == Pow(b, m) * Pow(b, n)
    decreases m
  {
    if m > 0 {
      PowAdd(b, m - 1, n);
      MulAssociates(b, Pow(b, m - 1), Pow(b, n));
    }
  }

  lemma {:induction false} PowMonotone(b: nat, m: nat, n: nat)
    requires b > 0 && m <= n
    ensures Pow(b, m) <= Pow(b, n)
    decreases n
  {
    if m < n {
      PowMonotone(b, m, n - 1);
      assert Pow(b, n - 1) <= b * Pow(b, n - 1);
    }
  }

  /** What a block of m digits gains, k more digits of the other base hold as well. */
  lemma {:induction false} RoomStep(a: nat, b: nat, m: nat, k: nat, n: nat, j: nat)
    requires Pow(a, m) <= Pow(b, k) && Pow(a, n) <= Pow(b, j)
    ensures Pow(a, m + n) <= Pow(b, k + j)
  {
    PowAdd(a, m, n);
    PowAdd(b, k, j);
    MulMonotone(Pow(a, m), Pow(a, n), Pow(b, k), Pow(b, j));
  }

  lemma {:induction false} Base58RoomSmall(n: nat)
    requires n < 8
    ensures Pow(256, n) <= Pow(58, 138 * n / 100 + 1)
  {
    assert Pow(256, 1) <= Pow(58, 2) && Pow(256, 2) <= Pow(58, 3);
    assert Pow(256, 3) <= Pow(58, 5) && Pow(256, 4) <= Pow(58, 6);
    assert Pow(256, 5) <= Pow(58, 7) && Pow(256, 6) <= Pow(58, 9);
    assert Pow(256, 7) <= Pow(58, 10);
  }

  lemma {:induction false} RoomRepeat(a: nat, b: nat, m: nat, k: nat, q: nat, mq: nat, kq: nat)
    requires Pow(a, m) <= Pow(b, k) && mq == q * m && kq == q * k
    ensures Pow(a, mq) <= Pow(b, kq)
    decreases q
  {
    if q > 0 {
      assert q * m == m + (q - 1) * m && q * k == k + (q - 1) * k;
      RoomRepeat(a, b, m, k, q - 1, mq - m, kq - k);
      RoomStep(a, b, m, k, mq - m, kq - k);
    }
  }

  lemma {:induction false} RoomTogether(a: nat, b: nat, m: nat, k: nat, r: nat, j: nat, n: nat, need: nat)
    requires b > 0 && Pow(a, m) <= Pow(b, k) && Pow(a, r) <= Pow(b, j) && m + r == n && k + j <= need
    ensures Pow(a, n) <= Pow(b, need)
  {
    RoomStep(a, b, m, k, r, j);
    PowMonotone(b, k + j, need);
  }

  ghost predicate RoomFor(a: nat, b: nat, num: nat, den: nat, n: nat)
    requires den > 0
  {
    Pow(a, n) <= Pow(b, num * n / den + 1)
  }

  lemma {:induction false} EstimateGrows(num: nat, den: nat, m: nat, k: nat, n: nat)
    requires den > 0 && m <= n && k * den <= num * m
    ensures k + num * (n - m) / den <= num * n / den
  {
    var x := num * (n - m);
    assert num * n == x + num * m;
    var q := num * n / den;
    assert x / den * den <= x;
    assert (k + x / den) * den == k * den + x / den * den;
    if q < k + x / den { MulMonotone(q + 1, den, k + x / den, den); }
  }

  /** If m digits of base a fit in k of base b, the estimate num/den allows for k in m, and
      it suffices below m, then it always suffices. */
  lemma {:induction false} RoomAlways(a: nat, b: nat, num: nat, den: nat, m: nat, k: nat, n: nat)
    requires b > 0 && den > 0 && m > 0 && k * den <= num * m && Pow(a, m) <= Pow(b, k)
    requires forall i :: 0 <= i < m ==> RoomFor(a, b, num, den, i)
    ensures RoomFor(a, b, num, den, n)
    decreases n
  {
    if n >= m {
      RoomAlways(a, b, num, den, m, k, n - m);
      EstimateGrows(num, den, m, k, n);
      RoomTogether(a, b, m, k, n - m, num * (n - m) / den + 1, n, num * n / den + 1);
    }
  }

  lemma {:induction false} PowOf(b: nat, i: nat, x: nat, j: nat, y: nat)
    requires Pow(b, i) == x && Pow(b, j) == y
    ensures Pow(b, i + j) == x * y
  {
    PowAdd(b, i, j);
  }

  lemma {:induction false} Base58Block()
    ensures Pow(256, 8) <= Pow(58, 11)
  {
  }

  /** n bytes fit in 138n/100 + 1 digits of base 58: 256^8 <= 58^11. */
  lemma {:induction false} Base58Room(n: nat)
    ensures Pow(256, n) <= Pow(58, 138 * n / 100 + 1)
  {
    forall i | 0 <= i < 8 ensures RoomFor(256, 58, 138, 100, i) { Base58RoomSmall(i); }
    Base58Block();
    RoomAlways(256, 58, 138, 100, 8, 11, n);
  }

  lemma {:induction false} Base256RoomTiny(n: nat)
    requires 0 < n < 15
    ensures Pow(58, n) <= Pow(256, 733 * n / 1000 + 1)
  {
    assert Pow(58, 1) <= Pow(256, 1) && Pow(58, 2) <= Pow(256, 2) && Pow(58, 3) <= Pow(256, 3);
    assert Pow(58, 4) <= Pow(256, 3) && Pow(58, 5) <= Pow(256, 4) && Pow(58, 6) <= Pow(256, 5);
    assert Pow(58, 7) <= Pow(256, 6) && Pow(58, 8) <= Pow(256, 6) && Pow(58, 9) <= Pow(256, 7);
    assert Pow(58, 10) <= Pow(256, 8) && Pow(58, 11) <= Pow(256, 9) && Pow(58, 12) <= Pow(256, 9);
    assert Pow(58, 13) <= Pow(256, 10) && Pow(58, 14) <= Pow(256, 11);
  }

  lemma {:induction false} Base256Fifteen()
    ensures Pow(58, 15) <= Pow(256, 11)
  {
    assert Pow(58, 7) == 2207984167552 && Pow(58, 8) == 128063081718016;
    PowAdd(58, 7, 8);
  }

  lemma {:induction false} Fifteens(q: nat, m: nat, k: nat)
    requires m == 15 * q && k == 11 * q
    ensures Pow(58, m) <= Pow(256, k)
  {
    Base256Fifteen();
    RoomRepeat(58, 256, 15, 11, q, m, k);
  }

  lemma {:induction false} FifteenthsFit(n: nat)
    requires n < 71
    ensures 15 * (n / 15) + n % 15 == n && n % 15 < 15
    ensures n % 15 == 0 ==> 11 * (n / 15) <= 733 * n / 1000 + 1
    ensures n % 15 > 0 ==> 11 * (n / 15) + (733 * (n % 15) / 1000 + 1) <= 733 * n / 1000 + 1
  {
    var q, r := n / 15, n % 15;
    assert n == 15 * q + r && q <= 4;
    if r > 0 {
      FifteenthsRest(r);
      var a, b := 733 * r / 1000, 733 * r % 1000;
      assert 733 * n == 1000 * (11 * q + a) + (b - 5 * q);
    } else {
      assert 733 * n == 1000 * (11 * q) - 5 * q;
    }
  }

  lemma FifteenthsRest(r: nat)
    requires 0 < r < 15
    ensures 733 * r % 1000 >= 63
  {
  }

  lemma {:induction false} Base256RoomSmall(n: nat)
    requires n < 71
    ensures Pow(58, n) <= Pow(256, 733 * n / 1000 + 1)
  {
    var q, r := n / 15, n % 15;
    hide Pow;
    FifteenthsFit(n);
    Fifteens(q, 15 * q, 11 * q);
    if r == 0 {
      PowMonotone(256, 11 * q, 733 * n / 1000 + 1);
    } else {
      Base256RoomTiny(r);
      RoomTogether(58, 256, 15 * q, 11 * q, r, 733 * r / 1000 + 1, n, 733 * n / 1000 + 1);
    }
  }

  lemma {:induction false} Base256Block()
    ensures Pow(58, 71) <= Pow(256, 52)
  {
    assert Pow(58, 7) == 2207984167552 && Pow(58, 8) == 128063081718016;
    assert Pow(256, 4) == 4294967296 && Pow(256, 8) == 18446744073709551616;
    var x, y := Pow(58, 8), Pow(256, 8);
    PowOf(58, 8, x, 8, x);
    PowOf(58, 16, x * x, 16, x * x);
    PowOf(58, 32, x * x * (x * x), 32, x * x * (x * x));
    PowOf(58, 64, x * x * (x * x) * (x * x * (x * x)), 7, Pow(58, 7));
    PowOf(256, 8, y, 8, y);
    PowOf(256, 16, y * y, 16, y * y);
    PowOf(256, 32, y * y * (y * y), 16, y * y);
    PowOf(256, 48, y * y * (y * y) * (y * y), 4, Pow(256, 4));
  }

  /** n digits of base 58 fit in 733n/1000 + 1 bytes: 58^71 <= 256^52. */
  lemma {:induction false} Base256Room(n: nat)
    ensures Pow(58, n) <= Pow(256, 733 * n / 1000 + 1)
  {
    forall i | 0 <= i < 71 ensures RoomFor(58, 256, 733, 1000, i) { Base256RoomSmall(i); }
    Base256Block();
    RoomAlways(58, 256, 733, 1000, 71, 52, n);
  }
}
