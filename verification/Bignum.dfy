/** Arbitrary numbers in 32 bits: the big-endian form with a sign bit, and the compact form
    that keeps its length and its first three bytes. */
module Bignum {
  import opened Basics
  import opened Numerals

  /** Big-endian bytes; the top bit of the first is the sign. */
  function ToMpi(n: int): (b: seq<nat>)
    ensures Digits(256, b)
  {
    var m := DigitsOf(256, if n < 0 then -n else n);
    if m == [] then []
    else
      var p := if m[0] >= 128 then [0] + m else m;
      if n < 0 then [p[0] + 128] + p[1..] else p
  }

  function FromMpi(b: seq<nat>): int {
    if b == [] then 0
    else if b[0] >= 128 then 0 - Val(256, [b[0] - 128] + b[1..])
    else Val(256, b)
  }

  function CompactBytes(nCompact: nat): (b: seq<nat>)
    requires nCompact < 0x1_0000_0000
    ensures Digits(256, b)
  {
    seq(nCompact / 0x1000000, i requires 0 <= i =>
      if i == 0 then nCompact / 0x10000 % 0x100
      else if i == 1 then nCompact / 0x100 % 0x100
      else if i == 2 then nCompact % 0x100
      else 0)
  }

  function SetCompact(nCompact: nat): int
    requires nCompact < 0x1_0000_0000
  {
    FromMpi(CompactBytes(nCompact))
  }

  function ByteAt(b: seq<nat>, i: nat): nat { if i < |b| then b[i] else 0 }

  /** The length is shifted into the top byte of a 32-bit word. */
  function GetCompact(n: int): (c: nat)
    ensures c < 0x1_0000_0000
  {
    var b := ToMpi(n);
    |b| % 0x100 * 0x1000000 + ByteAt(b, 0) * 0x10000 + ByteAt(b, 1) * 0x100 + ByteAt(b, 2)
  }

  // ---------- the big-endian form ----------

  lemma MpiInverse(n: int)
    ensures FromMpi(ToMpi(n)) == n
    ensures n == 0 <==> ToMpi(n) == []
  {
    var a: nat := if n < 0 then -n else n;
    assert FromMpi([]) == 0 && DigitsOf(256, 0) == [];
    hide Val, DigitsOf, FromMpi;
    DigitsOfVal(256, a);
    var m := DigitsOf(256, a);
    if m != [] {
      var p := if m[0] >= 128 then [0] + m else m;
      LeadingZero(m);
      SignedValue(p);
    }
  }

  lemma SignedValue(p: seq<nat>)
    requires p != [] && p[0] < 128
    ensures FromMpi(p) == Val(256, p) && FromMpi([p[0] + 128] + p[1..]) == 0 - Val(256, p)
  {
    hide Val;
    assert [p[0]] + p[1..] == p;
  }

  /** No byte more than needed. */
  ghost predicate Canonical(b: seq<nat>) {
    Digits(256, b) && (b != [] ==> b[0] % 128 != 0 || (|b| > 1 && b[1] >= 128))
  }

  lemma ToMpiCanonical(n: int)
    ensures Canonical(ToMpi(n))
    ensures n > 0 ==> ToMpi(n)[0] < 128
  {
    DigitsOfVal(256, if n < 0 then -n else n);
  }

  lemma CanonicalInverse(b: seq<nat>)
    requires Canonical(b)
    ensures ToMpi(FromMpi(b)) == b
  {
    if b != [] {
      var p := if b[0] >= 128 then [b[0] - 128] + b[1..] else b;
      assert Digits(256, p) && p[0] < 128 && p[1..] == b[1..] && b == if b[0] >= 128 then [p[0] + 128] + p[1..] else p;
      var m := if p[0] == 0 then p[1..] else p;
      var v: int := Val(256, p);
      assert FromMpi(b) == if b[0] >= 128 then -v else v;
      hide Val, DigitsOf, FromMpi, ToMpi;
      if p[0] == 0 {
        assert [0] + p[1..] == p;
        LeadingZero(p[1..]);
      }
      DigitsOfSigned(m, p, v);
    }
  }

  lemma LeadingZero(s: seq<nat>)
    ensures Val(256, [0] + s) == Val(256, s)
  {
    ValPrepend(256, 0, s);
  }

  /** The form of v and -v, from the digits m of v. */
  lemma DigitsOfSigned(m: seq<nat>, p: seq<nat>, v: int)
    requires m != [] && m[0] != 0 && Digits(256, m) && v == Val(256, m)
    requires p == if m[0] >= 128 then [0] + m else m
    ensures v > 0 && ToMpi(v) == p && ToMpi(-v) == [p[0] + 128] + p[1..]
  {
    hide Val, DigitsOf;
    ValDigitsOf(256, m);
  }

  lemma {:induction false} ValConcat(s: seq<nat>, t: seq<nat>)
    ensures Val(256, s + t) == Val(256, s) * Pow(256, |t|) + Val(256, t)
    decreases |s|
  {
    if s == [] {
      assert s + t == t;
    } else {
      ValConcat(s[1..], t);
      assert s + t == [s[0]] + (s[1..] + t) && s == [s[0]] + s[1..];
      ValPrepend(256, s[0], s[1..] + t);
      ValPrepend(256, s[0], s[1..]);
      PowAdd(256, |s[1..]|, |t|);
      Regroup(s[0], Pow(256, |s[1..]|), Pow(256, |t|), Val(256, s[1..]), Val(256, t));
    }
  }

  lemma Regroup(d: nat, p: nat, q: nat, v: nat, w: nat)
    ensures d * (p * q) + (v * q + w) == (d * p + v) * q + w
  {
    assert d * (p * q) == d * p * q;
  }

  lemma {:induction false} ValZeros(s: seq<nat>)
    requires forall i :: 0 <= i < |s| ==> s[i] == 0
    ensures Val(256, s) == 0
    decreases |s|
  {
    if s != [] { ValZeros(s[..|s| - 1]); }
  }

  lemma Val3(s: seq<nat>)
    requires |s| == 3
    ensures Val(256, s) == s[0] * 0x10000 + s[1] * 0x100 + s[2]
  {
    assert s[..2][..1][..0] == [];
    assert Val(256, s[..2][..1]) == s[0];
    assert Val(256, s[..2]) == s[0] * 256 + s[1];
  }

  // ---------- what the compact form keeps ----------

  /** All bytes but the first three are cleared. */
  function Cut(b: seq<nat>): seq<nat> { seq(|b|, i requires 0 <= i < |b| => if i < 3 then b[i] else 0) }

  lemma CompactIsCut(n: int)
    requires |ToMpi(n)| < 256
    ensures SetCompact(GetCompact(n)) == FromMpi(Cut(ToMpi(n)))
  {
    hide Val, DigitsOf, FromMpi, ToMpi;
    var b := ToMpi(n);
    WordBytes(|b|, ByteAt(b, 0), ByteAt(b, 1), ByteAt(b, 2));
    assert |b| % 0x100 == |b|;
    assert CompactBytes(GetCompact(n)) == Cut(b);
  }

  lemma WordBytes(a: nat, b: nat, c: nat, d: nat)
    requires a < 0x100 && b < 0x100 && c < 0x100 && d < 0x100
    ensures var w := a * 0x1000000 + b * 0x10000 + c * 0x100 + d;
            w / 0x1000000 == a && w / 0x10000 % 0x100 == b && w / 0x100 % 0x100 == c && w % 0x100 == d
  {
    var w := a * 0x1000000 + b * 0x10000 + c * 0x100 + d;
    assert w / 0x100 == a * 0x10000 + b * 0x100 + c;
    assert w / 0x10000 == a * 0x100 + b;
  }

  /** The number a number becomes by way of its compact form. */
  function Compacted(n: int): int { SetCompact(GetCompact(n)) }

  lemma CompactedSame(n: int)
    requires |ToMpi(n)| < 256
    ensures GetCompact(Compacted(n)) == GetCompact(n) && ToMpi(Compacted(n)) == Cut(ToMpi(n))
  {
    CompactIsCut(n);
    ToMpiCanonical(n);
    CanonicalInverse(Cut(ToMpi(n)));
  }

  function Ulp(s: nat): nat { if s < 3 then 1 else Pow(256, s - 3) }

  /** How long a positive number's form is, and how much the compact form takes off. */
  lemma PositiveCut(n: nat) returns (m: nat)
    requires n > 0
    ensures var b := ToMpi(n); var p := Ulp(|b|);
            && Digits(256, b) && b != [] && p > 0
            && (|b| >= 3 ==> 0x8000 * p <= n < 0x800000 * p)
            && FromMpi(Cut(b)) <= n < FromMpi(Cut(b)) + p
            && (|b| < 3 ==> n < 0x8000)
            && FromMpi(Cut(b)) == m * p
  {
    var b := ToMpi(n);
    MpiInverse(n);
    ToMpiCanonical(n);
    if |b| < 3 {
      assert Cut(b) == b;
      ShortValue(b);
      m := n;
      assert FromMpi(Cut(b)) == n * 1;
    } else {
      assert Val(256, b) == n && FromMpi(Cut(b)) == Val(256, Cut(b));
      hide DigitsOf, ToMpi, FromMpi;
      m := LongCut(b);
    }
  }

  lemma HeadAndTail(b: seq<nat>)
    requires |b| >= 3 && Digits(256, b)
    ensures Val(256, b) == Val(256, b[..3]) * Pow(256, |b| - 3) + Val(256, b[3..])
    ensures Val(256, b[3..]) < Pow(256, |b| - 3)
    ensures Val(256, b[..3]) == b[0] * 0x10000 + b[1] * 0x100 + b[2]
  {
    assert b == b[..3] + b[3..];
    ValConcat(b[..3], b[3..]);
    Val3(b[..3]);
    assert Digits(256, b[3..]);
    ValBelow(256, b[3..]);
  }

  lemma LongCut(b: seq<nat>) returns (m: nat)
    requires |b| >= 3 && Canonical(b) && b[0] < 128
    ensures var n, c, p := Val(256, b), Val(256, Cut(b)), Pow(256, |b| - 3);
            0x8000 * p <= n < 0x800000 * p && c <= n < c + p && c == m * p
  {
    var v, p := Val(256, b[3..]), Pow(256, |b| - 3);
    m := Val(256, b[..3]);
    HeadBounds(b);
    hide *;
    HeadAndTail(b);
    CutValue(b);
    ScaledBounds(m, p, v, 0x8000, 0x800000);
  }

  lemma HeadBounds(b: seq<nat>)
    requires |b| >= 3 && Canonical(b) && b[0] < 128
    ensures 0x8000 <= Val(256, b[..3]) < 0x800000
  {
    Val3(b[..3]);
  }

  lemma CutValue(b: seq<nat>)
    requires |b| >= 3 && Digits(256, b)
    ensures Val(256, Cut(b)) == Val(256, b[..3]) * Pow(256, |b| - 3)
  {
    hide Val, Pow;
    assert Cut(b)[..3] == b[..3] && Digits(256, Cut(b)) && |Cut(b)| == |b|;
    ValZeros(Cut(b)[3..]);
    HeadAndTail(Cut(b));
  }

  lemma ShortValue(b: seq<nat>)
    requires 0 < |b| < 3 && Digits(256, b) && b[0] < 128
    ensures Val(256, b) < 0x8000
  {
    if |b| == 1 {
      assert Val(256, b) == b[0] by { assert b[..0] == []; }
    } else {
      assert Val(256, b) == b[0] * 256 + b[1] by { assert b[..1][..0] == []; assert Val(256, b[..1]) == b[0]; }
    }
  }

  /** Positive numbers are never rounded up, never to zero, and lose less than one part in
      2^15. */
  lemma CompactedLoss(n: nat)
    requires n > 0 && |ToMpi(n)| < 256
    ensures 0 < Compacted(n) <= n
    ensures (n - Compacted(n)) * 0x8000 < n
  {
    CompactIsCut(n);
    var m := PositiveCut(n);
  }

  /** c, the largest multiple of p up to n, is no smaller than any other. */
  lemma FloorAbove(n: nat, p: nat, m: nat, c: nat, a: nat, d: nat)
    requires c == m * p && d == a * p && c <= n < c + p && d <= n
    ensures d <= c
  {
    assert (m + 1) * p == m * p + p;
    if m < a { MulMonotone(m + 1, p, a, p); } else { MulMonotone(a, p, m, p); }
  }

  lemma ScaledBounds(m: nat, p: nat, v: nat, lo: nat, hi: nat)
    requires lo <= m < hi && v < p
    ensures lo * p <= m * p + v < hi * p
  {
    assert (m + 1) * p == m * p + p;
    MulMonotone(lo, p, m, p);
    MulMonotone(m + 1, p, hi, p);
  }

  lemma CompactedMonotone(n1: nat, n2: nat)
    requires 0 < n1 <= n2 && |ToMpi(n1)| < 256 && |ToMpi(n2)| < 256
    ensures Compacted(n1) <= Compacted(n2)
  {
    hide Val, DigitsOf, FromMpi, ToMpi, Pow;
    CompactIsCut(n1);
    CompactIsCut(n2);
    var p1, p2 := Ulp(|ToMpi(n1)|), Ulp(|ToMpi(n2)|);
    var c1, c2 := Compacted(n1), Compacted(n2);
    var m1 := PositiveCut(n1);
    var m2 := PositiveCut(n2);
    hide *;
    UlpMonotone(n1, n2);
    if p1 == p2 {
      FloorAbove(n2, p2, m2, c2, m1, c1);
    } else {
      FloorAbove(n2, p2, m2, c2, 0x8000, 0x8000 * p2);
    }
  }

  /** A larger number has the same unit, or one that leaves the smaller number below the
      smallest of its length. */
  lemma UlpMonotone(n1: nat, n2: nat)
    requires 0 < n1 <= n2
    ensures var p1, p2 := Ulp(|ToMpi(n1)|), Ulp(|ToMpi(n2)|); p1 == p2 || n1 < 0x8000 * p2 <= n2
  {
    hide Val, DigitsOf, FromMpi, ToMpi, Cut;
    var m1 := PositiveCut(n1);
    var m2 := PositiveCut(n2);
    var s1, s2 := |ToMpi(n1)|, |ToMpi(n2)|;
    if s1 > s2 && s1 > 3 {
      assert Pow(256, s1 - 3) == 256 * Pow(256, s1 - 4);
      if s2 >= 3 { PowMonotone(256, s2 - 3, s1 - 4); }
    } else if s1 < s2 && s2 > 3 {
      assert Pow(256, s2 - 3) == 256 * Pow(256, s2 - 4);
      if s1 >= 3 { PowMonotone(256, s1 - 3, s2 - 4); }
    }
  }

  /** What a compact form stands for, if positive, survives being encoded again. */
  lemma DecodeEncodeDecode(c: nat)
    requires c < 0x1_0000_0000 && SetCompact(c) > 0
    ensures |ToMpi(SetCompact(c))| < 256 && Compacted(SetCompact(c)) == SetCompact(c)
  {
    var n, b := SetCompact(c), CompactBytes(c);
    var k := |b|;
    assert k < 256 && b != [] && b[0] < 128 && n == Val(256, b);
    if k < 3 {
      ShortValue(b);
      assert n == n * Pow(256, 0);
      hide Val, FromMpi, ToMpi, SetCompact;
      SizeBelow(n, 0);
      CompactedExact(n, n, 0);
    } else {
      var m := Val(256, b[..3]);
      CompactValue(b);
      hide Val, FromMpi, ToMpi, SetCompact;
      SizeBelow(n, k - 3);
      CompactedExact(n, m, k - 3);
    }
  }

  lemma CompactValue(b: seq<nat>)
    requires |b| >= 3 && Digits(256, b) && b[0] < 128 && forall i :: 3 <= i < |b| ==> b[i] == 0
    ensures var m := Val(256, b[..3]); Val(256, b) == m * Pow(256, |b| - 3) && m < 0x800000
    ensures Val(256, b) < 0x800000 * Pow(256, |b| - 3)
  {
    HeadAndTail(b);
    ValZeros(b[3..]);
    var m, p := Val(256, b[..3]), Pow(256, |b| - 3);
    hide *;
    ScaledBounds(m, p, 0, 0, 0x800000);
  }

  lemma SizeBelow(n: nat, e: nat)
    requires 0 < n < 0x800000 * Pow(256, e)
    ensures |ToMpi(n)| <= e + 3
  {
    hide Val, DigitsOf, FromMpi, ToMpi, Cut;
    var m := PositiveCut(n);
    var s := |ToMpi(n)|;
    if s > e + 3 {
      assert Pow(256, s - 3) == 256 * Pow(256, s - 4);
      PowMonotone(256, e, s - 4);
    }
  }

  /** A multiple of the unit of its own compact form is kept. */
  lemma CompactedExact(n: nat, m: nat, e: nat)
    requires n > 0 && n == m * Pow(256, e) && |ToMpi(n)| <= e + 3 && |ToMpi(n)| < 256
    ensures Compacted(n) == n
  {
    CompactIsCut(n);
    var s, p, c := |ToMpi(n)|, Ulp(|ToMpi(n)|), Compacted(n);
    var k := PositiveCut(n);
    if s >= 3 {
      var q := Pow(256, e - (s - 3));
      PowAdd(256, e - (s - 3), s - 3);
      assert Pow(256, e) == q * p && c <= n < c + p;
      hide *;
      MulAssociates(m, q, p);
      FloorAbove(n, p, k, c, m * q, n);
    }
  }
}
