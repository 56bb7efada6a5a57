/** The next target of a chain: the last one scaled by how long the last block took, kept
    within a limit, and rounded by the compact form. */
module Retarget {
  import opened Basics
  import opened Bits
  import opened Numerals
  import opened Bignum

  const TARGET_SPACING := 60
  const TARGET_TIMESPAN := 10 * 60

  function ProofOfWorkLimit(): nat { Pow2(240) - 1 }

  function ProofOfStakeLimit(): nat { Pow2(236) - 1 }

  function Limit(fProofOfStake: bool): nat { if fProofOfStake then ProofOfStakeLimit() else ProofOfWorkLimit() }

  /** A block and the chain behind it. */
  datatype BlockIndex = Null | Block(pprev: BlockIndex, nTime: int, nBits: nat, fProofOfStake: bool)

  /** The last block of a kind, or the first block of the chain. */
  function LastOfKind(pindex: BlockIndex, fProofOfStake: bool): (r: BlockIndex) {
    if pindex.Block? && pindex.pprev.Block? && pindex.fProofOfStake != fProofOfStake
    then LastOfKind(pindex.pprev, fProofOfStake)
    else pindex
  }

  ghost function Behind(pindex: BlockIndex): (r: set<BlockIndex>)
    ensures forall q :: q in r ==> q.Block?
  {
    if pindex.Null? then {} else {pindex} + Behind(pindex.pprev)
  }

  /** LastOfKind finds a block of the chain; either it is of the kind asked for or it is the
      first, and then no later block is of that kind. */
  lemma {:induction false} LastOfKindIs(pindex: BlockIndex, fProofOfStake: bool)
    requires pindex.Block?
    ensures var r := LastOfKind(pindex, fProofOfStake);
            && r.Block? && r in Behind(pindex)
            && (r.fProofOfStake == fProofOfStake || r.pprev.Null?)
            && forall q :: q in Behind(pindex) && q.fProofOfStake == fProofOfStake && q != r ==> q in Behind(r)
  {
    if pindex.pprev.Block? && pindex.fProofOfStake != fProofOfStake { LastOfKindIs(pindex.pprev, fProofOfStake); }
  }

  method GetLastBlockIndex(start: BlockIndex, fProofOfStake: bool) returns (pindex: BlockIndex)
    ensures pindex == LastOfKind(start, fProofOfStake)
  {
    pindex := start;
    while pindex.Block? && pindex.pprev.Block? && pindex.fProofOfStake != fProofOfStake
      invariant LastOfKind(pindex, fProofOfStake) == LastOfKind(start, fProofOfStake)
      decreases pindex
    {
      pindex := pindex.pprev;
    }
  }

  /** Division that rounds towards zero. */
  function Quot(a: int, b: int): int
    requires b > 0
  {
    if a >= 0 then a / b else -((-a) / b)
  }

  function Spacing(nActualSpacing: int): nat { if nActualSpacing < 0 then TARGET_SPACING else nActualSpacing }

  /** The last target, scaled. */
  function Scaled(target: int, nActualSpacing: int): int { ScaledBy(target, Spacing(nActualSpacing)) }

  function ScaledBy(target: int, spacing: nat): int { Quot(target * (540 + 2 * spacing), 660) }

  function Clamped(n: int, limit: nat): int { if n <= 0 || n > limit then limit else n }

  /** The bits after a block with these bits that took so long. */
  function NextBits(nBits: nat, nActualSpacing: int, limit: nat): nat
    requires nBits < 0x1_0000_0000
  {
    GetCompact(Clamped(Scaled(SetCompact(nBits), nActualSpacing), limit))
  }

  ghost predicate Words(pindex: BlockIndex) {
    pindex.Block? ==> pindex.nBits < 0x1_0000_0000 && Words(pindex.pprev)
  }

  lemma {:induction false} WordsLast(pindex: BlockIndex, fProofOfStake: bool)
    requires Words(pindex)
    ensures Words(LastOfKind(pindex, fProofOfStake))
  {
    if pindex.Block? && pindex.pprev.Block? && pindex.fProofOfStake != fProofOfStake {
      WordsLast(pindex.pprev, fProofOfStake);
    }
  }

  /** What is required of the block after pindexLast. */
  function Required(pindexLast: BlockIndex, fProofOfStake: bool): nat
    requires Words(pindexLast)
  {
    var limit := Limit(fProofOfStake);
    if pindexLast.Null? then GetCompact(limit)
    else
      var prev := LastOfKind(pindexLast, fProofOfStake);
      WordsLast(pindexLast, fProofOfStake);
      LastOfKindIs(pindexLast, fProofOfStake);
      if prev.pprev.Null? then GetCompact(limit)
      else
        var prevPrev := LastOfKind(prev.pprev, fProofOfStake);
        LastOfKindIs(prev.pprev, fProofOfStake);
        if prevPrev.pprev.Null? then GetCompact(limit)
        else NextBits(prev.nBits, prev.nTime - prevPrev.nTime, limit)
  }

  method GetNextTargetRequired(pindexLast: BlockIndex, fProofOfStake: bool) returns (nCompact: nat)
    requires Words(pindexLast)
    ensures nCompact == Required(pindexLast, fProofOfStake)
  {
    hide SetCompact, GetCompact, Limit, ScaledBy;
    var bnTargetLimit := Limit(fProofOfStake);
    if pindexLast.Null? { return GetCompact(bnTargetLimit); }
    LastOfKindIs(pindexLast, fProofOfStake);
    WordsLast(pindexLast, fProofOfStake);
    var pindexPrev := GetLastBlockIndex(pindexLast, fProofOfStake);
    if pindexPrev.pprev.Null? { return GetCompact(bnTargetLimit); }
    LastOfKindIs(pindexPrev.pprev, fProofOfStake);
    var pindexPrevPrev := GetLastBlockIndex(pindexPrev.pprev, fProofOfStake);
    if pindexPrevPrev.pprev.Null? { return GetCompact(bnTargetLimit); }
    var nActualSpacing := pindexPrev.nTime - pindexPrevPrev.nTime;
    if nActualSpacing < 0 { nActualSpacing := TARGET_SPACING; }
    var bnNew := SetCompact(pindexPrev.nBits);
    bnNew := Rescale(bnNew, nActualSpacing);
    if bnNew <= 0 || bnNew > bnTargetLimit { bnNew := bnTargetLimit; }
    nCompact := GetCompact(bnNew);
  }

  method Rescale(bnOld: int, nActualSpacing: nat) returns (bnNew: int)
    ensures bnNew == ScaledBy(bnOld, nActualSpacing)
  {
    var nInterval := TARGET_TIMESPAN / TARGET_SPACING;
    var nFactor := (nInterval - 1) * TARGET_SPACING + nActualSpacing + nActualSpacing;
    var nDivisor := (nInterval + 1) * TARGET_SPACING;
    assert nFactor == 540 + 2 * nActualSpacing && nDivisor == 660;
    hide Quot;
    bnNew := bnOld * nFactor;
    bnNew := Quot(bnNew, nDivisor);
  }

  // ---------- the limits ----------

  lemma {:induction false} Pow2Is256(k: nat)
    ensures Pow2(8 * k) == Pow(256, k)
  {
    if k > 0 {
      Pow2Is256(k - 1);
      Pow2Add(8, 8 * (k - 1));
      assert Pow2(8) == 256;
    }
  }

  lemma LimitSmall(fProofOfStake: bool)
    ensures 0 < Limit(fProofOfStake) < Pow(256, 30)
  {
    hide Pow2, Pow;
    Pow2Is256(30);
    Pow2Monotone(236, 240);
    Pow2Monotone(1, 236);
    assert Pow2(1) == 2 by { Pow2Small(); }
  }

  lemma Pow2Small()
    ensures Pow2(1) == 2 && Pow2(16) == 65536
  {
    assert Pow2(8) == 256;
    Pow2Add(8, 8);
  }

  /** Targets within a limit have a compact form. */
  lemma WithinLimit(n: nat, fProofOfStake: bool)
    requires 0 < n <= Limit(fProofOfStake)
    ensures |ToMpi(n)| < 256
  {
    LimitSmall(fProofOfStake);
    hide Limit, Pow, ToMpi;
    SizeBelow(n, 30);
  }

  // ---------- range ----------

  /** Whatever came before, what is required of the next block stands for a target above
      zero and within its limit; so it does all along a chain of such blocks. */
  lemma RequiredInRange(pindexLast: BlockIndex, fProofOfStake: bool)
    requires Words(pindexLast)
    ensures 0 < SetCompact(Required(pindexLast, fProofOfStake)) <= Limit(fProofOfStake)
  {
    var limit := Limit(fProofOfStake);
    hide Limit, SetCompact, GetCompact;
    LimitSmall(fProofOfStake);
    var n := RequiredIs(pindexLast, fProofOfStake);
    WithinLimit(n, fProofOfStake);
    CompactedLoss(n);
  }

  lemma RequiredIs(pindexLast: BlockIndex, fProofOfStake: bool) returns (n: nat)
    requires Words(pindexLast) && Limit(fProofOfStake) > 0
    ensures 0 < n <= Limit(fProofOfStake) && Required(pindexLast, fProofOfStake) == GetCompact(n)
  {
    hide Limit, SetCompact, GetCompact, Scaled;
    n := Limit(fProofOfStake);
    if pindexLast.Block? {
      LastOfKindIs(pindexLast, fProofOfStake);
      WordsLast(pindexLast, fProofOfStake);
      var prev := LastOfKind(pindexLast, fProofOfStake);
      if prev.pprev.Block? {
        LastOfKindIs(prev.pprev, fProofOfStake);
        var prevPrev := LastOfKind(prev.pprev, fProofOfStake);
        if prevPrev.pprev.Block? { n := Clamped(Scaled(SetCompact(prev.nBits), prev.nTime - prevPrev.nTime), n); }
      }
    }
  }

  /** Every block carries the bits required of it. */
  ghost predicate Regular(pindex: BlockIndex) {
    pindex.Block? ==>
      && Words(pindex.pprev) && Regular(pindex.pprev)
      && pindex.nBits == Required(pindex.pprev, pindex.fProofOfStake)
  }

  predicate InRange(nBits: nat, fProofOfStake: bool) {
    nBits < 0x1_0000_0000 && 0 < SetCompact(nBits) <= Limit(fProofOfStake)
  }

  lemma {:induction false} RegularInRange(pindex: BlockIndex)
    requires Regular(pindex)
    ensures Words(pindex)
    ensures forall q :: q in Behind(pindex) ==> InRange(q.nBits, q.fProofOfStake)
  {
    hide SetCompact, GetCompact, Limit, Required;
    if pindex.Block? {
      RegularInRange(pindex.pprev);
      RequiredInRange(pindex.pprev, pindex.fProofOfStake);
      RequiredWord(pindex.pprev, pindex.fProofOfStake);
    }
  }

  lemma RequiredWord(pindexLast: BlockIndex, fProofOfStake: bool)
    requires Words(pindexLast)
    ensures Required(pindexLast, fProofOfStake) < 0x1_0000_0000
  {
    LimitSmall(fProofOfStake);
    hide Limit, SetCompact, GetCompact;
    var n := RequiredIs(pindexLast, fProofOfStake);
  }

  // ---------- the fixed point ----------

  /** A block on time, or one that claims to be earlier than the one before, leaves the
      target as it is. */
  lemma OnTimeKeeps(nBits: nat, nActualSpacing: int, fProofOfStake: bool)
    requires nBits < 0x1_0000_0000 && 0 < SetCompact(nBits) <= Limit(fProofOfStake)
    requires nActualSpacing == TARGET_SPACING || nActualSpacing < 0
    ensures SetCompact(NextBits(nBits, nActualSpacing, Limit(fProofOfStake))) == SetCompact(nBits)
  {
    var n := SetCompact(nBits);
    hide SetCompact, GetCompact, Limit;
    DivMulAdd(n, 660, 0);
    assert Scaled(n, nActualSpacing) == n;
    hide Scaled;
    DecodeEncodeDecode(nBits);
  }

  // ---------- monotonicity ----------

  function NextTarget(target: int, nActualSpacing: int, limit: nat): int {
    Compacted(Clamped(Scaled(target, nActualSpacing), limit))
  }

  lemma ScaledMonotone(target: nat, s1: nat, s2: nat)
    requires s1 <= s2
    ensures 0 <= Scaled(target, s1) <= Scaled(target, s2)
  {
    var f1, f2 := 540 + 2 * s1, 540 + 2 * s2;
    assert target * f1 <= target * f2;
  }

  /** The longer the block took, the larger the next target, exactly unless the scaled target
      drops to zero for the shorter time only: zero is replaced by the limit. */
  lemma NextTargetMonotone(target: nat, s1: nat, s2: nat, fProofOfStake: bool)
    requires 0 < target <= Limit(fProofOfStake) && s1 <= s2
    ensures var limit := Limit(fProofOfStake);
            NextTarget(target, s1, limit) <= NextTarget(target, s2, limit) <==>
            Scaled(target, s1) > 0 || Scaled(target, s2) == 0 || Scaled(target, s2) >= Compacted(limit)
  {
    var limit := Limit(fProofOfStake);
    var n1, n2 := Scaled(target, s1), Scaled(target, s2);
    ScaledMonotone(target, s1, s2);
    LimitSmall(fProofOfStake);
    hide Scaled, Limit, Compacted;
    if n1 > 0 {
      ClampedMonotone(n1, n2, fProofOfStake);
    } else if n2 > 0 {
      ReachesLimit(n2, fProofOfStake);
    }
  }

  lemma ClampedMonotone(n1: nat, n2: nat, fProofOfStake: bool)
    requires 0 < n1 <= n2
    ensures Compacted(Clamped(n1, Limit(fProofOfStake))) <= Compacted(Clamped(n2, Limit(fProofOfStake)))
  {
    LimitSmall(fProofOfStake);
    hide Limit, Compacted;
    var c1: nat, c2: nat := Clamped(n1, Limit(fProofOfStake)), Clamped(n2, Limit(fProofOfStake));
    WithinLimit(c1, fProofOfStake);
    WithinLimit(c2, fProofOfStake);
    CompactedMonotone(c1, c2);
  }

  lemma ReachesLimit(n: nat, fProofOfStake: bool)
    requires n > 0
    ensures var limit := Limit(fProofOfStake);
            Compacted(limit) <= Compacted(Clamped(n, limit)) <==> n >= Compacted(limit)
  {
    var limit := Limit(fProofOfStake);
    LimitSmall(fProofOfStake);
    hide Limit, Compacted, ToMpi, GetCompact;
    WithinLimit(limit, fProofOfStake);
    CompactedLoss(limit);
    var l: nat := Compacted(limit);
    WithinLimit(l, fProofOfStake);
    CompactedSame(limit);
    assert Compacted(l) == l by { SameCompact(limit); }
    var c: nat := Clamped(n, limit);
    WithinLimit(c, fProofOfStake);
    CompactedLoss(c);
    if n >= l { CompactedMonotone(l, c); }
  }

  lemma SameCompact(n: int)
    requires |ToMpi(n)| < 256
    ensures Compacted(Compacted(n)) == Compacted(n)
  {
    CompactedSame(n);
  }

  /** The jump happens: the smallest target, halved or not. */
  lemma JumpExample()
    ensures Scaled(1, 0) == 0 && Scaled(1, TARGET_SPACING) == 1
    ensures NextTarget(1, 0, Limit(false)) > NextTarget(1, TARGET_SPACING, Limit(false))
  {
    LimitSmall(false);
    assert Pow2(240) == 256 * Pow2(232) && Pow2(232) >= 1;
    var limit := Limit(false);
    assert limit >= 255;
    hide Limit, Compacted, ToMpi;
    assert Scaled(1, 0) == 0 && Scaled(1, 60) == 1;
    WithinLimit(1, false);
    WithinLimit(limit, false);
    CompactedLoss(limit);
    CompactedLoss(1);
  }

  // ---------- trust ----------

  /** The work a block stands for. */
  function BlockTrust(nBits: nat): nat
    requires nBits < 0x1_0000_0000
  {
    var bnTarget := SetCompact(nBits);
    if bnTarget <= 0 then 0 else Pow2(256) / (bnTarget + 1) % Pow2(256)
  }

  /** Every block of a regular chain adds at least 2^16 of trust, and harder targets add no
      less. */
  lemma RegularTrust(nBits1: nat, nBits2: nat, fProofOfStake: bool)
    requires nBits1 < 0x1_0000_0000 && nBits2 < 0x1_0000_0000
    requires 0 < SetCompact(nBits1) <= SetCompact(nBits2) <= Limit(fProofOfStake)
    ensures BlockTrust(nBits1) >= BlockTrust(nBits2) >= Pow2(16)
  {
    hide SetCompact, Pow2;
    var a, b := SetCompact(nBits1) + 1, SetCompact(nBits2) + 1;
    Pow2Add(240, 16);
    Pow2Monotone(236, 240);
    var p := Pow2(256);
    QuotientAntitone(p, a, b);
    QuotientAtLeast(p, b, Pow2(240), Pow2(16));
    QuotientHalved(p, a);
    QuotientHalved(p, b);
  }

  lemma {:induction false} Pow2Add(j: nat, k: nat)
    ensures Pow2(j + k) == Pow2(j) * Pow2(k)
  {
    if k > 0 {
      Pow2Add(j, k - 1);
      MulDouble(Pow2(j), Pow2(k - 1));
      assert Pow2(j + k) == 2 * Pow2(j + (k - 1)) && Pow2(k) == 2 * Pow2(k - 1);
    }
    hide Pow2;
  }

  lemma MulDouble(a: nat, p: nat)
    ensures a * (2 * p) == 2 * (a * p)
  {
  }

  lemma QuotientAntitone(p: nat, a: nat, b: nat)
    requires 0 < a <= b
    ensures p / b <= p / a
  {
    var q, r := p / b, p / a;
    assert q * b <= p < (r + 1) * a;
    if q >= r + 1 { MulMonotone(r + 1, a, q, b); }
  }

  lemma QuotientAtLeast(p: nat, b: nat, m: nat, k: nat)
    requires 0 < b <= m && p == m * k
    ensures p / b >= k
  {
    var q := p / b;
    assert p < (q + 1) * b;
    if q + 1 <= k { MulMonotone(q + 1, b, k, m); }
  }

  lemma QuotientHalved(p: nat, a: nat)
    requires a >= 2 && p > 0
    ensures p / a < p && p / a % p == p / a
  {
    var q := p / a;
    assert q * a <= p;
    MulMonotone(q, 2, q, a);
  }
}
