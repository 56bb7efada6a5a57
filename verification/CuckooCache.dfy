/** The cuckoo cache as an object over a packed array of garbage-collection bits, proved to
    take exactly the steps of `CuckooTable`. */
module CuckooCache {
  import opened Basics
  import opened Options
  import opened Bits
  import opened CuckooTable

  // ---------- bit-packed flags ----------

  function Mask(k: nat): bv8
    requires k < 8
  {
    if k == 0 then 0x01 else if k == 1 then 0x02 else if k == 2 then 0x04 else if k == 3 then 0x08
    else if k == 4 then 0x10 else if k == 5 then 0x20 else if k == 6 then 0x40 else 0x80
  }

  predicate Has(x: bv8, k: nat)
    requires k < 8
  {
    Mask(k) & x != 0
  }

  /** Setting one bit of a byte leaves the other seven alone. */
  lemma OrSetsOne(x: bv8, j: nat, k: nat)
    requires j < 8 && k < 8
    ensures Has(x | Mask(k), j) <==> j == k || Has(x, j)
  {
  }

  /** So does clearing one. */
  lemma AndClearsOne(x: bv8, j: nat, k: nat)
    requires j < 8 && k < 8
    ensures Has(x & !Mask(k), j) <==> j != k && Has(x, j)
  {
  }

  predicate BitIn(bytes: seq<bv8>, s: nat)
    requires s < 8 * |bytes|
  {
    Has(bytes[s / 8], s % 8)
  }

  lemma BitInUpdated(bytes: seq<bv8>, s: nat, y: bv8)
    requires s < 8 * |bytes|
    requires forall j :: 0 <= j < 8 && j != s % 8 ==> Has(y, j) == Has(bytes[s / 8], j)
    ensures forall t :: 0 <= t < 8 * |bytes| ==>
              BitIn(bytes[s / 8 := y], t) == if t == s then Has(y, s % 8) else BitIn(bytes, t)
  {
    forall t | 0 <= t < 8 * |bytes|
      ensures BitIn(bytes[s / 8 := y], t) == if t == s then Has(y, s % 8) else BitIn(bytes, t)
    {
      if t / 8 == s / 8 && t != s { assert t % 8 != s % 8; }
    }
  }

  class BitPackedAtomicFlags {
    var mem: array<bv8>

    constructor (size: nat)
      ensures fresh(mem) && 8 * mem.Length >= size
      ensures forall s :: 0 <= s < 8 * mem.Length ==> BitIsSet(s)
    {
      mem := new bv8[(size + 7) / 8](_ => 0xFF);
    }

    predicate BitIsSet(s: nat)
      requires s < 8 * mem.Length
      reads this, mem
    {
      BitIn(mem[..], s)
    }

    method FetchOr(i: nat, k: nat)
      requires i < mem.Length && k < 8
      modifies mem
      ensures forall j :: 0 <= j < 8 ==> (Has(mem[i], j) <==> j == k || Has(old(mem[i]), j))
      ensures forall i' :: 0 <= i' < mem.Length && i' != i ==> mem[i'] == old(mem[i'])
    {
      forall j | 0 <= j < 8 { OrSetsOne(mem[i], j, k); }
      mem[i] := mem[i] | Mask(k);
    }

    method FetchAndNot(i: nat, k: nat)
      requires i < mem.Length && k < 8
      modifies mem
      ensures forall j :: 0 <= j < 8 ==> (Has(mem[i], j) <==> j != k && Has(old(mem[i]), j))
      ensures forall i' :: 0 <= i' < mem.Length && i' != i ==> mem[i'] == old(mem[i'])
    {
      forall j | 0 <= j < 8 { AndClearsOne(mem[i], j, k); }
      mem[i] := mem[i] & !Mask(k);
    }

    method BitSet(s: nat)
      requires s < 8 * mem.Length
      modifies mem
      ensures forall t :: 0 <= t < 8 * mem.Length ==> (BitIsSet(t) <==> t == s || old(BitIsSet(t)))
    {
      ghost var bytes := mem[..];
      FetchOr(s / 8, s % 8);
      BitInUpdated(bytes, s, mem[s / 8]);
      assert mem[..] == bytes[s / 8 := mem[s / 8]];
    }

    method BitUnset(s: nat)
      requires s < 8 * mem.Length
      modifies mem
      ensures forall t :: 0 <= t < 8 * mem.Length ==> (BitIsSet(t) <==> t != s && old(BitIsSet(t)))
    {
      ghost var bytes := mem[..];
      FetchAndNot(s / 8, s % 8);
      BitInUpdated(bytes, s, mem[s / 8]);
      assert mem[..] == bytes[s / 8 := mem[s / 8]];
    }
  }

  // ---------- the cache ----------

  class Store<E(==,!new)> {
    const p: Params<E>
    const size: nat
    const epochSize: nat
    const depthLimit: nat
    const collectionFlags: BitPackedAtomicFlags
    var table: seq<E>
    var epochFlags: seq<bool>
    var epochHeuristicCounter: nat

    ghost predicate Valid()
      reads this, collectionFlags, collectionFlags.mem
    {
      && size == p.Size() && epochSize == p.EpochSize() && depthLimit == p.depth
      && size <= 8 * collectionFlags.mem.Length
      && p.Fits(T())
    }

    function Gone(): (gone: seq<bool>)
      reads collectionFlags, collectionFlags.mem
    {
      seq(size, i requires 0 <= i < size reads collectionFlags, collectionFlags.mem =>
        i < 8 * collectionFlags.mem.Length && collectionFlags.BitIsSet(i))
    }

    function T(): Table<E>
      reads this, collectionFlags, collectionFlags.mem
    {
      Table(table, Gone(), epochFlags)
    }

    function Value(): Cache<E>
      reads this, collectionFlags, collectionFlags.mem
    {
      Cache(T(), epochHeuristicCounter)
    }

    /** `filler` is the element a resized table is filled with. */
    constructor (hash: (E, nat) -> nat, filler: E, depth: nat)
      requires 1 <= depth <= 31
      ensures Valid() && fresh(collectionFlags) && fresh(collectionFlags.mem)
      ensures p.depth == depth && forall e, k: nat :: p.slot(e, k) == And(hash(e, k), Pow2(depth) - 1)
      ensures Value() == Empty(p, filler)
    {
      p := Params((e, k) => And(hash(e, k), Pow2(depth) - 1), depth);
      depthLimit := depth;
      size := Pow2(depth);
      table := seq(Pow2(depth), _ => filler);
      collectionFlags := new BitPackedAtomicFlags(Pow2(depth));
      epochFlags := seq(Pow2(depth), _ => false);
      epochSize := Max(1, 45 * Pow2(depth) % 0x1_0000_0000 / 100);
      epochHeuristicCounter := Max(1, 45 * Pow2(depth) % 0x1_0000_0000 / 100);
      new;
      forall e, k: nat ensures p.slot(e, k) < p.Size() { LowMask(hash(e, k), depth); }
    }

    method AllowErase(n: nat)
      requires Valid() && n < size
      modifies collectionFlags.mem
      ensures Valid() && Gone() == old(Gone())[n := true]
    {
      collectionFlags.BitSet(n);
    }

    method PleaseKeep(n: nat)
      requires Valid() && n < size
      modifies collectionFlags.mem
      ensures Valid() && Gone() == old(Gone())[n := false]
    {
      collectionFlags.BitUnset(n);
    }

    /** How many entries of the current epoch are live. */
    method CountUnused() returns (epochUnusedCount: nat)
      requires Valid()
      ensures epochUnusedCount == Count(T(), true, size)
    {
      epochUnusedCount := 0;
      for i := 0 to size
        invariant epochUnusedCount == Count(T(), true, i)
      {
        if epochFlags[i] && !collectionFlags.BitIsSet(i) { epochUnusedCount := epochUnusedCount + 1; }
      }
    }

    method EpochCheck()
      requires Valid()
      modifies this, collectionFlags.mem
      ensures Valid()
      ensures (T(), epochHeuristicCounter) == CuckooTable.EpochCheck(p, old(T()), old(epochHeuristicCounter))
    {
      ghost var was := T();
      if epochHeuristicCounter != 0 {
        epochHeuristicCounter := epochHeuristicCounter - 1;
        return;
      }
      var epochUnusedCount := CountUnused();
      hide Count;
      if epochUnusedCount >= epochSize {
        AgeAll();
        epochHeuristicCounter := epochSize;
      } else {
        epochHeuristicCounter := Max(1, Max(epochSize / 16, epochSize - epochUnusedCount));
      }
    }

    /** The ageing loop of the epoch check. */
    method AgeAll()
      requires Valid()
      modifies `epochFlags, collectionFlags.mem
      ensures Valid() && T() == Age(old(T()))
    {
      ghost var was := T();
      for i := 0 to size
        invariant Valid() && table == was.slots
        invariant forall j :: 0 <= j < size ==> epochFlags[j] == (i <= j && was.recent[j])
        invariant forall j :: 0 <= j < size ==> Gone()[j] == (was.gone[j] || (j < i && !was.recent[j]))
      {
        if epochFlags[i] {
          epochFlags := epochFlags[i := false];
        } else {
          AllowErase(i);
        }
      }
      assert Gone() == Age(was).gone && epochFlags == Age(was).recent;
    }

    /** The first of the eight probes that finds e. */
    method Probe(e: E) returns (k: nat)
      requires Valid()
      ensures k == Holding(p, T(), e)
    {
      var locs := p.Locs(e);
      k := 0;
      while k < 8 && table[locs[k]] != e
        invariant k <= 8 && forall j :: 0 <= j < k ==> table[locs[j]] != e
      {
        k := k + 1;
      }
      HoldingIs(p, T(), e, k);
    }

    /** The first of the eight slots of e that may be discarded. */
    method ProbeFree(e: E) returns (k: nat)
      requires Valid()
      ensures k == Discardable(p, T(), e)
    {
      var locs := p.Locs(e);
      k := 0;
      while k < 8 && !collectionFlags.BitIsSet(locs[k])
        invariant k <= 8 && forall j :: 0 <= j < k ==> !Gone()[locs[j]]
      {
        k := k + 1;
      }
      DiscardableIs(p, T(), e, k);
    }

    /** The place of `last` among `locs`, or 8. */
    method FindLast(locs: seq<nat>, last: Option<nat>) returns (k: nat)
      requires |locs| == 8
      ensures k == Position(locs, last)
    {
      k := 0;
      while k < 8 && last != Some(locs[k])
        invariant k <= 8 && forall j :: 0 <= j < k ==> last != Some(locs[j])
      {
        k := k + 1;
      }
      PositionIs(locs, last, k);
    }

    method Insert(e: E)
      requires Valid()
      modifies this, collectionFlags.mem
      ensures Valid()
      ensures Value() == Apply(p, old(Value()), InsertOp(e))
    {
      EpochCheck();
      var k := Probe(e);
      if k < 8 {
        PleaseKeep(p.Locs(e)[k]);
        epochFlags := epochFlags[p.Locs(e)[k] := true];
        assert table[p.Locs(e)[k] := e] == table;
        return;
      }
      InsertNew(e);
    }

    method PutAt(loc: nat, e: E, epoch: bool)
      requires Valid() && loc < size
      modifies `table, `epochFlags, collectionFlags.mem
      ensures Valid() && T() == Put(p, old(T()), loc, e, epoch)
    {
      table := table[loc := e];
      PleaseKeep(loc);
      epochFlags := epochFlags[loc := epoch];
    }

    method SwapAt(loc: nat, e: E, epoch: bool) returns (evicted: E, evictedEpoch: bool)
      requires Valid() && loc < size
      modifies `table, `epochFlags
      ensures Valid() && T() == Swap(p, old(T()), loc, e, epoch)
      ensures evicted == old(T()).slots[loc] && evictedEpoch == old(T()).recent[loc]
    {
      evicted, evictedEpoch := table[loc], epochFlags[loc];
      table := table[loc := e];
      epochFlags := epochFlags[loc := epoch];
    }

    /** One pass of the displacement loop. */
    method DisplaceStep(e: E, epoch: bool, lastLoc: Option<nat>, ghost rounds: nat)
      returns (placed: bool, e': E, epoch': bool, lastLoc': Option<nat>)
      requires Valid() && rounds > 0
      modifies `table, `epochFlags, collectionFlags.mem
      ensures Valid()
      ensures placed ==> Displace(p, old(T()), e, epoch, lastLoc, rounds) == (T(), None)
      ensures !placed ==> Displace(p, old(T()), e, epoch, lastLoc, rounds) ==
                          Displace(p, T(), e', epoch', lastLoc', rounds - 1)
    {
      DisplaceOnce(p, T(), e, epoch, lastLoc, rounds);
      e', epoch', lastLoc' := e, epoch, lastLoc;
      var locs := p.Locs(e);
      var free := ProbeFree(e);
      if free < 8 {
        PutAt(locs[free], e, epoch);
        return true, e', epoch', lastLoc';
      }
      var k := FindLast(locs, lastLoc);
      lastLoc' := Some(locs[(1 + k) % 8]);
      e', epoch' := SwapAt(lastLoc'.value, e, epoch);
      placed := false;
    }

    /** The displacement loop of insert. */
    method InsertNew(e: E)
      requires Valid()
      modifies `table, `epochFlags, collectionFlags.mem
      ensures Valid()
      ensures T() == Displace(p, old(T()), e, true, None, depthLimit).0
    {
      hide Displace;
      ghost var goal := Displace(p, T(), e, true, None, depthLimit);
      var lastLoc: Option<nat> := None;
      var held, lastEpoch := e, true;
      var depth := 0;
      ghost var rounds := depthLimit;
      while depth < depthLimit
        invariant depth + rounds == depthLimit && Valid()
        invariant Displace(p, T(), held, lastEpoch, lastLoc, rounds) == goal
      {
        var placed;
        placed, held, lastEpoch, lastLoc := DisplaceStep(held, lastEpoch, lastLoc, rounds);
        if placed { return; }
        depth, rounds := depth + 1, rounds - 1;
      }
      DisplaceNone(p, T(), held, lastEpoch, lastLoc);
    }

    method Contains(e: E, erase: bool) returns (found: bool)
      requires Valid()
      modifies collectionFlags.mem
      ensures Valid()
      ensures found <==> Holding(p, old(T()), e) < 8
      ensures Value() == Apply(p, old(Value()), ContainsOp(e, erase))
    {
      var k := Probe(e);
      if k < 8 && erase { AllowErase(p.Locs(e)[k]); }
      found := k < 8;
    }
  }
}
