/** The cuckoo cache as a value: eight candidate slots an element, a garbage flag and an
    epoch flag a slot, bounded displacement on insertion, lazy erasure and ageing. */
module CuckooTable {
  import opened Basics
  import opened Options
  import opened Bits

  datatype Table<E> = Table(slots: seq<E>, gone: seq<bool>, recent: seq<bool>)

  /** `slot(e, k)` is the k-th masked hash of e; the table has 2^depth slots. */
  datatype Params<!E(!new)> = Params(slot: (E, nat) -> nat, depth: nat) {
    function Size(): (n: nat)
      ensures n > 0
    {
      Pow2(depth)
    }

    ghost predicate InRange() {
      forall e, k :: slot(e, k) < Size()
    }

    function Locs(e: E): (locs: seq<nat>)
      ensures |locs| == 8 && forall k :: 0 <= k < 8 ==> locs[k] == slot(e, k)
    {
      seq(8, (k: nat) requires k < 8 => slot(e, k) as nat)
    }

    /** 45% of the size, computed in 32 bits. */
    function EpochSize(): nat {
      var e := 45 * Size() % 0x1_0000_0000 / 100;
      if e > 1 then e else 1
    }

    ghost predicate Fits(t: Table<E>) {
      InRange() && |t.slots| == |t.gone| == |t.recent| == Size()
    }
  }

  /** The least index at which `b` holds, or |b|. */
  function FirstTrue(b: seq<bool>): (k: nat)
    ensures k <= |b|
    ensures forall i :: 0 <= i < k ==> !b[i]
    ensures k < |b| ==> b[k]
  {
    if b == [] then 0 else if b[0] then 0 else 1 + FirstTrue(b[1..])
  }

  function Holding<E(==,!new)>(p: Params<E>, t: Table<E>, e: E): nat
    requires p.Fits(t)
  {
    var locs := p.Locs(e);
    FirstTrue(seq(8, k requires 0 <= k < 8 => t.slots[locs[k]] == e))
  }

  function Discardable<E(!new)>(p: Params<E>, t: Table<E>, e: E): nat
    requires p.Fits(t)
  {
    var locs := p.Locs(e);
    FirstTrue(seq(8, k requires 0 <= k < 8 => t.gone[locs[k]]))
  }

  /** The slot to swap with: the one after the slot last used, and the second on the
      first round, when no slot has been used. */
  function NextSlot<E(!new)>(p: Params<E>, e: E, last: Option<nat>): (loc: nat)
    ensures loc in p.Locs(e)
    ensures p.InRange() ==> loc < p.Size()
  {
    var locs := p.Locs(e);
    locs[(1 + Position(locs, last)) % 8]
  }

  function Position(locs: seq<nat>, last: Option<nat>): (k: nat)
    ensures k <= |locs|
  {
    FirstTrue(seq(|locs|, k requires 0 <= k < |locs| => last == Some(locs[k])))
  }

  // A loop that stops at the first hit computes these.

  lemma HoldingIs<E(!new)>(p: Params<E>, t: Table<E>, e: E, k: nat)
    requires p.Fits(t) && k <= 8
    requires forall j :: 0 <= j < k ==> t.slots[p.Locs(e)[j]] != e
    requires k < 8 ==> t.slots[p.Locs(e)[k]] == e
    ensures Holding(p, t, e) == k
  {
    var locs := p.Locs(e);
    var b := seq(8, k requires 0 <= k < 8 => t.slots[locs[k]] == e);
    assert Holding(p, t, e) == FirstTrue(b);
    assert forall j :: 0 <= j < k ==> !b[j];
    assert k < |b| ==> b[k];
  }

  lemma DiscardableIs<E(!new)>(p: Params<E>, t: Table<E>, e: E, k: nat)
    requires p.Fits(t) && k <= 8
    requires forall j :: 0 <= j < k ==> !t.gone[p.Locs(e)[j]]
    requires k < 8 ==> t.gone[p.Locs(e)[k]]
    ensures Discardable(p, t, e) == k
  {
    var locs := p.Locs(e);
    var b := seq(8, k requires 0 <= k < 8 => t.gone[locs[k]]);
    assert Discardable(p, t, e) == FirstTrue(b);
    assert forall j :: 0 <= j < k ==> !b[j];
    assert k < |b| ==> b[k];
  }

  lemma PositionIs(locs: seq<nat>, last: Option<nat>, k: nat)
    requires k <= |locs|
    requires forall j :: 0 <= j < k ==> last != Some(locs[j])
    requires k < |locs| ==> last == Some(locs[k])
    ensures Position(locs, last) == k
  {
    var b := seq(|locs|, k requires 0 <= k < |locs| => last == Some(locs[k]));
    assert Position(locs, last) == FirstTrue(b);
    assert forall j :: 0 <= j < k ==> !b[j];
    assert k < |b| ==> b[k];
  }

  function Put<E(!new)>(p: Params<E>, t: Table<E>, loc: nat, e: E, epoch: bool): Table<E>
    requires p.Fits(t) && loc < p.Size()
  {
    Table(t.slots[loc := e], t.gone[loc := false], t.recent[loc := epoch])
  }

  function Swap<E(!new)>(p: Params<E>, t: Table<E>, loc: nat, e: E, epoch: bool): Table<E>
    requires p.Fits(t) && loc < p.Size()
  {
    Table(t.slots[loc := e], t.gone, t.recent[loc := epoch])
  }

  type Dropped<E> = Option<(E, bool)>

  /** At most `rounds` displacements, holding `e` of epoch `epoch`. */
  function Displace<E(!new)>(p: Params<E>, t: Table<E>, e: E, epoch: bool, last: Option<nat>, rounds: nat)
    : (Table<E>, Dropped<E>)
    requires p.Fits(t)
    decreases rounds
  {
    if rounds == 0 then (t, Some((e, epoch))) else
      var k := Discardable(p, t, e);
      if k < 8 then (Put(p, t, p.Locs(e)[k], e, epoch), None) else
        var loc := NextSlot(p, e, last);
        Displace(p, Swap(p, t, loc, e, epoch), t.slots[loc], t.recent[loc], Some(loc), rounds - 1)
  }

  lemma DisplaceNone<E(!new)>(p: Params<E>, t: Table<E>, e: E, epoch: bool, last: Option<nat>)
    requires p.Fits(t)
    ensures Displace(p, t, e, epoch, last, 0) == (t, Some((e, epoch)))
  {
  }

  lemma DisplaceOnce<E(!new)>(p: Params<E>, t: Table<E>, e: E, epoch: bool, last: Option<nat>, rounds: nat)
    requires p.Fits(t) && rounds > 0
    ensures Discardable(p, t, e) < 8 ==>
              Displace(p, t, e, epoch, last, rounds) == (Put(p, t, p.Locs(e)[Discardable(p, t, e)], e, epoch), None)
    ensures Discardable(p, t, e) >= 8 ==> var loc := NextSlot(p, e, last);
              Displace(p, t, e, epoch, last, rounds) ==
              Displace(p, Swap(p, t, loc, e, epoch), t.slots[loc], t.recent[loc], Some(loc), rounds - 1)
  {
  }

  /** Insertion, after the epoch check. */
  function Insert<E(==,!new)>(p: Params<E>, t: Table<E>, e: E): (Table<E>, Dropped<E>)
    requires p.Fits(t)
  {
    var k := Holding(p, t, e);
    if k < 8 then
      var loc := p.Locs(e)[k];
      (Put(p, t, loc, e, true), None)
    else
      Displace(p, t, e, true, None, p.depth)
  }

  function Erase<E(==,!new)>(p: Params<E>, t: Table<E>, e: E): Table<E>
    requires p.Fits(t)
  {
    var k := Holding(p, t, e);
    if k < 8 then t.(gone := t.gone[p.Locs(e)[k] := true]) else t
  }

  /** How many of the first n slots are live and of the given epoch. */
  function Count<E>(t: Table<E>, epoch: bool, n: nat): (c: nat)
    requires n <= |t.slots| == |t.gone| == |t.recent|
    ensures c <= n
  {
    if n == 0 then 0 else Count(t, epoch, n - 1) + if !t.gone[n - 1] && t.recent[n - 1] == epoch then 1 else 0
  }

  function Age<E>(t: Table<E>): Table<E>
    requires |t.slots| == |t.gone| == |t.recent|
  {
    Table(t.slots,
          seq(|t.gone|, i requires 0 <= i < |t.gone| => t.gone[i] || !t.recent[i]),
          seq(|t.recent|, _ => false))
  }

  function EpochCheck<E(!new)>(p: Params<E>, t: Table<E>, counter: nat): (Table<E>, nat)
    requires p.Fits(t)
  {
    if counter != 0 then (t, counter - 1) else
      var unused := Count(t, true, p.Size());
      if unused >= p.EpochSize() then (Age(t), p.EpochSize())
      else (t, Max(1, Max(p.EpochSize() / 16, p.EpochSize() - unused)))
  }

  // ---------- elements are conserved ----------

  function Bit(b: bool): nat { if b then 1 else 0 }

  /** How many of the first n slots hold the pair x = (element, epoch) live. */
  function Copies<E(==)>(t: Table<E>, x: (E, bool), n: nat): nat
    requires n <= |t.slots| == |t.gone| == |t.recent|
  {
    if n == 0 then 0 else Copies(t, x, n - 1) + CopyAt(t, x, n - 1)
  }

  function CopyAt<E(==)>(t: Table<E>, x: (E, bool), i: nat): nat
    requires i < |t.slots| == |t.gone| == |t.recent|
  {
    Bit(!t.gone[i] && (t.slots[i], t.recent[i]) == x)
  }

  ghost predicate SameBut<E>(t: Table<E>, t': Table<E>, i: nat) {
    && |t.slots| == |t.gone| == |t.recent| == |t'.slots| == |t'.gone| == |t'.recent|
    && forall j :: 0 <= j < |t.slots| && j != i ==>
         t.slots[j] == t'.slots[j] && t.gone[j] == t'.gone[j] && t.recent[j] == t'.recent[j]
  }

  lemma {:induction false} CopiesChange<E>(t: Table<E>, t': Table<E>, x: (E, bool), i: nat, n: nat)
    requires SameBut(t, t', i) && i < |t.slots| && n <= |t.slots|
    ensures Copies(t', x, n) + (if i < n then CopyAt(t, x, i) else 0) ==
            Copies(t, x, n) + (if i < n then CopyAt(t', x, i) else 0)
  {
    if n > 0 { CopiesChange(t, t', x, i, n - 1); }
  }

  lemma AllKept<E(!new)>(p: Params<E>, t: Table<E>, e: E, loc: nat)
    requires p.Fits(t) && Discardable(p, t, e) == 8 && loc in p.Locs(e)
    ensures loc < p.Size() && !t.gone[loc]
  {
    var locs := p.Locs(e);
    var k :| 0 <= k < 8 && locs[k] == loc;
    var b := seq(8, j requires 0 <= j < 8 => t.gone[locs[j]]);
    assert !b[k];
  }

  lemma FreeSlot<E(!new)>(p: Params<E>, t: Table<E>, e: E)
    requires p.Fits(t) && Discardable(p, t, e) < 8
    ensures t.gone[p.Locs(e)[Discardable(p, t, e)]]
  {
  }

  lemma PutConserves<E(!new)>(p: Params<E>, t: Table<E>, e: E, epoch: bool, x: (E, bool))
    requires p.Fits(t) && Discardable(p, t, e) < 8
    ensures var t' := Put(p, t, p.Locs(e)[Discardable(p, t, e)], e, epoch);
            p.Fits(t') && Copies(t', x, p.Size()) == Copies(t, x, p.Size()) + Bit((e, epoch) == x)
  {
    var loc := p.Locs(e)[Discardable(p, t, e)];
    FreeSlot(p, t, e);
    CopiesChange(t, Put(p, t, loc, e, epoch), x, loc, p.Size());
    hide Copies;
  }

  lemma SwapConserves<E(!new)>(p: Params<E>, t: Table<E>, e: E, epoch: bool, loc: nat, x: (E, bool))
    requires p.Fits(t) && Discardable(p, t, e) == 8 && loc in p.Locs(e)
    ensures loc < p.Size()
    ensures var t' := Swap(p, t, loc, e, epoch);
            && p.Fits(t')
            && Copies(t', x, p.Size()) + Bit((t.slots[loc], t.recent[loc]) == x)
               == Copies(t, x, p.Size()) + Bit((e, epoch) == x)
  {
    AllKept(p, t, e, loc);
    CopiesChange(t, Swap(p, t, loc, e, epoch), x, loc, p.Size());
    hide Copies;
  }

  /** The loop of displacements neither loses nor makes up a live pair, but for the one it
      holds when it gives up. */
  lemma {:induction false} DisplaceConserves<E(!new)>(p: Params<E>, t: Table<E>, e: E, epoch: bool, last: Option<nat>,
                                                      rounds: nat, x: (E, bool))
    requires p.Fits(t)
    ensures var (t', dropped) := Displace(p, t, e, epoch, last, rounds);
            && p.Fits(t')
            && Copies(t', x, p.Size()) + Bit(dropped == Some(x)) == Copies(t, x, p.Size()) + Bit((e, epoch) == x)
    decreases rounds
  {
    hide Displace, Copies, Put, Swap;
    if rounds == 0 {
      DisplaceNone(p, t, e, epoch, last);
    } else {
      DisplaceOnce(p, t, e, epoch, last, rounds);
      if Discardable(p, t, e) < 8 {
        PutConserves(p, t, e, epoch, x);
      } else {
        var loc := NextSlot(p, e, last);
        SwapConserves(p, t, e, epoch, loc, x);
        DisplaceConserves(p, Swap(p, t, loc, e, epoch), t.slots[loc], t.recent[loc], Some(loc), rounds - 1, x);
      }
    }
  }

  /** A new element: the live pairs plus the new one are the live pairs afterwards plus at
      most the one that is dropped. */
  lemma InsertConserves<E(!new)>(p: Params<E>, t: Table<E>, e: E, x: (E, bool))
    requires p.Fits(t) && Holding(p, t, e) == 8
    ensures var (t', dropped) := Insert(p, t, e);
            && p.Fits(t')
            && Copies(t', x, p.Size()) + Bit(dropped == Some(x)) == Copies(t, x, p.Size()) + Bit((e, true) == x)
  {
    DisplaceConserves(p, t, e, true, None, p.depth, x);
  }

  /** An element found in the table: its pair becomes live and recent, nothing else moves. */
  lemma ReinsertConserves<E(!new)>(p: Params<E>, t: Table<E>, e: E, x: (E, bool))
    requires p.Fits(t) && Holding(p, t, e) < 8
    ensures var (t', dropped) := Insert(p, t, e);
            && p.Fits(t') && dropped == None && t'.slots == t.slots
            && Copies(t', x, p.Size()) + CopyAt(t, x, p.Locs(e)[Holding(p, t, e)]) ==
               Copies(t, x, p.Size()) + Bit((e, true) == x)
  {
    var loc := p.Locs(e)[Holding(p, t, e)];
    CopiesChange(t, Put(p, t, loc, e, true), x, loc, p.Size());
  }

  /** Nothing is dropped while a slot of the element itself is free. */
  lemma RoomMeansNoDrop<E(!new)>(p: Params<E>, t: Table<E>, e: E)
    requires p.Fits(t) && p.depth >= 1 && Discardable(p, t, e) < 8
    ensures var (t', dropped) := Insert(p, t, e); dropped == None && e in t'.slots
  {
    var t' := Insert(p, t, e).0;
    if Holding(p, t, e) < 8 {
      assert t'.slots[p.Locs(e)[Holding(p, t, e)]] == e;
    } else {
      assert t'.slots[p.Locs(e)[Discardable(p, t, e)]] == e;
    }
  }

  // ---------- where elements are ----------

  /** Every element other than the filler sits at one of its own slots, and only once. */
  ghost predicate Placed<E(!new)>(p: Params<E>, t: Table<E>, filler: E)
    requires p.Fits(t)
  {
    && (forall i :: 0 <= i < p.Size() && t.slots[i] != filler ==> i in p.Locs(t.slots[i]))
    && (forall i, j :: 0 <= i < j < p.Size() && t.slots[i] == t.slots[j] ==> t.slots[i] == filler)
  }

  lemma HoldingIff<E(!new)>(p: Params<E>, t: Table<E>, e: E)
    requires p.Fits(t)
    ensures Holding(p, t, e) < 8 <==> exists k :: 0 <= k < 8 && t.slots[p.Locs(e)[k]] == e
    ensures Holding(p, t, e) < 8 ==> t.slots[p.Locs(e)[Holding(p, t, e)]] == e
  {
    var locs := p.Locs(e);
    var b := seq(8, k requires 0 <= k < 8 => t.slots[locs[k]] == e);
    assert forall k :: 0 <= k < 8 ==> b[k] == (t.slots[locs[k]] == e);
  }

  /** Eight probes see exactly what a scan of the whole table sees. */
  lemma ProbesAgreeWithScan<E(!new)>(p: Params<E>, t: Table<E>, filler: E, e: E)
    requires p.Fits(t) && Placed(p, t, filler) && e != filler
    ensures Holding(p, t, e) < 8 <==> e in t.slots
  {
    HoldingIff(p, t, e);
    if e in t.slots {
      var i :| 0 <= i < p.Size() && t.slots[i] == e;
      var k :| 0 <= k < 8 && p.Locs(e)[k] == i;
      assert t.slots[p.Locs(e)[k]] == e;
    }
  }

  /** Writing an absent element into one of its own slots keeps the order. */
  lemma WritePlaces<E(!new)>(p: Params<E>, t: Table<E>, t': Table<E>, filler: E, e: E, loc: nat)
    requires p.Fits(t) && Placed(p, t, filler) && (e != filler ==> e !in t.slots)
    requires p.Fits(t') && loc < p.Size() && loc in p.Locs(e) && t'.slots == t.slots[loc := e]
    ensures Placed(p, t', filler)
    ensures forall x :: x in t'.slots ==> x == e || x in t.slots
    ensures t.slots[loc] != filler && t.slots[loc] != e ==> t.slots[loc] !in t'.slots
  {
    forall i, j | 0 <= i < j < p.Size() && t'.slots[i] == t'.slots[j]
      ensures t'.slots[i] == filler
    {
      if i != loc && j != loc {
        assert t.slots[i] == t.slots[j];
      }
    }
  }

  lemma {:induction false} DisplacePlaces<E(!new)>(p: Params<E>, t: Table<E>, filler: E, e: E, epoch: bool,
                                                   last: Option<nat>, rounds: nat)
    requires p.Fits(t) && Placed(p, t, filler) && (e != filler ==> e !in t.slots)
    ensures var t' := Displace(p, t, e, epoch, last, rounds).0;
            && p.Fits(t') && Placed(p, t', filler)
            && forall x :: x in t'.slots ==> x == e || x in t.slots
    decreases rounds
  {
    if rounds == 0 {
    } else if Discardable(p, t, e) < 8 {
      var loc := p.Locs(e)[Discardable(p, t, e)];
      WritePlaces(p, t, Put(p, t, loc, e, epoch), filler, e, loc);
    } else {
      var loc := NextSlot(p, e, last);
      var t1 := Swap(p, t, loc, e, epoch);
      WritePlaces(p, t, t1, filler, e, loc);
      assert t.slots[loc] in t.slots;
      DisplacePlaces(p, t1, filler, t.slots[loc], t.recent[loc], Some(loc), rounds - 1);
    }
  }

  /** Insertion keeps every element findable and brings in no element but its own. */
  lemma InsertPlaces<E(!new)>(p: Params<E>, t: Table<E>, filler: E, e: E)
    requires p.Fits(t) && Placed(p, t, filler)
    ensures var t' := Insert(p, t, e).0;
            && p.Fits(t') && Placed(p, t', filler)
            && forall x :: x in t'.slots ==> x == e || x in t.slots
  {
    HoldingIff(p, t, e);
    if e != filler { ProbesAgreeWithScan(p, t, filler, e); }
    if Holding(p, t, e) == 8 {
      DisplacePlaces(p, t, filler, e, true, None, p.depth);
    } else {
      assert Insert(p, t, e).0.slots == t.slots;
    }
  }

  lemma {:induction false} NoCopies<E>(t: Table<E>, x: (E, bool), n: nat)
    requires n <= |t.slots| == |t.gone| == |t.recent| && x.0 !in t.slots
    ensures Copies(t, x, n) == 0
  {
    if n > 0 {
      assert t.slots[n - 1] in t.slots;
      NoCopies(t, x, n - 1);
    }
  }

  lemma {:induction false} SomeCopy<E>(t: Table<E>, i: nat, n: nat)
    requires i < n <= |t.slots| == |t.gone| == |t.recent| && !t.gone[i]
    ensures Copies(t, (t.slots[i], t.recent[i]), n) > 0
  {
    if i < n - 1 { SomeCopy(t, i, n - 1); }
  }

  /** Displacement leaves a discardable slot as it is, or fills it. */
  lemma {:induction false} DisplaceGone<E(!new)>(p: Params<E>, t: Table<E>, e: E, epoch: bool, last: Option<nat>,
                                                 rounds: nat)
    requires p.Fits(t)
    ensures var t' := Displace(p, t, e, epoch, last, rounds).0;
            && p.Fits(t')
            && forall i :: 0 <= i < p.Size() && t'.gone[i] ==> t.gone[i] && t'.slots[i] == t.slots[i]
    decreases rounds
  {
    if rounds > 0 && Discardable(p, t, e) == 8 {
      var loc := NextSlot(p, e, last);
      AllKept(p, t, e, loc);
      DisplaceGone(p, Swap(p, t, loc, e, epoch), t.slots[loc], t.recent[loc], Some(loc), rounds - 1);
    }
  }

  /** An element just inserted is found if and only if it is not itself the one that was
      dropped. */
  lemma InsertFinds<E(!new)>(p: Params<E>, t: Table<E>, filler: E, e: E)
    requires p.Fits(t) && Placed(p, t, filler) && e != filler
    ensures var (t', dropped) := Insert(p, t, e);
            p.Fits(t') && (Holding(p, t', e) < 8 <==> dropped != Some((e, true)))
  {
    var t' := Insert(p, t, e).0;
    InsertPlaces(p, t, filler, e);
    ProbesAgreeWithScan(p, t', filler, e);
    if Holding(p, t, e) < 8 {
      ReinsertConserves(p, t, e, (e, true));
      HoldingIff(p, t, e);
    } else {
      ProbesAgreeWithScan(p, t, filler, e);
      NewElementFinds(p, t, e);
    }
    hide Insert, Holding, Placed;
  }

  lemma NewElementFinds<E(!new)>(p: Params<E>, t: Table<E>, e: E)
    requires p.Fits(t) && Holding(p, t, e) == 8 && e !in t.slots
    ensures var (t', dropped) := Insert(p, t, e); e in t'.slots <==> dropped != Some((e, true))
  {
    var t' := Insert(p, t, e).0;
    DisplaceGone(p, t, e, true, None, p.depth);
    forall epoch: bool ensures Copies(t, (e, epoch), p.Size()) == 0 { NoCopies(t, (e, epoch), p.Size()); }
    InsertConserves(p, t, e, (e, true));
    InsertConserves(p, t, e, (e, false));
    if e in t'.slots {
      var i :| 0 <= i < p.Size() && t'.slots[i] == e;
      assert !t'.gone[i];
      SomeCopy(t', i, p.Size());
      assert (t'.slots[i], t'.recent[i]) == if t'.recent[i] then (e, true) else (e, false);
    } else {
      NoCopies(t', (e, true), p.Size());
    }
    hide Displace, Holding;
  }

  // ---------- how full an epoch can become ----------

  function CountAt<E>(t: Table<E>, epoch: bool, i: nat): nat
    requires i < |t.slots| == |t.gone| == |t.recent|
  {
    Bit(!t.gone[i] && t.recent[i] == epoch)
  }

  lemma {:induction false} CountChange<E>(t: Table<E>, t': Table<E>, epoch: bool, i: nat, n: nat)
    requires SameBut(t, t', i) && i < |t.slots| && n <= |t.slots|
    ensures Count(t', epoch, n) + (if i < n then CountAt(t, epoch, i) else 0) ==
            Count(t, epoch, n) + (if i < n then CountAt(t', epoch, i) else 0)
  {
    if n > 0 { CountChange(t, t', epoch, i, n - 1); }
  }

  lemma PutCounts<E(!new)>(p: Params<E>, t: Table<E>, e: E, epoch: bool, r: bool)
    requires p.Fits(t) && Discardable(p, t, e) < 8
    ensures Count(Put(p, t, p.Locs(e)[Discardable(p, t, e)], e, epoch), r, p.Size()) ==
            Count(t, r, p.Size()) + Bit(epoch == r)
  {
    var loc := p.Locs(e)[Discardable(p, t, e)];
    assert t.gone[loc];
    CountChange(t, Put(p, t, loc, e, epoch), r, loc, p.Size());
  }

  lemma SwapCounts<E(!new)>(p: Params<E>, t: Table<E>, e: E, epoch: bool, loc: nat, r: bool)
    requires p.Fits(t) && loc < p.Size() && !t.gone[loc]
    ensures Count(Swap(p, t, loc, e, epoch), r, p.Size()) + Bit(t.recent[loc] == r) ==
            Count(t, r, p.Size()) + Bit(epoch == r)
  {
    CountChange(t, Swap(p, t, loc, e, epoch), r, loc, p.Size());
  }

  lemma {:induction false} DisplaceCounts<E(!new)>(p: Params<E>, t: Table<E>, e: E, epoch: bool, last: Option<nat>,
                                                   rounds: nat, r: bool)
    requires p.Fits(t)
    ensures var t' := Displace(p, t, e, epoch, last, rounds).0;
            p.Fits(t') && Count(t', r, p.Size()) <= Count(t, r, p.Size()) + Bit(epoch == r)
    decreases rounds
  {
    if rounds == 0 {
    } else if Discardable(p, t, e) < 8 {
      PutCounts(p, t, e, epoch, r);
    } else {
      var loc := NextSlot(p, e, last);
      AllKept(p, t, e, loc);
      SwapCounts(p, t, e, epoch, loc, r);
      DisplaceCounts(p, Swap(p, t, loc, e, epoch), t.slots[loc], t.recent[loc], Some(loc), rounds - 1, r);
    }
  }

  lemma InsertCounts<E(!new)>(p: Params<E>, t: Table<E>, e: E)
    requires p.Fits(t)
    ensures var t' := Insert(p, t, e).0;
            && p.Fits(t')
            && Count(t', true, p.Size()) <= Count(t, true, p.Size()) + 1
            && Count(t', false, p.Size()) <= Count(t, false, p.Size())
  {
    var k := Holding(p, t, e);
    if k < 8 {
      var loc := p.Locs(e)[k];
      CountChange(t, Put(p, t, loc, e, true), true, loc, p.Size());
      CountChange(t, Put(p, t, loc, e, true), false, loc, p.Size());
    } else {
      DisplaceCounts(p, t, e, true, None, p.depth, true);
      DisplaceCounts(p, t, e, true, None, p.depth, false);
    }
  }

  lemma EraseCounts<E(!new)>(p: Params<E>, t: Table<E>, e: E, r: bool)
    requires p.Fits(t)
    ensures p.Fits(Erase(p, t, e)) && Count(Erase(p, t, e), r, p.Size()) <= Count(t, r, p.Size())
  {
    var k := Holding(p, t, e);
    if k < 8 { CountChange(t, Erase(p, t, e), r, p.Locs(e)[k], p.Size()); }
  }

  lemma {:induction false} AgeCounts<E>(t: Table<E>, n: nat)
    requires n <= |t.slots| == |t.gone| == |t.recent|
    ensures Count(Age(t), true, n) == 0
    ensures Count(Age(t), false, n) == Count(t, true, n)
  {
    if n > 0 { AgeCounts(t, n - 1); }
  }

  // ---------- whole runs ----------

  datatype Cache<E> = Cache(table: Table<E>, counter: nat)

  datatype Op<E> = InsertOp(e: E) | ContainsOp(e: E, erase: bool)

  function Empty<E(!new)>(p: Params<E>, filler: E): Cache<E> {
    Cache(Table(seq(p.Size(), _ => filler), seq(p.Size(), _ => true), seq(p.Size(), _ => false)), p.EpochSize())
  }

  function Apply<E(==,!new)>(p: Params<E>, c: Cache<E>, op: Op<E>): Cache<E>
    requires p.Fits(c.table)
  {
    match op
    case InsertOp(e) =>
      var (t, counter) := EpochCheck(p, c.table, c.counter);
      Cache(Insert(p, t, e).0, counter)
    case ContainsOp(e, erase) => if erase then c.(table := Erase(p, c.table, e)) else c
  }

  function Bound<E(!new)>(p: Params<E>): nat { p.EpochSize() + Max(1, p.EpochSize() / 16) }

  /** The bounded measure: live recent slots plus the inserts left before the next scan. */
  ghost predicate Bounded<E(!new)>(p: Params<E>, c: Cache<E>)
    requires p.Fits(c.table)
  {
    && Count(c.table, true, p.Size()) + c.counter <= Bound(p)
    && Count(c.table, false, p.Size()) <= Bound(p)
  }

  ghost predicate Inv<E(!new)>(p: Params<E>, c: Cache<E>, filler: E, inserted: set<E>) {
    && p.Fits(c.table)
    && Placed(p, c.table, filler)
    && (forall x :: x in c.table.slots ==> x == filler || x in inserted)
    && Bounded(p, c)
  }

  lemma {:induction false} EmptyCount<E(!new)>(p: Params<E>, filler: E, r: bool, n: nat)
    requires n <= p.Size()
    ensures Count(Empty(p, filler).table, r, n) == 0
  {
    if n > 0 { EmptyCount(p, filler, r, n - 1); }
  }

  lemma EmptyInv<E(!new)>(p: Params<E>, filler: E)
    requires p.InRange()
    ensures Inv(p, Empty(p, filler), filler, {})
  {
    EmptyCount(p, filler, true, p.Size());
    EmptyCount(p, filler, false, p.Size());
  }

  lemma EpochCheckBounded<E(!new)>(p: Params<E>, c: Cache<E>)
    requires p.Fits(c.table) && Bounded(p, c)
    ensures var (t, counter) := EpochCheck(p, c.table, c.counter);
            && p.Fits(t) && t.slots == c.table.slots
            && Count(t, true, p.Size()) + counter < Bound(p)
            && Count(t, false, p.Size()) <= Bound(p)
  {
    if c.counter == 0 { AgeCounts(c.table, p.Size()); }
  }

  lemma StepInv<E(!new)>(p: Params<E>, c: Cache<E>, filler: E, inserted: set<E>, op: Op<E>)
    requires Inv(p, c, filler, inserted)
    ensures Inv(p, Apply(p, c, op), filler, inserted + (if op.InsertOp? then {op.e} else {}))
  {
    match op
    case InsertOp(e) =>
      EpochCheckBounded(p, c);
      var t := EpochCheck(p, c.table, c.counter).0;
      InsertPlaces(p, t, filler, e);
      InsertCounts(p, t, e);
    case ContainsOp(e, erase) =>
      EraseCounts(p, c.table, e, true);
      EraseCounts(p, c.table, e, false);
  }

  function Run<E(==,!new)>(p: Params<E>, c: Cache<E>, ops: seq<Op<E>>): Cache<E>
    requires p.Fits(c.table)
    decreases |ops|
  {
    if ops == [] then c else
      StepFits(p, c, ops[0]);
      Run(p, Apply(p, c, ops[0]), ops[1..])
  }

  lemma StepFits<E(!new)>(p: Params<E>, c: Cache<E>, op: Op<E>)
    requires p.Fits(c.table)
    ensures p.Fits(Apply(p, c, op).table)
  {
    match op
    case InsertOp(e) =>
      var t := EpochCheck(p, c.table, c.counter).0;
      InsertCounts(p, t, e);
    case ContainsOp(e, erase) =>
  }

  ghost function Inserted<E>(ops: seq<Op<E>>): set<E> {
    set i | 0 <= i < |ops| && ops[i].InsertOp? :: ops[i].e
  }

  /** After any run, from a cache in order: every element is where the probes look, none
      was made up, and neither epoch holds more than its bound. */
  lemma {:induction false} RunInv<E(!new)>(p: Params<E>, c: Cache<E>, filler: E, inserted: set<E>, ops: seq<Op<E>>)
    requires Inv(p, c, filler, inserted)
    ensures Inv(p, Run(p, c, ops), filler, inserted + Inserted(ops))
    decreases |ops|
  {
    if ops == [] {
      assert inserted + Inserted(ops) == inserted;
    } else {
      var more := inserted + if ops[0].InsertOp? then {ops[0].e} else {};
      StepInv(p, c, filler, inserted, ops[0]);
      RunInv(p, Apply(p, c, ops[0]), filler, more, ops[1..]);
      var rest := ops[1..];
      forall x | x in more + Inserted(rest)
        ensures x in inserted + Inserted(ops)
      {
        if x in Inserted(rest) {
          var i :| 0 <= i < |rest| && rest[i].InsertOp? && rest[i].e == x;
          assert ops[i + 1] == rest[i];
        }
      }
    }
  }

  /** With at least 32 slots there is always one to discard. */
  lemma AlwaysRoom<E(!new)>(p: Params<E>, c: Cache<E>)
    requires p.Fits(c.table) && Bounded(p, c)
    requires 32 <= p.Size()
    ensures true in c.table.gone
  {
    if true !in c.table.gone { AllLive(c.table, p.Size()); }
  }

  lemma {:induction false} AllLive<E>(t: Table<E>, n: nat)
    requires n <= |t.slots| == |t.gone| == |t.recent| && true !in t.gone
    ensures Count(t, true, n) + Count(t, false, n) == n
  {
    if n > 0 { AllLive(t, n - 1); }
  }
}
